/** The guard between velocity commands and the robot's sport requests. */
module CmdVelToSports {
  /** A floating-point value as it may arrive in a message. */
  datatype Double = Finite(v: real) | PosInf | NegInf | NaN {
    predicate Less(o: Double) {
      match (this, o)
      case (Finite(a), Finite(b)) => a < b
      case (NegInf, _) => o.Finite? || o.PosInf?
      case (Finite(_), PosInf) => true
      case _ => false
    }

    predicate AtMost(limit: real) { (Finite? && v <= limit) || NegInf? }

    /** std::clamp between -limit and limit. */
    function Clamp(limit: real): Double {
      if Less(Finite(-limit)) then Finite(-limit) else if Finite(limit).Less(this) then Finite(limit) else this
    }

    function Abs(): Double {
      match this
      case Finite(a) => Finite(if a < 0.0 then -a else a)
      case NegInf => PosInf
      case _ => this
    }
  }

  /** A clamped value is within the limit exactly when the input is a number. */
  lemma ClampWithinIff(d: Double, limit: real)
    requires 0.0 < limit
    ensures (d.Clamp(limit).Finite? && -limit <= d.Clamp(limit).v <= limit) <==> !d.NaN?
  {
  }

  /** r is the admissible value nearest to d: d itself if it is a number within the limit, else the limit on
      its side. */
  ghost predicate Nearest(d: Double, limit: real, r: Double) {
    match d
    case Finite(v) => r == if limit < v then Finite(limit) else if v < -limit then Finite(-limit) else d
    case PosInf => r == Finite(limit)
    case NegInf => r == Finite(-limit)
    case NaN => r == NaN
  }

  datatype Params = Params(cmdTimeout: real, maxVx: real, maxVy: real, maxVyaw: real, odomTimeout: real,
                           localizationTimeout: real, minConfidence: real, maxAbsPosition: real, maxAbsZ: real,
                           maxOdomJump: real, requireLocalization: bool)
  {
    /** What the constructor insists on. */
    predicate Ok() {
      && 0.0 < cmdTimeout && 0.0 < maxVx && 0.0 < maxVy && 0.0 < maxVyaw && 0.0 < odomTimeout
      && 0.0 < localizationTimeout && 0.0 < maxAbsPosition && 0.0 < maxAbsZ && 0.0 < maxOdomJump
    }
  }

  datatype Event =
    | Command(vx: Double, vy: Double, vyaw: Double, time: real)
    | Odometry(x: Double, y: Double, z: Double, time: real)
    | Confidence(value: Double, time: real)
    | Tick(time: real)

  datatype Request = Move(vx: Double, vy: Double, vyaw: Double) | StopMove

  datatype Position = Position(x: real, y: real, z: real)

  function Dist2(a: Position, b: Position): real {
    (a.x - b.x) * (a.x - b.x) + (a.y - b.y) * (a.y - b.y) + (a.z - b.z) * (a.z - b.z)
  }

  function Clamped(p: Params, e: Event): (r: Request)
    requires e.Command?
    ensures r.Move?
  {
    Move(e.vx.Clamp(p.maxVx), e.vy.Clamp(p.maxVy), e.vyaw.Clamp(p.maxVyaw))
  }

  /** Each velocity of a request is the admissible value nearest to that of the command on the same axis. */
  lemma ClampedIsNearest(p: Params, e: Event)
    requires p.Ok() && e.Command?
    ensures var m := Clamped(p, e);
      Nearest(e.vx, p.maxVx, m.vx) && Nearest(e.vy, p.maxVy, m.vy) && Nearest(e.vyaw, p.maxVyaw, m.vyaw)
  {
  }

  /** A reading with finite coordinates inside the permitted box. */
  predicate Plausible(p: Params, e: Event)
    requires e.Odometry?
  {
    && e.x.Finite? && e.y.Finite? && e.z.Finite?
    && e.x.Abs().AtMost(p.maxAbsPosition) && e.y.Abs().AtMost(p.maxAbsPosition) && e.z.Abs().AtMost(p.maxAbsZ)
  }

  /** Three finite coordinates, none farther from zero than permitted. */
  lemma PlausibleIff(p: Params, e: Event)
    requires e.Odometry?
    ensures Plausible(p, e) <==>
            && e.x.Finite? && -p.maxAbsPosition <= e.x.v <= p.maxAbsPosition
            && e.y.Finite? && -p.maxAbsPosition <= e.y.v <= p.maxAbsPosition
            && e.z.Finite? && -p.maxAbsZ <= e.z.v <= p.maxAbsZ
  {
  }

  function PositionOf(e: Event): Position
    requires e.Odometry? && e.x.Finite? && e.y.Finite? && e.z.Finite?
  {
    Position(e.x.v, e.y.v, e.z.v)
  }

  predicate Confident(p: Params, e: Event)
    requires e.Confidence?
  {
    e.value.Finite? && p.minConfidence <= e.value.v
  }

  /** The bridge's fields, with the requests it has sent. */
  datatype State = State(cmd: Request, lastCmdTime: real, haveCmd: bool, stopSent: bool,
                         odomReceived: bool, odomValid: bool, haveValidOdom: bool, lastOdom: Position,
                         lastOdomTime: real, localizationReceived: bool, localizationValid: bool,
                         lastLocalizationTime: real, sent: seq<Request>)
  {
    function OnOdometry(p: Params, e: Event): State
      requires e.Odometry?
    {
      var dt := e.time - lastOdomTime;
      var valid := Plausible(p, e)
                   && (haveValidOdom && 0.0 < dt < 1.0 ==>
                       Dist2(PositionOf(e), lastOdom) <= p.maxOdomJump * p.maxOdomJump);
      this.(odomReceived := true, odomValid := valid, lastOdomTime := e.time,
            haveValidOdom := haveValidOdom || valid, lastOdom := if valid then PositionOf(e) else lastOdom)
    }

    predicate SafetyReady(p: Params, now: real) {
      && odomReceived && odomValid && now - lastOdomTime <= p.odomTimeout
      && (p.requireLocalization ==>
            localizationReceived && localizationValid && now - lastLocalizationTime <= p.localizationTimeout)
    }

    /** stopSent tells whether the last request was a stop, or there was none. */
    predicate StopRecorded() { stopSent == (sent == [] || sent[|sent| - 1].StopMove?) }

    function PublishStop(): State { this.(sent := sent + [StopMove], stopSent := true) }

    function OnTick(p: Params, now: real): State {
      if !haveCmd then this
      else if !SafetyReady(p, now) || now - lastCmdTime > p.cmdTimeout then if stopSent then this else PublishStop()
      else this.(sent := sent + [cmd], stopSent := false)
    }

    function Next(p: Params, e: Event): State {
      match e
      case Command(_, _, _, time) => this.(cmd := Clamped(p, e), lastCmdTime := time, haveCmd := true)
      case Odometry(_, _, _, _) => OnOdometry(p, e)
      case Confidence(_, time) =>
        this.(localizationReceived := true, localizationValid := Confident(p, e), lastLocalizationTime := time)
      case Tick(now) => OnTick(p, now)
    }
  }

  const START := State(Move(Finite(0.0), Finite(0.0), Finite(0.0)), 0.0, false, true, false, false, false,
                       Position(0.0, 0.0, 0.0), 0.0, false, false, 0.0, [])

  /** The state after the first n events of a history. */
  function At(p: Params, h: seq<Event>, n: nat): State
    requires n <= |h|
  {
    if n == 0 then START else At(p, h, n - 1).Next(p, h[n - 1])
  }

  // What a history says, without the bridge: the latest event of each kind before n, or -1.

  function LastCommand(h: seq<Event>, n: nat): (i: int)
    requires n <= |h|
    ensures -1 <= i < n && (0 <= i ==> h[i].Command?)
  {
    if n == 0 then -1 else if h[n - 1].Command? then n - 1 else LastCommand(h, n - 1)
  }

  function LastConfidence(h: seq<Event>, n: nat): (i: int)
    requires n <= |h|
    ensures -1 <= i < n && (0 <= i ==> h[i].Confidence?)
  {
    if n == 0 then -1 else if h[n - 1].Confidence? then n - 1 else LastConfidence(h, n - 1)
  }

  function LastReading(h: seq<Event>, n: nat): (i: int)
    requires n <= |h|
    ensures -1 <= i < n && (0 <= i ==> h[i].Odometry?)
    ensures forall j :: i < j < n ==> !h[j].Odometry?
  {
    if n == 0 then -1 else if h[n - 1].Odometry? then n - 1 else LastReading(h, n - 1)
  }

  /** The reading follows the previous one by no time at all or by at least a second. */
  predicate AfterGap(h: seq<Event>, o: nat)
    requires o < |h|
  {
    var r := LastReading(h, o);
    r < 0 || h[o].time <= h[r].time || 1.0 <= h[o].time - h[r].time
  }

  /** A reading counts when it is plausible and is the first to count, follows a gap, or is within the
      permitted jump of the last one that counted. */
  predicate Accepted(p: Params, h: seq<Event>, o: nat)
    requires o < |h|
    decreases o, 1
  {
    && h[o].Odometry? && Plausible(p, h[o])
    && var a := LastAccepted(p, h, o);
       a < 0 || AfterGap(h, o) || Dist2(PositionOf(h[o]), PositionOf(h[a])) <= p.maxOdomJump * p.maxOdomJump
  }

  function LastAccepted(p: Params, h: seq<Event>, n: nat): (i: int)
    requires n <= |h|
    ensures -1 <= i < n && (0 <= i ==> h[i].Odometry? && Plausible(p, h[i]))
    ensures forall j :: i < j < n ==> !Accepted(p, h, j)
    decreases n, 0
  {
    if n == 0 then -1 else if Accepted(p, h, n - 1) then n - 1 else LastAccepted(p, h, n - 1)
  }

  /** At time now, before event n: the command is fresh, the latest reading counts and is fresh, and so
      is the confidence where it is required. */
  predicate MayMove(p: Params, h: seq<Event>, n: nat, now: real)
    requires n <= |h|
  {
    var c, r, l := LastCommand(h, n), LastReading(h, n), LastConfidence(h, n);
    && 0 <= c && now - h[c].time <= p.cmdTimeout
    && 0 <= r && Accepted(p, h, r) && now - h[r].time <= p.odomTimeout
    && (p.requireLocalization ==>
          && 0 <= l && h[l].value.Finite? && p.minConfidence <= h[l].value.v
          && now - h[l].time <= p.localizationTimeout)
  }

  /** The command fields hold the latest command, clamped. */
  ghost predicate TellsCommand(p: Params, h: seq<Event>, c: int, s: State)
    requires c < |h| && (0 <= c ==> h[c].Command?)
  {
    && s.haveCmd == (0 <= c) && (0 <= c ==> s.cmd == Clamped(p, h[c]) && s.lastCmdTime == h[c].time)
    && s.StopRecorded()
  }

  /** The odometry fields hold the latest reading's verdict and the last position that counted. */
  ghost predicate TellsReading(p: Params, h: seq<Event>, r: int, a: int, s: State)
    requires a <= r < |h| && (0 <= a ==> h[a].Odometry? && Plausible(p, h[a]))
  {
    && s.odomReceived == (0 <= r) && (0 <= r ==> s.odomValid == Accepted(p, h, r) && s.lastOdomTime == h[r].time)
    && s.haveValidOdom == (0 <= a) && (0 <= a ==> s.lastOdom == PositionOf(h[a]))
  }

  ghost predicate TellsConfidence(p: Params, h: seq<Event>, l: int, s: State)
    requires l < |h| && (0 <= l ==> h[l].Confidence?)
  {
    && s.localizationReceived == (0 <= l)
    && (0 <= l ==> s.localizationValid == Confident(p, h[l]) && s.lastLocalizationTime == h[l].time)
  }

  /** The fields hold exactly what the history says. */
  ghost predicate Tells(p: Params, h: seq<Event>, n: nat, s: State)
    requires n <= |h|
  {
    AcceptedBefore(p, h, n);
    && TellsCommand(p, h, LastCommand(h, n), s)
    && TellsReading(p, h, LastReading(h, n), LastAccepted(p, h, n), s)
    && TellsConfidence(p, h, LastConfidence(h, n), s)
  }

  lemma AcceptedBefore(p: Params, h: seq<Event>, n: nat)
    requires n <= |h|
    ensures LastAccepted(p, h, n) <= LastReading(h, n)
  {
  }

  lemma OthersStay(p: Params, h: seq<Event>, n: nat)
    requires n < |h|
    ensures !h[n].Command? ==> LastCommand(h, n + 1) == LastCommand(h, n)
    ensures !h[n].Confidence? ==> LastConfidence(h, n + 1) == LastConfidence(h, n)
    ensures !h[n].Odometry? ==> LastReading(h, n + 1) == LastReading(h, n)
    ensures !h[n].Odometry? ==> LastAccepted(p, h, n + 1) == LastAccepted(p, h, n)
    ensures h[n].Command? ==> LastCommand(h, n + 1) == n
    ensures h[n].Confidence? ==> LastConfidence(h, n + 1) == n
    ensures h[n].Odometry? ==> LastReading(h, n + 1) == n
    ensures h[n].Odometry? ==> LastAccepted(p, h, n + 1) == if Accepted(p, h, n) then n else LastAccepted(p, h, n)
  {
  }

  lemma StepTells(p: Params, h: seq<Event>, n: nat, s: State)
    requires n < |h| && Tells(p, h, n, s)
    ensures Tells(p, h, n + 1, s.Next(p, h[n]))
  {
    if h[n].Odometry? {
      ReadingTells(p, h, n, s);
    } else {
      OtherTells(p, h, n, s);
    }
  }

  lemma ReadingTells(p: Params, h: seq<Event>, n: nat, s: State)
    requires n < |h| && h[n].Odometry? && Tells(p, h, n, s)
    ensures Tells(p, h, n + 1, s.Next(p, h[n]))
  {
  }

  lemma OtherTells(p: Params, h: seq<Event>, n: nat, s: State)
    requires n < |h| && !h[n].Odometry? && Tells(p, h, n, s)
    ensures Tells(p, h, n + 1, s.Next(p, h[n]))
  {
    AcceptedBefore(p, h, n);
    OthersStay(p, h, n);
    CommandTells(p, h, n, s);
    ConfidenceTells(p, h, n, s);
    ReadingStays(p, h, n, LastReading(h, n), LastAccepted(p, h, n), s);
    hide LastCommand, LastConfidence, LastAccepted, LastReading, Accepted, TellsCommand, TellsConfidence, TellsReading,
      Plausible, Clamped, Confident, State.Next;
  }

  lemma ReadingStays(p: Params, h: seq<Event>, n: nat, r: int, a: int, s: State)
    requires n < |h| && !h[n].Odometry? && a <= r < |h| && (0 <= a ==> h[a].Odometry? && Plausible(p, h[a]))
    requires TellsReading(p, h, r, a, s)
    ensures TellsReading(p, h, r, a, s.Next(p, h[n]))
  {
    hide Plausible, Accepted, Clamped, Confident, State.SafetyReady;
  }

  lemma CommandTells(p: Params, h: seq<Event>, n: nat, s: State)
    requires n < |h| && !h[n].Odometry? && TellsCommand(p, h, LastCommand(h, n), s)
    ensures TellsCommand(p, h, LastCommand(h, n + 1), s.Next(p, h[n]))
  {
    hide Clamped, Confident, State.StopRecorded;
    if h[n].Tick? {
      TickRecords(p, s, h[n].time);
      hide State.OnTick;
    } else {
      assert s.Next(p, h[n]).StopRecorded() by {
        SameRecord(s, s.Next(p, h[n]));
      }
    }
  }

  lemma SameRecord(s: State, t: State)
    requires s.StopRecorded() && t.sent == s.sent && t.stopSent == s.stopSent
    ensures t.StopRecorded()
  {
  }

  lemma TickRecords(p: Params, s: State, now: real)
    requires s.StopRecorded() && (s.haveCmd ==> s.cmd.Move?)
    ensures s.OnTick(p, now).StopRecorded()
    ensures var t := s.OnTick(p, now);
      t.haveCmd == s.haveCmd && t.cmd == s.cmd && t.lastCmdTime == s.lastCmdTime
  {
  }

  lemma ConfidenceTells(p: Params, h: seq<Event>, n: nat, s: State)
    requires n < |h| && !h[n].Odometry? && TellsConfidence(p, h, LastConfidence(h, n), s)
    ensures TellsConfidence(p, h, LastConfidence(h, n + 1), s.Next(p, h[n]))
  {
    hide Clamped, Confident, State.SafetyReady;
  }

  lemma {:induction false} StateTells(p: Params, h: seq<Event>, n: nat)
    requires n <= |h|
    ensures Tells(p, h, n, At(p, h, n))
  {
    if n != 0 {
      StateTells(p, h, n - 1);
      hide Tells;
      StepTells(p, h, n - 1, At(p, h, n - 1));
    }
  }

  /** What each event sends, told from the history alone: a tick before any command sends nothing; one
      that may move sends the latest command, clamped; any other sends a stop exactly when the last
      request was a move. No other event sends anything. */
  lemma EventSends(p: Params, h: seq<Event>, n: nat)
    requires n < |h|
    ensures var (sent, c) := (At(p, h, n).sent, LastCommand(h, n));
      At(p, h, n + 1).sent ==
      if !h[n].Tick? || c < 0 then sent
      else if MayMove(p, h, n, h[n].time) then sent + [Clamped(p, h[c])]
      else if sent != [] && sent[|sent| - 1].Move? then sent + [StopMove]
      else sent
  {
    hide Dist2, Plausible, LastCommand, LastConfidence, LastAccepted, LastReading, Accepted, Clamped;
    StateTells(p, h, n);
  }

  /** The requests form runs of moves, each followed by at most one stop, and start with a move. */
  ghost predicate StopsOnce(sent: seq<Request>) {
    && (sent != [] ==> sent[0].Move?)
    && forall k :: 0 <= k < |sent| - 1 ==> sent[k].Move? || sent[k + 1].Move?
  }

  lemma {:induction false} SentStopsOnce(p: Params, h: seq<Event>, n: nat)
    requires n <= |h|
    ensures StopsOnce(At(p, h, n).sent)
  {
    if n != 0 {
      SentStopsOnce(p, h, n - 1);
      EventSends(p, h, n - 1);
    }
  }

  /** A move's velocities are within the limits, axis by axis, except where the command held no number. */
  ghost predicate WithinLimits(p: Params, m: Request) {
    m.Move? ==>
      && (m.vx.NaN? || (m.vx.Finite? && -p.maxVx <= m.vx.v <= p.maxVx))
      && (m.vy.NaN? || (m.vy.Finite? && -p.maxVy <= m.vy.v <= p.maxVy))
      && (m.vyaw.NaN? || (m.vyaw.Finite? && -p.maxVyaw <= m.vyaw.v <= p.maxVyaw))
  }

  ghost predicate HasNumbers(m: Request) { m.Move? ==> !m.vx.NaN? && !m.vy.NaN? && !m.vyaw.NaN? }

  lemma ClampedWithinLimits(p: Params, e: Event)
    requires p.Ok() && e.Command?
    ensures WithinLimits(p, Clamped(p, e))
    ensures HasNumbers(Clamped(p, e)) <==> !e.vx.NaN? && !e.vy.NaN? && !e.vyaw.NaN?
  {
  }

  /** No command before n held a value that is not a number. */
  ghost predicate NumbersOnly(h: seq<Event>, n: nat)
    requires n <= |h|
  {
    forall i :: 0 <= i < n && h[i].Command? ==> !h[i].vx.NaN? && !h[i].vy.NaN? && !h[i].vyaw.NaN?
  }

  /** Every request is within the limits, and holds numbers if all commands did. */
  lemma {:induction false} SentWithinLimits(p: Params, h: seq<Event>, n: nat)
    requires p.Ok() && n <= |h|
    ensures forall k :: 0 <= k < |At(p, h, n).sent| ==> WithinLimits(p, At(p, h, n).sent[k])
    ensures NumbersOnly(h, n) ==> forall k :: 0 <= k < |At(p, h, n).sent| ==> HasNumbers(At(p, h, n).sent[k])
  {
    hide State.Next, MayMove, Clamped, WithinLimits, HasNumbers;
    if n != 0 {
      SentWithinLimits(p, h, n - 1);
      EventSends(p, h, n - 1);
      hide At;
      var c := LastCommand(h, n - 1);
      if 0 <= c {
        ClampedWithinLimits(p, h[c]);
      }
      StopWithinLimits(p);
    }
  }

  lemma StopWithinLimits(p: Params)
    ensures WithinLimits(p, StopMove) && HasNumbers(StopMove)
  {
  }

  /** After a reading that did not count, a move needs a later one that does: the first such one comes
      back within the permitted jump of the last position that counted before, or follows a gap. */
  lemma MoveAfterJump(p: Params, h: seq<Event>, o: nat, n: nat) returns (back: nat)
    requires o < n < |h| && h[o].Odometry? && !Accepted(p, h, o) && MayMove(p, h, n, h[n].time)
    ensures o < back < n && Accepted(p, h, back) && forall j :: o <= j < back ==> !Accepted(p, h, j)
    ensures var a := LastAccepted(p, h, o);
      a < 0 || AfterGap(h, back)
      || var (u, v) := (PositionOf(h[back]), PositionOf(h[a]));
         (u.x - v.x) * (u.x - v.x) + (u.y - v.y) * (u.y - v.y) + (u.z - v.z) * (u.z - v.z)
         <= p.maxOdomJump * p.maxOdomJump
  {
    hide Plausible, MayMove, AfterGap;
    var r := LatestCounts(p, h, n);
    back := FirstAccepted(p, h, o, r);
    NoneAcceptedBetween(p, h, o, back);
  }

  lemma LatestCounts(p: Params, h: seq<Event>, n: nat) returns (r: nat)
    requires n < |h| && MayMove(p, h, n, h[n].time)
    ensures r < n && Accepted(p, h, r) && forall j :: r < j < n ==> !h[j].Odometry?
  {
    r := LastReading(h, n);
  }

  lemma {:induction false} FirstAccepted(p: Params, h: seq<Event>, o: nat, r: nat) returns (back: nat)
    requires o < r < |h| && !Accepted(p, h, o) && Accepted(p, h, r)
    ensures o < back <= r && Accepted(p, h, back) && forall j :: o <= j < back ==> !Accepted(p, h, j)
    decreases r - o
  {
    if Accepted(p, h, o + 1) {
      back := o + 1;
    } else {
      back := FirstAccepted(p, h, o + 1, r);
    }
  }

  lemma {:induction false} NoneAcceptedBetween(p: Params, h: seq<Event>, o: nat, n: nat)
    requires o <= n <= |h| && forall j :: o <= j < n ==> !Accepted(p, h, j)
    ensures LastAccepted(p, h, n) == LastAccepted(p, h, o)
  {
    if o < n {
      NoneAcceptedBetween(p, h, o, n - 1);
    }
  }

  /** A jump within no time counts: two readings of one time, farther apart than the permitted jump, and
      the robot is sent on. */
  lemma JumpInNoTime(p: Params) returns (h: seq<Event>)
    requires p.Ok() && p.maxOdomJump < 2.0 * p.maxAbsPosition && !p.requireLocalization
    ensures |h| == 4 && h[0].Odometry? && h[1].Odometry? && h[0].time == h[1].time
    ensures Accepted(p, h, 0) && Accepted(p, h, 1)
    ensures Dist2(PositionOf(h[1]), PositionOf(h[0])) > p.maxOdomJump * p.maxOdomJump
    ensures At(p, h, 3).sent == [] && |At(p, h, 4).sent| == 1 && At(p, h, 4).sent[0].Move?
  {
    var far, none := p.maxAbsPosition, Finite(0.0);
    h := [Odometry(Finite(-far), none, none, 1.0), Odometry(Finite(far), none, none, 1.0),
          Command(none, none, none, 1.0), Tick(1.0)];
    SquareGrows(p.maxOdomJump, 2.0 * far);
    assert LastReading(h, 0) == -1 && LastAccepted(p, h, 0) == -1 && Accepted(p, h, 0);
    assert LastReading(h, 1) == 0 && LastAccepted(p, h, 1) == 0 && Accepted(p, h, 1);
    assert LastReading(h, 2) == LastReading(h, 3) == 1 && LastCommand(h, 3) == 2;
    assert MayMove(p, h, 3, 1.0);
    hide Dist2;
    EventSends(p, h, 0);
    EventSends(p, h, 1);
    EventSends(p, h, 2);
    EventSends(p, h, 3);
  }

  lemma SquareGrows(a: real, b: real)
    requires 0.0 < a < b
    ensures a * a < b * b
  {
    assert a * a < a * b < b * b;
  }

  /** The gap is counted from the latest reading of any kind: while no reading follows a gap and all stay away
      from the last position that counted, none of them counts, however long that takes. */
  lemma {:induction false} JumpNotForgotten(p: Params, h: seq<Event>, a: nat, n: nat)
    requires a < n <= |h| && Accepted(p, h, a)
    requires forall o :: a < o < n && h[o].Odometry? && Plausible(p, h[o]) ==>
      !AfterGap(h, o) && Dist2(PositionOf(h[o]), PositionOf(h[a])) > p.maxOdomJump * p.maxOdomJump
    ensures LastAccepted(p, h, n) == a
  {
    hide Dist2, Plausible, AfterGap;
    if a + 1 < n {
      JumpNotForgotten(p, h, a, n - 1);
    }
  }

  class CmdVelToSport {
    const params: Params
    var latestCmd: Request
    var lastCmdTime: real
    var haveCmd: bool
    var stopSent: bool
    var odomReceived: bool
    var odomValid: bool
    var haveValidOdom: bool
    var lastOdom: Position
    var lastOdomTime: real
    var localizationReceived: bool
    var localizationValid: bool
    var lastLocalizationTime: real
    var sent: seq<Request>

    constructor (params: Params)
      requires params.Ok()
      ensures this.params == params && Snapshot() == START
    {
      this.params := params;
      latestCmd, lastCmdTime, haveCmd, stopSent := START.cmd, 0.0, false, true;
      odomReceived, odomValid, haveValidOdom, lastOdom, lastOdomTime := false, false, false, START.lastOdom, 0.0;
      localizationReceived, localizationValid, lastLocalizationTime, sent := false, false, 0.0, [];
    }

    function Snapshot(): State
      reads this
    {
      State(latestCmd, lastCmdTime, haveCmd, stopSent, odomReceived, odomValid, haveValidOdom, lastOdom, lastOdomTime,
            localizationReceived, localizationValid, lastLocalizationTime, sent)
    }

    method CmdVelCallback(msg: Event)
      requires msg.Command?
      modifies this
      ensures Snapshot() == old(Snapshot()).Next(params, msg)
    {
      latestCmd := Move(msg.vx.Clamp(params.maxVx), msg.vy.Clamp(params.maxVy), msg.vyaw.Clamp(params.maxVyaw));
      lastCmdTime := msg.time;
      haveCmd := true;
    }

    method OdomCallback(msg: Event)
      requires msg.Odometry?
      modifies this
      ensures Snapshot() == old(Snapshot()).Next(params, msg)
    {
      var valid := Plausible(params, msg);
      if valid && haveValidOdom {
        var dt := msg.time - lastOdomTime;
        if 0.0 < dt && dt < 1.0 && Dist2(PositionOf(msg), lastOdom) > params.maxOdomJump * params.maxOdomJump {
          valid := false;
        }
      }
      odomReceived := true;
      odomValid := valid;
      lastOdomTime := msg.time;
      if valid {
        haveValidOdom := true;
        lastOdom := PositionOf(msg);
      }
    }

    method LocalizationCallback(msg: Event)
      requires msg.Confidence?
      modifies this
      ensures Snapshot() == old(Snapshot()).Next(params, msg)
    {
      localizationReceived := true;
      localizationValid := Confident(params, msg);
      lastLocalizationTime := msg.time;
    }

    method SafetyReady(now: real) returns (ready: bool)
      ensures ready == Snapshot().SafetyReady(params, now)
    {
      if !odomReceived || !odomValid || now - lastOdomTime > params.odomTimeout {
        return false;
      }
      if params.requireLocalization
         && (!localizationReceived || !localizationValid || now - lastLocalizationTime > params.localizationTimeout) {
        return false;
      }
      ready := true;
    }

    method PublishCommand(now: real)
      modifies this
      ensures Snapshot() == old(Snapshot()).Next(params, Tick(now))
    {
      if !haveCmd {
        return;
      }
      var ready := SafetyReady(now);
      if !ready {
        if !stopSent {
          PublishStop();
        }
        return;
      }
      if now - lastCmdTime > params.cmdTimeout {
        if !stopSent {
          PublishStop();
        }
        return;
      }
      sent := sent + [latestCmd];
      stopSent := false;
    }

    method PublishStop()
      modifies this
      ensures Snapshot() == old(Snapshot()).PublishStop()
    {
      sent := sent + [StopMove];
      stopSent := true;
    }
  }
}
