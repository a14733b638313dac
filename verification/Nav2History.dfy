/** What the Nav2 bridge does with each event, told from the history of messages alone. */
module Nav2Histories {
  import opened Nav2ScanBridges

  /** The latest goal before event n, or -1. */
  ghost function LastGoal(h: seq<Event>, n: nat): (i: int)
    requires n <= |h|
    ensures -1 <= i < n && (0 <= i ==> h[i].GoalMessage?) && forall j :: i < j < n ==> !h[j].GoalMessage?
  {
    if n == 0 then -1 else if h[n - 1].GoalMessage? then n - 1 else LastGoal(h, n - 1)
  }

  /** There is a goal and it has not been reached since. */
  ghost predicate Active(h: seq<Event>, n: nat)
    requires n <= |h|
  {
    0 <= LastGoal(h, n) && forall j :: LastGoal(h, n) < j < n ==> !(h[j].Tick? && h[j].reached)
  }

  /** Event n asks the planner for a path: a goal does if the planner is ready; a tick does if moreover there is a
      goal still to be reached, no answer for it is awaited, and its last request, if any, is a period old. */
  ghost predicate Asks(h: seq<Event>, n: nat, period: real)
    requires n < |h|
    decreases n, 2
  {
    match h[n]
    case GoalMessage(_, ready, _) => ready
    case Tick(reached, ready, now) =>
      && ready && !reached && Active(h, n) && !Awaited(h, n, period)
      && var a := LastAsk(h, n, period);
         a < LastGoal(h, n) || Time(h[a]) == 0.0 || period <= now - Time(h[a])
    case _ => false
  }

  /** The latest event before n that asked, or -1. */
  ghost function LastAsk(h: seq<Event>, n: nat, period: real): (i: int)
    requires n <= |h|
    ensures -1 <= i < n && (0 <= i ==> h[i].GoalMessage? || h[i].Tick?)
    decreases n, 0
  {
    if n == 0 then -1 else if Asks(h, n - 1, period) then n - 1 else LastAsk(h, n - 1, period)
  }

  /** How many events before n asked: the number of the next request. */
  ghost function AskCount(h: seq<Event>, n: nat, period: real): nat
    requires n <= |h|
    decreases n, 0
  {
    if n == 0 then 0 else AskCount(h, n - 1, period) + if Asks(h, n - 1, period) then 1 else 0
  }

  ghost function Time(e: Event): real
    requires e.GoalMessage? || e.Tick?
  {
    e.now
  }

  ghost predicate Replies(e: Event, id: nat) { (e.Rejection? && e.id == id) || (e.Answer? && e.id == id) }

  /** The latest request is for the latest goal and has had no reply. */
  ghost predicate Awaited(h: seq<Event>, n: nat, period: real)
    requires n <= |h|
    decreases n, 1
  {
    var a := LastAsk(h, n, period);
    0 <= a && LastGoal(h, n) <= a && forall j :: a < j < n ==> !Replies(h[j], AskCount(h, a, period))
  }

  /** The bridge's fields hold what the history says. */
  ghost predicate Tells(h: seq<Event>, n: nat, period: real, s: State)
    requires n <= |h|
  {
    var (g, a) := (LastGoal(h, n), LastAsk(h, n, period));
    && s.Valid() && s.goalActive == Active(h, n) && s.nextId == AskCount(h, n, period)
    && (0 <= g ==> s.goal == h[g].goal)
    && (Active(h, n) ==>
          && s.planning == Awaited(h, n, period)
          && (Awaited(h, n, period) ==> s.Current(AskCount(h, a, period)))
          && s.lastRequest == if g <= a then Time(h[a]) else 0.0)
  }

  /** Event n is the answer awaited for a goal still to be reached, with a plan that can be transformed and thins to
      at least two waypoints. */
  ghost predicate Publishes(h: seq<Event>, n: nat, period: real, spacing: real)
    requires n < |h|
  {
    && h[n].Answer? && Active(h, n) && Awaited(h, n, period) && h[n].id == AskCount(h, LastAsk(h, n, period), period)
    && h[n].outcome.Planned? && h[n].outcome.transformed
    && 2 <= |h[n].outcome.poses| && 2 <= |Kept(h[n].outcome.poses, spacing)|
  }

  lemma ActiveNext(h: seq<Event>, n: nat)
    requires n < |h|
    ensures Active(h, n + 1) <==> h[n].GoalMessage? || (Active(h, n) && !(h[n].Tick? && h[n].reached))
    ensures LastGoal(h, n + 1) == if h[n].GoalMessage? then n else LastGoal(h, n)
  {
    var g := LastGoal(h, n);
    if !h[n].GoalMessage? && Active(h, n + 1) {
      assert forall j :: g < j < n ==> !(h[j].Tick? && h[j].reached);
    }
  }

  lemma AwaitedNext(h: seq<Event>, n: nat, period: real)
    requires n < |h|
    ensures var a := LastAsk(h, n, period);
      Awaited(h, n + 1, period) <==>
      || Asks(h, n, period)
      || (!h[n].GoalMessage? && Awaited(h, n, period) && !Replies(h[n], AskCount(h, a, period)))
    ensures LastAsk(h, n + 1, period) == if Asks(h, n, period) then n else LastAsk(h, n, period)
    ensures AskCount(h, n + 1, period) == AskCount(h, n, period) + if Asks(h, n, period) then 1 else 0
  {
    hide Asks, AskCount;
    var a, x := LastAsk(h, n, period), LastAsk(h, n + 1, period);
    assert AskCount(h, n + 1, period) == AskCount(h, n, period) + if Asks(h, n, period) then 1 else 0 by {
      CountNext(h, n, period);
    }
    if !Asks(h, n, period) && Awaited(h, n + 1, period) {
      assert forall j :: a < j < n ==> !Replies(h[j], AskCount(h, a, period));
      assert !Replies(h[n], AskCount(h, a, period));
    }
  }

  lemma CountNext(h: seq<Event>, n: nat, period: real)
    requires n < |h|
    ensures AskCount(h, n + 1, period) == AskCount(h, n, period) + if Asks(h, n, period) then 1 else 0
  {
  }

  lemma GoalTells(h: seq<Event>, n: nat, period: real, spacing: real, s: State)
    requires n < |h| && h[n].GoalMessage? && Tells(h, n, period, s)
    ensures Tells(h, n + 1, period, s.Next(h[n], period, spacing))
  {
    NextKeepsValid(s, h[n], period, spacing);
    ActiveNext(h, n);
    AwaitedNext(h, n, period);
    assert Asks(h, n, period) <==> h[n].ready;
    hide State.Valid, Active, Awaited, Asks, LastAsk, LastGoal, AskCount;
  }

  lemma TickTells(h: seq<Event>, n: nat, period: real, spacing: real, s: State)
    requires n < |h| && h[n].Tick? && Tells(h, n, period, s)
    ensures Tells(h, n + 1, period, s.Next(h[n], period, spacing))
  {
    NextKeepsValid(s, h[n], period, spacing);
    ActiveNext(h, n);
    AwaitedNext(h, n, period);
    TickAsks(h, n, period, s);
    hide State.Valid, Active, Awaited, Asks, LastAsk, LastGoal, AskCount;
  }

  lemma TickAsks(h: seq<Event>, n: nat, period: real, s: State)
    requires n < |h| && h[n].Tick? && Tells(h, n, period, s)
    ensures Asks(h, n, period) <==>
            && s.goalActive && !h[n].reached && !s.planning && h[n].ready
            && (s.lastRequest == 0.0 || h[n].now - s.lastRequest >= period)
  {
    hide State.Valid, Active, Awaited, LastAsk, LastGoal, AskCount;
  }

  lemma ReplyTells(h: seq<Event>, n: nat, period: real, spacing: real, s: State)
    requires n < |h| && (h[n].Rejection? || h[n].Answer?) && Tells(h, n, period, s) && s.Possible(h[n])
    ensures Tells(h, n + 1, period, s.Next(h[n], period, spacing))
  {
    NextKeepsValid(s, h[n], period, spacing);
    ActiveNext(h, n);
    AwaitedNext(h, n, period);
    assert !Asks(h, n, period);
    ReplyIsCurrent(h, n, period, s);
    hide Publishable, State.Valid, Active, Awaited, Asks, LastAsk, LastGoal, AskCount;
  }

  /** While the goal is active, a reply is for the current goal exactly when it is the one awaited. */
  lemma ReplyIsCurrent(h: seq<Event>, n: nat, period: real, s: State)
    requires n < |h| && (h[n].Rejection? || h[n].Answer?) && Tells(h, n, period, s) && s.Possible(h[n])
    ensures Active(h, n) ==>
      (s.open[h[n].id].sequence == s.sequence <==>
       Awaited(h, n, period) && Replies(h[n], AskCount(h, LastAsk(h, n, period), period)))
  {
    hide Active, Awaited, Asks, LastAsk, LastGoal, AskCount;
    assert s.Current(h[n].id) <==> s.open[h[n].id].sequence == s.sequence;
  }

  /** What each event does, told from the history alone: it asks the planner, under the next number and for the
      latest goal, exactly when Asks says so, and publishes the thinned plan exactly when Publishes says so. */
  lemma EventDoes(h: seq<Event>, n: nat, period: real, spacing: real, s: State)
    requires n < |h| && Tells(h, n, period, s) && s.Possible(h[n])
    ensures var t := s.Next(h[n], period, spacing);
      && t.nextId == s.nextId + (if Asks(h, n, period) then 1 else 0)
      && (Asks(h, n, period) ==> s.nextId in t.open && t.open[s.nextId].goal == h[LastGoal(h, n + 1)].goal)
      && if !Publishes(h, n, period, spacing) then t.published == s.published
         else
           var poses := h[n].outcome.poses;
           && |t.published| == |s.published| + 1 && t.published[..|s.published|] == s.published
           && var p := t.published[|s.published|];
              p.goal == h[LastGoal(h, n)].goal && p.poses == poses && p.scan == Select(poses, Kept(poses, spacing))
  {
    ActiveNext(h, n);
    match h[n]
    case GoalMessage(_, _, _) =>
    case Tick(_, _, _) => TickAsks(h, n, period, s);
    case Rejection(_) =>
    case Answer(_, _) => ReplyIsCurrent(h, n, period, s);
  }

  lemma EventTells(h: seq<Event>, n: nat, period: real, spacing: real, s: State)
    requires n < |h| && Tells(h, n, period, s) && s.Possible(h[n])
    ensures Tells(h, n + 1, period, s.Next(h[n], period, spacing))
  {
    match h[n]
    case GoalMessage(_, _, _) => GoalTells(h, n, period, spacing, s);
    case Tick(_, _, _) => TickTells(h, n, period, spacing, s);
    case Rejection(_) => ReplyTells(h, n, period, spacing, s);
    case Answer(_, _) => ReplyTells(h, n, period, spacing, s);
  }

  lemma {:induction false} RunsOn(s: State, run: seq<Event>, e: Event, period: real, spacing: real)
    requires Runs(s, run + [e], period, spacing)
    ensures Runs(s, run, period, spacing) && End(s, run, period, spacing).Possible(e)
    ensures End(s, run + [e], period, spacing) == End(s, run, period, spacing).Next(e, period, spacing)
    decreases |run|
  {
    var all := run + [e];
    if run != [] {
      assert all[1..] == run[1..] + [e];
      RunsOn(s.Next(run[0], period, spacing), run[1..], e, period, spacing);
    } else {
      assert all[1..] == [];
    }
  }

  /** After every run the fields hold what its history says. */
  lemma {:induction false} RunTells(h: seq<Event>, n: nat, period: real, spacing: real)
    requires n <= |h| && Runs(START, h[..n], period, spacing)
    ensures Tells(h, n, period, End(START, h[..n], period, spacing))
  {
    if n != 0 {
      assert h[..n] == h[..n - 1] + [h[n - 1]];
      RunsOn(START, h[..n - 1], h[n - 1], period, spacing);
      RunTells(h, n - 1, period, spacing);
      EventTells(h, n - 1, period, spacing, End(START, h[..n - 1], period, spacing));
    } else {
      NothingTells(h, period);
    }
  }

  lemma NothingTells(h: seq<Event>, period: real)
    ensures Tells(h, 0, period, START)
  {
  }
}
