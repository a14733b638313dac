/** The wake-up protocol between the threads that store Livox packets and the one that publishes them. */
module LivoxWakeup {
  /** Where a lidar's storing thread stands: about to write a packet, to test its queue for emptiness,
      to read the semaphore's count, or to signal. */
  datatype Producer<P> = Idle | Storing(packet: P) | Stored | Counting | Signalling

  /** The publishing thread waits on the semaphore or drains the queues from one lidar on. */
  datatype Consumer = Waiting | Draining(lidar: nat)

  /** The shared state of the driver, with what has been stored and taken out so far. */
  datatype State<P> = State(queues: seq<seq<P>>, producers: seq<Producer<P>>, count: nat, consumer: Consumer,
                            stored: seq<seq<P>>, taken: seq<seq<P>>)
  {
    function Lidars(): nat { |queues| }

    predicate Ok() {
      && |queues| == |producers| == |stored| == |taken|
      && (consumer.Draining? ==> consumer.lidar < |queues|)
    }
  }

  /** One step of one thread. */
  datatype Step<P> =
    | Arrive(lidar: nat, packet: P)
    | Store(lidar: nat)
    | TestEmpty(lidar: nat)
    | ReadCount(lidar: nat)
    | Signal(lidar: nat)
    | Wake
    | Pop
    | NextLidar

  /** How many packets a queue may hold; the IMU queues are not bounded. */
  datatype Bound = Unbounded | AtMost(size: nat)

  predicate IsFull<P>(b: Bound, q: seq<P>) { b.AtMost? && b.size <= |q| }

  function Initial<P>(lidars: nat): (s: State<P>)
    ensures s.Ok() && s.Lidars() == lidars
  {
    var none: seq<seq<P>> := seq(lidars, _ => []);
    State(none, seq(lidars, _ => Idle), 0, Waiting, none, none)
  }

  predicate Enabled<P>(s: State<P>, e: Step<P>)
    requires s.Ok()
  {
    match e
    case Arrive(i, _) => i < s.Lidars() && s.producers[i].Idle?
    case Store(i) => i < s.Lidars() && s.producers[i].Storing?
    case TestEmpty(i) => i < s.Lidars() && s.producers[i].Stored?
    case ReadCount(i) => i < s.Lidars() && s.producers[i].Counting?
    case Signal(i) => i < s.Lidars() && s.producers[i].Signalling?
    case Wake => s.consumer.Waiting? && 0 < s.count
    case Pop => s.consumer.Draining? && s.queues[s.consumer.lidar] != []
    case NextLidar => s.consumer.Draining? && s.queues[s.consumer.lidar] == []
  }

  function From<P>(s: State<P>, lidar: nat): Consumer {
    if lidar < s.Lidars() then Draining(lidar) else Waiting
  }

  function Next<P>(b: Bound, s: State<P>, e: Step<P>): (t: State<P>)
    requires s.Ok() && Enabled(s, e)
    ensures t.Ok() && t.Lidars() == s.Lidars()
  {
    match e
    case Arrive(i, p) => s.(producers := s.producers[i := if IsFull(b, s.queues[i]) then Counting else Storing(p)])
    case Store(i) =>
      var p := s.producers[i].packet;
      s.(queues := s.queues[i := s.queues[i] + [p]], stored := s.stored[i := s.stored[i] + [p]],
         producers := s.producers[i := Stored])
    case TestEmpty(i) => s.(producers := s.producers[i := if s.queues[i] != [] then Counting else Idle])
    case ReadCount(i) => s.(producers := s.producers[i := if s.count == 0 then Signalling else Idle])
    case Signal(i) => s.(producers := s.producers[i := Idle], count := s.count + 1)
    case Wake => s.(count := s.count - 1, consumer := From(s, 0))
    case Pop =>
      var i := s.consumer.lidar;
      s.(queues := s.queues[i := s.queues[i][1..]], taken := s.taken[i := s.taken[i] + [s.queues[i][0]]])
    case NextLidar => s.(consumer := From(s, s.consumer.lidar + 1))
  }

  /** A run: each step enabled where it is taken. */
  ghost predicate Runs<P>(b: Bound, s: State<P>, run: seq<Step<P>>)
    requires s.Ok()
    decreases |run|
  {
    run == [] || (Enabled(s, run[0]) && Runs(b, Next(b, s, run[0]), run[1..]))
  }

  ghost function End<P>(b: Bound, s: State<P>, run: seq<Step<P>>): (t: State<P>)
    requires s.Ok() && Runs(b, s, run)
    ensures t.Ok() && t.Lidars() == s.Lidars()
    decreases |run|
  {
    if run == [] then s else End(b, Next(b, s, run[0]), run[1..])
  }

  /** A non-empty queue is about to be announced, or a wake-up is pending, or the consumer still gets to it. */
  predicate Attended<P>(s: State<P>, i: nat)
    requires s.Ok() && i < s.Lidars()
  {
    s.queues[i] != [] ==>
      || s.producers[i].Stored? || s.producers[i].Counting? || s.producers[i].Signalling?
      || 0 < s.count
      || (s.consumer.Draining? && s.consumer.lidar <= i)
  }

  /** Packets are taken in the order stored, none lost and none twice. */
  ghost predicate Conserved<P>(s: State<P>, i: nat)
    requires s.Ok() && i < s.Lidars()
  {
    s.stored[i] == s.taken[i] + s.queues[i]
  }

  predicate Fits<P>(b: Bound, s: State<P>, i: nat)
    requires s.Ok() && i < s.Lidars()
  {
    b.AtMost? ==> |s.queues[i]| + (if s.producers[i].Storing? then 1 else 0) <= b.size
  }

  function Pending<P>(ps: seq<Producer<P>>): nat {
    if ps == [] then 0 else Pending(ps[..|ps| - 1]) + if ps[|ps| - 1].Signalling? then 1 else 0
  }

  ghost predicate Invariant<P>(b: Bound, s: State<P>) {
    && s.Ok()
    && (forall i :: 0 <= i < s.Lidars() ==> Attended(s, i) && Conserved(s, i) && Fits(b, s, i))
    && s.count + Pending(s.producers) <= s.Lidars()
  }

  lemma {:induction false} PendingChange<P>(ps: seq<Producer<P>>, i: nat, p: Producer<P>)
    requires i < |ps|
    ensures Pending(ps[i := p]) + (if ps[i].Signalling? then 1 else 0) == Pending(ps) + (if p.Signalling? then 1 else 0)
  {
    var n := |ps| - 1;
    if i < n {
      PendingChange(ps[..n], i, p);
      assert ps[i := p][..n] == ps[..n][i := p];
    } else {
      assert ps[i := p][..n] == ps[..n];
    }
  }

  lemma {:induction false} PendingBelow<P>(ps: seq<Producer<P>>)
    ensures Pending(ps) <= |ps|
  {
    if ps != [] {
      PendingBelow(ps[..|ps| - 1]);
    }
  }

  lemma {:induction false} PendingNone<P>(n: nat)
    ensures Pending(seq(n, _ => Producer<P>.Idle)) == 0
  {
    if n != 0 {
      PendingNone<P>(n - 1);
      assert seq(n, _ => Producer<P>.Idle)[..n - 1] == seq(n - 1, _ => Producer<P>.Idle);
    }
  }

  lemma CountBounded<P>(b: Bound, s: State<P>, e: Step<P>)
    requires Invariant(b, s) && Enabled(s, e)
    ensures var t := Next(b, s, e); t.count + Pending(t.producers) <= t.Lidars()
  {
    var t := Next(b, s, e);
    if !e.Wake? && !e.Pop? && !e.NextLidar? {
      PendingChange(s.producers, e.lidar, t.producers[e.lidar]);
      PendingBelow(t.producers);
    }
  }

  /** Every step keeps the invariant. */
  lemma StepKeeps<P>(b: Bound, s: State<P>, e: Step<P>)
    requires Invariant(b, s) && Enabled(s, e)
    ensures Invariant(b, Next(b, s, e))
  {
    var t := Next(b, s, e);
    CountBounded(b, s, e);
    forall i | 0 <= i < t.Lidars()
      ensures Attended(t, i) && Conserved(t, i) && Fits(b, t, i)
    {
      assert Attended(s, i) && Conserved(s, i) && Fits(b, s, i);
    }
  }

  lemma {:induction false} RunKeeps<P>(b: Bound, s: State<P>, run: seq<Step<P>>)
    requires Invariant(b, s) && Runs(b, s, run)
    ensures Invariant(b, End(b, s, run))
    decreases |run|
  {
    if run != [] {
      StepKeeps(b, s, run[0]);
      RunKeeps(b, Next(b, s, run[0]), run[1..]);
    }
  }

  lemma InitialHolds<P>(b: Bound, lidars: nat)
    ensures Invariant(b, Initial<P>(lidars))
  {
    PendingNone<P>(lidars);
  }

  /** No lost wake-up: whatever the interleaving, the publisher is never left waiting on a zero
      semaphore beside a non-empty queue while all storing threads are idle. */
  lemma NoLostWakeUp<P>(b: Bound, lidars: nat, run: seq<Step<P>>)
    requires Runs(b, Initial(lidars), run)
    ensures var s := End(b, Initial(lidars), run);
      s.consumer.Waiting? && s.count == 0 && (forall i :: 0 <= i < lidars ==> s.producers[i].Idle?) ==>
        forall i :: 0 <= i < lidars ==> s.queues[i] == [] && s.taken[i] == s.stored[i]
  {
    InitialHolds<P>(b, lidars);
    RunKeeps(b, Initial(lidars), run);
    var s := End(b, Initial(lidars), run);
    forall i | 0 <= i < lidars && s.consumer.Waiting? && s.count == 0 && s.producers[i].Idle?
      ensures s.queues[i] == [] && s.taken[i] == s.stored[i]
    {
      assert Attended(s, i) && Conserved(s, i);
    }
  }

  /** In every reachable state: packets come out of each queue in the order stored, no bounded queue
      overflows, and no more wake-ups are pending than there are lidars. */
  lemma ReachableIsSafe<P>(b: Bound, lidars: nat, run: seq<Step<P>>)
    requires Runs(b, Initial(lidars), run)
    ensures var s := End(b, Initial(lidars), run);
      && (forall i :: 0 <= i < lidars ==> s.stored[i] == s.taken[i] + s.queues[i])
      && (b.AtMost? ==> forall i :: 0 <= i < lidars ==> |s.queues[i]| <= b.size)
      && s.count <= lidars
  {
    InitialHolds<P>(b, lidars);
    RunKeeps(b, Initial(lidars), run);
    var s := End(b, Initial(lidars), run);
    forall i | 0 <= i < lidars
      ensures s.stored[i] == s.taken[i] + s.queues[i] && (b.AtMost? ==> |s.queues[i]| <= b.size)
    {
      assert Conserved(s, i) && Fits(b, s, i);
    }
  }

  /** Work left for one lidar: its queue and where its storing thread stands. */
  function Left<P>(lidars: nat, q: seq<P>, p: Producer<P>): nat {
    |q| + match p
          case Idle => 0
          case Signalling => lidars + 3
          case Counting => lidars + 4
          case Stored => lidars + 5
          case Storing(_) => lidars + 7
  }

  function LeftOver<P>(lidars: nat, queues: seq<seq<P>>, ps: seq<Producer<P>>, n: nat): nat
    requires n <= |queues| == |ps|
  {
    if n == 0 then 0 else LeftOver(lidars, queues, ps, n - 1) + Left(lidars, queues[n - 1], ps[n - 1])
  }

  /** An upper bound on the steps that can be taken before another packet arrives. */
  function Measure<P>(s: State<P>): nat
    requires s.Ok()
  {
    var n := s.Lidars();
    LeftOver(n, s.queues, s.producers, n) + s.count * (n + 2)
    + match s.consumer
      case Waiting => 0
      case Draining(j) => n - j + 1
  }

  lemma {:induction false} LeftOverChange<P>(lidars: nat, qs: seq<seq<P>>, ps: seq<Producer<P>>, i: nat, q: seq<P>,
                                             p: Producer<P>, n: nat)
    requires i < n <= |qs| == |ps|
    ensures LeftOver(lidars, qs[i := q], ps[i := p], n) + Left(lidars, qs[i], ps[i])
            == LeftOver(lidars, qs, ps, n) + Left(lidars, q, p)
  {
    if i < n - 1 {
      LeftOverChange(lidars, qs, ps, i, q, p, n - 1);
    } else {
      LeftOverSame(lidars, qs, ps, qs[i := q], ps[i := p], n - 1);
    }
  }

  lemma {:induction false} LeftOverSame<P>(lidars: nat, qs: seq<seq<P>>, ps: seq<Producer<P>>, qs': seq<seq<P>>,
                                           ps': seq<Producer<P>>, n: nat)
    requires n <= |qs| == |ps| == |qs'| == |ps'| && qs[..n] == qs'[..n] && ps[..n] == ps'[..n]
    ensures LeftOver(lidars, qs, ps, n) == LeftOver(lidars, qs', ps', n)
  {
    if n != 0 {
      assert qs[..n][n - 1] == qs'[..n][n - 1] && ps[..n][n - 1] == ps'[..n][n - 1];
      assert qs[..n - 1] == qs[..n][..n - 1] && qs'[..n - 1] == qs'[..n][..n - 1];
      assert ps[..n - 1] == ps[..n][..n - 1] && ps'[..n - 1] == ps'[..n][..n - 1];
      LeftOverSame(lidars, qs, ps, qs', ps', n - 1);
    }
  }

  /** Every step but an arrival uses up work. */
  lemma StepUsesWork<P>(b: Bound, s: State<P>, e: Step<P>)
    requires s.Ok() && Enabled(s, e) && !e.Arrive?
    ensures Measure(Next(b, s, e)) < Measure(s)
  {
    var t, n := Next(b, s, e), s.Lidars();
    hide LeftOver;
    if e.Wake? {
      OneMore(t.count, n + 2);
    } else if !e.NextLidar? {
      var i := if e.Pop? then s.consumer.lidar else e.lidar;
      LeftOverChange(n, s.queues, s.producers, i, t.queues[i], t.producers[i], n);
      assert t.queues == s.queues[i := t.queues[i]] && t.producers == s.producers[i := t.producers[i]];
      OneMore(s.count, n + 2);
    }
  }

  lemma OneMore(c: int, k: int)
    ensures (c + 1) * k == c * k + k
  {
  }

  ghost predicate Completing<P>(run: seq<Step<P>>) { forall k :: 0 <= k < |run| ==> !run[k].Arrive? }

  lemma {:induction false} CompletingIsShort<P>(b: Bound, s: State<P>, run: seq<Step<P>>)
    requires s.Ok() && Runs(b, s, run) && Completing(run)
    ensures |run| + Measure(End(b, s, run)) <= Measure(s)
    decreases |run|
  {
    if run != [] {
      StepUsesWork(b, s, run[0]);
      CompletingIsShort(b, Next(b, s, run[0]), run[1..]);
    }
  }

  /** No thread can take a step before another packet arrives. */
  ghost predicate Quiet<P(!new)>(s: State<P>)
    requires s.Ok()
  {
    forall e: Step<P> :: Enabled(s, e) ==> e.Arrive?
  }

  lemma DrainingGoesOn<P(!new)>(s: State<P>)
    requires s.Ok() && s.consumer.Draining?
    ensures !Quiet(s)
  {
    assert Enabled(s, Pop) || Enabled(s, NextLidar);
  }

  lemma QuietIsEmpty<P(!new)>(b: Bound, s: State<P>)
    requires Invariant(b, s) && Quiet(s)
    ensures s.consumer.Waiting? && s.count == 0
    ensures forall i :: 0 <= i < s.Lidars() ==> s.producers[i].Idle? && s.queues[i] == [] && s.taken[i] == s.stored[i]
  {
    if s.consumer.Draining? {
      DrainingGoesOn(s);
    }
    assert !Enabled(s, Wake);
    forall i | 0 <= i < s.Lidars()
      ensures s.producers[i].Idle? && s.queues[i] == [] && s.taken[i] == s.stored[i]
    {
      assert !Enabled(s, Store(i)) && !Enabled(s, TestEmpty(i)) && !Enabled(s, ReadCount(i)) && !Enabled(s, Signal(i));
      assert Attended(s, i) && Conserved(s, i);
    }
  }

  /** From any reachable state the threads come to rest within Measure steps unless packets keep
      arriving, and only after every stored packet has been taken. */
  lemma EverythingIsTaken<P(!new)>(b: Bound, lidars: nat, before: seq<Step<P>>, run: seq<Step<P>>)
    requires Runs(b, Initial(lidars), before)
    requires Runs(b, End(b, Initial(lidars), before), run) && Completing(run)
    ensures var s := End(b, Initial(lidars), before);
      var t := End(b, s, run);
      && |run| <= Measure(s)
      && (Quiet(t) ==> forall i :: 0 <= i < lidars ==> t.queues[i] == [] && t.taken[i] == t.stored[i])
  {
    InitialHolds<P>(b, lidars);
    RunKeeps(b, Initial(lidars), before);
    var s := End(b, Initial(lidars), before);
    RunKeeps(b, s, run);
    CompletingIsShort(b, s, run);
    var t := End(b, s, run);
    if Quiet(t) {
      QuietIsEmpty(b, t);
    }
  }

  lemma {:induction false} RunsOn<P>(b: Bound, s: State<P>, run: seq<Step<P>>, e: Step<P>)
    requires s.Ok() && Runs(b, s, run) && Enabled(End(b, s, run), e)
    ensures Runs(b, s, run + [e]) && End(b, s, run + [e]) == Next(b, End(b, s, run), e)
    decreases |run|
  {
    if run == [] {
      assert (run + [e])[1..] == [];
      assert End(b, Next(b, s, e), []) == Next(b, s, e);
    } else {
      RunsOn(b, Next(b, s, run[0]), run[1..], e);
      assert (run + [e])[1..] == run[1..] + [e];
    }
  }

  /** The first i queues have been taken out. */
  ghost predicate DrainedTo<P>(i: nat, qs: seq<seq<P>>, ts: seq<seq<P>>, qs': seq<seq<P>>, ts': seq<seq<P>>) {
    && |qs| == |ts| == |qs'| == |ts'|
    && forall k :: 0 <= k < |qs| ==>
         if k < i then qs'[k] == [] && ts'[k] == ts[k] + qs[k] else qs'[k] == qs[k] && ts'[k] == ts[k]
  }

  lemma NoneDrained<P>(qs: seq<seq<P>>, ts: seq<seq<P>>)
    requires |qs| == |ts|
    ensures DrainedTo(0, qs, ts, qs, ts)
  {
  }

  lemma DrainsNext<P>(i: nat, qs: seq<seq<P>>, ts: seq<seq<P>>, qs': seq<seq<P>>, ts': seq<seq<P>>)
    requires i < |qs'| && DrainedTo(i, qs, ts, qs', ts')
    ensures |ts'| == |qs'| && DrainedTo(i + 1, qs, ts, qs'[i := []], ts'[i := ts'[i] + qs'[i]])
  {
  }

  lemma AllDrained<P>(qs: seq<seq<P>>, ts: seq<seq<P>>, qs': seq<seq<P>>, ts': seq<seq<P>>)
    requires DrainedTo(|qs'|, qs, ts, qs', ts')
    ensures |qs| == |ts| == |qs'| == |ts'|
    ensures forall k :: 0 <= k < |qs| ==> qs'[k] == [] && ts'[k] == ts[k] + qs[k]
  {
  }

  /** A consumer whose queue is empty goes to the next one. */
  lemma MovesOn<P>(b: Bound, s: State<P>, run: seq<Step<P>>, t: State<P>)
    requires s.Ok() && Runs(b, s, run) && End(b, s, run) == t
    requires t.consumer.Draining? && t.queues[t.consumer.lidar] == []
    ensures Runs(b, s, run + [NextLidar])
    ensures End(b, s, run + [NextLidar]) == t.(consumer := From(s, t.consumer.lidar + 1))
  {
    RunsOn(b, s, run, NextLidar);
  }

  /** A thread that has a packet to store keeps it, and its lidar's record, until it stores it. */
  lemma {:induction false} StoringStays<P>(b: Bound, s: State<P>, run: seq<Step<P>>, i: nat, p: P)
    requires s.Ok() && Runs(b, s, run) && i < s.Lidars() && s.producers[i] == Storing(p)
    requires forall k :: 0 <= k < |run| ==> run[k] != Store(i)
    ensures End(b, s, run).producers[i] == Storing(p) && End(b, s, run).stored[i] == s.stored[i]
    decreases |run|
  {
    if run != [] {
      assert run[0] != Store(i);
      StoringStays(b, Next(b, s, run[0]), run[1..], i, p);
    }
  }

  /** A packet that arrives is to be stored exactly when its queue holds fewer packets than the size, and whatever
      the other threads do meanwhile the store appends it. */
  lemma ArrivalIsStored<P>(b: Bound, s: State<P>, i: nat, p: P, run: seq<Step<P>>)
    requires s.Ok() && Enabled(s, Arrive(i, p))
    ensures var t := Next(b, s, Arrive(i, p));
      && (t.producers[i] == Storing(p) <==> b.AtMost? ==> |s.queues[i]| < b.size)
      && (t.producers[i].Storing? && Runs(b, t, run) && (forall k :: 0 <= k < |run| ==> run[k] != Store(i)) ==>
            var u := End(b, t, run);
            && Enabled(u, Store(i)) && Next(b, u, Store(i)).stored[i] == s.stored[i] + [p]
            && Next(b, u, Store(i)).queues[i] == u.queues[i] + [p])
  {
    var t := Next(b, s, Arrive(i, p));
    if t.producers[i].Storing? && Runs(b, t, run) && forall k :: 0 <= k < |run| ==> run[k] != Store(i) {
      StoringStays(b, t, run, i, p);
    }
  }

  /** The driver's queues and semaphore, as one thread's calls change them while the others stand still. */
  class Driver<P> {
    const bound: Bound
    var queues: seq<seq<P>>
    var count: nat
    ghost var stored: seq<seq<P>>
    ghost var taken: seq<seq<P>>

    constructor (bound: Bound, lidars: nat)
      ensures Valid() && this.bound == bound && Snapshot(Waiting) == Initial(lidars)
    {
      this.bound := bound;
      queues, count := seq(lidars, _ => []), 0;
      stored, taken := seq(lidars, _ => []), seq(lidars, _ => []);
    }

    ghost predicate Valid()
      reads this
    {
      |queues| == |stored| == |taken|
    }

    /** The shared state with every storing thread idle. */
    ghost function Snapshot(consumer: Consumer): State<P>
      reads this
    {
      State(queues, seq(|queues|, _ => Idle), count, consumer, stored, taken)
    }

    /** PushLidarData; with unbounded queues it is StorageImuData. */
    method PushLidarData(lidar: nat, packet: P) returns (ghost run: seq<Step<P>>)
      requires Valid() && lidar < |queues|
      modifies this
      ensures Valid() && |queues| == old(|queues|)
      ensures queues == if bound.AtMost? && bound.size <= old(|queues[lidar]|) then old(queues)
                        else old(queues)[lidar := old(queues[lidar]) + [packet]]
      ensures count == if old(count) == 0 then 1 else old(count)
      ensures Runs(bound, old(Snapshot(Waiting)), run)
      ensures End(bound, old(Snapshot(Waiting)), run) == Snapshot(Waiting)
    {
      ghost var s := Snapshot(Waiting);
      run := [Arrive(lidar, packet)];
      ghost var t := Next(bound, s, run[0]);
      assert End(bound, s, run) == t;
      if !IsFull(bound, queues[lidar]) {
        queues := queues[lidar := queues[lidar] + [packet]];
        stored := stored[lidar := stored[lidar] + [packet]];
        RunsOn(bound, s, run, Store(lidar));
        t, run := Next(bound, t, Store(lidar)), run + [Store(lidar)];
        assert |queues[lidar]| != 0;
        RunsOn(bound, s, run, TestEmpty(lidar));
        t, run := Next(bound, t, TestEmpty(lidar)), run + [TestEmpty(lidar)];
      }
      RunsOn(bound, s, run, ReadCount(lidar));
      t, run := Next(bound, t, ReadCount(lidar)), run + [ReadCount(lidar)];
      if count <= 0 {
        RunsOn(bound, s, run, Signal(lidar));
        t, run := Next(bound, t, Signal(lidar)), run + [Signal(lidar)];
        count := count + 1;
      }
      assert t.producers == Snapshot(Waiting).producers;
    }

    /** DistributePointCloudData or DistributeImuData, once the wait is over. */
    method Distribute() returns (ghost run: seq<Step<P>>)
      requires Valid() && 0 < count && 0 < |queues|
      modifies this
      ensures Valid() && |queues| == old(|queues|) && stored == old(stored) && count == old(count) - 1
      ensures forall i :: 0 <= i < |queues| ==> queues[i] == [] && taken[i] == old(taken[i] + queues[i])
      ensures Runs(bound, old(Snapshot(Waiting)), run)
      ensures End(bound, old(Snapshot(Waiting)), run) == Snapshot(Waiting)
    {
      ghost var s := Snapshot(Waiting);
      run := [Wake];
      count := count - 1;
      assert End(bound, s, run) == Snapshot(Draining(0));
      hide Runs, End, Next, From, Enabled, DrainedTo;
      var i := 0;
      NoneDrained(queues, taken);
      while i < |queues|
        invariant Valid() && |queues| == old(|queues|) && 0 <= i <= |queues|
        invariant stored == old(stored) && count == old(count) - 1
        invariant DrainedTo(i, old(queues), old(taken), queues, taken)
        invariant Runs(bound, s, run) && End(bound, s, run) == Snapshot(From(s, i))
      {
        DrainsNext(i, old(queues), old(taken), queues, taken);
        run := Drain(i, s, run);
        MovesOn(bound, s, run, Snapshot(Draining(i)));
        run, i := run + [NextLidar], i + 1;
      }
      AllDrained(old(queues), old(taken), queues, taken);
    }

    method Drain(i: nat, ghost s: State<P>, ghost sofar: seq<Step<P>>) returns (ghost run: seq<Step<P>>)
      requires Valid() && i < |queues| && s.Ok()
      requires Runs(bound, s, sofar) && End(bound, s, sofar) == Snapshot(Draining(i))
      modifies this
      ensures Valid() && stored == old(stored) && count == old(count)
      ensures queues == old(queues)[i := []] && taken == old(taken)[i := old(taken[i] + queues[i])]
      ensures Runs(bound, s, run) && End(bound, s, run) == Snapshot(Draining(i))
    {
      hide Runs, End, From;
      run := sofar;
      while queues[i] != []
        invariant Valid() && |queues| == old(|queues|) && stored == old(stored) && count == old(count)
        invariant taken[i] + queues[i] == old(taken[i] + queues[i])
        invariant queues == old(queues)[i := queues[i]] && taken == old(taken)[i := taken[i]]
        invariant Runs(bound, s, run) && End(bound, s, run) == Snapshot(Draining(i))
        decreases |queues[i]|
      {
        RunsOn(bound, s, run, Pop);
        run := run + [Pop];
        taken := taken[i := taken[i] + [queues[i][0]]];
        queues := queues[i := queues[i][1..]];
      }
      assert taken[i] + queues[i] == taken[i];
    }
  }
}
