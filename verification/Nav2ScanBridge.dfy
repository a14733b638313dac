/** The bridge that asks Nav2 for global plans and hands thinned paths to SCAN. */
module Nav2ScanBridges {
  datatype Pose = Pose(x: real, y: real)

  function Dist2(a: Pose, b: Pose): real { (a.x - b.x) * (a.x - b.x) + (a.y - b.y) * (a.y - b.y) }

  /** The distance of a and b is at least spacing; every distance is at least a spacing below zero. */
  predicate Apart(a: Pose, b: Pose, spacing: real) { spacing <= 0.0 || spacing * spacing <= Dist2(a, b) }

  /** The distance is above 1e-6. */
  predicate Distinct(a: Pose, b: Pose) { 0.000000000001 < Dist2(a, b) }

  /** The waypoints kept from index i on, when last was kept last. */
  function KeptFrom(t: seq<Pose>, spacing: real, last: nat, i: nat): (r: seq<nat>)
    requires last < i < |t|
    ensures forall k :: 0 <= k < |r| ==> i <= r[k] < |t|
    decreases |t| - i
  {
    if i == |t| - 1 then if Distinct(t[i], t[last]) then [i] else []
    else if Apart(t[i], t[last], spacing) then [i] + KeptFrom(t, spacing, i, i + 1)
    else KeptFrom(t, spacing, last, i + 1)
  }

  /** The indices of the waypoints of the SCAN path. */
  function Kept(t: seq<Pose>, spacing: real): (r: seq<nat>)
    requires 2 <= |t|
    ensures forall k :: 0 <= k < |r| ==> r[k] < |t|
  {
    [0] + KeptFrom(t, spacing, 0, 1)
  }

  ghost predicate Increasing(s: seq<nat>) { forall k :: 0 <= k < |s| - 1 ==> s[k] < s[k + 1] }

  /** Interior waypoints are at least the spacing from the one kept before them. */
  ghost predicate GapsKept(t: seq<Pose>, spacing: real, kept: seq<nat>)
    requires forall k :: 0 <= k < |kept| ==> kept[k] < |t|
  {
    forall k :: 1 <= k < |kept| && kept[k] < |t| - 1 ==> Apart(t[kept[k]], t[kept[k - 1]], spacing)
  }

  /** The k-th waypoint kept is the last one before j. */
  ghost predicate LastBefore(kept: seq<nat>, k: int, j: int) {
    0 <= k < |kept| && kept[k] < j && (k + 1 < |kept| ==> j < kept[k + 1])
  }

  /** Interior waypoints from i on that are left out are nearer than the spacing to the last one kept before. */
  ghost predicate DropsNear(t: seq<Pose>, spacing: real, kept: seq<nat>, i: nat)
    requires forall k :: 0 <= k < |kept| ==> kept[k] < |t|
  {
    forall k, j :: LastBefore(kept, k, j) && i <= j < |t| - 1 ==> !Apart(t[j], t[kept[k]], spacing)
  }

  /** The end is kept exactly when it is distinct from the waypoint before, so the path ends at it or beside it. */
  ghost predicate EndsThere(t: seq<Pose>, kept: seq<nat>)
    requires 0 < |kept| && forall k :: 0 <= k < |kept| ==> kept[k] < |t|
  {
    var last := |kept| - 1;
    if kept[last] < |t| - 1 then !Distinct(t[|t| - 1], t[kept[last]])
    else 0 < last ==> Distinct(t[|t| - 1], t[kept[last - 1]])
  }

  /** What a thinned path from index i on owes to its input. */
  ghost predicate Thins(t: seq<Pose>, spacing: real, kept: seq<nat>, i: nat) {
    && 0 < |kept| && Increasing(kept) && (forall k :: 0 <= k < |kept| ==> kept[k] < |t|)
    && GapsKept(t, spacing, kept) && DropsNear(t, spacing, kept, i) && EndsThere(t, kept)
  }

  lemma {:induction false} KeptFromThins(t: seq<Pose>, spacing: real, last: nat, i: nat)
    requires last < i < |t|
    ensures Thins(t, spacing, [last] + KeptFrom(t, spacing, last, i), i)
    decreases |t| - i
  {
    hide Apart, Distinct, Thins;
    if i == |t| - 1 {
      EndThins(t, spacing, last);
    } else if Apart(t[i], t[last], spacing) {
      KeptFromThins(t, spacing, i, i + 1);
      KeepThins(t, spacing, last, i, KeptFrom(t, spacing, i, i + 1));
    } else {
      KeptFromThins(t, spacing, last, i + 1);
      SkipThins(t, spacing, last, i, KeptFrom(t, spacing, last, i + 1));
    }
  }

  lemma EndThins(t: seq<Pose>, spacing: real, last: nat)
    requires last < |t| - 1
    ensures Thins(t, spacing, [last] + KeptFrom(t, spacing, last, |t| - 1), |t| - 1)
  {
  }

  lemma KeepThins(t: seq<Pose>, spacing: real, last: nat, i: nat, rest: seq<nat>)
    requires last < i < |t| - 1 && Apart(t[i], t[last], spacing) && Thins(t, spacing, [i] + rest, i + 1)
    requires forall k :: 0 <= k < |rest| ==> i + 1 <= rest[k]
    ensures Thins(t, spacing, [last] + ([i] + rest), i)
  {
    hide Apart, Distinct, DropsNear;
    var kept, more := [i] + rest, [last] + ([i] + rest);
    assert forall k :: 0 < k < |more| ==> more[k] == kept[k - 1];
    KeepDrops(t, spacing, kept, more, i);
  }

  lemma KeepDrops(t: seq<Pose>, spacing: real, kept: seq<nat>, more: seq<nat>, i: nat)
    requires (forall k :: 0 <= k < |kept| ==> i <= kept[k] < |t|) && (forall k :: 0 <= k < |more| ==> more[k] < |t|)
    requires 0 < |kept| && kept[0] == i && DropsNear(t, spacing, kept, i + 1)
    requires |more| == |kept| + 1 && forall k :: 0 < k < |more| ==> more[k] == kept[k - 1]
    ensures DropsNear(t, spacing, more, i)
  {
    hide Apart;
    forall k, j | LastBefore(more, k, j) && i <= j < |t| - 1
      ensures !Apart(t[j], t[more[k]], spacing)
    {
      if k != 0 {
        assert more[k] == kept[k - 1];
        assert k + 1 < |more| ==> more[k + 1] == kept[k];
        assert LastBefore(kept, k - 1, j) && i < j;
      }
    }
  }

  lemma SkipThins(t: seq<Pose>, spacing: real, last: nat, i: nat, rest: seq<nat>)
    requires last < i < |t| - 1 && !Apart(t[i], t[last], spacing) && Thins(t, spacing, [last] + rest, i + 1)
    requires forall k :: 0 <= k < |rest| ==> i + 1 <= rest[k]
    ensures Thins(t, spacing, [last] + rest, i)
  {
  }

  /** The SCAN path is a subsequence of the global one that starts where it starts and ends at its end
      or within 1e-6 of it; its gaps are at least the spacing except perhaps the last, and each interior
      waypoint left out is nearer than the spacing to the last one kept before it. */
  lemma KeptThins(t: seq<Pose>, spacing: real)
    requires 2 <= |t|
    ensures Kept(t, spacing)[0] == 0 && Thins(t, spacing, Kept(t, spacing), 1)
  {
    KeptFromThins(t, spacing, 0, 1);
  }

  /** In coordinates: far is at least the spacing, and near to the end is within a millionth of it. */
  lemma ApartIff(a: Pose, b: Pose, spacing: real)
    requires 0.0 < spacing
    ensures Apart(a, b, spacing) <==>
            spacing * spacing <= (a.x - b.x) * (a.x - b.x) + (a.y - b.y) * (a.y - b.y)
    ensures !Distinct(a, b) <==> (a.x - b.x) * (a.x - b.x) + (a.y - b.y) * (a.y - b.y) <= 0.000001 * 0.000001
  {
  }

  function Select(t: seq<Pose>, kept: seq<nat>): (r: seq<Pose>)
    requires forall k :: 0 <= k < |kept| ==> kept[k] < |t|
    ensures |r| == |kept| && forall k :: 0 <= k < |kept| ==> r[k] == t[kept[k]]
  {
    seq(|kept|, k requires 0 <= k < |kept| => t[kept[k]])
  }

  /** The thinning loop; ok is false when fewer than two waypoints would be left. */
  method Thin(t: seq<Pose>, spacing: real) returns (ok: bool, scan: seq<Pose>)
    ensures |t| < 2 ==> !ok
    ensures 2 <= |t| ==>
      scan == Select(t, Kept(t, spacing)) && (ok <==> 2 <= |scan|)
  {
    if |t| < 2 {
      return false, [];
    }
    scan := [t[0]];
    ghost var kept: seq<nat> := [0];
    assert Kept(t, spacing) == kept + KeptFrom(t, spacing, 0, 1);
    hide Apart, Distinct, Kept, KeptFrom;
    var index: nat := 1;
    while index + 1 < |t|
      invariant 1 <= index < |t| && 0 < |kept| && kept[|kept| - 1] < index
      invariant forall k :: 0 <= k < |kept| ==> kept[k] < |t|
      invariant scan == Select(t, kept)
      invariant Kept(t, spacing) == kept + KeptFrom(t, spacing, kept[|kept| - 1], index)
    {
      KeptFromOn(t, spacing, kept, index);
      if Apart(t[index], scan[|scan| - 1], spacing) {
        scan, kept := scan + [t[index]], kept + [index];
      }
      index := index + 1;
    }
    KeptFromEnd(t, spacing, kept[|kept| - 1]);
    if Distinct(t[|t| - 1], scan[|scan| - 1]) {
      scan, kept := scan + [t[|t| - 1]], kept + [|t| - 1];
    }
    assert scan == Select(t, Kept(t, spacing));
    ok := 2 <= |scan|;
  }

  lemma KeptFromOn(t: seq<Pose>, spacing: real, kept: seq<nat>, i: nat)
    requires 0 < |kept| && kept[|kept| - 1] < i < |t| - 1
    ensures var last := kept[|kept| - 1];
      kept + KeptFrom(t, spacing, last, i) ==
      if Apart(t[i], t[last], spacing) then kept + [i] + KeptFrom(t, spacing, i, i + 1)
      else kept + KeptFrom(t, spacing, last, i + 1)
  {
  }

  lemma KeptFromEnd(t: seq<Pose>, spacing: real, last: nat)
    requires last < |t| - 1
    ensures KeptFrom(t, spacing, last, |t| - 1) == if Distinct(t[|t| - 1], t[last]) then [|t| - 1] else []
  {
  }

  /** A planning request that Nav2 has not finished with. */
  datatype Request = Request(sequence: nat, goal: Pose)

  /** What comes back for a request: no plan, or the poses of one, and whether they could be transformed. */
  datatype Outcome = Failed | Planned(poses: seq<Pose>, transformed: bool)

  /** A published SCAN path: the request it answers, the goal and its number at that moment, the poses
      of the plan and the waypoints kept of them. */
  datatype Publication = Publication(answered: Request, goal: Pose, sequence: nat, poses: seq<Pose>, scan: seq<Pose>)

  datatype Event =
    | GoalMessage(goal: Pose, ready: bool, now: real)
    | Tick(reached: bool, ready: bool, now: real)
    | Rejection(id: nat)
    | Answer(id: nat, outcome: Outcome)

  predicate Publishable(poses: seq<Pose>, spacing: real) { 2 <= |poses| && 2 <= |Kept(poses, spacing)| }

  /** The bridge's fields, the requests on their way and the paths published. */
  datatype State = State(goalActive: bool, planning: bool, sequence: nat, goal: Pose, lastRequest: real,
                         open: map<nat, Request>, nextId: nat, published: seq<Publication>)
  {
    function RequestPlan(ready: bool, now: real): State {
      if !ready then this
      else this.(planning := true, lastRequest := now, open := open[nextId := Request(sequence, goal)],
                 nextId := nextId + 1)
    }

    function Closed(id: nat): State { this.(open := map i | i in open && i != id :: open[i]) }

    /** Replies come only for requests on their way. */
    predicate Possible(e: Event) {
      match e
      case Rejection(id) => id in open
      case Answer(id, _) => id in open
      case _ => true
    }

    function Next(e: Event, period: real, spacing: real): State
      requires Possible(e)
    {
      match e
      case GoalMessage(g, ready, now) =>
        this.(goal := g, goalActive := true, planning := false, sequence := sequence + 1, lastRequest := 0.0)
        .RequestPlan(ready, now)
      case Tick(reached, ready, now) =>
        if !goalActive then this
        else if reached then this.(goalActive := false)
        else if planning then this
        else if lastRequest == 0.0 || now - lastRequest >= period then RequestPlan(ready, now)
        else this
      case Rejection(id) =>
        if open[id].sequence != sequence then Closed(id) else Closed(id).(planning := false)
      case Answer(id, outcome) =>
        if open[id].sequence != sequence || !goalActive then Closed(id)
        else
          var s := Closed(id).(planning := false);
          if outcome.Failed? || !outcome.transformed || !Publishable(outcome.poses, spacing) then s
          else
            var scan := Select(outcome.poses, Kept(outcome.poses, spacing));
            s.(published := published + [Publication(open[id], goal, sequence, outcome.poses, scan)])
    }

    /** The request on its way belongs to the current goal. */
    predicate Current(id: nat) { id in open && open[id].sequence == sequence }

    /** Requests are numbered in order, and each path published answers the goal of its moment. */
    ghost predicate Recorded() {
      && (forall id :: id in open ==> id < nextId && open[id].sequence <= sequence)
      && forall k :: 0 <= k < |published| ==>
           published[k].answered == Request(published[k].sequence, published[k].goal)
    }

    ghost predicate Valid() {
      && Recorded()
      && (forall id :: Current(id) ==> open[id].goal == goal && planning)
      && (forall i, j :: Current(i) && Current(j) ==> i == j)
      && (goalActive && planning ==> exists id :: Current(id))
    }
  }

  const START := State(false, false, 0, Pose(0.0, 0.0), 0.0, map[], 0, [])

  /** Every event keeps it so that at most one request of the current goal is on its way, and exactly
      one while planning for an active goal. */
  lemma NextKeepsValid(s: State, e: Event, period: real, spacing: real)
    requires s.Valid() && s.Possible(e)
    ensures s.Next(e, period, spacing).Valid()
  {
    hide Publishable;
    match e
    case GoalMessage(g, ready, now) =>
      var started := s.(goal := g, goalActive := true, planning := false, sequence := s.sequence + 1,
                        lastRequest := 0.0);
      RequestValid(started, ready, now);
    case Tick(reached, ready, now) =>
      var idle := s.(goalActive := false);
      assert forall id :: idle.Current(id) <==> s.Current(id);
      if s.goalActive && !s.planning {
        RequestValid(s, ready, now);
      }
    case Rejection(id) => ClosedValid(s, id);
    case Answer(id, _) =>
      ClosedValid(s, id);
      if s.Current(id) && s.goalActive {
        assert s.open[id] == Request(s.sequence, s.goal);
      }
  }

  /** A request made while none of the current goal is on its way. */
  lemma RequestValid(s: State, ready: bool, now: real)
    requires s.Recorded() && !s.planning && forall id :: !s.Current(id)
    ensures s.RequestPlan(ready, now).Valid()
  {
    var t := s.RequestPlan(ready, now);
    if ready {
      assert t.Current(s.nextId);
      forall id | t.Current(id)
        ensures id == s.nextId
      {
        assert !s.Current(id);
      }
    }
  }

  lemma ClosedValid(s: State, id: nat)
    requires s.Valid() && id in s.open
    ensures s.Closed(id).Recorded()
    ensures forall i :: s.Closed(id).Current(i) <==> s.Current(i) && i != id
    ensures forall i :: i in s.Closed(id).open ==> s.Closed(id).open[i] == s.open[i]
    ensures s.Current(id) ==> s.Closed(id).(planning := false).Valid()
    ensures !s.Current(id) || !s.goalActive ==> s.Closed(id).Valid()
  {
    var t := s.Closed(id);
    assert forall i :: t.Current(i) <==> s.Current(i) && i != id;
    assert forall i :: t.(planning := false).Current(i) <==> t.Current(i);
    if !s.Current(id) && s.goalActive && s.planning {
      var i :| s.Current(i);
      assert t.Current(i);
    }
  }

  ghost predicate Runs(s: State, events: seq<Event>, period: real, spacing: real)
    decreases |events|
  {
    events == [] || (s.Possible(events[0]) && Runs(s.Next(events[0], period, spacing), events[1..], period, spacing))
  }

  ghost function End(s: State, events: seq<Event>, period: real, spacing: real): State
    requires Runs(s, events, period, spacing)
    decreases |events|
  {
    if events == [] then s else End(s.Next(events[0], period, spacing), events[1..], period, spacing)
  }

  lemma {:induction false} RunKeepsValid(s: State, events: seq<Event>, period: real, spacing: real)
    requires s.Valid() && Runs(s, events, period, spacing)
    ensures End(s, events, period, spacing).Valid()
    decreases |events|
  {
    if events != [] {
      NextKeepsValid(s, events[0], period, spacing);
      RunKeepsValid(s.Next(events[0], period, spacing), events[1..], period, spacing);
    }
  }

  /** Over any interleaving of goals, ticks, rejections and results: at most one request of the current
      goal is on its way, exactly one while planning for an active goal, and every published path
      answers a request for the goal that was current when it was published. */
  lemma ReachableIsSafe(events: seq<Event>, period: real, spacing: real)
    requires Runs(START, events, period, spacing)
    ensures var s := End(START, events, period, spacing);
      && (forall i, j :: s.Current(i) && s.Current(j) ==> i == j)
      && (s.goalActive ==> (s.planning <==> exists id :: s.Current(id)))
      && forall k :: 0 <= k < |s.published| ==>
           s.published[k].answered == Request(s.published[k].sequence, s.published[k].goal)
  {
    RunKeepsValid(START, events, period, spacing);
  }

  /** The SCAN path of a publication thins its plan and has at least two waypoints. */
  ghost predicate Usable(p: Publication, spacing: real) {
    && 2 <= |p.poses| && 2 <= |p.scan| && Thins(p.poses, spacing, Kept(p.poses, spacing), 1)
    && p.scan == Select(p.poses, Kept(p.poses, spacing))
  }

  ghost predicate AllUsable(s: State, spacing: real) {
    forall k :: 0 <= k < |s.published| ==> Usable(s.published[k], spacing)
  }

  /** Every SCAN path published in a run is usable. */
  lemma {:induction false} PublishedAreUsable(s: State, events: seq<Event>, period: real, spacing: real)
    requires Runs(s, events, period, spacing) && AllUsable(s, spacing)
    ensures AllUsable(End(s, events, period, spacing), spacing)
    decreases |events|
  {
    if events != [] {
      StepIsUsable(s, events[0], period, spacing);
      PublishedAreUsable(s.Next(events[0], period, spacing), events[1..], period, spacing);
    }
  }

  lemma StepIsUsable(s: State, e: Event, period: real, spacing: real)
    requires s.Possible(e) && AllUsable(s, spacing)
    ensures AllUsable(s.Next(e, period, spacing), spacing)
  {
    if e.Answer? && e.outcome.Planned? && 2 <= |e.outcome.poses| {
      KeptThins(e.outcome.poses, spacing);
    }
    hide Thins, Kept;
  }

  class Nav2ScanBridge {
    const replanPeriod: real
    const waypointSpacing: real
    var goalActive: bool
    var planning: bool
    var goalSequence: nat
    var goal: Pose
    var lastPlanRequest: real
    // the action client's requests on their way, and what was published
    var open: map<nat, Request>
    var nextId: nat
    var published: seq<Publication>

    constructor (replanPeriod: real, waypointSpacing: real)
      ensures this.replanPeriod == replanPeriod && this.waypointSpacing == waypointSpacing
      ensures Snapshot() == START
    {
      this.replanPeriod, this.waypointSpacing := replanPeriod, waypointSpacing;
      goalActive, planning, goalSequence, goal, lastPlanRequest := false, false, 0, Pose(0.0, 0.0), 0.0;
      open, nextId, published := map[], 0, [];
    }

    function Snapshot(): State
      reads this
    {
      State(goalActive, planning, goalSequence, goal, lastPlanRequest, open, nextId, published)
    }

    /** The pose is the goal in the global frame; none when it could not be transformed. */
    method GoalCallback(transformed: seq<Pose>, ready: bool, now: real)
      requires |transformed| <= 1
      modifies this
      ensures Snapshot() == if transformed == [] then old(Snapshot())
                            else old(Snapshot()).Next(GoalMessage(transformed[0], ready, now), replanPeriod,
                                                      waypointSpacing)
    {
      if transformed == [] {
        return;
      }
      goal := transformed[0];
      goalActive := true;
      planning := false;
      goalSequence := goalSequence + 1;
      lastPlanRequest := 0.0;
      RequestPlan(ready, now);
    }

    method TimerCallback(reached: bool, ready: bool, now: real)
      modifies this
      ensures Snapshot() == old(Snapshot()).Next(Tick(reached, ready, now), replanPeriod, waypointSpacing)
    {
      if !goalActive {
        return;
      }
      if reached {
        goalActive := false;
        return;
      }
      if planning {
        return;
      }
      if lastPlanRequest == 0.0 || now - lastPlanRequest >= replanPeriod {
        RequestPlan(ready, now);
      }
    }

    method RequestPlan(ready: bool, now: real)
      modifies this
      ensures Snapshot() == old(Snapshot()).RequestPlan(ready, now)
    {
      if !ready {
        return;
      }
      planning := true;
      lastPlanRequest := now;
      open, nextId := open[nextId := Request(goalSequence, goal)], nextId + 1;
    }

    /** An accepted request stays on its way until its result comes. */
    method GoalResponseCallback(id: nat, accepted: bool)
      requires id in open
      modifies this
      ensures Snapshot() == if accepted then old(Snapshot())
                            else old(Snapshot()).Next(Rejection(id), replanPeriod, waypointSpacing)
    {
      if !accepted {
        var requestSequence := open[id].sequence;
        open := map i | i in open && i != id :: open[i];
        if requestSequence != goalSequence {
          return;
        }
        planning := false;
      }
    }

    method ResultCallback(id: nat, outcome: Outcome)
      requires id in open
      modifies this
      ensures Snapshot() == old(Snapshot()).Next(Answer(id, outcome), replanPeriod, waypointSpacing)
    {
      hide Kept;
      var request := open[id];
      open := map i | i in open && i != id :: open[i];
      if request.sequence != goalSequence || !goalActive {
        return;
      }
      planning := false;
      if outcome.Failed? {
        return;
      }
      var done := PublishPaths(request, outcome);
    }

    method PublishPaths(request: Request, outcome: Outcome) returns (done: bool)
      requires outcome.Planned?
      modifies this`published
      ensures done <==> outcome.transformed && Publishable(outcome.poses, waypointSpacing)
      ensures !done ==> published == old(published)
      ensures done ==> var scan := Select(outcome.poses, Kept(outcome.poses, waypointSpacing));
        published == old(published) + [Publication(request, goal, goalSequence, outcome.poses, scan)]
    {
      hide Kept;
      if |outcome.poses| < 2 || !outcome.transformed {
        return false;
      }
      var scan: seq<Pose>;
      done, scan := Thin(outcome.poses, waypointSpacing);
      if done {
        published := published + [Publication(request, goal, goalSequence, outcome.poses, scan)];
      }
    }
  }
}
