/** The incremental voxel traversal of a ray, in exact arithmetic. */
module RayCast {
  import opened Basics

  /** A time that may be +infinity: the division by a zero delta. */
  datatype Time = Fin(r: real) | Inf {
    predicate Below(o: Time) { Fin? && (o.Inf? || r < o.r) }
  }

  function Later(t: Time, d: real): Time { if t.Fin? then Fin(t.r + d) else Inf }

  function Signum(x: int): int { if x == 0 then 0 else if x < 0 then -1 else 1 }

  /** C fmod(v, 1): the fraction with the sign of v. */
  function Fmod1(v: real): real { if v >= 0.0 then v - v.Floor as real else -(-v - (-v).Floor as real) }

  function Mod1(v: real): real { Fmod1(Fmod1(v) + 1.0) }

  lemma FloorUnique(v: real, n: int)
    requires n as real <= v < n as real + 1.0
    ensures v.Floor == n
  {
  }

  lemma Mod1IsFraction(v: real)
    ensures Mod1(v) == v - v.Floor as real
  {
    if v >= 0.0 {
      FloorUnique(v - v.Floor as real + 1.0, 1);
    } else {
      FloorOfNegative(v);
      var w := Fmod1(v) + 1.0;
      if v == v.Floor as real {
        FloorUnique(w, 1);
      } else {
        FloorUnique(w, 0);
      }
    }
  }

  lemma FloorOfNegative(v: real)
    ensures (-v).Floor == if v == v.Floor as real then -v.Floor else -v.Floor - 1
  {
  }

  function Intbound(s: real, ds: real): Time
    decreases ds < 0.0
  {
    if ds < 0.0 then Intbound(-s, -ds)
    else if ds == 0.0 then Inf
    else Fin((1.0 - Mod1(s)) / ds)
  }

  /** One axis of the traversal: current and final cell, direction, time of the next crossing,
      time between crossings (unused on an axis that does not move). */
  datatype Axis = Axis(pos: int, end: int, step: int, tMax: Time, tDelta: real) {

    function Remaining(): nat { Abs(end - pos) }

    function Advance(): Axis {
      this.(pos := pos + step, tMax := Later(tMax, tDelta))
    }
  }

  function InitAxis(s: real, e: real): Axis {
    var d := e.Floor - s.Floor;
    Axis(s.Floor, e.Floor, Signum(d), Intbound(s, d as real), if d == 0 then 0.0 else Signum(d) as real / d as real)
  }

  /** What one axis of the ray is asked to do: its first cell, the fraction of a cell to its first
      crossing, and the signed number of cells to cross. */
  datatype Course = Course(cell: int, lead: real, d: int) {
    ghost predicate Ok() { 0.0 < lead <= 1.0 }
  }

  function CourseOf(s: real, e: real): (c: Course)
    ensures c.Ok()
  {
    var d := e.Floor - s.Floor;
    Mod1IsFraction(s);
    Mod1IsFraction(-s);
    Course(s.Floor, 1.0 - Mod1(if d < 0 then -s else s), d)
  }

  /** The axis stands some cells along its course, and its next crossing is the one after those,
      at even intervals from the first; times are scaled by the number of cells to cross. */
  ghost predicate AxisOk(o: Course, a: Axis) {
    var n := Abs(o.d);
    var k := n - a.Remaining();
    && o.Ok() && 0 <= k && a.end == o.cell + o.d && a.step == Signum(o.d)
    && a.pos == o.cell + (if o.d < 0 then -k else k)
    && (o.d == 0 ==> a.tMax == Inf)
    && (o.d != 0 ==> a.tDelta * n as real == 1.0 && a.tMax.Fin? && a.tMax.r * n as real == o.lead + k as real)
  }

  lemma InitAxisOk(s: real, e: real)
    ensures AxisOk(CourseOf(s, e), InitAxis(s, e))
  {
    var d := e.Floor - s.Floor;
    hide Intbound, Mod1;
    IntboundScaled(s, d);
    FreshAxisOk(CourseOf(s, e), InitAxis(s, e));
  }

  lemma FreshAxisOk(o: Course, a: Axis)
    requires o.Ok() && a.pos == o.cell && a.end == o.cell + o.d && a.step == Signum(o.d)
    requires o.d == 0 ==> a.tMax == Inf
    requires o.d != 0 ==> a.tDelta * Abs(o.d) as real == 1.0 && a.tMax.Fin? && a.tMax.r * Abs(o.d) as real == o.lead
    ensures AxisOk(o, a)
  {
  }

  lemma IntboundScaled(s: real, d: int)
    ensures d == 0 ==> Intbound(s, d as real) == Inf
    ensures d != 0 ==> var t := Intbound(s, d as real);
      t.Fin? && t.r * Abs(d) as real == 1.0 - Mod1(if d < 0 then -s else s)
    ensures d != 0 ==> Signum(d) as real / d as real * Abs(d) as real == 1.0
  {
  }

  lemma ScaledCompare(x: real, y: real, n: real)
    requires 0.0 < n
    ensures x <= y <==> x * n <= y * n
  {
  }

  /** An axis has its next crossing by time 1 exactly when it still has cells to cross. */
  lemma CrossingDueIffRemaining(o: Course, a: Axis)
    requires AxisOk(o, a)
    ensures a.tMax.Fin? && a.tMax.r <= 1.0 <==> 0 < a.Remaining()
    ensures a.tMax.Fin? ==> 0.0 < a.tMax.r && 0.0 < a.tDelta
  {
    if o.d != 0 {
      CrossingScaled(a.tMax.r, o.lead, Abs(o.d) - a.Remaining(), Abs(o.d));
      CrossingScaled(a.tDelta, 1.0, 0, Abs(o.d));
    }
  }

  lemma CrossingScaled(t: real, lead: real, k: int, n: int)
    requires 0 < n && 0 <= k && 0.0 < lead <= 1.0 && t * n as real == lead + k as real
    ensures t <= 1.0 <==> k < n
    ensures 0.0 < t
  {
    var m := n as real;
    assert 1.0 <= m && (k < n ==> k as real <= m - 1.0) && (n <= k ==> m <= k as real);
    ScaledToUnit(t, m, lead + k as real);
  }

  lemma ScaledToUnit(t: real, m: real, p: real)
    requires 0.0 < m && p == t * m
    ensures (t <= 1.0 <==> p <= m) && (0.0 < t <==> 0.0 < p)
  {
  }

  lemma AdvanceAxisOk(o: Course, a: Axis)
    requires AxisOk(o, a) && 0 < a.Remaining()
    ensures AxisOk(o, a.Advance()) && a.Advance().Remaining() == a.Remaining() - 1
    ensures a.tMax.Fin? && a.Advance().tMax == Fin(a.tMax.r + a.tDelta)
  {
    var n := Abs(o.d) as real;
    assert (a.tMax.r + a.tDelta) * n == a.tMax.r * n + a.tDelta * n;
  }

  /** The last crossing of a moving axis is past at t, and its next one is not. */
  ghost predicate Timely(a: Axis, t: real) {
    a.tMax.Fin? ==> a.tMax.r - a.tDelta <= t <= a.tMax.r
  }

  lemma FirstCellTimely(o: Course, a: Axis)
    requires AxisOk(o, a) && a.pos == o.cell
    ensures Timely(a, 0.0)
  {
    if o.d != 0 {
      CrossingDueIffRemaining(o, a);
      ScaledCompare(a.tMax.r, a.tDelta, Abs(o.d) as real);
    }
  }

  predicate InCell(v: real, pos: int) { pos as real <= v <= pos as real + 1.0 }

  /** v is a coordinate from which the first crossing is o.lead cells away. */
  predicate Leads(o: Course, v: real) {
    && InCell(v, o.cell)
    && (o.d < 0 ==> v == o.cell as real + o.lead)
    && (0 < o.d ==> v == o.cell as real + 1.0 - o.lead)
  }

  /** At a timely instant a ray that starts at such a coordinate is inside the closed current cell. */
  lemma TimelyInCell(o: Course, a: Axis, v: real, t: real)
    requires AxisOk(o, a) && Timely(a, t) && Leads(o, v)
    ensures InCell(v + t * o.d as real, a.pos)
  {
    if o.d == 0 {
      assert t * o.d as real == 0.0;
    } else {
      var way := TimelyTravelled(o, a, t);
      hide AxisOk, Timely;
      TravelledInCell(o, Abs(o.d) - a.Remaining(), a.pos, v, way);
    }
  }

  /** How far the ray has come along an axis at a timely instant. */
  lemma TimelyTravelled(o: Course, a: Axis, t: real) returns (way: real)
    requires AxisOk(o, a) && Timely(a, t) && o.d != 0
    ensures t * o.d as real == if o.d < 0 then -way else way
    ensures var k := Abs(o.d) - a.Remaining();
      o.lead + k as real - 1.0 <= way <= o.lead + k as real && a.pos == o.cell + (if o.d < 0 then -k else k)
  {
    var n, k := Abs(o.d) as real, Abs(o.d) - a.Remaining();
    way := t * n;
    Travelled(t, o.d);
    ScaledBetween(t, a.tMax.r, a.tDelta, n, o.lead + k as real, 1.0);
  }

  /** Between the k-th crossing and the next one the ray is in the k-th cell after the first. */
  lemma TravelledInCell(o: Course, k: int, pos: int, v: real, travelled: real)
    requires Leads(o, v) && o.lead + k as real - 1.0 <= travelled <= o.lead + k as real
    requires o.d != 0 && pos == o.cell + (if o.d < 0 then -k else k)
    ensures InCell(v + (if o.d < 0 then -travelled else travelled), pos)
  {
  }

  /** The distance along an axis at time t. */
  lemma Travelled(t: real, d: int)
    ensures t * d as real == if d < 0 then -(t * Abs(d) as real) else t * Abs(d) as real
  {
    if d < 0 {
      assert Abs(d) as real == -(d as real);
    }
  }

  lemma ScaledBetween(t: real, r: real, delta: real, n: real, rn: real, deltaN: real)
    requires 0.0 < n && r - delta <= t <= r && rn == r * n && deltaN == delta * n
    ensures rn - deltaN <= t * n <= rn
  {
    ScaledCompare(t, r, n);
    ScaledCompare(r - delta, t, n);
    assert (r - delta) * n == rn - deltaN;
  }

  datatype Point = Point(x: real, y: real, z: real)

  datatype Courses = Courses(x: Course, y: Course, z: Course)

  /** The traversal state. */
  datatype Cast = Cast(x: Axis, y: Axis, z: Axis) {

    predicate Done() { x.pos == x.end && y.pos == y.end && z.pos == z.end }

    function Remaining(): nat { x.Remaining() + y.Remaining() + z.Remaining() }

    /** The axis with the nearest crossing; ties go to z, then to y. */
    function Nearest(): (i: nat)
      ensures i < 3
    {
      if x.tMax.Below(y.tMax) then (if x.tMax.Below(z.tMax) then 0 else 2)
      else (if y.tMax.Below(z.tMax) then 1 else 2)
    }

    function Next(): Cast {
      match Nearest()
      case 0 => this.(x := x.Advance())
      case 1 => this.(y := y.Advance())
      case _ => this.(z := z.Advance())
    }

    /** At a time when several axes cross at once z goes first, then y; an axis without a crossing waits. */
    lemma MovesFirst()
      ensures x.tMax.Fin? && y.tMax.Fin? && z.tMax.Fin? ==>
        Next() == if z.tMax.r <= x.tMax.r && z.tMax.r <= y.tMax.r then this.(z := z.Advance())
                  else if y.tMax.r <= x.tMax.r then this.(y := y.Advance())
                  else this.(x := x.Advance())
      ensures z.tMax.Inf? && x.tMax.Fin? && y.tMax.Fin? ==>
        Next() == if y.tMax.r <= x.tMax.r then this.(y := y.Advance()) else this.(x := x.Advance())
      ensures y.tMax.Inf? && x.tMax.Fin? && z.tMax.Fin? ==>
        Next() == if z.tMax.r <= x.tMax.r then this.(z := z.Advance()) else this.(x := x.Advance())
      ensures x.tMax.Inf? && y.tMax.Fin? && z.tMax.Fin? ==>
        Next() == if z.tMax.r <= y.tMax.r then this.(z := z.Advance()) else this.(y := y.Advance())
    {
    }

    function Axes(i: nat): Axis
      requires i < 3
    {
      if i == 0 then x else if i == 1 then y else z
    }

    /** The state after k steps. */
    function Run(k: nat): Cast {
      if k == 0 then this else Run(k - 1).Next()
    }

    lemma RunNext(k: nat)
      ensures Run(0) == this && Run(k + 1) == Run(k).Next()
    {
    }

    /** The time at which the current voxel is left: the nearest crossing, or 1 at the end. */
    function ExitTime(): real {
      var t := match Nearest() case 0 => x.tMax case 1 => y.tMax case _ => z.tMax;
      if Done() || t.Inf? then 1.0 else t.r
    }

    /** The time at which the k-th voxel is entered. */
    function EntryTime(k: nat): real {
      if k == 0 then 0.0 else Run(k - 1).ExitTime()
    }

    ghost predicate Ok(o: Courses) { AxisOk(o.x, x) && AxisOk(o.y, y) && AxisOk(o.z, z) }

    /** Every instant t of the ray at which all last crossings are past and no next one is. */
    ghost predicate AllTimely(t: real) { 0.0 <= t <= 1.0 && Timely(x, t) && Timely(y, t) && Timely(z, t) }
  }

  function Init(start: Point, end: Point): Cast {
    Cast(InitAxis(start.x, end.x), InitAxis(start.y, end.y), InitAxis(start.z, end.z))
  }

  /** Two voxels that share a face differ by one along exactly one axis. */
  predicate ShareFace(a: Cast, b: Cast) {
    Abs(a.x.pos - b.x.pos) + Abs(a.y.pos - b.y.pos) + Abs(a.z.pos - b.z.pos) == 1
  }

  function CoursesOf(s: Point, e: Point): Courses {
    Courses(CourseOf(s.x, e.x), CourseOf(s.y, e.y), CourseOf(s.z, e.z))
  }

  /** Before the end the nearest crossing is due, is the least of the three, and its axis has cells left. */
  lemma NearestIsDue(o: Courses, c: Cast)
    requires c.Ok(o) && !c.Done()
    ensures var a := c.Axes(c.Nearest());
      && a.tMax == Fin(c.ExitTime()) && 0.0 < c.ExitTime() <= 1.0 && 0 < a.Remaining()
    ensures forall i :: 0 <= i < 3 && c.Axes(i).tMax.Fin? ==> c.ExitTime() <= c.Axes(i).tMax.r
  {
    CrossingDueIffRemaining(o.x, c.x);
    CrossingDueIffRemaining(o.y, c.y);
    CrossingDueIffRemaining(o.z, c.z);
  }

  /** A step before the end moves one cell closer along one axis and never past its target. */
  lemma NextAdvances(o: Courses, c: Cast)
    requires c.Ok(o) && !c.Done()
    ensures c.Next().Ok(o) && c.Next().Remaining() == c.Remaining() - 1
    ensures ShareFace(c, c.Next())
  {
    NearestIsDue(o, c);
    match c.Nearest()
    case 0 => AdvanceAxisOk(o.x, c.x);
    case 1 => AdvanceAxisOk(o.y, c.y);
    case _ => AdvanceAxisOk(o.z, c.z);
  }

  /** A run that starts in order stays so, gets one cell closer with each step, and so is done
      after exactly as many steps as there were cells to cross. */
  lemma {:induction false} RunReachesEnd(o: Courses, c: Cast, k: nat)
    requires c.Ok(o) && k <= c.Remaining()
    ensures c.Run(k).Ok(o) && c.Run(k).Remaining() == c.Remaining() - k
    ensures c.Run(k).Done() <==> k == c.Remaining()
  {
    if k != 0 {
      RunReachesEnd(o, c, k - 1);
      NextAdvances(o, c.Run(k - 1));
    }
  }

  /** The axis that crosses at the exit time is timely before and after; the others stay so. */
  lemma NextTimely(o: Courses, c: Cast, t: real)
    requires c.Ok(o) && !c.Done() && c.AllTimely(t) && t <= c.ExitTime()
    ensures c.AllTimely(c.ExitTime()) && c.Next().AllTimely(c.ExitTime())
  {
    NearestIsDue(o, c);
    assert c.x == c.Axes(0) && c.y == c.Axes(1) && c.z == c.Axes(2);
    CrossingDueIffRemaining(o.x, c.x);
    CrossingDueIffRemaining(o.y, c.y);
    CrossingDueIffRemaining(o.z, c.z);
  }

  /** Between a timely entry and the exit every instant is timely. */
  lemma StayTimely(o: Courses, c: Cast, entry: real, t: real)
    requires c.Ok(o) && c.AllTimely(entry) && entry <= t <= c.ExitTime()
    ensures c.AllTimely(t)
  {
    if c.Done() {
      CrossingDueIffRemaining(o.x, c.x);
      CrossingDueIffRemaining(o.y, c.y);
      CrossingDueIffRemaining(o.z, c.z);
    } else {
      NearestIsDue(o, c);
      assert c.x == c.Axes(0) && c.y == c.Axes(1) && c.z == c.Axes(2);
    }
  }

  lemma {:induction false} EntryTimely(o: Courses, c: Cast, k: nat)
    requires c.Ok(o) && c.AllTimely(0.0) && k <= c.Remaining()
    ensures c.Run(k).AllTimely(c.EntryTime(k)) && c.EntryTime(k) <= c.Run(k).ExitTime()
  {
    if k != 0 {
      EntryTimely(o, c, k - 1);
      RunReachesEnd(o, c, k - 1);
      NextTimely(o, c.Run(k - 1), c.EntryTime(k - 1));
    }
    RunReachesEnd(o, c, k);
    if !c.Run(k).Done() {
      NearestIsDue(o, c.Run(k));
      assert Timely(c.Run(k).Axes(c.Run(k).Nearest()), c.EntryTime(k));
    }
  }

  lemma InitOk(s: Point, e: Point)
    ensures Init(s, e).Ok(CoursesOf(s, e)) && Init(s, e).AllTimely(0.0)
  {
    InitAxisOk(s.x, e.x);
    InitAxisOk(s.y, e.y);
    InitAxisOk(s.z, e.z);
    var o, c := CoursesOf(s, e), Init(s, e);
    FirstCellTimely(o.x, c.x);
    FirstCellTimely(o.y, c.y);
    FirstCellTimely(o.z, c.z);
  }

  /** The traversal reaches the end voxel after exactly |dx| + |dy| + |dz| steps and not before,
      each step crossing one face. */
  lemma TraversalReachesEnd(s: Point, e: Point, k: nat)
    requires k <= Init(s, e).Remaining()
    ensures Init(s, e).Remaining()
            == Abs(e.x.Floor - s.x.Floor) + Abs(e.y.Floor - s.y.Floor) + Abs(e.z.Floor - s.z.Floor)
    ensures var c := Init(s, e).Run(k);
      && c.Remaining() == Init(s, e).Remaining() - k
      && (c.Done() <==> k == Init(s, e).Remaining())
      && (c.Done() <==> c.x.pos == e.x.Floor && c.y.pos == e.y.Floor && c.z.pos == e.z.Floor)
    ensures k < Init(s, e).Remaining() ==> ShareFace(Init(s, e).Run(k), Init(s, e).Run(k + 1))
  {
    hide Mod1, Intbound, Cast.Next, ShareFace;
    InitOk(s, e);
    RunReachesEnd(CoursesOf(s, e), Init(s, e), k);
    if k < Init(s, e).Remaining() {
      NextAdvances(CoursesOf(s, e), Init(s, e).Run(k));
    }
  }

  /** An axis travelled downwards from an integer coordinate. */
  predicate StartsOnFace(s: real, e: real) { e.Floor < s.Floor && s == s.Floor as real }

  /** Where the traversal acts as if the ray began: one cell up on an axis that starts on a face. */
  function Origin(s: real, e: real): (v: real)
    ensures Leads(CourseOf(s, e), v)
  {
    Mod1IsFraction(s);
    Mod1IsFraction(-s);
    FloorOfNegative(s);
    if StartsOnFace(s, e) then s + 1.0 else s
  }

  /** The coordinate of a ray from v at time t; its direction is the difference of end and start cell. */
  function Along(v: real, s: real, e: real, t: real): real { v + t * (e.Floor - s.Floor) as real }

  function RayPoint(s: Point, e: Point, t: real): Point {
    Point(Along(s.x, s.x, e.x, t), Along(s.y, s.y, e.y, t), Along(s.z, s.z, e.z, t))
  }

  function TracedPoint(s: Point, e: Point, t: real): Point {
    Point(Along(Origin(s.x, e.x), s.x, e.x, t), Along(Origin(s.y, e.y), s.y, e.y, t),
          Along(Origin(s.z, e.z), s.z, e.z, t))
  }

  predicate InVoxel(p: Point, c: Cast) { InCell(p.x, c.x.pos) && InCell(p.y, c.y.pos) && InCell(p.z, c.z.pos) }

  predicate NoAxisStartsOnFace(s: Point, e: Point) {
    !StartsOnFace(s.x, e.x) && !StartsOnFace(s.y, e.y) && !StartsOnFace(s.z, e.z)
  }

  /** The ray is in the k-th voxel from its entry time to its exit time. */
  predicate DuringStay(s: Point, e: Point, k: nat, t: real) {
    k <= Init(s, e).Remaining() && Init(s, e).EntryTime(k) <= t <= Init(s, e).Run(k).ExitTime()
  }

  lemma TracedAxisInCell(s: real, e: real, a: Axis, t: real)
    requires AxisOk(CourseOf(s, e), a) && Timely(a, t)
    ensures InCell(Along(Origin(s, e), s, e, t), a.pos)
  {
    hide Mod1, Origin;
    TimelyInCell(CourseOf(s, e), a, Origin(s, e), t);
  }

  /** Between entering and leaving a voxel the traced ray stays in its closed cube. */
  lemma TracedRayInVoxel(s: Point, e: Point, k: nat, t: real)
    requires DuringStay(s, e, k, t)
    ensures 0.0 <= t <= 1.0 && InVoxel(TracedPoint(s, e, t), Init(s, e).Run(k))
  {
    var o, c := CoursesOf(s, e), Init(s, e).Run(k);
    InitOk(s, e);
    RunReachesEnd(o, Init(s, e), k);
    EntryTimely(o, Init(s, e), k);
    StayTimely(o, c, Init(s, e).EntryTime(k), t);
    TracedAxisInCell(s.x, e.x, c.x, t);
    TracedAxisInCell(s.y, e.y, c.y, t);
    TracedAxisInCell(s.z, e.z, c.z, t);
  }

  /** The stays follow each other without a gap: every instant up to an exit falls in one. */
  lemma {:induction false} StayAt(c: Cast, k: nat, t: real) returns (j: nat)
    requires 0.0 <= t <= c.Run(k).ExitTime()
    ensures j <= k && c.EntryTime(j) <= t <= c.Run(j).ExitTime()
  {
    if k == 0 || c.EntryTime(k) <= t {
      j := k;
    } else {
      j := StayAt(c, k - 1, t);
    }
  }

  /** Unless an axis starts on a face, the visited voxels cover the whole segment. */
  lemma SegmentCovered(s: Point, e: Point, t: real) returns (j: nat)
    requires NoAxisStartsOnFace(s, e) && 0.0 <= t <= 1.0
    ensures j <= Init(s, e).Remaining() && InVoxel(RayPoint(s, e, t), Init(s, e).Run(j))
  {
    var n := Init(s, e).Remaining();
    TraversalReachesEnd(s, e, n);
    j := StayAt(Init(s, e), n, t);
    TracedRayInVoxel(s, e, j, t);
  }

  /** Every visited voxel holds the ray during its whole stay. */
  ghost predicate StaysInside(s: Point, e: Point) {
    forall k: nat, t: real :: DuringStay(s, e, k, t) ==> InVoxel(RayPoint(s, e, t), Init(s, e).Run(k))
  }

  /** The traversal follows the ray exactly when no axis is travelled downwards from an integer. */
  lemma StaysInsideIff(s: Point, e: Point)
    ensures StaysInside(s, e) <==> NoAxisStartsOnFace(s, e)
  {
    if NoAxisStartsOnFace(s, e) {
      forall k: nat, t: real | DuringStay(s, e, k, t)
        ensures InVoxel(RayPoint(s, e, t), Init(s, e).Run(k))
      {
        TracedRayInVoxel(s, e, k, t);
      }
    } else {
      var c, t := Init(s, e), Init(s, e).ExitTime();
      assert c.Run(0) == c;
      InitOk(s, e);
      NearestIsDue(CoursesOf(s, e), c);
      LeavesFirstCell(s.x, e.x, t);
      LeavesFirstCell(s.y, e.y, t);
      LeavesFirstCell(s.z, e.z, t);
      assert DuringStay(s, e, 0, t) && !InVoxel(RayPoint(s, e, t), c.Run(0));
    }
  }

  lemma LeavesFirstCell(s: real, e: real, t: real)
    requires 0.0 < t
    ensures StartsOnFace(s, e) ==> !InCell(Along(s, s, e, t), s.Floor)
  {
  }

  /** A ray going down from x = 1 and up from y = 1/2 visits the voxel (1, 1), which it never touches. */
  lemma VoxelOffTheRay()
    ensures var s, e := Point(1.0, 0.5, 0.5), Point(0.5, 1.5, 0.5);
      && Init(s, e).Run(1).x.pos == 1 && Init(s, e).Run(1).y.pos == 1 && 1 <= Init(s, e).Remaining()
      && forall t: real :: !InVoxel(RayPoint(s, e, t), Init(s, e).Run(1))
  {
    var s, e := Point(1.0, 0.5, 0.5), Point(0.5, 1.5, 0.5);
    FirstStepGoesUp();
    forall t: real
      ensures !InVoxel(RayPoint(s, e, t), Init(s, e).Run(1))
    {
      NeverInOneOne(t);
    }
  }

  lemma FirstStepGoesUp()
    ensures var c := Init(Point(1.0, 0.5, 0.5), Point(0.5, 1.5, 0.5));
      c.Run(1).x.pos == 1 && c.Run(1).y.pos == 1 && 1 <= c.Remaining()
  {
    var c := Init(Point(1.0, 0.5, 0.5), Point(0.5, 1.5, 0.5));
    DownFromOne();
    UpFromHalf();
    StillAtHalf();
    hide InitAxis, Intbound, Mod1;
    assert c.x.tMax == Fin(1.0) && c.y.tMax == Fin(0.5) && c.z.tMax == Inf;
    assert c.Nearest() == 1;
    assert c.Run(1) == c.Run(0).Next() == c.(y := c.y.Advance());
  }

  lemma DownFromOne()
    ensures InitAxis(1.0, 0.5).pos == 1 && InitAxis(1.0, 0.5).tMax == Fin(1.0) && InitAxis(1.0, 0.5).Remaining() == 1
  {
    Mod1IsFraction(-1.0);
    assert Intbound(1.0, -1.0) == Intbound(-1.0, 1.0);
    hide Mod1;
  }

  lemma UpFromHalf()
    ensures InitAxis(0.5, 1.5).pos == 0 && InitAxis(0.5, 1.5).step == 1 && InitAxis(0.5, 1.5).tMax == Fin(0.5)
  {
  }

  lemma StillAtHalf()
    ensures InitAxis(0.5, 0.5).tMax == Inf
  {
  }

  lemma NeverInOneOne(t: real)
    ensures !(InCell(Along(1.0, 1.0, 0.5, t), 1) && InCell(Along(0.5, 0.5, 1.5, t), 1))
  {
  }

  class RayCaster {
    var start: Point
    var end: Point
    var x: Axis
    var y: Axis
    var z: Axis

    function State(): Cast
      reads this
    {
      Cast(x, y, z)
    }

    /** Sets up a ray; false means that it starts in its last voxel. */
    method SetInput(s: Point, e: Point) returns (moves: bool)
      modifies this
      ensures start == s && end == e && State() == Init(s, e)
      ensures moves <==> !State().Done()
    {
      start, end := s, e;
      x, y, z := InitAxis(s.x, e.x), InitAxis(s.y, e.y), InitAxis(s.z, e.z);
      return !(x.step == 0 && y.step == 0 && z.step == 0);
    }

    /** Reports the current voxel; moves on unless it is the last. */
    method Step() returns (more: bool, voxel: (int, int, int))
      modifies this
      ensures start == old(start) && end == old(end)
      ensures voxel == old((x.pos, y.pos, z.pos))
      ensures more <==> !old(State()).Done()
      ensures State() == if more then old(State()).Next() else old(State())
    {
      voxel := (x.pos, y.pos, z.pos);
      if x.pos == x.end && y.pos == y.end && z.pos == z.end {
        return false, voxel;
      }
      if x.tMax.Below(y.tMax) {
        if x.tMax.Below(z.tMax) {
          x := x.(pos := x.pos + x.step, tMax := Later(x.tMax, x.tDelta));
        } else {
          z := z.(pos := z.pos + z.step, tMax := Later(z.tMax, z.tDelta));
        }
      } else {
        if y.tMax.Below(z.tMax) {
          y := y.(pos := y.pos + y.step, tMax := Later(y.tMax, y.tDelta));
        } else {
          z := z.(pos := z.pos + z.step, tMax := Later(z.tMax, z.tDelta));
        }
      }
      more := true;
    }
  }

  /** Steps a caster while it reports more, as raycastProcess does: the voxels are those of the run, in
      order, without the one in which the ray ends. */
  method Traverse(s: Point, e: Point) returns (visited: seq<(int, int, int)>)
    ensures |visited| == Init(s, e).Remaining()
    ensures forall k :: 0 <= k < |visited| ==>
      var c := Init(s, e).Run(k); visited[k] == (c.x.pos, c.y.pos, c.z.pos)
    ensures var c := Init(s, e).Run(|visited|); c.x.pos == e.x.Floor && c.y.pos == e.y.Floor && c.z.pos == e.z.Floor
    ensures forall k :: 0 <= k < |visited| ==> ShareFace(Init(s, e).Run(k), Init(s, e).Run(k + 1))
  {
    hide Init, Cast.Next, Cast.Remaining, Cast.Run, Cast.Done, ShareFace;
    var caster := new RayCaster;
    var _ := caster.SetInput(s, e);
    ghost var n := Init(s, e).Remaining();
    visited := [];
    TraversalReachesEnd(s, e, 0);
    Init(s, e).RunNext(0);
    var more, voxel := caster.Step();
    while more
      invariant |visited| <= n && (more <==> |visited| < n)
      invariant var c := Init(s, e).Run(|visited|); voxel == (c.x.pos, c.y.pos, c.z.pos)
      invariant caster.State() == if more then Init(s, e).Run(|visited| + 1) else Init(s, e).Run(n)
      invariant forall k :: 0 <= k < |visited| ==>
        var c := Init(s, e).Run(k); visited[k] == (c.x.pos, c.y.pos, c.z.pos)
      invariant forall k :: 0 <= k < |visited| ==> ShareFace(Init(s, e).Run(k), Init(s, e).Run(k + 1))
      decreases n - |visited|
    {
      TraversalReachesEnd(s, e, |visited|);
      visited := visited + [voxel];
      TraversalReachesEnd(s, e, |visited|);
      Init(s, e).RunNext(|visited|);
      more, voxel := caster.Step();
    }
    TraversalReachesEnd(s, e, n);
  }

  /** The voxel's lower corner is in the half-open box from lo to hi. */
  predicate InBox(c: Cast, lo: Point, hi: Point) {
    && lo.x <= c.x.pos as real < hi.x && lo.y <= c.y.pos as real < hi.y && lo.z <= c.z.pos as real < hi.z
  }

  function Squared(p: Point, q: Point): real {
    (p.x - q.x) * (p.x - q.x) + (p.y - q.y) * (p.y - q.y) + (p.z - q.z) * (p.z - q.z)
  }

  /** The squared distance from the start at which a list is cut: that of the end, or, where the code
      compares a distance with a squared one, its square. */
  function Cutoff(s: Point, e: Point, squared: bool): real {
    if squared then Squared(e, s) else Squared(e, s) * Squared(e, s)
  }

  /** The voxel's lower corner is beyond the cut-off. */
  predicate Beyond(c: Cast, s: Point, e: Point, squared: bool) {
    Squared(Point(c.x.pos as real, c.y.pos as real, c.z.pos as real), s) > Cutoff(s, e, squared)
  }

  /** The k-th voxel of the run ends the list. */
  predicate Cuts(s: Point, e: Point, lo: Point, hi: Point, k: nat, squared: bool) {
    var c := Init(s, e).Run(k);
    InBox(c, lo, hi) && Beyond(c, s, e, squared)
  }

  /** The voxels of the first n states of a run that are in the box, in order. */
  function InBoxVoxels(c: Cast, lo: Point, hi: Point, n: nat): seq<(int, int, int)> {
    if n == 0 then []
    else
      var k := c.Run(n - 1);
      InBoxVoxels(c, lo, hi, n - 1) + if InBox(k, lo, hi) then [(k.x.pos, k.y.pos, k.z.pos)] else []
  }

  const MAX_VOXELS := 1500

  /** The output of a ray cast that looked at the voxels of the run up to the n-th: none for a ray inside
      one voxel, else those in the box, up to the end of the run or the first voxel that cuts the list. */
  ghost predicate Listed(s: Point, e: Point, lo: Point, hi: Point, output: seq<(int, int, int)>, n: nat, squared: bool,
                         thrown: bool)
  {
    var c, total := Init(s, e), Init(s, e).Remaining();
    if c.Done() then !thrown && output == []
    else
      && n <= total && output == InBoxVoxels(c, lo, hi, n + 1)
      && (forall k :: 0 <= k < n ==> !Cuts(s, e, lo, hi, k, squared))
      && (thrown || n == total || Cuts(s, e, lo, hi, n, squared))
  }

  /** In coordinates: a voxel of the run ends the list when its lower corner is in the half-open box and farther from
      the start than the end is, or in the other form farther than the squared length of the ray. */
  lemma CutsIff(s: Point, e: Point, lo: Point, hi: Point, k: nat, squared: bool)
    ensures var c := Init(s, e).Run(k);
      var (x, y, z) := (c.x.pos as real, c.y.pos as real, c.z.pos as real);
      var corner := (x - s.x) * (x - s.x) + (y - s.y) * (y - s.y) + (z - s.z) * (z - s.z);
      var ray := (e.x - s.x) * (e.x - s.x) + (e.y - s.y) * (e.y - s.y) + (e.z - s.z) * (e.z - s.z);
      Cuts(s, e, lo, hi, k, squared) <==>
        && lo.x <= x < hi.x && lo.y <= y < hi.y && lo.z <= z < hi.z
        && if squared then corner > ray else corner > ray * ray
  {
    hide Init, Cast.Run;
  }

  /** One of the first n states of the run stands in the voxel. */
  ghost predicate Visits(c: Cast, n: nat, v: (int, int, int)) {
    exists k :: 0 <= k < n && (c.Run(k).x.pos, c.Run(k).y.pos, c.Run(k).z.pos) == v
  }

  lemma VisitsNext(c: Cast, n: nat, v: (int, int, int))
    requires 0 < n
    ensures Visits(c, n, v) <==>
            Visits(c, n - 1, v) || (c.Run(n - 1).x.pos, c.Run(n - 1).y.pos, c.Run(n - 1).z.pos) == v
  {
    hide Cast.Run;
    if Visits(c, n, v) {
      var k :| 0 <= k < n && (c.Run(k).x.pos, c.Run(k).y.pos, c.Run(k).z.pos) == v;
      assert k < n - 1 || k == n - 1;
    }
  }

  /** A list holds exactly the voxels of the run up to the n-th whose lower corner is in the half-open box. */
  lemma {:induction false} ListHolds(c: Cast, lo: Point, hi: Point, n: nat, v: (int, int, int))
    ensures v in InBoxVoxels(c, lo, hi, n) <==>
            && lo.x <= v.0 as real < hi.x && lo.y <= v.1 as real < hi.y && lo.z <= v.2 as real < hi.z
            && Visits(c, n, v)
  {
    if n != 0 {
      ListHolds(c, lo, hi, n - 1, v);
      VisitsNext(c, n, v);
      hide Cast.Run, Visits;
    }
  }

  /** Unless it gave up, a ray cast reports every in-box voxel of the run exactly when none of them but
      the last is beyond the cut-off. */
  lemma ListWholeIff(s: Point, e: Point, lo: Point, hi: Point, output: seq<(int, int, int)>, n: nat, squared: bool)
    requires Listed(s, e, lo, hi, output, n, squared, false) && !Init(s, e).Done()
    ensures n == Init(s, e).Remaining() <==>
            forall k :: 0 <= k < Init(s, e).Remaining() ==> !Cuts(s, e, lo, hi, k, squared)
  {
  }

  /** What the n-th state of a run adds to a list, and whether it ends it. */
  lemma OneMoreVoxel(s: Point, e: Point, lo: Point, hi: Point, n: nat, squared: bool)
    ensures var c := Init(s, e); var k := c.Run(n);
      && c.Run(0) == c && c.Run(n + 1) == k.Next() && InBoxVoxels(c, lo, hi, 0) == []
      && InBoxVoxels(c, lo, hi, n + 1)
         == InBoxVoxels(c, lo, hi, n) + (if InBox(k, lo, hi) then [(k.x.pos, k.y.pos, k.z.pos)] else [])
      && (Cuts(s, e, lo, hi, n, squared) <==> InBox(k, lo, hi) && Beyond(k, s, e, squared))
  {
  }

  /** Raycast with a list, which gives up when it grows too long. */
  method Raycast(s: Point, e: Point, lo: Point, hi: Point)
    returns (thrown: bool, output: seq<(int, int, int)>, ghost n: nat)
    ensures Listed(s, e, lo, hi, output, n, true, thrown)
    ensures !Init(s, e).Done() ==>
      (thrown <==> |output| > MAX_VOXELS && InBox(Init(s, e).Run(n), lo, hi) && !Cuts(s, e, lo, hi, n, true))
    ensures |output| <= 1501 && (thrown ==> |output| == 1501)
  {
    var c := Init(s, e);
    thrown, output, n := false, [], 0;
    StepsTell(s, e);
    if c.x.step == 0 && c.y.step == 0 && c.z.step == 0 {
      return;
    }
    hide Init, Cast.Next, Cast.Remaining, Cast.Run, Cast.Done, InBox, InBoxVoxels, Beyond, Cuts;
    OneMoreVoxel(s, e, lo, hi, 0, true);
    while true
      invariant n <= Init(s, e).Remaining() && c == Init(s, e).Run(n)
      invariant !thrown && output == InBoxVoxels(Init(s, e), lo, hi, n) && |output| <= MAX_VOXELS
      invariant forall k :: 0 <= k < n ==> !Cuts(s, e, lo, hi, k, true)
      decreases Init(s, e).Remaining() - n
    {
      TraversalReachesEnd(s, e, n);
      OneMoreVoxel(s, e, lo, hi, n, true);
      if InBox(c, lo, hi) {
        output := output + [(c.x.pos, c.y.pos, c.z.pos)];
        if Beyond(c, s, e, true) {
          return;
        }
        if |output| > MAX_VOXELS {
          thrown := true;
          return;
        }
      }
      if c.x.pos == e.x.Floor && c.y.pos == e.y.Floor && c.z.pos == e.z.Floor {
        return;
      }
      c, n := c.Next(), n + 1;
    }
  }

  /** The list stands in the buffer from count on, and nothing else has changed. */
  ghost predicate Placed<T>(before: seq<T>, list: seq<T>, count: nat, after: seq<T>) {
    && count + |list| <= |before| == |after|
    && forall i :: 0 <= i < |after| ==> after[i] == if count <= i < count + |list| then list[i - count] else before[i]
  }

  lemma PlacedNext<T>(before: seq<T>, list: seq<T>, count: nat, after: seq<T>, v: T)
    requires Placed(before, list, count, after) && count + |list| < |before|
    ensures Placed(before, list + [v], count, after[count + |list| := v])
  {
  }

  lemma PlacedNothing<T>(before: seq<T>, count: nat)
    requires count <= |before|
    ensures Placed(before, [], count, before)
  {
  }

  lemma {:induction false} FewInBox(c: Cast, lo: Point, hi: Point, n: nat)
    ensures |InBoxVoxels(c, lo, hi, n)| <= n
  {
    if n != 0 {
      FewInBox(c, lo, hi, n - 1);
    }
  }

  /** Raycast into an array behind the voxels it holds already; it compares the distance of a corner with
      the squared length of the ray. The array has room for every voxel of the ray. */
  method RaycastInto(s: Point, e: Point, lo: Point, hi: Point, output: array<(int, int, int)>, count: nat)
    returns (newCount: nat, ghost list: seq<(int, int, int)>, ghost n: nat)
    requires count + Init(s, e).Remaining() + 1 <= output.Length
    modifies output
    ensures Placed(old(output[..]), list, count, output[..]) && newCount == count + |list|
    ensures Listed(s, e, lo, hi, list, n, false, false)
  {
    var c := Init(s, e);
    newCount, list, n := count, [], 0;
    StepsTell(s, e);
    PlacedNothing(output[..], count);
    if c.x.step == 0 && c.y.step == 0 && c.z.step == 0 {
      return;
    }
    hide Init, Cast.Next, Cast.Remaining, Cast.Run, Cast.Done, InBox, InBoxVoxels, Beyond, Cuts, Placed;
    OneMoreVoxel(s, e, lo, hi, 0, false);
    while true
      invariant n <= Init(s, e).Remaining() && c == Init(s, e).Run(n)
      invariant list == InBoxVoxels(Init(s, e), lo, hi, n) && newCount == count + |list|
      invariant Placed(old(output[..]), list, count, output[..])
      invariant forall k :: 0 <= k < n ==> !Cuts(s, e, lo, hi, k, false)
      decreases Init(s, e).Remaining() - n
    {
      TraversalReachesEnd(s, e, n);
      OneMoreVoxel(s, e, lo, hi, n, false);
      if InBox(c, lo, hi) {
        FewInBox(Init(s, e), lo, hi, n);
        ghost var voxel := (c.x.pos, c.y.pos, c.z.pos);
        PlacedNext(old(output[..]), list, count, output[..], voxel);
        output[newCount] := (c.x.pos, c.y.pos, c.z.pos);
        newCount, list := newCount + 1, list + [voxel];
        if Beyond(c, s, e, false) {
          return;
        }
      }
      if c.x.pos == e.x.Floor && c.y.pos == e.y.Floor && c.z.pos == e.z.Floor {
        return;
      }
      c, n := c.Next(), n + 1;
    }
  }

  lemma StepsTell(s: Point, e: Point)
    ensures var c := Init(s, e); c.x.step == 0 && c.y.step == 0 && c.z.step == 0 <==> c.Done()
  {
  }

  /** The cut-off can drop the end voxel: whatever the box around both voxels, the ray from the middle of
      one cell to the lower face of the next is listed as its first voxel alone. */
  lemma ListCutShort(lo: Point, hi: Point, output: seq<(int, int, int)>, n: nat, squared: bool)
    requires var (s, e) := (Point(0.75, 0.5, 0.5), Point(1.0, 0.5, 0.5));
      && InBox(Init(s, e), lo, hi) && InBox(Init(s, e).Run(1), lo, hi)
      && Listed(s, e, lo, hi, output, n, squared, false)
    ensures var c := Init(Point(0.75, 0.5, 0.5), Point(1.0, 0.5, 0.5)).Run(1);
      output == [(0, 0, 0)] && (c.x.pos, c.y.pos, c.z.pos) == (1, 0, 0)
  {
    var s, e := Point(0.75, 0.5, 0.5), Point(1.0, 0.5, 0.5);
    var c := Init(s, e);
    NearFace(squared);
    hide Init, Cast.Next, Cast.Remaining, Beyond;
    assert c.Run(0) == c && Cuts(s, e, lo, hi, 0, squared);
    assert n == 0;
    assert InBoxVoxels(c, lo, hi, 1) == InBoxVoxels(c, lo, hi, 0) + [(0, 0, 0)];
  }

  /** That ray ends in the next voxel, and the corner of the first one is beyond its end. */
  lemma NearFace(squared: bool)
    ensures var (s, e) := (Point(0.75, 0.5, 0.5), Point(1.0, 0.5, 0.5)); var (c, d) := (Init(s, e), Init(s, e).Run(1));
      && c.Remaining() == 1 && !c.Done() && (c.x.pos, c.y.pos, c.z.pos) == (0, 0, 0)
      && (d.x.pos, d.y.pos, d.z.pos) == (1, 0, 0) && Beyond(c, s, e, squared)
  {
    var s, e := Point(0.75, 0.5, 0.5), Point(1.0, 0.5, 0.5);
    StartCells(0.75, 1.0, 0, 1);
    StartCells(0.5, 0.5, 0, 0);
    TraversalReachesEnd(s, e, 1);
    CornerBeyond(Init(s, e), squared);
    hide InitAxis, Cast.Next, Beyond;
  }

  lemma CornerBeyond(c: Cast, squared: bool)
    requires c.x.pos == 0 && c.y.pos == 0 && c.z.pos == 0
    ensures Beyond(c, Point(0.75, 0.5, 0.5), Point(1.0, 0.5, 0.5), squared)
  {
  }

  lemma StartCells(s: real, e: real, i: int, j: int)
    requires i as real <= s < i as real + 1.0 && j as real <= e < j as real + 1.0
    ensures InitAxis(s, e).pos == i && InitAxis(s, e).end == j
  {
  }
}
