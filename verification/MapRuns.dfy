/** What a map says after any run of frames and resets. */
module MapRuns {
  import opened Basics
  import opened VoxelWindow
  import opened Sliding
  import opened Inflation
  import opened OccupancyMap
  import opened Evidence

  datatype Op =
    | Scan(points: nat, rayPosIdx: Vec, marks: seq<Mark>, rangeMinIdx: Vec, rangeMaxIdx: Vec)
    | ResetBox(minPosIdx: Vec, maxPosIdx: Vec)
    | ResetAll

  /** Where the window stands, and every place it has stood at since the last full reset. */
  datatype Trail = Trail(params: Params, num: Vec, origin: Vec, since: seq<Window>) {
    function Win(): Window { Window(origin.Minus(Vec(num.x / 2, num.y / 2, num.z / 2)), num) }

    /** A jump is a full reset: it starts a new trail. */
    function Next(op: Op): Trail {
      match op
      case Scan(points, rayPosIdx, _, _, _) =>
        var shift := rayPosIdx.Minus(origin);
        if points == 0 || !params.Moves(shift) then this
        else if Partial(Win(), shift) then
          this.(origin := rayPosIdx, since := since + [Moved(Win(), shift)])
        else
          this.(origin := rayPosIdx, since := [Moved(Win(), shift)])
      case ResetBox(_, _) => this
      case ResetAll => this.(since := [Win()])
    }

    /** The voxel has been in the window ever since the last full reset. */
    ghost predicate Stayed(g: Vec) { forall i :: 0 <= i < |since| ==> since[i].InMap(g) }
  }

  ghost function Follow(t: Trail, ops: seq<Op>): Trail {
    if ops == [] then t else Follow(t, ops[..|ops| - 1]).Next(ops[|ops| - 1])
  }

  /** The map stands where the trail says, and its recycled voxels are those that have not stayed. */
  ghost predicate Agrees(grid: GridMap, t: Trail)
    reads grid
  {
    && t.params == grid.params && t.num == grid.num && t.origin == grid.originIdx && t.Win() == grid.Win()
    && forall g :: t.Win().InMap(g) ==> (g in grid.recycled <==> !t.Stayed(g))
  }

  /** A fresh map has stood at one place only. */
  lemma FreshAgrees(grid: GridMap)
    requires grid.LayerOk() && grid.recycled == {}
    ensures Agrees(grid, Trail(grid.params, grid.num, grid.originIdx, [grid.Win()]))
  {
    var t := Trail(grid.params, grid.num, grid.originIdx, [grid.Win()]);
    assert t.Win() == grid.Win() == t.since[0];
  }

  /** A slide moves the trail as it moves the map. */
  lemma SlideAgrees(t: Trail, op: Op, before: set<Vec>, after: set<Vec>)
    requires op.Scan? && op.points != 0 && t.params.Moves(op.rayPosIdx.Minus(t.origin)) && t.Win().Valid()
    requires forall g :: t.Win().InMap(g) ==> (g in before <==> !t.Stayed(g))
    requires var shift := op.rayPosIdx.Minus(t.origin);
      if Partial(t.Win(), shift) then RecycledKept(t.Win(), Moved(t.Win(), shift), before, after) else after == {}
    requires t.since != [] && t.since[|t.since| - 1] == t.Win()
    ensures var u := t.Next(op);
      u.Win() == Moved(t.Win(), op.rayPosIdx.Minus(t.origin)) && u.since != [] && u.since[|u.since| - 1] == u.Win()
    ensures forall g :: t.Next(op).Win().InMap(g) ==> (g in after <==> !t.Next(op).Stayed(g))
  {
    var u := t.Next(op);
    forall g | u.Win().InMap(g)
      ensures g in after <==> !u.Stayed(g)
    {
      if Partial(t.Win(), op.rayPosIdx.Minus(t.origin)) {
        assert t.since == u.since[..|t.since|];
        if t.Stayed(g) {
          assert t.since[|t.since| - 1].InMap(g);
        } else {
          var i :| 0 <= i < |t.since| && !t.since[i].InMap(g);
          assert !u.since[i].InMap(g);
        }
      }
    }
  }

  /** An index moved to the nearest one of the window. */
  ghost function Bounded(w: Window, id: Vec): Vec {
    Vec(Clamp(id.x, w.min.x, w.Max().x), Clamp(id.y, w.min.y, w.Max().y), Clamp(id.z, w.min.z, w.Max().z))
  }

  /** Both ends are in order and the range between them meets the one from min to max. */
  ghost predicate Meets(lo: int, hi: int, min: int, max: int) { lo <= hi && lo <= max && min <= hi }

  /** Moving the corners of a box into the window keeps the voxels it has there exactly when it has some, or when
      the moved corners enclose nothing; a box beside the window is moved onto its border. */
  lemma BoundedBoxIff(w: Window, lo: Vec, hi: Vec)
    requires w.Valid()
    ensures var (min, max, lo', hi') := (w.min, w.Max(), Bounded(w, lo), Bounded(w, hi));
      (forall g :: w.InMap(g) ==> (InBox(lo', hi', g) <==> InBox(lo, hi, g)))
      <==> (Meets(lo.x, hi.x, min.x, max.x) && Meets(lo.y, hi.y, min.y, max.y) && Meets(lo.z, hi.z, min.z, max.z))
           || hi'.x < lo'.x || hi'.y < lo'.y || hi'.z < lo'.z
  {
    var (min, max, lo', hi') := (w.min, w.Max(), Bounded(w, lo), Bounded(w, hi));
    if lo'.x <= hi'.x && lo'.y <= hi'.y && lo'.z <= hi'.z {
      assert w.InMap(lo') && InBox(lo', hi', lo');
    }
  }

  /** A box beside a window of two voxels that loses one of them. */
  lemma BesideTheWindow()
    ensures var (w, lo, hi, g) := (Window(Vec(0, 0, 0), Vec(2, 1, 1)), Vec(5, 0, 0), Vec(6, 0, 0), Vec(1, 0, 0));
      w.Valid() && w.InMap(g) && !InBox(lo, hi, g) && InBox(Bounded(w, lo), Bounded(w, hi), g)
  {
  }

  /** What a frame says of a voxel, when the map stands in window w. */
  ghost function LookAt(op: Op, w: Window, g: Vec): Look
    requires op.Scan?
  {
    Look(Marks(op.marks, g, true), Marks(op.marks, g, false),
         InBox(Bounded(w, op.rangeMinIdx), Bounded(w, op.rangeMaxIdx), g))
  }

  /** The log-odds of a voxel after one operation; one outside the window comes in unknown. */
  ghost function OddsNext(t: Trail, op: Op, g: Vec, odds: real): real {
    match op
    case Scan(points, _, marks, _, _) =>
      if points == 0 then odds
      else
        var slid := if t.Win().InMap(g) then odds else t.params.Unknown();
        var look := LookAt(op, t.Next(op).Win(), g);
        if look.total == 0 then slid else Resolve(t.params, slid, look.hits, look.total, look.inLocal)
    case ResetBox(lo, hi) => if InBox(Bounded(t.Win(), lo), Bounded(t.Win(), hi), g) then t.params.Unknown() else odds
    case ResetAll => t.params.Unknown()
  }

  ghost function OddsAfter(t: Trail, ops: seq<Op>, g: Vec, odds: real): real {
    if ops == [] then odds
    else
      var front := ops[..|ops| - 1];
      OddsNext(Follow(t, front), ops[|ops| - 1], g, OddsAfter(t, front, g, odds))
  }

  /** The log-odds that buffers hold for a voxel; unknown outside the window. */
  ghost function OddsAt(p: Params, w: Window, occ: seq<real>, g: Vec): real
    requires w.Valid() && |occ| == w.Size()
  {
    if w.InMap(g) then Stored(w, occ, g) else p.Unknown()
  }

  /** The log-odds of every voxel have become what the operation makes of the old ones. */
  ghost predicate Became(t: Trail, op: Op, from: Window, before: seq<real>, to: Window, after: seq<real>) {
    && from.Valid() && to.Valid() && |before| == from.Size() && |after| == to.Size()
    && forall g :: to.InMap(g) ==> Stored(to, after, g) == OddsNext(t, op, g, OddsAt(t.params, from, before, g))
  }

  /** The same for a run. */
  ghost predicate BecameAfter(t: Trail, ops: seq<Op>, from: Window, before: seq<real>, to: Window, after: seq<real>) {
    && from.Valid() && to.Valid() && |before| == from.Size() && |after| == to.Size()
    && forall g :: to.InMap(g) ==> Stored(to, after, g) == OddsAfter(t, ops, g, OddsAt(t.params, from, before, g))
  }

  lemma ScanBecomes(t: Trail, op: Op, from: Window, before: seq<real>, to: Window, after: seq<real>)
    requires op.Scan? && op.points != 0 && t.Win() == from && t.Next(op).Win() == to
    requires FrameOdds(t.params, from, to, before, after, op.marks, Bounded(to, op.rangeMinIdx),
                       Bounded(to, op.rangeMaxIdx))
    ensures Became(t, op, from, before, to, after)
  {
    hide Marks, Resolve, Stored;
    forall g | to.InMap(g)
      ensures Stored(to, after, g) == OddsNext(t, op, g, OddsAt(t.params, from, before, g))
    {
      assert Marks(op.marks, g, false) == LookAt(op, to, g).total;
    }
  }

  lemma BoxEmptied(t: Trail, op: Op, w: Window, before: seq<real>, after: seq<real>)
    requires op.ResetBox? && t.Win() == w && w.Valid() && |before| == w.Size()
    requires Emptied(w.Cells(), t.params.Unknown(), Bounded(w, op.minPosIdx), Bounded(w, op.maxPosIdx), before, after)
    ensures Became(t, op, w, before, w, after)
  {
    w.CellsAreWindow();
  }

  lemma NothingBecomes(t: Trail, op: Op, w: Window, occ: seq<real>)
    requires op.Scan? && op.points == 0 && w.Valid() && |occ| == w.Size()
    ensures Became(t, op, w, occ, w, occ)
  {
  }

  lemma AllEmptied(t: Trail, op: Op, w: Window, before: seq<real>, after: seq<real>)
    requires op.ResetAll? && w.Valid() && |before| == |after| == w.Size()
    requires forall a :: 0 <= a < |after| ==> after[a] == t.params.Unknown()
    ensures Became(t, op, w, before, w, after)
  {
    w.CellsAreWindow();
  }

  lemma BoundIs(grid: GridMap, id: Vec)
    requires grid.Shape()
    ensures grid.BoundIndex(id) == Bounded(grid.Win(), id)
  {
  }

  method Perform(grid: GridMap, op: Op, ghost t: Trail)
    requires grid.LayerOk() && grid.Idle() && Agrees(grid, t)
    requires t.since != [] && t.since[|t.since| - 1] == t.Win()
    modifies grid, grid.occ, grid.cnt, grid.inflate, grid.hit, grid.hitMiss
    ensures grid.LayerOk() && grid.Idle() && Agrees(grid, t.Next(op))
    ensures var u := t.Next(op); u.since != [] && u.since[|u.since| - 1] == u.Win()
    ensures Became(t, op, old(grid.Win()), old(grid.occ[..]), grid.Win(), grid.occ[..])
  {
    hide Became, FrameOdds, Emptied, Resolve, Marks, RecycledKept, Bounded, Partial;
    ghost var from, occ, recycled := grid.Win(), grid.occ[..], grid.recycled;
    match op
    case Scan(points, rayPosIdx, marks, rangeMinIdx, rangeMaxIdx) =>
      grid.RaycastProcess(points, rayPosIdx, marks, rangeMinIdx, rangeMaxIdx);
      if points == 0 {
        NothingBecomes(t, op, from, occ);
      } else {
        if grid.params.Moves(rayPosIdx.Minus(t.origin)) {
          SlideAgrees(t, op, recycled, grid.recycled);
        }
        BoundIs(grid, rangeMinIdx);
        BoundIs(grid, rangeMaxIdx);
        ScanBecomes(t, op, from, occ, grid.Win(), grid.occ[..]);
      }
    case ResetBox(minPosIdx, maxPosIdx) =>
      grid.ResetBox(minPosIdx, maxPosIdx);
      BoundIs(grid, minPosIdx);
      BoundIs(grid, maxPosIdx);
      BoxEmptied(t, op, from, occ, grid.occ[..]);
    case ResetAll =>
      grid.ResetBuffer();
      FreshAgrees(grid);
      AllEmptied(t, op, from, occ, grid.occ[..]);
  }

  /** Operation i is the latest frame with points. */
  ghost predicate LatestSeen(ops: seq<Op>, i: int) {
    && 0 <= i < |ops| && ops[i].Scan? && ops[i].points != 0
    && forall j :: i < j < |ops| && ops[j].Scan? ==> ops[j].points == 0
  }

  /** On every axis the sensor is nearer to the origin than the threshold, or where that is not positive right on it. */
  ghost predicate Close(origin: Vec, sensor: Vec, threshold: int) {
    var bound := if threshold < 1 then 1 else threshold;
    && -bound < sensor.x - origin.x < bound
    && -bound < sensor.y - origin.y < bound
    && -bound < sensor.z - origin.z < bound
  }

  /** Where sliding is on the window follows the sensor: its origin stays close to where the sensor last was. */
  lemma {:induction false} FollowsSensor(t: Trail, ops: seq<Op>, i: nat)
    requires t.params.slidingEnabled && LatestSeen(ops, i)
    ensures Close(Follow(t, ops).origin, ops[i].rayPosIdx, t.params.slidingThreshold)
  {
    var n := |ops| - 1;
    var before := Follow(t, ops[..n]);
    FollowKeepsParams(t, ops[..n]);
    if i < n {
      FollowsSensor(t, ops[..n], i);
    } else {
      BelowOnEveryAxis(ops[n].rayPosIdx.Minus(before.origin), t.params.slidingThreshold);
    }
  }

  lemma WindowFollows(t: Trail, ops: seq<Op>)
    ensures Follow(t, ops).params == t.params
    ensures forall i :: t.params.slidingEnabled && LatestSeen(ops, i) ==>
      Close(Follow(t, ops).origin, ops[i].rayPosIdx, t.params.slidingThreshold)
  {
    FollowKeepsParams(t, ops);
    forall i | t.params.slidingEnabled && LatestSeen(ops, i)
      ensures Close(Follow(t, ops).origin, ops[i].rayPosIdx, t.params.slidingThreshold)
    {
      FollowsSensor(t, ops, i);
    }
  }

  /** Main result: any run keeps the layer invariant, with the trail telling which voxels have stayed, and the
      log-odds of every voxel are what its own resets and looks make of them; where sliding is on the window
      ends close to where the sensor last was. */
  method Run(grid: GridMap, ops: seq<Op>, ghost t: Trail)
    requires grid.LayerOk() && grid.Idle() && Agrees(grid, t)
    requires t.since != [] && t.since[|t.since| - 1] == t.Win()
    modifies grid, grid.occ, grid.cnt, grid.inflate, grid.hit, grid.hitMiss
    ensures grid.LayerOk() && grid.Idle() && Agrees(grid, Follow(t, ops))
    ensures BecameAfter(t, ops, old(grid.Win()), old(grid.occ[..]), grid.Win(), grid.occ[..])
    ensures forall i :: grid.params.slidingEnabled && LatestSeen(ops, i) ==>
      Close(grid.originIdx, ops[i].rayPosIdx, grid.params.slidingThreshold)
  {
    ghost var first, start := grid.Win(), grid.occ[..];
    for i := 0 to |ops|
      invariant grid.LayerOk() && grid.Idle() && Agrees(grid, Follow(t, ops[..i]))
      invariant var u := Follow(t, ops[..i]); u.since != [] && u.since[|u.since| - 1] == u.Win()
      invariant BecameAfter(t, ops[..i], first, start, grid.Win(), grid.occ[..])
    {
      assert ops[..i + 1][..i] == ops[..i];
      ghost var middle, mid := grid.Win(), grid.occ[..];
      Perform(grid, ops[i], Follow(t, ops[..i]));
      BecameNext(t, ops[..i], ops[i], first, start, middle, mid, grid.Win(), grid.occ[..]);
      assert ops[..i + 1] == ops[..i] + [ops[i]];
    }
    assert ops[..|ops|] == ops;
    WindowFollows(t, ops);
  }

  lemma BecameNext(t: Trail, ops: seq<Op>, op: Op, first: Window, start: seq<real>, middle: Window, mid: seq<real>,
                   last: Window, end: seq<real>)
    requires BecameAfter(t, ops, first, start, middle, mid) && Became(Follow(t, ops), op, middle, mid, last, end)
    requires Follow(t, ops).Win() == middle && Follow(t, ops).Next(op).Win() == last
    ensures BecameAfter(t, ops + [op], first, start, last, end)
  {
    assert (ops + [op])[..|ops|] == ops;
    var u := Follow(t, ops);
    forall g | last.InMap(g)
      ensures Stored(last, end, g) == OddsAfter(t, ops + [op], g, OddsAt(t.params, first, start, g))
    {
      var x := OddsAt(t.params, first, start, g);
      assert OddsAfter(t, ops + [op], g, x) == OddsNext(u, op, g, OddsAfter(t, ops, g, x));
      EnteringIgnores(u, op, g, OddsAt(u.params, middle, mid, g), OddsAfter(t, ops, g, x));
    }
  }

  /** What a voxel outside the window comes in with does not matter. */
  lemma EnteringIgnores(t: Trail, op: Op, g: Vec, x: real, y: real)
    requires t.Next(op).Win().InMap(g) && (t.Win().InMap(g) ==> x == y)
    ensures OddsNext(t, op, g, x) == OddsNext(t, op, g, y)
  {
  }

  /** A run of frames that each find the voxel in the window and mark it. */
  ghost predicate Watched(t: Trail, ops: seq<Op>, g: Vec) {
    ops == [] ||
    var front, last := ops[..|ops| - 1], ops[|ops| - 1];
    && Watched(t, front, g) && Follow(t, front).Win().InMap(g)
    && last.Scan? && last.points != 0 && Marks(last.marks, g, false) != 0
  }

  ghost function LooksAt(t: Trail, ops: seq<Op>, g: Vec): (s: seq<Look>)
    requires Watched(t, ops, g)
    ensures |s| == |ops|
  {
    if ops == [] then []
    else
      var front, last := ops[..|ops| - 1], ops[|ops| - 1];
      LooksAt(t, front, g) + [LookAt(last, Follow(t, front).Next(last).Win(), g)]
  }

  /** Over such a run the log-odds are what the verdicts of the frames add up to. */
  lemma {:induction false} WatchedOdds(t: Trail, ops: seq<Op>, g: Vec, odds: real)
    requires Watched(t, ops, g)
    ensures OddsAfter(t, ops, g, odds) == After(t.params, odds, LooksAt(t, ops, g))
  {
    hide Resolve, Marks;
    if ops != [] {
      var front, looks := ops[..|ops| - 1], LooksAt(t, ops, g);
      WatchedOdds(t, front, g, odds);
      assert looks[..|looks| - 1] == LooksAt(t, front, g);
      FollowKeepsParams(t, front);
    }
  }

  lemma {:induction false} FollowKeepsParams(t: Trail, ops: seq<Op>)
    ensures Follow(t, ops).params == t.params && Follow(t, ops).num == t.num
  {
    if ops != [] {
      FollowKeepsParams(t, ops[..|ops| - 1]);
    }
  }

  /** The occupied voxels of the window from which an inflation offset leads to v. */
  ghost function OccupiedAround(grid: GridMap, v: Vec): set<Vec>
    reads grid, grid.occ, grid.cnt, grid.inflate
    requires grid.LayerOk()
  {
    Reaching(grid.offsets, v, grid.TheLayer().Occupied())
  }

  lemma OccupiedAroundIff(grid: GridMap, v: Vec, u: Vec)
    requires grid.LayerOk()
    ensures u in OccupiedAround(grid, v) <==>
            v.Minus(u) in grid.offsets && grid.Win().InMap(u)
              && Stored(grid.Win(), grid.occ[..], u) > grid.params.minOccupancy
  {
    grid.Win().CellsAreWindow();
    if grid.Win().InMap(u) {
      grid.TheLayer().CellOccupiedIff(grid.Win().Address(u));
    }
  }

  /** Main result: every counter is at most the number of occupied voxels around its cell, and equal to
      it for a voxel that has stayed in the window since the last full reset. */
  lemma CountersAfterRun(grid: GridMap, t: Trail, v: Vec)
    requires grid.LayerOk() && Agrees(grid, t) && grid.Win().InMap(v) && Distinct(grid.offsets)
    ensures 0 <= grid.Win().Address(v) < grid.cnt.Length == grid.inflate.Length
    ensures var c := grid.cnt[grid.Win().Address(v)];
      && 0 <= c <= |OccupiedAround(grid, v)|
      && (t.Stayed(v) ==> c == |OccupiedAround(grid, v)|)
      && grid.inflate[grid.Win().Address(v)] == (0 < c)
  {
    grid.Win().CellsAreWindow();
    var a := grid.Win().Address(v);
    assert grid.TheLayer().cells[a] == v;
    ReachCountsVoxels(grid.offsets, v, grid.TheLayer().Occupied());
  }
}
