/** A slide after which a cell beside an occupied voxel is not inflated. */
module LostInflation {
  import opened Basics
  import opened VoxelWindow
  import opened Sliding
  import opened Inflation
  import opened InflationOffsets

  function Z(z: int): Vec { Vec(0, 0, z) }

  /** Two cells one above the other. */
  function Pair(lo: int): Window { Window(Z(lo), Vec(1, 1, 2)) }

  /** The offsets built for a cylinder half a voxel wide that reaches one voxel up. */
  ghost predicate OneUp(near: seq<Vec>) {
    Distinct(near) && forall o :: o in near <==> InCylinder(o, 1.0, Max0(0.5), 1.0, 0.0)
  }

  lemma OneUpIs(o: Vec)
    ensures InCylinder(o, 1.0, Max0(0.5), 1.0, 0.0) <==> o == Z(0) || o == Z(1)
  {
    assert Ceil(1.0 / 1.0) == 1 && Ceil(0.0 / 1.0) == 0;
    if o.x == 0 && o.y == 0 {
    } else if InDisc(o.x, o.y, 1.0, 0.5) {
      DiscInsideHalf(o.x, o.y);
    }
  }

  lemma DiscInsideHalf(x: int, y: int)
    requires InDisc(x, y, 1.0, 0.5)
    ensures x == 0 && y == 0
  {
    var a, b := x * x, y * y;
    assert (x as real * 1.0) * (x as real * 1.0) == a as real && (y as real * 1.0) * (y as real * 1.0) == b as real;
    assert a <= 0 && b <= 0;
  }

  /** Voxel z of a pair is stored at address z mod 2. */
  lemma CellIs(lo: int, z: int)
    requires lo <= z < lo + 2
    ensures Pair(lo).Valid() && |Pair(lo).Cells()| == 2
    ensures 0 <= LocalIndex(z, 2) < 2 && Pair(lo).Cells()[LocalIndex(z, 2)] == Z(z)
  {
    var w := Pair(lo);
    w.CellsAreWindow();
    assert w.InMap(Z(z)) && w.Size() == 2;
    hide Window.Cells, Window.HashIdToGlobalIndex;
    assert w.Local(Z(z)) == Z(LocalIndex(z, 2));
    assert w.Address(Z(z)) == LocalIndex(z, 2);
  }

  lemma CellsOfPair(lo: int, lower: int, upper: int)
    requires {lower, upper} == {lo, lo + 1} && LocalIndex(lower, 2) == 0 && LocalIndex(upper, 2) == 1
    ensures Pair(lo).Valid() && Pair(lo).Cells() == [Z(lower), Z(upper)]
  {
    hide LocalIndex;
    assert lower in {lo, lo + 1} && upper in {lo, lo + 1};
    CellIs(lo, lower);
    CellIs(lo, upper);
    hide *;
  }

  /** The lower cell changes from voxel 0 to voxel 2, the upper one keeps voxel 1. */
  lemma CellsOfPairs()
    ensures Pair(0).Valid() && Pair(0).Cells() == [Z(0), Z(1)]
    ensures Pair(1).Valid() && Pair(1).Cells() == [Z(2), Z(1)]
  {
    FoldsByTwo();
    hide *;
    CellsOfPair(0, 0, 1);
    CellsOfPair(1, 2, 1);
  }

  lemma FoldsByTwo()
    ensures LocalIndex(0, 2) == 0 && LocalIndex(1, 2) == 1 && LocalIndex(2, 2) == 0
  {
  }

  lemma PairLeaves(w: Window)
    requires w == Pair(0) && w.Valid() && w.Cells() == [Z(0), Z(1)]
    ensures Moved(w, Z(1)) == Pair(1) && LeavingAddresses(w, Z(1)) == {0}
  {
    hide Window.Cells;
    assert Moved(w, Z(1)) == Pair(1);
  }

  /** With only voxel 1 occupied, voxels 1 and 2 are reached once. */
  lemma ReachedFromOne(l: Layer, z: int)
    requires l.Valid() && l.Occupied() == {Z(1)} && OneUp(l.offsets)
    ensures l.Reached(Z(z)) == if z == 1 || z == 2 then 1 else 0
  {
    OneUpIs(Z(z).Minus(Z(1)));
    hide InCylinder, Layer.Occupied, Layer.Valid;
    assert Z(z).Minus(Z(1)) == Z(z - 1);
    ReachCountsVoxels(l.offsets, Z(z), {Z(1)});
    OneReaches(l.offsets, Z(z), Z(1));
    hide Reach, Reaching;
  }

  lemma OneReaches(offsets: seq<Vec>, v: Vec, u: Vec)
    ensures |Reaching(offsets, v, {u})| == if v.Minus(u) in offsets then 1 else 0
  {
    assert Reaching(offsets, v, {u}) == if v.Minus(u) in offsets then {u} else {};
  }

  /** The layer over a pair whose upper address holds the occupied voxel 1. */
  ghost predicate OneOccupied(l: Layer, other: int, near: seq<Vec>) {
    l == Layer([Z(other), Z(1)], near, 0.5, [0.0, 1.0], [0, 1]) && other != 1
  }

  lemma OneOccupiedIs(l: Layer, other: int, near: seq<Vec>)
    requires OneOccupied(l, other, near)
    ensures l.Valid() && l.Occupied() == {Z(1)} && l.OccupiedAt({0}) == {}
  {
    assert l.cells[0] == Z(other) && l.cells[1] == Z(1) && l.occ[0] == 0.0 && l.occ[1] == 1.0;
  }

  lemma PairSlides(before: Layer, after: Layer, near: seq<Vec>)
    requires OneOccupied(before, 0, near) && OneOccupied(after, 2, near) && before.Valid() && after.Valid()
    requires before.OccupiedAt({0}) == {} && Reach(near, Z(1), {}) == 0
    ensures before.Slid({0}, 0.0, after)
  {
    hide Layer.OccupiedAt, Reach, Layer.Valid;
  }

  lemma PairExact(l: Layer, near: seq<Vec>)
    requires OneOccupied(l, 0, near) && l.Valid() && l.Reached(Z(0)) == 0 && l.Reached(Z(1)) == 1
    ensures l.Bounded({})
  {
    hide Layer.Reached, Layer.Valid;
  }

  /** A window of two cells moves up by one: the slide is as the code makes it, the counters before it are
      exact, and the voxel that enters above the occupied one has counter zero. */
  lemma SlideCanLoseInflation(near: seq<Vec>) returns (w: Window, shift: Vec, before: Layer, after: Layer)
    requires OneUp(near)
    ensures w.Valid() && Partial(w, shift) && Moved(w, shift).Valid()
    ensures before.cells == w.Cells() && after.cells == Moved(w, shift).Cells() && before.offsets == near
    ensures before.Valid() && before.Bounded({}) && before.Slid(LeavingAddresses(w, shift), 0.0, after)
    ensures after.cells[0] == Z(2) && after.cnt[0] == 0 && after.Reached(Z(2)) == 1
  {
    hide OneUp, Layer.Valid, Layer.Bounded, Layer.Slid, Layer.Occupied, Layer.OccupiedAt, Layer.Reached, Reach;
    hide LeavingAddresses, Window.Cells;
    w, shift := Pair(0), Z(1);
    CellsOfPairs();
    PairLeaves(w);
    before, after := Layer([Z(0), Z(1)], near, 0.5, [0.0, 1.0], [0, 1]),
      Layer([Z(2), Z(1)], near, 0.5, [0.0, 1.0], [0, 1]);
    OneOccupiedIs(before, 0, near);
    OneOccupiedIs(after, 2, near);
    ReachedFromOne(before, 0);
    ReachedFromOne(before, 1);
    ReachedFromOne(after, 2);
    ReachEmpty(near, Z(1));
    PairExact(before, near);
    PairSlides(before, after, near);
  }
}
