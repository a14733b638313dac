/** Which cells a slide of the window recycles, and what it does to the counters. */
module Sliding {
  import opened Basics
  import opened VoxelWindow
  import opened Inflation

  function Moved(w: Window, shift: Vec): Window { Window(w.min.Plus(shift), w.num) }

  lemma MovedSize(w: Window, shift: Vec)
    requires w.Valid()
    ensures Moved(w, shift).Valid() && Moved(w, shift).Size() == w.Size()
    ensures |Moved(w, shift).Cells()| == |w.Cells()| == w.Size()
  {
  }

  /** No axis moves by its whole length or more. */
  predicate Partial(w: Window, shift: Vec) {
    -w.num.x < shift.x < w.num.x && -w.num.y < shift.y < w.num.y && -w.num.z < shift.z < w.num.z
  }

  /** The k-th global index cleared along an axis that moves by shift. */
  function ClearedIndex(lo: int, n: int, shift: int, k: int): int {
    if 0 < shift then lo + k else lo + n - 1 - k
  }

  /** l is the folded index of one of the first `count` cleared global indices. */
  ghost predicate AmongCleared(l: int, lo: int, n: int, shift: int, count: nat)
    requires 0 < n
  {
    exists k :: 0 <= k < count && l == LocalIndex(ClearedIndex(lo, n, shift, k), n)
  }

  ghost predicate AxisCleared(l: int, lo: int, n: int, shift: int)
    requires 0 < n
  {
    AmongCleared(l, lo, n, shift, Abs(shift))
  }

  /** Cleared along one of the first `dims` axes. */
  ghost predicate LocalCleared(w: Window, shift: Vec, l: Vec, dims: nat)
    requires w.Valid()
  {
    || (0 < dims && AxisCleared(l.x, w.min.x, w.num.x, shift.x))
    || (1 < dims && AxisCleared(l.y, w.min.y, w.num.y, shift.y))
    || (2 < dims && AxisCleared(l.z, w.min.z, w.num.z, shift.z))
  }

  function MaxAbs(v: Vec): nat {
    var xy := if Abs(v.x) < Abs(v.y) then Abs(v.y) else Abs(v.x);
    if xy < Abs(v.z) then Abs(v.z) else xy
  }

  /** A displacement is as long as its longest axis: it stays below a threshold exactly when every axis does. */
  lemma BelowOnEveryAxis(v: Vec, threshold: int)
    ensures MaxAbs(v) < threshold <==>
            && -threshold < v.x < threshold && -threshold < v.y < threshold && -threshold < v.z < threshold
  {
  }

  lemma AxisClearedIffLeaving(g: int, lo: int, n: int, shift: int)
    requires 0 < n && lo <= g < lo + n && -n < shift < n
    ensures AxisCleared(LocalIndex(g, n), lo, n, shift) <==> !(lo + shift <= g < lo + shift + n)
  {
    var l := LocalIndex(g, n);
    if AxisCleared(l, lo, n, shift) {
      var k :| 0 <= k < Abs(shift) && l == LocalIndex(ClearedIndex(lo, n, shift, k), n);
      var c := ClearedIndex(lo, n, shift, k);
      if c <= g {
        LocalIndexInjective(c, g, n);
      } else {
        LocalIndexInjective(g, c, n);
      }
    }
    if !(lo + shift <= g < lo + shift + n) {
      var k := if 0 < shift then g - lo else lo + n - 1 - g;
      assert ClearedIndex(lo, n, shift, k) == g;
    }
  }

  /** The addresses whose voxel leaves the window when it moves by shift. */
  ghost function LeavingAddresses(w: Window, shift: Vec): set<int>
    requires w.Valid()
  {
    set a | 0 <= a < |w.Cells()| && !Moved(w, shift).InMap(w.Cells()[a])
  }

  lemma LocalOfAddress(w: Window, a: int) returns (g: Vec)
    requires w.Valid() && 0 <= a < w.Size()
    ensures w.InMap(g) && w.Cells()[a] == g && w.Locals()[a] == w.Local(g)
  {
    g := w.HashIdToGlobalIndex(a);
    w.SplitAddressJoins(a);
    w.AddressInvertsHash(a);
    w.AddressLocalSplits(w.Local(g));
  }

  /** The cleared addresses are those of the voxels leaving the window. */
  lemma ClearedIffLeaving(w: Window, shift: Vec, a: int)
    requires w.Valid() && Partial(w, shift) && 0 <= a < w.Size()
    ensures LocalCleared(w, shift, w.Locals()[a], 3) <==> a in LeavingAddresses(w, shift)
  {
    hide AxisCleared, LocalIndex, Window.Cells, Window.Locals, Window.SplitAddress;
    var g := LocalOfAddress(w, a);
    AxisClearedIffLeaving(g.x, w.min.x, w.num.x, shift.x);
    AxisClearedIffLeaving(g.y, w.min.y, w.num.y, shift.y);
    AxisClearedIffLeaving(g.z, w.min.z, w.num.z, shift.z);
  }

  /** What a slide does to the voxel at an address: a voxel in both windows keeps it; otherwise the
      old one has left for good and the new one was not in the old window. */
  lemma CellAfterMove(w: Window, v: Window, a: int)
    requires w.Valid() && v.num == w.num && 0 <= a < w.Size()
    ensures |v.Cells()| == |w.Cells()| == w.Size()
    ensures v.InMap(w.Cells()[a]) ==> v.Cells()[a] == w.Cells()[a]
    ensures !v.InMap(w.Cells()[a]) ==> v.Cells()[a] !in w.Cells() && w.Cells()[a] !in v.Cells()
  {
    w.CellsAreWindow();
    v.CellsAreWindow();
    assert forall g :: w.Address(g) == v.Address(g);
    var g, h := w.Cells()[a], v.Cells()[a];
    if h in w.Cells() {
      assert w.Cells()[w.Address(h)] == h;
    }
  }

  lemma CellsAfterMove(w: Window, shift: Vec)
    requires w.Valid()
    ensures var v := Moved(w, shift);
      && |v.Cells()| == |w.Cells()|
      && forall a :: 0 <= a < |w.Cells()| ==>
           if a in LeavingAddresses(w, shift) then
             v.Cells()[a] !in w.Cells() && w.Cells()[a] !in v.Cells()
           else
             v.Cells()[a] == w.Cells()[a]
  {
    forall a | 0 <= a < |w.Cells()|
      ensures |Moved(w, shift).Cells()| == |w.Cells()|
      ensures a in LeavingAddresses(w, shift) ==>
                Moved(w, shift).Cells()[a] !in w.Cells() && w.Cells()[a] !in Moved(w, shift).Cells()
      ensures a !in LeavingAddresses(w, shift) ==> Moved(w, shift).Cells()[a] == w.Cells()[a]
    {
      CellAfterMove(w, Moved(w, shift), a);
    }
    w.RowMajorPositive();
    assert 0 <= 0 < |w.Cells()|;
  }

  /** The stored log-odds of a voxel of the window. */
  ghost function Stored(w: Window, occ: seq<real>, g: Vec): real
    requires w.Valid() && |occ| == w.Size() && w.InMap(g)
  {
    w.HashInvertsAddress(g);
    occ[w.Address(g)]
  }

  /** What a slide means for the map from voxels to log-odds: a voxel of the old window keeps its
      value, any other voxel is unknown. */
  ghost predicate OddsKept(from: Window, to: Window, occ: seq<real>, occ': seq<real>, unknown: real) {
    && from.Valid() && to.Valid() && |occ| == from.Size() && |occ'| == to.Size()
    && forall g :: to.InMap(g) ==>
         Stored(to, occ', g) == if from.InMap(g) then Stored(from, occ, g) else unknown
  }

  /** The recycled voxels after a partial slide: those of before that stay, and all that enter. */
  ghost predicate RecycledKept(from: Window, to: Window, recycled: set<Vec>, recycled': set<Vec>) {
    forall g :: to.InMap(g) ==> (g in recycled' <==> g in recycled || !from.InMap(g))
  }

  /** A slide by a whole window length on some axis keeps no voxel. */
  lemma JumpKeepsNothing(w: Window, shift: Vec, occ: seq<real>, occ': seq<real>, unknown: real)
    requires w.Valid() && |occ| == |occ'| == w.Size() && !Partial(w, shift)
    requires forall a :: 0 <= a < |occ'| ==> occ'[a] == unknown
    ensures OddsKept(w, Moved(w, shift), occ, occ', unknown)
  {
    var v := Moved(w, shift);
    assert v.Valid() && v.Size() == w.Size();
    forall g | v.InMap(g)
      ensures !w.InMap(g) && Stored(v, occ', g) == unknown
    {
      v.HashInvertsAddress(g);
    }
  }

  /** The voxels of the moved window whose cell was recycled, now or before. */
  ghost function Recycle(w: Window, shift: Vec, recycled: set<Vec>): set<Vec>
    requires w.Valid() && |Moved(w, shift).Cells()| == |w.Cells()|
  {
    set a | 0 <= a < |w.Cells()| && (a in LeavingAddresses(w, shift) || w.Cells()[a] in recycled)
          :: Moved(w, shift).Cells()[a]
  }

  lemma SlideKeepsVoxels(w: Window, shift: Vec, occ: seq<real>, occ': seq<real>, unknown: real,
                         recycled: set<Vec>, recycled': set<Vec>)
    requires w.Valid() && |occ| == |occ'| == w.Size()
    requires |Moved(w, shift).Cells()| == |w.Cells()|
    requires forall a :: 0 <= a < |occ| ==> occ'[a] == if a in LeavingAddresses(w, shift) then unknown else occ[a]
    requires recycled' == Recycle(w, shift, recycled)
    ensures OddsKept(w, Moved(w, shift), occ, occ', unknown)
    ensures RecycledKept(w, Moved(w, shift), recycled, recycled')
  {
    var v := Moved(w, shift);
    assert v.Valid() && v.Size() == w.Size();
    forall g | v.InMap(g)
      ensures Stored(v, occ', g) == if w.InMap(g) then Stored(w, occ, g) else unknown
      ensures g in recycled' <==> g in recycled || !w.InMap(g)
    {
      SlideKeepsVoxel(w, shift, occ, occ', unknown, recycled, recycled', g);
    }
  }

  lemma SlideKeepsVoxel(w: Window, shift: Vec, occ: seq<real>, occ': seq<real>, unknown: real,
                        recycled: set<Vec>, recycled': set<Vec>, g: Vec)
    requires w.Valid() && |occ| == |occ'| == w.Size()
    requires |Moved(w, shift).Cells()| == |w.Cells()|
    requires forall a :: 0 <= a < |occ| ==> occ'[a] == if a in LeavingAddresses(w, shift) then unknown else occ[a]
    requires recycled' == Recycle(w, shift, recycled)
    requires Moved(w, shift).InMap(g)
    ensures Moved(w, shift).Valid() && Moved(w, shift).Size() == w.Size()
    ensures Stored(Moved(w, shift), occ', g) == if w.InMap(g) then Stored(w, occ, g) else unknown
    ensures g in recycled' <==> g in recycled || !w.InMap(g)
  {
    var v := Moved(w, shift);
    v.CellsAreWindow();
    w.CellsAreWindow();
    CellsAfterMove(w, shift);
    var a := v.Address(g);
    assert v.Cells()[a] == g && w.Address(g) == a;
    assert Stored(v, occ', g) == occ'[a];
    if w.InMap(g) {
      assert w.Cells()[a] == g;
      assert Stored(w, occ, g) == occ[a];
    } else {
      assert a in LeavingAddresses(w, shift);
    }
  }
}
