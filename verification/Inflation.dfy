/** What the inflation counters count, as functions of the set of occupied voxels. */
module Inflation {
  import opened Basics
  import opened VoxelWindow

  /** How often the displacement d occurs among the offsets. */
  function Hits(offsets: seq<Vec>, d: Vec): nat {
    if offsets == [] then 0
    else Hits(offsets[..|offsets| - 1], d) + (if offsets[|offsets| - 1] == d then 1 else 0)
  }

  lemma HitsPrefix(offsets: seq<Vec>, i: nat, d: Vec)
    requires i < |offsets|
    ensures Hits(offsets[..i + 1], d) == Hits(offsets[..i], d) + (if offsets[i] == d then 1 else 0)
  {
    assert offsets[..i + 1][..i] == offsets[..i];
  }

  /** How many offsets lead to v from a voxel of s. */
  function Reach(offsets: seq<Vec>, v: Vec, s: set<Vec>): nat {
    if offsets == [] then 0
    else Reach(offsets[..|offsets| - 1], v, s) + (if v.Minus(offsets[|offsets| - 1]) in s then 1 else 0)
  }

  lemma {:induction false} ReachEmpty(offsets: seq<Vec>, v: Vec)
    ensures Reach(offsets, v, {}) == 0
  {
    if offsets != [] {
      ReachEmpty(offsets[..|offsets| - 1], v);
    }
  }

  /** Adding one voxel to the set raises the count of v by the number of offsets between them. */
  lemma {:induction false} ReachAdd(offsets: seq<Vec>, v: Vec, s: set<Vec>, u: Vec)
    requires u !in s
    ensures Reach(offsets, v, s + {u}) == Reach(offsets, v, s) + Hits(offsets, v.Minus(u))
  {
    if offsets != [] {
      var last := offsets[|offsets| - 1];
      ReachAdd(offsets[..|offsets| - 1], v, s, u);
      assert v.Minus(last) == u <==> last == v.Minus(u);
    }
  }

  lemma {:induction false} ReachDisjoint(offsets: seq<Vec>, v: Vec, s: set<Vec>, t: set<Vec>)
    requires s !! t
    ensures Reach(offsets, v, s + t) == Reach(offsets, v, s) + Reach(offsets, v, t)
  {
    if offsets != [] {
      ReachDisjoint(offsets[..|offsets| - 1], v, s, t);
    }
  }

  /** With distinct offsets the count is the number of voxels of s that reach v. */
  lemma {:induction false} ReachCountsVoxels(offsets: seq<Vec>, v: Vec, s: set<Vec>)
    requires Distinct(offsets)
    ensures Reach(offsets, v, s) == |Reaching(offsets, v, s)|
  {
    if offsets == [] {
      assert Reaching(offsets, v, s) == {};
    } else {
      hide Reaching;
      var init, last := offsets[..|offsets| - 1], offsets[|offsets| - 1];
      ReachCountsVoxels(init, v, s);
      assert offsets == init + [last];
      ReachingGrows(init, last, v, s);
    }
  }

  /** The voxels of s that an offset leads from to v. */
  function Reaching(offsets: seq<Vec>, v: Vec, s: set<Vec>): set<Vec> {
    set u | u in s && v.Minus(u) in offsets
  }

  lemma ReachingGrows(init: seq<Vec>, last: Vec, v: Vec, s: set<Vec>)
    requires last !in init
    ensures |Reaching(init + [last], v, s)| == |Reaching(init, v, s)| + if v.Minus(last) in s then 1 else 0
  {
    var w := v.Minus(last);
    assert v.Minus(w) == last;
    forall u: Vec | v.Minus(u) == last
      ensures u == w
    {
    }
    assert Reaching(init + [last], v, s) == Reaching(init, v, s) + if w in s then {w} else {};
  }

  /** A positive count has a witness. */
  lemma {:induction false} ReachWitness(offsets: seq<Vec>, v: Vec, s: set<Vec>) returns (o: Vec)
    requires 0 < Reach(offsets, v, s)
    ensures o in offsets && v.Minus(o) in s
  {
    var last := offsets[|offsets| - 1];
    if v.Minus(last) in s {
      o := last;
    } else {
      o := ReachWitness(offsets[..|offsets| - 1], v, s);
    }
  }

  lemma {:induction false} ReachPositive(offsets: seq<Vec>, v: Vec, s: set<Vec>, o: Vec)
    requires o in offsets && v.Minus(o) in s
    ensures 0 < Reach(offsets, v, s)
  {
    var init := offsets[..|offsets| - 1];
    if offsets[|offsets| - 1] != o {
      assert offsets == init + [offsets[|offsets| - 1]];
      ReachPositive(init, v, s, o);
    }
  }

  /** One step of the counter with the clamp at zero, repeated m times. */
  function Bump(c: int, delta: int, m: nat): int {
    if 0 < delta then c + m else if c < m then 0 else c - m
  }

  ghost predicate FlagsAgree(cnt: seq<int>, flags: seq<bool>) {
    && |flags| == |cnt|
    && forall a :: 0 <= a < |cnt| ==> 0 <= cnt[a] && flags[a] == (0 < cnt[a])
  }

  /** The occupancy buffer with its counters, as values: cells[a] is the voxel stored at address a. */
  datatype Layer = Layer(cells: seq<Vec>, offsets: seq<Vec>, threshold: real, occ: seq<real>, cnt: seq<int>) {

    ghost predicate Valid() {
      && |cells| == |occ| == |cnt|
      && Distinct(cells)
    }

    /** The voxels stored as occupied. */
    ghost function Occupied(): set<Vec>
      requires Valid()
    {
      set a | 0 <= a < |occ| && occ[a] > threshold :: cells[a]
    }

    lemma CellOccupiedIff(a: int)
      requires Valid() && 0 <= a < |occ|
      ensures cells[a] in Occupied() <==> occ[a] > threshold
    {
    }

    /** How many offsets lead from an occupied voxel to v. */
    ghost function Reached(v: Vec): nat
      requires Valid()
    {
      Reach(offsets, v, Occupied())
    }

    /** Every counter is at most the number of occupied voxels that reach its cell,
        and equal to it outside the recycled voxels. */
    ghost predicate Bounded(recycled: set<Vec>)
      requires Valid()
    {
      forall a :: 0 <= a < |cnt| ==>
        0 <= cnt[a] <= Reached(cells[a]) && (cells[a] !in recycled ==> cnt[a] == Reached(cells[a]))
    }

    /** next holds the counters after the voxel id toggles: every cell not ignored moves by its hits. */
    ghost predicate Shifted(id: Vec, delta: int, ignore: set<int>, next: seq<int>)
      requires Valid()
    {
      && |next| == |cnt|
      && forall a :: 0 <= a < |cnt| ==>
           next[a] == if a in ignore then cnt[a] else Bump(cnt[a], delta, Hits(offsets, cells[a].Minus(id)))
    }

    /** Adding one more offset moves the counter of the one cell it hits. */
    lemma ShiftedStep(i: nat, id: Vec, delta: int, ignore: set<int>, before: seq<int>, after: seq<int>)
      requires Valid() && i < |offsets| && (delta == 1 || delta == -1)
      requires this.(offsets := offsets[..i]).Shifted(id, delta, ignore, before)
      requires forall a :: 0 <= a < |cnt| ==> 0 <= cnt[a]
      requires Touched(id.Plus(offsets[i]), delta, ignore, before, after)
      ensures this.(offsets := offsets[..i + 1]).Shifted(id, delta, ignore, after)
    {
      forall a | 0 <= a < |cnt| && a !in ignore
        ensures after[a] == Bump(cnt[a], delta, Hits(offsets[..i + 1], cells[a].Minus(id)))
      {
        HitsPrefix(offsets, i, cells[a].Minus(id));
        assert offsets[i] == cells[a].Minus(id) <==> cells[a] == id.Plus(offsets[i]);
      }
    }

    /** One counter step at the voxel v, if the window holds it and its cell is not ignored. */
    ghost predicate Touched(v: Vec, delta: int, ignore: set<int>, before: seq<int>, after: seq<int>)
      requires Valid()
    {
      && |before| == |after| == |cnt|
      && forall a :: 0 <= a < |cnt| ==>
           after[a] == if a !in ignore && cells[a] == v then Bump(before[a], delta, 1) else before[a]
    }

    lemma OccupiedAfterStore(a: int, value: real)
      requires Valid() && 0 <= a < |occ|
      ensures this.(occ := occ[a := value]).Occupied() ==
              if value > threshold then Occupied() + {cells[a]} else Occupied() - {cells[a]}
    {
    }

    lemma BoundedAfterOccupying(a: int, value: real, next: seq<int>, recycled: set<Vec>)
      requires Valid() && Bounded(recycled) && 0 <= a < |occ|
      requires occ[a] <= threshold < value && Shifted(cells[a], 1, {}, next)
      ensures this.(occ := occ[a := value], cnt := next).Bounded(recycled)
    {
      var after := this.(occ := occ[a := value], cnt := next);
      OccupiedAfterStore(a, value);
      CellOccupiedIff(a);
      assert after.Occupied() == Occupied() + {cells[a]};
      forall b | 0 <= b < |next|
        ensures after.Reached(cells[b]) == Reached(cells[b]) + Hits(offsets, cells[b].Minus(cells[a]))
      {
        ReachAdd(offsets, cells[b], Occupied(), cells[a]);
      }
    }

    lemma BoundedAfterFreeing(a: int, value: real, next: seq<int>, recycled: set<Vec>)
      requires Valid() && Bounded(recycled) && 0 <= a < |occ|
      requires value <= threshold < occ[a] && Shifted(cells[a], -1, {}, next)
      ensures this.(occ := occ[a := value], cnt := next).Bounded(recycled)
    {
      var after := this.(occ := occ[a := value], cnt := next);
      OccupiedAfterStore(a, value);
      CellOccupiedIff(a);
      assert after.Occupied() + {cells[a]} == Occupied();
      forall b | 0 <= b < |next|
        ensures Reached(cells[b]) == after.Reached(cells[b]) + Hits(offsets, cells[b].Minus(cells[a]))
      {
        ReachAdd(offsets, cells[b], after.Occupied(), cells[a]);
      }
    }

    lemma BoundedAfterSameClass(a: int, value: real, recycled: set<Vec>)
      requires Valid() && Bounded(recycled) && 0 <= a < |occ|
      requires (value > threshold) == (occ[a] > threshold)
      ensures this.(occ := occ[a := value]).Bounded(recycled)
    {
      OccupiedAfterStore(a, value);
      CellOccupiedIff(a);
      assert this.(occ := occ[a := value]).Occupied() == Occupied();
    }

    /** The occupied voxels stored at the given addresses. */
    ghost function OccupiedAt(addrs: set<int>): set<Vec>
      requires Valid()
    {
      set a | 0 <= a < |occ| && a in addrs && occ[a] > threshold :: cells[a]
    }

    /** The counters once the occupied voxels at the processed addresses have been taken back
        from every cell that is not cleared. */
    ghost predicate TakenBack(cleared: set<int>, processed: set<int>, next: seq<int>)
      requires Valid()
    {
      && |next| == |cnt|
      && forall a :: 0 <= a < |cnt| && a !in cleared ==>
           next[a] == Bump(cnt[a], -1, Reach(offsets, cells[a], OccupiedAt(processed)))
    }

    lemma TakeBackOne(cleared: set<int>, processed: set<int>, b: int, before: seq<int>, after: seq<int>)
      requires Valid() && TakenBack(cleared, processed, before)
      requires forall a :: 0 <= a < |cnt| ==> 0 <= cnt[a]
      requires 0 <= b < |cnt| && b !in processed && occ[b] > threshold
      requires this.(cnt := before).Shifted(cells[b], -1, cleared, after)
      ensures TakenBack(cleared, processed + {b}, after)
    {
      var one, two := OccupiedAt(processed), OccupiedAt(processed + {b});
      assert two == one + {cells[b]};
      forall a | 0 <= a < |cnt| && a !in cleared
        ensures after[a] == Bump(cnt[a], -1, Reach(offsets, cells[a], two))
      {
        ReachAdd(offsets, cells[a], one, cells[b]);
      }
    }

    lemma TakeBackNone(processed: set<int>, b: int)
      requires Valid() && 0 <= b < |cnt| && occ[b] <= threshold
      ensures OccupiedAt(processed + {b}) == OccupiedAt(processed)
    {
    }

    lemma TakeBackStart(cleared: set<int>)
      requires Valid() && forall a :: 0 <= a < |cnt| ==> 0 <= cnt[a]
      ensures TakenBack(cleared, {}, cnt)
    {
      assert OccupiedAt({}) == {};
      forall a | 0 <= a < |cnt|
        ensures Reach(offsets, cells[a], {}) == 0
      {
        ReachEmpty(offsets, cells[a]);
      }
    }

    /** next is the layer after its window has moved and the cleared addresses were recycled:
        each of them now stores a voxel the old window did not hold. */
    ghost predicate Slid(cleared: set<int>, unknown: real, next: Layer)
      requires Valid()
    {
      && next.Valid() && |next.cells| == |cells|
      && next.offsets == offsets && next.threshold == threshold
      && forall a :: 0 <= a < |cells| ==>
           if a in cleared then
             && next.cells[a] !in cells && cells[a] !in next.cells
             && next.occ[a] == unknown && next.cnt[a] == 0
           else
             && next.cells[a] == cells[a] && next.occ[a] == occ[a]
             && next.cnt[a] == Bump(cnt[a], -1, Reach(offsets, cells[a], OccupiedAt(cleared)))
    }

    lemma OccupiedAfterSlide(cleared: set<int>, unknown: real, next: Layer)
      requires Valid() && Slid(cleared, unknown, next) && unknown <= threshold
      ensures Occupied() == next.Occupied() + OccupiedAt(cleared)
      ensures next.Occupied() !! OccupiedAt(cleared)
    {
    }

    /** A slide keeps the counter bound, and exactness for every cell it does not recycle. */
    lemma SlideKeepsBound(cleared: set<int>, unknown: real, next: Layer, recycled: set<Vec>, recycled': set<Vec>)
      requires Valid() && Slid(cleared, unknown, next) && unknown <= threshold && Bounded(recycled)
      requires forall a :: 0 <= a < |cells| && (a in cleared || cells[a] in recycled) ==> next.cells[a] in recycled'
      ensures next.Bounded(recycled')
    {
      OccupiedAfterSlide(cleared, unknown, next);
      forall a | 0 <= a < |cells|
        ensures Reached(cells[a]) == next.Reached(cells[a]) + Reach(offsets, cells[a], OccupiedAt(cleared))
      {
        ReachDisjoint(offsets, cells[a], next.Occupied(), OccupiedAt(cleared));
      }
    }

    /** Right after a slide an entering voxel has its exact count precisely when no occupied
        voxel that stays in the window reaches it. */
    lemma EnteringExactIff(cleared: set<int>, unknown: real, next: Layer, a: int)
      requires Valid() && Slid(cleared, unknown, next) && unknown <= threshold
      requires 0 <= a < |cells| && a in cleared
      ensures next.cnt[a] == next.Reached(next.cells[a]) <==>
              (forall o, b ::
                 o in offsets && 0 <= b < |cells| && b !in cleared && cells[b] == next.cells[a].Minus(o) ==>
                   occ[b] <= threshold)
    {
      var v := next.cells[a];
      if next.Reached(v) == 0 {
        forall o, b | o in offsets && 0 <= b < |cells| && b !in cleared && cells[b] == v.Minus(o)
          ensures occ[b] <= threshold
        {
          if occ[b] > threshold {
            next.CellOccupiedIff(b);
            ReachPositive(offsets, v, next.Occupied(), o);
          }
        }
      } else {
        var o := ReachWitness(offsets, v, next.Occupied());
        var b :| 0 <= b < |cells| && next.occ[b] > threshold && next.cells[b] == v.Minus(o);
        assert b !in cleared && cells[b] == v.Minus(o) && occ[b] > threshold;
      }
    }
  }
}
