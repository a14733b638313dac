/** The sliding occupancy map: ring buffers over global voxels, an incremental inflation
    layer, and the per-frame queue of touched voxels. */
module OccupancyMap {
  import opened Basics
  import opened VoxelWindow
  import opened Inflation
  import opened Sliding

  const UNKNOWN_FLAG := 0.01

  datatype Params = Params(probHit: real, probMiss: real, clampMin: real, clampMax: real, minOccupancy: real,
                           slidingEnabled: bool, slidingThreshold: int) {

    /** Unknown cells lie below the clamped range and do not count as occupied. */
    predicate Sound() { clampMin <= clampMax && Unknown() <= minOccupancy }

    /** Whether the window follows a displacement of the sensor. */
    predicate Moves(shift: Vec) { slidingEnabled && slidingThreshold <= MaxAbs(shift) }

    function Unknown(): real { clampMin - UNKNOWN_FLAG }

    predicate Storable(v: real) { v == Unknown() || clampMin <= v <= clampMax }
  }

  class GridMap {
    const params: Params
    const num: Vec
    const offsets: seq<Vec>
    const occ: array<real>
    const cnt: array<int>
    const inflate: array<bool>
    const hit: array<int>
    const hitMiss: array<int>
    var originIdx: Vec
    var boundMin: Vec
    var boundMax: Vec
    var cache: seq<Vec>
    /** Voxels whose cell a slide has recycled since the last full reset. */
    ghost var recycled: set<Vec>

    constructor (voxelNum: Vec, mapOriginIdx: Vec, p: Params, inflateOffsets: seq<Vec>)
      requires 0 < voxelNum.x && 0 < voxelNum.y && 0 < voxelNum.z && p.Sound()
      ensures LayerOk() && Idle() && recycled == {}
      ensures num == voxelNum && params == p && offsets == inflateOffsets && Win() == Window(mapOriginIdx, voxelNum)
      ensures forall a :: 0 <= a < occ.Length ==> occ[a] == p.clampMin - 0.01
      ensures fresh(occ) && fresh(cnt) && fresh(inflate) && fresh(hit) && fresh(hitMiss)
    {
      params, num, offsets := p, voxelNum, inflateOffsets;
      boundMin := mapOriginIdx;
      originIdx := mapOriginIdx.Plus(Vec(voxelNum.x / 2, voxelNum.y / 2, voxelNum.z / 2));
      boundMax := mapOriginIdx.Plus(voxelNum).Minus(Vec(1, 1, 1));
      Window(mapOriginIdx, voxelNum).RowMajorPositive();
      var bufferSize := voxelNum.x * voxelNum.y * voxelNum.z;
      occ := new real[bufferSize](_ => p.Unknown());
      cnt := new int[bufferSize](_ => 0);
      inflate := new bool[bufferSize](_ => false);
      hit := new int[bufferSize](_ => 0);
      hitMiss := new int[bufferSize](_ => 0);
      cache := [];
      recycled := {};
      new;
      EmptyMapOk();
    }

    function Win(): Window
      reads this`boundMin
    {
      Window(boundMin, num)
    }

    ghost predicate Shape()
      reads this`originIdx, this`boundMin, this`boundMax
    {
      && params.Sound() && Win().Valid()
      && occ.Length == cnt.Length == inflate.Length == hit.Length == hitMiss.Length == Win().Size()
      && cnt != hit && cnt != hitMiss && hit != hitMiss
      && boundMin == originIdx.Minus(Vec(num.x / 2, num.y / 2, num.z / 2))
      && boundMax == Win().Max()
    }

    ghost function TheLayer(): Layer
      reads this`originIdx, this`boundMin, this`boundMax, occ, cnt
      requires Shape()
    {
      Layer(Win().Cells(), offsets, params.minOccupancy, occ[..], cnt[..])
    }

    lemma LayerValid()
      requires Shape()
      ensures TheLayer().Valid()
    {
      Win().CellsAreWindow();
    }

    ghost predicate LayerOk()
      reads this`originIdx, this`boundMin, this`boundMax, this`recycled, occ, cnt, inflate
    {
      && Shape()
      && TheLayer().Valid() && TheLayer().Bounded(recycled)
      && FlagsAgree(cnt[..], inflate[..])
      && forall a :: 0 <= a < occ.Length ==> params.Storable(occ[a])
    }

    /** The indices an ignore mask marks. */
    static ghost function Marked(mask: array?<bool>): set<int>
      reads mask
    {
      if mask == null then {} else set a | 0 <= a < mask.Length && mask[a]
    }

    /** One counter step at a voxel, if it is in the map and its address is not ignored. */
    method TouchVoxel(infId: Vec, delta: int, ignoreMask: array?<bool>)
      requires Shape() && TheLayer().Valid() && FlagsAgree(cnt[..], inflate[..])
      requires delta == 1 || delta == -1
      requires ignoreMask != null ==> ignoreMask.Length == occ.Length && ignoreMask != inflate
      modifies cnt, inflate
      ensures FlagsAgree(cnt[..], inflate[..])
      ensures TheLayer().Valid()
      ensures TheLayer().Touched(infId, delta, Marked(ignoreMask), old(cnt[..]), cnt[..])
    {
      Win().CellsAreWindow();
      if Win().InMap(infId) {
        var addr := Win().Address(infId);
        if ignoreMask == null || !ignoreMask[addr] {
          cnt[addr] := cnt[addr] + delta;
          if cnt[addr] < 0 {
            cnt[addr] := 0;
          }
          inflate[addr] := 0 < cnt[addr];
        }
      }
    }

    method UpdateInflation(id: Vec, delta: int, ignoreMask: array?<bool>)
      requires Shape() && TheLayer().Valid() && FlagsAgree(cnt[..], inflate[..])
      requires delta == 1 || delta == -1
      requires ignoreMask != null ==> ignoreMask.Length == occ.Length && ignoreMask != inflate
      modifies cnt, inflate
      ensures FlagsAgree(cnt[..], inflate[..])
      ensures TheLayer().Valid()
      ensures old(TheLayer()).Shifted(id, delta, Marked(ignoreMask), cnt[..])
    {
      ghost var before, ignored := TheLayer(), Marked(ignoreMask);
      for i := 0 to |offsets|
        invariant FlagsAgree(cnt[..], inflate[..])
        invariant TheLayer().Valid()
        invariant before.(offsets := offsets[..i]).Shifted(id, delta, ignored, cnt[..])
      {
        ghost var prev := cnt[..];
        TouchVoxel(id.Plus(offsets[i]), delta, ignoreMask);
        before.ShiftedStep(i, id, delta, ignored, prev, cnt[..]);
      }
      assert offsets[..|offsets|] == offsets;
    }

    method ApplyOccupancyUpdate(id: Vec, newLogOdds: real)
      requires LayerOk() && params.Storable(newLogOdds)
      modifies occ, cnt, inflate
      ensures LayerOk()
      ensures Win().InMap(id) ==> 0 <= Win().Address(id) < occ.Length
      ensures occ[..] == if Win().InMap(id) then old(occ[..])[Win().Address(id) := newLogOdds] else old(occ[..])
    {
      hide Window.HashIdToGlobalIndex, Window.Address, Window.Size, Window.Cells, Window.Locals;
      if !Win().InMap(id) {
        return;
      }
      Win().CellsAreWindow();
      ghost var before := TheLayer();
      var addr := Win().Address(id);
      assert before.cells[addr] == id;
      var wasOcc := occ[addr] > params.minOccupancy;
      var nowOcc := newLogOdds > params.minOccupancy;
      occ[addr] := newLogOdds;
      if wasOcc != nowOcc {
        assert TheLayer() == before.(occ := before.occ[addr := newLogOdds]);
        UpdateInflation(id, if nowOcc then 1 else -1, null);
        assert before.Shifted(id, if nowOcc then 1 else -1, {}, cnt[..]);
        if nowOcc {
          before.BoundedAfterOccupying(addr, newLogOdds, cnt[..], recycled);
        } else {
          before.BoundedAfterFreeing(addr, newLogOdds, cnt[..], recycled);
        }
      } else {
        before.BoundedAfterSameClass(addr, newLogOdds, recycled);
      }
      assert TheLayer() == before.(occ := before.occ[addr := newLogOdds], cnt := cnt[..]);
    }

    method ResetCellByAddress(addr: int)
      requires LayerOk() && 0 <= addr < occ.Length
      modifies occ, cnt, inflate, hit, hitMiss
      ensures LayerOk()
      ensures occ[..] == old(occ[..])[addr := params.Unknown()]
      ensures hit[..] == old(hit[..])[addr := 0] && hitMiss[..] == old(hitMiss[..])[addr := 0]
    {
      hide Window.HashIdToGlobalIndex, Window.Address, Window.Size, Window.Locals;
      Win().CellsAreWindow();
      ghost var before := TheLayer();
      var idG := Win().HashIdToGlobalIndex(addr);
      assert before.cells[addr] == idG;
      if occ[addr] > params.minOccupancy {
        UpdateInflation(idG, -1, null);
        before.BoundedAfterFreeing(addr, params.Unknown(), cnt[..], recycled);
      } else {
        before.BoundedAfterSameClass(addr, params.Unknown(), recycled);
      }
      occ[addr] := params.Unknown();
      hit[addr] := 0;
      hitMiss[addr] := 0;
      assert TheLayer() == before.(occ := before.occ[addr := params.Unknown()], cnt := cnt[..]);
    }

    /** addrs lists the marked addresses, each once. */
    static ghost predicate Lists(mask: seq<bool>, addrs: seq<int>) {
      && Distinct(addrs)
      && (forall i :: 0 <= i < |addrs| ==> 0 <= addrs[i] < |mask| && mask[addrs[i]])
      && forall a :: 0 <= a < |mask| && mask[a] ==> a in addrs
    }

    /** Marks the addresses whose local index along dim is clearL. */
    method CollectSlab(dim: nat, clearL: int, clearMask: array<bool>, addrs: seq<int>) returns (clearAddrs: seq<int>)
      requires Shape() && dim < 3 && 0 <= clearL < num.At(dim)
      requires clearMask.Length == occ.Length && Lists(clearMask[..], addrs)
      modifies clearMask
      ensures Lists(clearMask[..], clearAddrs)
      ensures forall x :: 0 <= x < clearMask.Length ==>
        (clearMask[x] <==> old(clearMask[x]) || Win().Locals()[x].At(dim) == clearL)
    {
      hide Window.HashIdToGlobalIndex, Window.Address, Window.Size, Window.Cells, Window.Locals;
      Win().LocalsAreBox();
      ghost var locals := Win().Locals();
      clearAddrs := addrs;
      var d1, d2 := (dim + 1) % 3, (dim + 2) % 3;
      for a := 0 to num.At(d1)
        invariant Lists(clearMask[..], clearAddrs)
        invariant forall x :: 0 <= x < clearMask.Length ==>
          (clearMask[x] <==> old(clearMask[x]) || (locals[x].At(dim) == clearL && locals[x].At(d1) < a))
      {
        for b := 0 to num.At(d2)
          invariant Lists(clearMask[..], clearAddrs)
          invariant forall x :: 0 <= x < clearMask.Length ==>
            (clearMask[x] <==> old(clearMask[x])
                               || (locals[x].At(dim) == clearL
                                   && (locals[x].At(d1) < a || (locals[x].At(d1) == a && locals[x].At(d2) < b))))
        {
          var idL := Across(dim, clearL, a, b);
          assert idL.Under(num);
          var addr := Win().AddressLocal(idL);
          assert locals[addr] == idL;
          forall x | 0 <= x < clearMask.Length && locals[x].At(dim) == clearL && locals[x].At(d1) == a
                     && locals[x].At(d2) == b
            ensures x == addr
          {
            assert locals[x] == idL;
          }
          if !clearMask[addr] {
            clearMask[addr] := true;
            clearAddrs := clearAddrs + [addr];
          }
        }
      }
    }

    /** Marks every address whose voxel leaves when the window moves by shift. */
    method CollectCleared(shift: Vec) returns (clearMask: array<bool>, clearAddrs: seq<int>)
      requires Shape() && Partial(Win(), shift)
      ensures fresh(clearMask) && clearMask.Length == occ.Length && Lists(clearMask[..], clearAddrs)
      ensures forall x :: 0 <= x < clearMask.Length ==> (clearMask[x] <==> x in LeavingAddresses(Win(), shift))
    {
      hide Window.HashIdToGlobalIndex, Window.Address, Window.Size, Window.Cells, Window.Locals;
      ghost var w := Win();
      clearMask := new bool[occ.Length](_ => false);
      clearAddrs := [];
      for dim := 0 to 3
        invariant Lists(clearMask[..], clearAddrs)
        invariant forall x :: 0 <= x < clearMask.Length ==>
          (clearMask[x] <==> LocalCleared(w, shift, w.Locals()[x], dim))
      {
        ghost var sofar := clearMask[..];
        for k := 0 to Abs(shift.At(dim))
          invariant Lists(clearMask[..], clearAddrs)
          invariant forall x :: 0 <= x < clearMask.Length ==>
            (clearMask[x] <==> sofar[x]
                               || AmongCleared(w.Locals()[x].At(dim), boundMin.At(dim), num.At(dim), shift.At(dim), k))
        {
          var clearG := if 0 < shift.At(dim) then boundMin.At(dim) + k else boundMax.At(dim) - k;
          assert clearG == ClearedIndex(boundMin.At(dim), num.At(dim), shift.At(dim), k);
          clearAddrs := CollectSlab(dim, LocalIndex(clearG, num.At(dim)), clearMask, clearAddrs);
        }
      }
      forall x | 0 <= x < clearMask.Length
        ensures clearMask[x] <==> x in LeavingAddresses(w, shift)
      {
        ClearedIffLeaving(w, shift, x);
      }
    }

    method ResetCellByAddressForSliding(addr: int, clearMask: array<bool>)
      requires Shape() && TheLayer().Valid() && FlagsAgree(cnt[..], inflate[..])
      requires 0 <= addr < occ.Length && clearMask.Length == occ.Length && clearMask != inflate
      modifies cnt, inflate
      ensures TheLayer().Valid() && FlagsAgree(cnt[..], inflate[..])
      ensures if occ[addr] > params.minOccupancy
              then old(TheLayer()).Shifted(Win().Cells()[addr], -1, Marked(clearMask), cnt[..])
              else cnt[..] == old(cnt[..])
    {
      var idG := Win().HashIdToGlobalIndex(addr);
      if occ[addr] > params.minOccupancy {
        UpdateInflation(idG, -1, clearMask);
      }
    }

    /** Takes the occupied cleared voxels back from the counters of every cell that stays. */
    method TakeBackCleared(clearMask: array<bool>, clearAddrs: seq<int>)
      requires LayerOk()
      requires clearMask.Length == occ.Length && clearMask != inflate && Lists(clearMask[..], clearAddrs)
      modifies cnt, inflate
      ensures TheLayer().Valid() && FlagsAgree(cnt[..], inflate[..])
      ensures old(TheLayer()).TakenBack(Marked(clearMask), Marked(clearMask), cnt[..])
    {
      ghost var before, cleared := TheLayer(), Marked(clearMask);
      ghost var processed := {};
      before.TakeBackStart(cleared);
      for i := 0 to |clearAddrs|
        invariant TheLayer().Valid() && FlagsAgree(cnt[..], inflate[..])
        invariant processed == set j | 0 <= j < i :: clearAddrs[j]
        invariant before.TakenBack(cleared, processed, cnt[..])
      {
        ghost var prev := cnt[..];
        assert TheLayer() == before.(cnt := prev);
        ResetCellByAddressForSliding(clearAddrs[i], clearMask);
        if occ[clearAddrs[i]] > params.minOccupancy {
          before.TakeBackOne(cleared, processed, clearAddrs[i], prev, cnt[..]);
        } else {
          before.TakeBackNone(processed, clearAddrs[i]);
        }
        processed := processed + {clearAddrs[i]};
      }
      assert processed == cleared;
    }

    /** Empties the cleared cells. */
    method ClearCells(clearMask: array<bool>, clearAddrs: seq<int>)
      requires Shape() && FlagsAgree(cnt[..], inflate[..])
      requires clearMask.Length == occ.Length && clearMask != inflate && Lists(clearMask[..], clearAddrs)
      modifies occ, cnt, inflate, hit, hitMiss
      ensures FlagsAgree(cnt[..], inflate[..])
      ensures forall a :: 0 <= a < occ.Length ==>
        && occ[a] == (if clearMask[a] then params.Unknown() else old(occ[a]))
        && cnt[a] == (if clearMask[a] then 0 else old(cnt[a]))
        && hit[a] == (if clearMask[a] then 0 else old(hit[a]))
        && hitMiss[a] == (if clearMask[a] then 0 else old(hitMiss[a]))
    {
      for i := 0 to |clearAddrs|
        invariant FlagsAgree(cnt[..], inflate[..])
        invariant clearMask[..] == old(clearMask[..])
        invariant forall a :: 0 <= a < occ.Length ==>
          var done := a in clearAddrs[..i];
          && occ[a] == (if done then params.Unknown() else old(occ[a]))
          && cnt[a] == (if done then 0 else old(cnt[a]))
          && hit[a] == (if done then 0 else old(hit[a]))
          && hitMiss[a] == (if done then 0 else old(hitMiss[a]))
      {
        var addr := clearAddrs[i];
        occ[addr] := params.Unknown();
        cnt[addr] := 0;
        inflate[addr] := false;
        hit[addr] := 0;
        hitMiss[addr] := 0;
        assert clearAddrs[..i + 1] == clearAddrs[..i] + [addr];
      }
      assert clearAddrs[..|clearAddrs|] == clearAddrs;
    }

    ghost predicate Idle()
      reads this`cache, hit, hitMiss
    {
      && cache == []
      && (forall a :: 0 <= a < hit.Length ==> hit[a] == 0)
      && (forall a :: 0 <= a < hitMiss.Length ==> hitMiss[a] == 0)
    }

    method UpdateMapBoundaryFromIndex()
      modifies this`boundMin, this`boundMax
      ensures boundMin == originIdx.Minus(Vec(num.x / 2, num.y / 2, num.z / 2)) && boundMax == Win().Max()
    {
      boundMin := originIdx.Minus(Vec(num.x / 2, num.y / 2, num.z / 2));
      boundMax := boundMin.Plus(num).Minus(Vec(1, 1, 1));
    }

    method ResetAllMapData()
      requires Shape()
      modifies this`cache, this`recycled, occ, cnt, inflate, hit, hitMiss
      ensures LayerOk() && Idle() && recycled == {}
      ensures forall a :: 0 <= a < occ.Length ==> occ[a] == params.Unknown()
      ensures forall a :: 0 <= a < cnt.Length ==> cnt[a] == 0
    {
      forall a | 0 <= a < occ.Length { occ[a] := params.Unknown(); }
      forall a | 0 <= a < cnt.Length { cnt[a] := 0; }
      forall a | 0 <= a < inflate.Length { inflate[a] := false; }
      forall a | 0 <= a < hit.Length { hit[a] := 0; }
      forall a | 0 <= a < hitMiss.Length { hitMiss[a] := 0; }
      cache := [];
      recycled := {};
      EmptyMapOk();
    }

    /** The cells of the leaving voxels are emptied and their inflation is taken back from the others. */
    method ClearLeaving(shift: Vec) returns (ghost taken: seq<int>)
      requires LayerOk() && Partial(Win(), shift)
      modifies occ, cnt, inflate, hit, hitMiss
      ensures FlagsAgree(cnt[..], inflate[..]) && |taken| == occ.Length
      ensures old(TheLayer()).TakenBack(LeavingAddresses(Win(), shift), LeavingAddresses(Win(), shift), taken)
      ensures forall a :: 0 <= a < occ.Length ==>
        var leaves := a in LeavingAddresses(Win(), shift);
        && occ[a] == (if leaves then params.Unknown() else old(occ[a]))
        && cnt[a] == (if leaves then 0 else taken[a])
        && hit[a] == (if leaves then 0 else old(hit[a]))
        && hitMiss[a] == (if leaves then 0 else old(hitMiss[a]))
    {
      hide Window.HashIdToGlobalIndex, Window.Address, Window.Size, Window.Cells, Window.Locals;
      ghost var cleared := LeavingAddresses(Win(), shift);
      assert forall x :: x in cleared ==> 0 <= x < occ.Length;
      hide LeavingAddresses, Layer.TakenBack, Layer.Bounded, Layer.Valid;
      var clearMask, clearAddrs := CollectCleared(shift);
      assert cleared == Marked(clearMask);
      TakeBackCleared(clearMask, clearAddrs);
      taken := cnt[..];
      ClearCells(clearMask, clearAddrs);
    }

    method SlideBy(newOriginIdx: Vec)
      requires LayerOk() && Partial(Win(), newOriginIdx.Minus(originIdx))
      modifies this`originIdx, this`boundMin, this`boundMax, this`recycled, occ, cnt, inflate, hit, hitMiss
      ensures LayerOk() && originIdx == newOriginIdx
      ensures old(Idle()) ==> Idle()
      ensures OddsKept(old(Win()), Win(), old(occ[..]), occ[..], params.Unknown())
      ensures RecycledKept(old(Win()), Win(), old(recycled), recycled)
    {
      hide Window.HashIdToGlobalIndex, Window.Address, Window.Size, Window.Cells, Window.Locals;
      hide LeavingAddresses, OddsKept, RecycledKept, Layer.TakenBack, Layer.Bounded, Layer.Valid;
      var shift := newOriginIdx.Minus(originIdx);
      ghost var w, before := Win(), TheLayer();
      MovedSize(w, shift);
      ghost var taken := ClearLeaving(shift);
      originIdx := newOriginIdx;
      UpdateMapBoundaryFromIndex();
      assert Win() == Moved(w, shift);
      SlideKeepsLayer(w, shift, before, taken, TheLayer(), params.Unknown(), recycled);
      recycled := Recycle(w, shift, recycled);
    }

    /** Sliding is on and the sensor has come as far as the threshold from the origin on some axis. */
    ghost predicate LeftBehind(origin: Vec, sensor: Vec) {
      && params.slidingEnabled
      && (|| sensor.x - origin.x >= params.slidingThreshold || origin.x - sensor.x >= params.slidingThreshold
          || sensor.y - origin.y >= params.slidingThreshold || origin.y - sensor.y >= params.slidingThreshold
          || sensor.z - origin.z >= params.slidingThreshold || origin.z - sensor.z >= params.slidingThreshold)
    }

    /** The window and the record of recycled voxels after a slide towards newOrigin: both stay where the
        slide is off or too short, a partial slide adds what enters, and a jump empties the record. */
    ghost predicate SlidTo(origin: Vec, from: Window, before: set<Vec>, newOrigin: Vec)
      requires from.Valid()
      reads this`originIdx, this`boundMin, this`recycled
    {
      var shift := newOrigin.Minus(origin);
      if !params.Moves(shift) then originIdx == origin && Win() == from && recycled == before
      else
        && originIdx == newOrigin && Win() == Moved(from, shift)
        && if Partial(from, shift) then RecycledKept(from, Win(), before, recycled) else recycled == {}
    }

    /** Recentres the window on newOriginIdx unless sliding is off or the move is below the threshold. */
    method UpdateSlidingMap(newOriginIdx: Vec) returns (moved: bool)
      requires LayerOk() && Idle()
      modifies this`originIdx, this`boundMin, this`boundMax, this`recycled, this`cache
      modifies occ, cnt, inflate, hit, hitMiss
      ensures LayerOk() && Idle()
      ensures moved <==> LeftBehind(old(originIdx), newOriginIdx)
      ensures originIdx == if moved then newOriginIdx else old(originIdx)
      ensures OddsKept(old(Win()), Win(), old(occ[..]), occ[..], params.Unknown())
      ensures SlidTo(old(originIdx), old(Win()), old(recycled), newOriginIdx)
    {
      var shift := newOriginIdx.Minus(originIdx);
      BelowOnEveryAxis(shift, params.slidingThreshold);
      if !params.slidingEnabled {
        return false;
      }
      if MaxAbs(shift) < params.slidingThreshold {
        return false;
      }
      moved := true;
      if !Partial(Win(), shift) {
        ResetAllMapData();
        JumpKeepsNothing(old(Win()), shift, old(occ[..]), occ[..], params.Unknown());
        originIdx := newOriginIdx;
        UpdateMapBoundaryFromIndex();
        assert Win() == Moved(old(Win()), shift);
        EmptyMapOk();
      } else {
        SlideBy(newOriginIdx);
      }
    }

    lemma EmptyMapOk()
      requires Shape()
      requires forall a :: 0 <= a < occ.Length ==> occ[a] == params.Unknown()
      requires forall a :: 0 <= a < cnt.Length ==> cnt[a] == 0
      requires FlagsAgree(cnt[..], inflate[..])
      ensures LayerOk()
    {
      LayerValid();
      assert TheLayer().Occupied() == {};
      forall v: Vec
        ensures TheLayer().Reached(v) == 0
      {
        ReachEmpty(offsets, v);
      }
    }

    method ResetBuffer()
      requires Shape()
      modifies this`cache, this`recycled, occ, cnt, inflate, hit, hitMiss
      ensures LayerOk() && Idle() && recycled == {}
      ensures forall a :: 0 <= a < occ.Length ==> occ[a] == params.Unknown()
    {
      ResetAllMapData();
    }

    function BoundIndex(id: Vec): (b: Vec)
      reads this`originIdx, this`boundMin, this`boundMax
      requires Shape()
      ensures Win().InMap(b) && (Win().InMap(id) ==> b == id)
      ensures b.x == if id.x < boundMin.x then boundMin.x else if boundMax.x < id.x then boundMax.x else id.x
      ensures b.y == if id.y < boundMin.y then boundMin.y else if boundMax.y < id.y then boundMax.y else id.y
      ensures b.z == if id.z < boundMin.z then boundMin.z else if boundMax.z < id.z then boundMax.z else id.z
    {
      Vec(Clamp(id.x, boundMin.x, boundMax.x), Clamp(id.y, boundMin.y, boundMax.y), Clamp(id.z, boundMin.z, boundMax.z))
    }

    method ResetVoxel(g: Vec)
      requires LayerOk() && Idle() && Win().InMap(g)
      modifies occ, cnt, inflate, hit, hitMiss
      ensures LayerOk() && Idle()
      ensures Emptied(Win().Cells(), params.Unknown(), g, g, old(occ[..]), occ[..])
    {
      hide Window.Cells, Window.Address, Emptied;
      ghost var before := occ[..];
      Win().CellsAreWindow();
      ResetCellByAddress(Win().Address(g));
      OneEmptied(Win().Cells(), params.Unknown(), g, Win().Address(g), before);
    }

    /** Resets the voxels (x, y, z) with lo <= z <= hi. */
    method ResetColumn(x: int, y: int, lo: int, hi: int)
      requires LayerOk() && Idle()
      requires Win().InMap(Vec(x, y, lo)) && Win().InMap(Vec(x, y, hi))
      modifies occ, cnt, inflate, hit, hitMiss
      ensures LayerOk() && Idle()
      ensures Emptied(Win().Cells(), params.Unknown(), Vec(x, y, lo), Vec(x, y, hi), old(occ[..]), occ[..])
    {
      ghost var cells, before := Win().Cells(), occ[..];
      var z := lo;
      while z <= hi
        invariant lo <= z <= (if lo <= hi then hi + 1 else lo)
        invariant LayerOk() && Idle()
        invariant Emptied(cells, params.Unknown(), Vec(x, y, lo), Vec(x, y, z - 1), before, occ[..])
      {
        ghost var prev := occ[..];
        ResetVoxel(Vec(x, y, z));
        EmptiedJoin(cells, params.Unknown(), Vec(x, y, lo), Vec(x, y, z - 1), Vec(x, y, z), Vec(x, y, z),
                    Vec(x, y, lo), Vec(x, y, z), before, prev, occ[..]);
        z := z + 1;
      }
      EmptiedSame(cells, params.Unknown(), Vec(x, y, lo), Vec(x, y, z - 1), Vec(x, y, hi), before, occ[..]);
    }

    /** Resets the voxels (x, y, z) with lo.y <= y <= hi.y and lo.z <= z <= hi.z. */
    method ResetPlane(x: int, lo: Vec, hi: Vec)
      requires LayerOk() && Idle() && Win().InMap(Vec(x, lo.y, lo.z)) && Win().InMap(Vec(x, hi.y, hi.z))
      modifies occ, cnt, inflate, hit, hitMiss
      ensures LayerOk() && Idle()
      ensures Emptied(Win().Cells(), params.Unknown(), Vec(x, lo.y, lo.z), Vec(x, hi.y, hi.z), old(occ[..]), occ[..])
    {
      ghost var cells, before := Win().Cells(), occ[..];
      var y := lo.y;
      while y <= hi.y
        invariant lo.y <= y <= (if lo.y <= hi.y then hi.y + 1 else lo.y)
        invariant LayerOk() && Idle()
        invariant Emptied(cells, params.Unknown(), Vec(x, lo.y, lo.z), Vec(x, y - 1, hi.z), before, occ[..])
      {
        ghost var prev := occ[..];
        ResetColumn(x, y, lo.z, hi.z);
        EmptiedJoin(cells, params.Unknown(), Vec(x, lo.y, lo.z), Vec(x, y - 1, hi.z), Vec(x, y, lo.z), Vec(x, y, hi.z),
                    Vec(x, lo.y, lo.z), Vec(x, y, hi.z), before, prev, occ[..]);
        y := y + 1;
      }
      EmptiedSame(cells, params.Unknown(), Vec(x, lo.y, lo.z), Vec(x, y - 1, hi.z), Vec(x, hi.y, hi.z), before,
                  occ[..]);
    }

    /** Resets the voxels of a box clamped to the window. */
    method ResetBox(minPosIdx: Vec, maxPosIdx: Vec)
      requires LayerOk() && Idle()
      modifies occ, cnt, inflate, hit, hitMiss
      ensures LayerOk() && Idle()
      ensures Emptied(Win().Cells(), params.Unknown(), BoundIndex(minPosIdx), BoundIndex(maxPosIdx), old(occ[..]),
                      occ[..])
    {
      ghost var cells, before := Win().Cells(), occ[..];
      var minId, maxId := BoundIndex(minPosIdx), BoundIndex(maxPosIdx);
      var x := minId.x;
      while x <= maxId.x
        invariant minId.x <= x <= (if minId.x <= maxId.x then maxId.x + 1 else minId.x)
        invariant LayerOk() && Idle()
        invariant Emptied(cells, params.Unknown(), minId, Vec(x - 1, maxId.y, maxId.z), before, occ[..])
      {
        ghost var prev := occ[..];
        ResetPlane(x, minId, maxId);
        EmptiedJoin(cells, params.Unknown(), minId, Vec(x - 1, maxId.y, maxId.z),
                    Vec(x, minId.y, minId.z), Vec(x, maxId.y, maxId.z),
                    minId, Vec(x, maxId.y, maxId.z), before, prev, occ[..]);
        x := x + 1;
      }
      EmptiedSame(cells, params.Unknown(), minId, Vec(x - 1, maxId.y, maxId.z), maxId, before, occ[..]);
    }

    ghost predicate CacheOk()
      reads this, hit, hitMiss
    {
      Shape() && Queued(Win().Cells(), cache, hit[..], hitMiss[..])
    }

    method SetCacheOccupancy(id: Vec, o: int) returns (idx: int)
      requires CacheOk()
      modifies this`cache, hit, hitMiss
      ensures CacheOk()
      ensures if (o == 0 || o == 1) && Win().InMap(id) then
                && 0 <= idx < hit.Length && idx == Win().Address(id)
                && hitMiss[..] == old(hitMiss[..])[idx := old(hitMiss[idx]) + 1]
                && hit[..] == old(hit[..])[idx := old(hit[idx]) + o]
              else
                idx == INVALID_IDX && hit[..] == old(hit[..]) && hitMiss[..] == old(hitMiss[..])
    {
      hide Window.HashIdToGlobalIndex, Window.Address, Window.Size, Window.Cells, Window.Locals;
      if o != 1 && o != 0 {
        return INVALID_IDX;
      }
      if !Win().InMap(id) {
        return INVALID_IDX;
      }
      Win().CellsAreWindow();
      idx := Win().Address(id);
      assert Win().Cells()[idx] == id;
      hitMiss[idx] := hitMiss[idx] + 1;
      if hitMiss[idx] == 1 {
        cache := cache + [id];
      }
      if o == 1 {
        hit[idx] := hit[idx] + 1;
      }
    }

    /** Gathers the marks of one frame. */
    method GatherMarks(marks: seq<Mark>)
      requires Shape() && Idle()
      modifies this`cache, hit, hitMiss
      ensures CacheOk()
      ensures forall a :: 0 <= a < hit.Length ==>
        && hitMiss[a] == Marks(marks, Win().Cells()[a], false)
        && hit[a] == Marks(marks, Win().Cells()[a], true)
    {
      ghost var cells := Win().Cells();
      Win().CellsAreWindow();
      for i := 0 to |marks|
        invariant CacheOk()
        invariant forall a :: 0 <= a < hit.Length ==>
          && hitMiss[a] == Marks(marks[..i], cells[a], false)
          && hit[a] == Marks(marks[..i], cells[a], true)
      {
        var idx := SetCacheOccupancy(marks[i].id, marks[i].occ);
        assert marks[..i + 1][..i] == marks[..i];
      }
      assert marks[..|marks|] == marks;
    }

    /** Settles one touched voxel: its counts return to zero and its log-odds move by the frame's verdict. */
    method ResolveVoxel(idx: Vec, minId: Vec, maxId: Vec)
      requires LayerOk() && Win().InMap(idx)
      modifies occ, cnt, inflate, hit, hitMiss
      ensures LayerOk()
      ensures 0 <= Win().Address(idx) < occ.Length
      ensures var a := Win().Address(idx);
        && occ[..] == old(occ[..])[a := Resolve(params, old(occ[a]), old(hit[a]), old(hitMiss[a]),
                                                InBox(minId, maxId, idx))]
        && hit[..] == old(hit[..])[a := 0]
        && hitMiss[..] == old(hitMiss[..])[a := 0]
    {
      hide Window.HashIdToGlobalIndex, Window.Address, Window.Size, Window.Cells, Window.Locals;
      Win().HashInvertsAddress(idx);
      var a := Win().Address(idx);
      var logOddsUpdate := if hit[a] >= hitMiss[a] - hit[a] then params.probHit else params.probMiss;
      hit[a] := 0;
      hitMiss[a] := 0;
      if logOddsUpdate >= 0.0 && occ[a] >= params.clampMax {
        return;
      }
      if logOddsUpdate <= 0.0 && occ[a] <= params.clampMin {
        ApplyOccupancyUpdate(idx, params.clampMin);
        return;
      }
      if !InBox(minId, maxId, idx) {
        ApplyOccupancyUpdate(idx, params.clampMin);
      }
      ApplyOccupancyUpdate(idx, ClampReal(occ[a] + logOddsUpdate, params.clampMin, params.clampMax));
    }

    /** Empties the queue: every queued voxel is settled exactly once, nothing else changes. */
    method DrainCache(minId: Vec, maxId: Vec)
      requires LayerOk() && CacheOk()
      modifies this`cache, occ, cnt, inflate, hit, hitMiss
      ensures LayerOk() && Idle()
      ensures forall a :: 0 <= a < occ.Length ==>
        occ[a] == if 0 < old(hitMiss[a])
                  then Resolve(params, old(occ[a]), old(hit[a]), old(hitMiss[a]), InBox(minId, maxId, Win().Cells()[a]))
                  else old(occ[a])
    {
      hide Window.HashIdToGlobalIndex, Window.Address, Window.Size, Window.Cells, Window.Locals;
      ghost var cells := Win().Cells();
      ghost var start := Frame(occ[..], hit[..], hitMiss[..]);
      while cache != []
        invariant LayerOk() && CacheOk()
        invariant PartlySettled(params, cells, minId, maxId, cache, start, Frame(occ[..], hit[..], hitMiss[..]))
        decreases |cache|
      {
        Win().CellsAreWindow();
        ghost var before, queue := Frame(occ[..], hit[..], hitMiss[..]), cache;
        assert cache[0] in cells;
        ghost var k :| 0 <= k < |cells| && cells[k] == cache[0];
        assert Win().InMap(cells[k]);
        var idx := cache[0];
        cache := cache[1..];
        ghost var a := Win().Address(idx);
        ResolveVoxel(idx, minId, maxId);
        SettleOne(params, cells, minId, maxId, queue, a, start, before, Frame(occ[..], hit[..], hitMiss[..]));
      }
    }

    /** One frame: slide the window, count the marks of every ray, settle the touched voxels. */
    method RaycastProcess(projPointsCnt: nat, rayPosIdx: Vec, marks: seq<Mark>, rangeMinIdx: Vec, rangeMaxIdx: Vec)
      requires LayerOk() && Idle()
      modifies this, occ, cnt, inflate, hit, hitMiss
      ensures LayerOk() && Idle()
      ensures projPointsCnt == 0 ==> Win() == old(Win()) && occ[..] == old(occ[..]) && recycled == old(recycled)
      ensures projPointsCnt != 0 ==>
        FrameOdds(params, old(Win()), Win(), old(occ[..]), occ[..], marks, BoundIndex(rangeMinIdx),
                  BoundIndex(rangeMaxIdx))
      ensures projPointsCnt != 0 ==> SlidTo(old(originIdx), old(Win()), old(recycled), rayPosIdx)
      ensures originIdx == if projPointsCnt != 0 && LeftBehind(old(originIdx), rayPosIdx) then rayPosIdx
                           else old(originIdx)
    {
      hide Window.HashIdToGlobalIndex, Window.Address, Window.Size, Window.Cells, Window.Locals;
      if projPointsCnt == 0 {
        return;
      }
      var moved := UpdateSlidingMap(rayPosIdx);
      ghost var slid := occ[..];
      GatherMarks(marks);
      var minId, maxId := BoundIndex(rangeMinIdx), BoundIndex(rangeMaxIdx);
      DrainCache(minId, maxId);
      FrameComposes(params, old(Win()), Win(), old(occ[..]), slid, occ[..], marks, minId, maxId);
    }

    /** An inflated cell has an occupied voxel of the window at an inflation offset. */
    lemma InflatedHasWitness(a: int) returns (o: Vec)
      requires LayerOk() && 0 <= a < inflate.Length && inflate[a]
      ensures o in offsets && Win().Valid() && Win().InMap(Win().HashIdToGlobalIndex(a).Minus(o))
      ensures Stored(Win(), occ[..], Win().HashIdToGlobalIndex(a).Minus(o)) > params.minOccupancy
    {
      Win().CellsAreWindow();
      var v := TheLayer().cells[a];
      o := ReachWitness(offsets, v, TheLayer().Occupied());
      var b :| 0 <= b < occ.Length && occ[b] > params.minOccupancy && TheLayer().cells[b] == v.Minus(o);
      assert Win().Address(v.Minus(o)) == b;
    }

    /** A cell that was never recycled is inflated as soon as an occupied voxel reaches it. */
    lemma OccupiedInflates(u: Vec, o: Vec)
      requires LayerOk() && o in offsets && Win().InMap(u) && Win().InMap(u.Plus(o))
      requires Stored(Win(), occ[..], u) > params.minOccupancy && u.Plus(o) !in recycled
      ensures 0 <= Win().Address(u.Plus(o)) < inflate.Length && inflate[Win().Address(u.Plus(o))]
    {
      Win().CellsAreWindow();
      var a := Win().Address(u.Plus(o));
      assert TheLayer().cells[a] == u.Plus(o);
      TheLayer().CellOccupiedIff(Win().Address(u));
      assert u.Plus(o).Minus(o) == u;
      ReachPositive(offsets, u.Plus(o), TheLayer().Occupied(), o);
    }
  }

  /** A slide that takes the leaving voxels back and clears their cells keeps the counters, the
      log-odds of the voxels that stay, and the record of recycled voxels. */
  lemma SlideKeepsLayer(w: Window, shift: Vec, before: Layer, taken: seq<int>, after: Layer, unknown: real,
                        recycled: set<Vec>)
    requires w.Valid() && before.cells == w.Cells() && before.Valid() && before.Bounded(recycled)
    requires unknown <= before.threshold
    requires after.cells == Moved(w, shift).Cells() && after.offsets == before.offsets
             && after.threshold == before.threshold
    requires |after.cells| == |before.cells| == |after.occ| == |after.cnt| == |taken|
    requires before.TakenBack(LeavingAddresses(w, shift), LeavingAddresses(w, shift), taken)
    requires forall a :: 0 <= a < |taken| ==>
      && after.occ[a] == (if a in LeavingAddresses(w, shift) then unknown else before.occ[a])
      && after.cnt[a] == (if a in LeavingAddresses(w, shift) then 0 else taken[a])
    ensures after.Valid() && after.Bounded(Recycle(w, shift, recycled))
    ensures OddsKept(w, Moved(w, shift), before.occ, after.occ, unknown)
    ensures RecycledKept(w, Moved(w, shift), recycled, Recycle(w, shift, recycled))
  {
    hide Window.HashIdToGlobalIndex, Window.Address, Window.Size, Window.Cells, Layer.Bounded;
    CellsAfterMove(w, shift);
    Moved(w, shift).CellsAreWindow();
    w.CellsAreWindow();
    var cleared := LeavingAddresses(w, shift);
    assert before.Slid(cleared, unknown, after);
    before.SlideKeepsBound(cleared, unknown, after, recycled, Recycle(w, shift, recycled));
    SlideKeepsVoxels(w, shift, before.occ, after.occ, unknown, recycled, Recycle(w, shift, recycled));
  }

  /** The occupancy and count buffers as values. */
  datatype Frame = Frame(occ: seq<real>, hit: seq<int>, total: seq<int>)

  /** Queued and untouched cells stand as at the start of the drain, settled cells hold their verdict. */
  ghost predicate PartlySettled(p: Params, cells: seq<Vec>, minId: Vec, maxId: Vec, cache: seq<Vec>,
                                start: Frame, now: Frame)
  {
    && |cells| == |start.occ| == |start.hit| == |start.total| == |now.occ| == |now.hit| == |now.total|
    && forall a :: 0 <= a < |cells| ==>
         if cells[a] in cache || start.total[a] <= 0 then
           now.occ[a] == start.occ[a] && now.hit[a] == start.hit[a] && now.total[a] == start.total[a]
         else
           now.occ[a] == Resolve(p, start.occ[a], start.hit[a], start.total[a], InBox(minId, maxId, cells[a]))
  }

  /** What a frame does to the map from voxels to log-odds: slide, then one verdict per marked voxel. */
  ghost predicate FrameOdds(p: Params, from: Window, to: Window, before: seq<real>, after: seq<real>,
                            marks: seq<Mark>, minId: Vec, maxId: Vec)
  {
    && from.Valid() && to.Valid() && |before| == from.Size() && |after| == to.Size()
    && forall g :: to.InMap(g) ==>
         var slid := if from.InMap(g) then Stored(from, before, g) else p.Unknown();
         Stored(to, after, g) ==
           if Marks(marks, g, false) == 0 then slid
           else Resolve(p, slid, Marks(marks, g, true), Marks(marks, g, false), InBox(minId, maxId, g))
  }

  lemma FrameComposes(p: Params, from: Window, to: Window, before: seq<real>, slid: seq<real>, after: seq<real>,
                      marks: seq<Mark>, minId: Vec, maxId: Vec)
    requires OddsKept(from, to, before, slid, p.Unknown()) && |after| == |slid|
    requires forall a :: 0 <= a < |slid| ==>
      after[a] == if 0 < Marks(marks, to.Cells()[a], false)
                  then Resolve(p, slid[a], Marks(marks, to.Cells()[a], true), Marks(marks, to.Cells()[a], false),
                               InBox(minId, maxId, to.Cells()[a]))
                  else slid[a]
    ensures FrameOdds(p, from, to, before, after, marks, minId, maxId)
  {
    to.CellsAreWindow();
    forall g | to.InMap(g)
      ensures Stored(to, after, g) == after[to.Address(g)] && Stored(to, slid, g) == slid[to.Address(g)]
    {
    }
  }

  lemma SettleOne(p: Params, cells: seq<Vec>, minId: Vec, maxId: Vec, cache: seq<Vec>, a: int,
                  start: Frame, before: Frame, after: Frame)
    requires cache != [] && Distinct(cells) && 0 <= a < |cells| && cells[a] == cache[0]
    requires PartlySettled(p, cells, minId, maxId, cache, start, before)
    requires Queued(cells, cache, before.hit, before.total)
    requires after.occ == before.occ[a := Resolve(p, before.occ[a], before.hit[a], before.total[a],
                                                  InBox(minId, maxId, cells[a]))]
    requires after.hit == before.hit[a := 0] && after.total == before.total[a := 0]
    ensures PartlySettled(p, cells, minId, maxId, cache[1..], start, after)
    ensures Queued(cells, cache[1..], after.hit, after.total)
  {
  }

  const INVALID_IDX := -10000

  /** One hit (occ = 1) or miss (occ = 0) of a voxel, as a ray of the frame records it. */
  datatype Mark = Mark(id: Vec, occ: int)

  /** How many marks name the voxel g: all valid ones, or only the hits. */
  function Marks(marks: seq<Mark>, g: Vec, hitsOnly: bool): nat {
    if marks == [] then 0
    else
      var last := marks[|marks| - 1];
      Marks(marks[..|marks| - 1], g, hitsOnly)
        + (if last.id == g && (last.occ == 1 || (last.occ == 0 && !hitsOnly)) then 1 else 0)
  }

  /** Each mark counts once, for its own voxel: hits and misses, or only the hits. */
  lemma {:induction false} MarksAreCounted(marks: seq<Mark>, g: Vec, hitsOnly: bool)
    ensures Marks(marks, g, hitsOnly) ==
            |set i | 0 <= i < |marks| && (marks[i] == Mark(g, 1) || (!hitsOnly && marks[i] == Mark(g, 0)))|
  {
    if marks != [] {
      var n := |marks| - 1;
      var before, last := marks[..n], marks[n];
      MarksAreCounted(before, g, hitsOnly);
      var were := set i | 0 <= i < n && (before[i] == Mark(g, 1) || (!hitsOnly && before[i] == Mark(g, 0)));
      var are := set i | 0 <= i < |marks| && (marks[i] == Mark(g, 1) || (!hitsOnly && marks[i] == Mark(g, 0)));
      if last == Mark(g, 1) || (!hitsOnly && last == Mark(g, 0)) {
        assert are == were + {n};
      } else {
        assert are == were;
      }
    }
  }

  /** The counts agree with the queue: it lists the voxel of every touched cell, each once. */
  ghost predicate Queued(cells: seq<Vec>, cache: seq<Vec>, hit: seq<int>, hitMiss: seq<int>) {
    && |hit| == |hitMiss| == |cells|
    && Distinct(cache)
    && (forall g :: g in cache ==> g in cells)
    && forall a :: 0 <= a < |cells| ==> 0 <= hit[a] <= hitMiss[a] && (cells[a] in cache <==> 0 < hitMiss[a])
  }

  /** Only the cells of a box have changed, to unknown. */
  ghost predicate Emptied(cells: seq<Vec>, unknown: real, minId: Vec, maxId: Vec, before: seq<real>, after: seq<real>) {
    && |cells| == |before| == |after|
    && forall a :: 0 <= a < |cells| ==> after[a] == if InBox(minId, maxId, cells[a]) then unknown else before[a]
  }

  lemma OneEmptied(cells: seq<Vec>, unknown: real, g: Vec, a: int, before: seq<real>)
    requires |cells| == |before| && 0 <= a < |cells| && cells[a] == g && Distinct(cells)
    ensures Emptied(cells, unknown, g, g, before, before[a := unknown])
  {
  }

  /** Emptying two boxes in turn empties their union. */
  lemma EmptiedJoin(cells: seq<Vec>, unknown: real, lo1: Vec, hi1: Vec, lo2: Vec, hi2: Vec, lo: Vec, hi: Vec,
                    s0: seq<real>, s1: seq<real>, s2: seq<real>)
    requires Emptied(cells, unknown, lo1, hi1, s0, s1) && Emptied(cells, unknown, lo2, hi2, s1, s2)
    requires forall g :: InBox(lo, hi, g) <==> InBox(lo1, hi1, g) || InBox(lo2, hi2, g)
    ensures Emptied(cells, unknown, lo, hi, s0, s2)
  {
  }

  lemma EmptiedSame(cells: seq<Vec>, unknown: real, lo: Vec, hi: Vec, hi': Vec, before: seq<real>, after: seq<real>)
    requires Emptied(cells, unknown, lo, hi, before, after)
    requires forall g :: InBox(lo, hi, g) <==> InBox(lo, hi', g)
    ensures Emptied(cells, unknown, lo, hi', before, after)
  {
  }

  function ClampReal(v: real, lo: real, hi: real): real {
    var m := if v < lo then lo else v;
    if hi < m then hi else m
  }

  /** The verdict of a frame on one voxel: hits outvote or tie misses, the step saturates at the
      clamps, and a voxel outside the local range first forgets its history. */
  function Resolve(p: Params, odds: real, hits: int, total: int, inLocal: bool): (r: real)
    ensures p.Sound() && p.Storable(odds) ==> p.Storable(r)
  {
    var step := if hits >= total - hits then p.probHit else p.probMiss;
    if step >= 0.0 && odds >= p.clampMax then odds
    else if step <= 0.0 && odds <= p.clampMin then p.clampMin
    else ClampReal((if inLocal then odds else p.clampMin) + step, p.clampMin, p.clampMax)
  }

  predicate InBox(minId: Vec, maxId: Vec, g: Vec) {
    minId.x <= g.x <= maxId.x && minId.y <= g.y <= maxId.y && minId.z <= g.z <= maxId.z
  }

  /** max(min(v, hi), lo). */
  function Clamp(v: int, lo: int, hi: int): int {
    var m := if hi < v then hi else v;
    if m < lo then lo else m
  }
}
