/** How the verdicts of successive frames add up on one voxel. */
module Evidence {
  import opened Basics
  import opened Products
  import opened OccupancyMap

  /** What one frame says of a voxel: its counts and whether it lies in the frame's local range. */
  datatype Look = Look(hits: int, total: int, inLocal: bool)

  ghost function After(p: Params, odds: real, looks: seq<Look>): (r: real)
    ensures p.Sound() && p.Storable(odds) ==> p.Storable(r)
  {
    if looks == [] then odds
    else
      var last := looks[|looks| - 1];
      Resolve(p, After(p, odds, looks[..|looks| - 1]), last.hits, last.total, last.inLocal)
  }

  function MinReal(a: real, b: real): real { if a < b then a else b }

  /** Evidence is never turned around: of two voxels that get the same looks, the one with the higher
      log-odds keeps at least the other's. */
  lemma {:induction false} OrderKept(p: Params, low: real, high: real, looks: seq<Look>)
    requires p.Sound() && p.Storable(low) && p.Storable(high) && low <= high
    ensures After(p, low, looks) <= After(p, high, looks)
  {
    if looks != [] {
      OrderKept(p, low, high, looks[..|looks| - 1]);
    }
  }

  /** n frames that the hits win within the range, from log-odds that may be unknown. */
  ghost function Raised(p: Params, odds: real, n: nat): real {
    if n == 0 then odds
    else MinReal(MaxReal(odds + p.probHit, p.clampMin) + Times((n - 1) as real, p.probHit), p.clampMax)
  }

  lemma {:induction false} HitsRaise(p: Params, odds: real, looks: seq<Look>)
    requires p.Sound() && 0.0 <= p.probHit && p.Storable(odds)
    requires forall i :: 0 <= i < |looks| ==> 2 * looks[i].hits >= looks[i].total && looks[i].inLocal
    ensures After(p, odds, looks) == Raised(p, odds, |looks|)
  {
    hide Times;
    if |looks| == 1 {
      TimesZero(p.probHit);
    } else if looks != [] {
      HitsRaise(p, odds, looks[..|looks| - 1]);
      TimesNext(|looks| - 2, p.probHit);
      TimesSign((|looks| - 2) as real, p.probHit);
    }
  }

  /** n frames that the misses win within the range. */
  ghost function Lowered(p: Params, odds: real, n: nat): real {
    if n == 0 then odds else MaxReal(odds + Times(n as real, p.probMiss), p.clampMin)
  }

  lemma {:induction false} MissesLower(p: Params, odds: real, looks: seq<Look>)
    requires p.Sound() && p.probMiss <= 0.0 && p.Storable(odds)
    requires forall i :: 0 <= i < |looks| ==> 2 * looks[i].hits < looks[i].total && looks[i].inLocal
    ensures After(p, odds, looks) == Lowered(p, odds, |looks|)
  {
    hide Times;
    if looks != [] {
      MissesLower(p, odds, looks[..|looks| - 1]);
      TimesNext(|looks| - 1, p.probMiss);
      TimesSign((|looks| - 1) as real, -p.probMiss);
      TimesOpposite((|looks| - 1) as real, p.probMiss);
      TimesZero(p.probMiss);
    }
  }

  /** Out of the range a frame that the misses win leaves the lower clamp, and one that the hits win a single
      step above it, unless the voxel was saturated. */
  lemma OutOfRange(p: Params, odds: real, look: Look)
    requires p.Sound() && p.probMiss < 0.0 <= p.probHit && p.Storable(odds) && !look.inLocal
    ensures Resolve(p, odds, look.hits, look.total, false) ==
            if 2 * look.hits < look.total then p.clampMin
            else if odds == p.clampMax then p.clampMax
            else MinReal(p.clampMin + p.probHit, p.clampMax)
  {
  }

  /** The number of frames it takes: the voxel is occupied after n of them exactly when n steps pass the
      threshold and the upper clamp lies above it. */
  lemma OccupiedIff(p: Params, odds: real, looks: seq<Look>)
    requires p.Sound() && 0.0 <= p.probHit && p.Storable(odds) && looks != []
    requires forall i :: 0 <= i < |looks| ==> 2 * looks[i].hits >= looks[i].total && looks[i].inLocal
    ensures After(p, odds, looks) > p.minOccupancy <==>
      && p.clampMax > p.minOccupancy
      && MaxReal(odds + p.probHit, p.clampMin) + Times((|looks| - 1) as real, p.probHit) > p.minOccupancy
  {
    HitsRaise(p, odds, looks);
  }

  /** Frames that decide whatever came before: they make every voxel occupied exactly when they make an
      unknown one so. */
  lemma AnyPastIff(p: Params, looks: seq<Look>)
    requires p.Sound()
    ensures (forall odds, past :: p.Storable(odds) ==> After(p, odds, past + looks) > p.minOccupancy)
            <==> After(p, p.Unknown(), looks) > p.minOccupancy
  {
    if After(p, p.Unknown(), looks) > p.minOccupancy {
      forall odds, past | p.Storable(odds)
        ensures After(p, odds, past + looks) > p.minOccupancy
      {
        AfterJoin(p, odds, past, looks);
        OrderKept(p, p.Unknown(), After(p, odds, past), looks);
      }
    } else {
      assert [] + looks == looks;
      assert p.Storable(p.Unknown());
    }
  }

  lemma {:induction false} AfterJoin(p: Params, odds: real, past: seq<Look>, looks: seq<Look>)
    ensures After(p, odds, past + looks) == After(p, After(p, odds, past), looks)
  {
    if looks == [] {
      assert past + looks == past;
    } else {
      AfterJoin(p, odds, past, looks[..|looks| - 1]);
      assert (past + looks)[..|past + looks| - 1] == past + looks[..|looks| - 1];
    }
  }
}
