/** The cost that combineCostRebound hands to the solver, and its gradient. */
module CombinedCosts {
  import opened Vectors
  import opened BsplineCosts
  import opened BsplineOptimizers
  import opened Products

  /** The control points with the free columns replaced. */
  ghost function Placed(points: seq<V3>, order: nat, x: seq<V3>): (r: seq<V3>)
    requires order + |x| <= |points|
    ensures |r| == |points|
  {
    points[..order] + x + points[order + |x|..]
  }

  /** A move of the free columns, with the others at rest. */
  ghost function Padded(n: nat, order: nat, x: seq<V3>): (r: seq<V3>)
    requires order + |x| <= n
    ensures |r| == n
  {
    seq(n, i requires 0 <= i < n => if order <= i < order + |x| then x[i - order] else ZERO)
  }

  lemma PlacedMoves(points: seq<V3>, order: nat, x: seq<V3>, d: seq<V3>)
    requires order + |x| <= |points| && |d| == |x|
    ensures Placed(points, order, Sum(x, d)) == Sum(Placed(points, order, x), Padded(|points|, order, d))
  {
  }

  function WholeAt(s: Setting, a: V3, b: V3, c: V3): V3 {
    a.Scale(s.lambda1).Plus(b.Scale(s.newLambda2)).Plus(c.Scale(s.lambda3))
  }

  /** The weighted sum of three gradients. */
  ghost function Mixed(s: Setting, a: seq<V3>, b: seq<V3>, c: seq<V3>): (r: seq<V3>)
    requires |a| == |b| == |c|
    ensures |r| == |a|
  {
    seq(|a|, i requires 0 <= i < |a| => WholeAt(s, a[i], b[i], c[i]))
  }

  function Flattened(v: V3): V3 { V3(v.x, v.y, 0.0) }

  /** A gradient with its vertical row cleared. */
  ghost function RowCleared(g: seq<V3>): (r: seq<V3>)
    ensures |r| == |g| && forall i :: 0 <= i < |g| ==> r[i] == Flattened(g[i])
  {
    seq(|g|, i requires 0 <= i < |g| => Flattened(g[i]))
  }

  lemma DotScale(v: V3, c: real, d: V3)
    ensures v.Scale(c).Dot(d) == c * v.Dot(d)
  {
    TimesProduct(c, v.x, d.x);
    TimesProduct(c, v.y, d.y);
    TimesProduct(c, v.z, d.z);
    Distribute(c, v.x * d.x, v.y * d.y, v.z * d.z);
  }

  lemma TimesProduct(c: real, x: real, y: real)
    ensures c * x * y == c * (x * y)
  {
  }

  lemma WholeDot(s: Setting, a: V3, b: V3, c: V3, d: V3)
    ensures WholeAt(s, a, b, c).Dot(d) == s.Mix(a.Dot(d), b.Dot(d), c.Dot(d))
  {
    var x, y, z := a.Scale(s.lambda1), b.Scale(s.newLambda2), c.Scale(s.lambda3);
    hide V3.Dot, V3.Scale, V3.Plus;
    DotSum(x.Plus(y), z, d);
    DotSum(x, y, d);
    DotScale(a, s.lambda1, d);
    DotScale(b, s.newLambda2, d);
    DotScale(c, s.lambda3, d);
  }

  /** No move leaves its height. */
  ghost predicate Level(d: seq<V3>) { forall i :: 0 <= i < |d| ==> d[i].z == 0.0 }

  lemma MixNothing(s: Setting)
    ensures s.Mix(0.0, 0.0, 0.0) == 0.0
  {
  }

  lemma MixSum(s: Setting, a: real, b: real, c: real, x: real, y: real, z: real)
    ensures s.Mix(a + x, b + y, c + z) == s.Mix(a, b, c) + s.Mix(x, y, z)
  {
    TimesSum(s.lambda1, a, x, a + x);
    TimesSum(s.newLambda2, b, y, b + y);
    TimesSum(s.lambda3, c, z, c + z);
  }

  /** Against a move of the free columns, the slice of the mix is the mix of the three inner products. */
  lemma {:induction false} SliceInner(s: Setting, a: seq<V3>, b: seq<V3>, c: seq<V3>, d: seq<V3>, n: nat)
    requires |a| == |b| == |c| && s.order + |d| <= |a| && n <= |a|
    ensures var (e, slice) := (Padded(|a|, s.order, d), Mixed(s, a, b, c)[s.order..s.order + |d|]);
      InnerTo(slice, d, Covered(s.order, |d|, n))
      == s.Mix(InnerTo(a, e, n), InnerTo(b, e, n), InnerTo(c, e, n))
  {
    hide V3.Dot, WholeAt, Setting.Mix;
    if n == 0 {
      MixNothing(s);
    } else {
      SliceInner(s, a, b, c, d, n - 1);
      var e := Padded(|a|, s.order, d);
      WholeDot(s, a[n - 1], b[n - 1], c[n - 1], e[n - 1]);
      MixSum(s, InnerTo(a, e, n - 1), InnerTo(b, e, n - 1), InnerTo(c, e, n - 1),
             a[n - 1].Dot(e[n - 1]), b[n - 1].Dot(e[n - 1]), c[n - 1].Dot(e[n - 1]));
      DotZero(WholeAt(s, a[n - 1], b[n - 1], c[n - 1]));
    }
  }

  lemma DotZero(v: V3)
    ensures v.Dot(ZERO) == 0.0
  {
  }

  /** The cost that the solver minimises, of all control points. */
  ghost function CombinedCost(s: Setting, guides: seq<seq<Guide>>, q: seq<V3>): real
    requires s.Ok() && |guides| == |q|
  {
    s.Mix(SmoothnessCost(true, q), DistanceCost(s.clearance, q, guides, s.order, DistanceEnd(s, |q|)),
          s.FeasibilityCost(q))
  }

  ghost function Zeros(n: nat): (r: seq<V3>)
    ensures |r| == n
  {
    seq(n, _ => ZERO)
  }

  lemma {:induction false} ZerosInner(d: seq<V3>, n: nat)
    requires n <= |d|
    ensures InnerTo(Zeros(|d|), d, n) == 0.0
  {
    if n != 0 {
      ZerosInner(d, n - 1);
    }
  }

  /** The gradient over all columns and all three axes. */
  ghost function WholeGradient(s: Setting, guides: seq<seq<Guide>>, q: seq<V3>): (r: seq<V3>)
    requires s.Ok() && |guides| == |q|
    ensures |r| == |q|
  {
    Mixed(s, SmoothnessGradient(true, q, Zeros(|q|)),
          DistanceGradient(s.clearance, q, guides, Zeros(|q|), s.order, DistanceEnd(s, |q|)),
          s.FeasibilityGradient(q, Zeros(|q|)))
  }

  /** The free columns of a gradient at the control points x. */
  ghost function FreePart(s: Setting, guides: seq<seq<Guide>>, points: seq<V3>, x: seq<V3>): (r: seq<V3>)
    requires s.Ok() && |guides| == |points| && s.order + |x| <= |points|
    ensures |r| == |x|
  {
    WholeGradient(s, guides, Placed(points, s.order, x))[s.order..s.order + |x|]
  }

  /** How far the cost rises when the free columns move by d. */
  ghost function Rise(s: Setting, guides: seq<seq<Guide>>, points: seq<V3>, x: seq<V3>, d: seq<V3>): real
    requires s.Ok() && |guides| == |points| && s.order + |x| <= |points| && |d| == |x|
  {
    CombinedCost(s, guides, Placed(points, s.order, Sum(x, d))) - CombinedCost(s, guides, Placed(points, s.order, x))
  }

  ghost function DistanceBend(s: Setting, guides: seq<seq<Guide>>, d: seq<V3>): real
    requires |guides| == |d|
  {
    Times(3.0 * s.clearance, AlongAll(guides, d, s.order, DistanceEnd(s, |d|)))
  }

  /** The quadratic form of the move that bounds how far the combined cost rises above its tangent. */
  ghost function CombinedBend(s: Setting, guides: seq<seq<Guide>>, d: seq<V3>): real
    requires s.Ok() && |guides| == |d|
  {
    s.Mix(SmoothnessCost(true, d), DistanceBend(s, guides, d), s.FeasibilityBend(d))
  }

  /** A gradient g of the free columns is tangent along the move d: the cost lies above it, by at most a
      quadratic form of the move. */
  ghost predicate TangentAlong(s: Setting, guides: seq<seq<Guide>>, points: seq<V3>, x: seq<V3>, g: seq<V3>, d: seq<V3>)
    requires s.Ok() && |guides| == |points| && s.order + |x| <= |points| && |g| == |d| == |x|
  {
    0.0 <= Rise(s, guides, points, x, d) - Inner(g, d) <= CombinedBend(s, guides, Padded(|points|, s.order, d))
  }

  /** The uncleared gradient is tangent along every move of the free columns. */
  lemma WholeTangent(s: Setting, guides: seq<seq<Guide>>, points: seq<V3>, x: seq<V3>, d: seq<V3>)
    requires s.Ok() && s.Sane() && |guides| == |points| && s.order + |x| <= |points| && |d| == |x|
    ensures TangentAlong(s, guides, points, x, FreePart(s, guides, points, x), d)
  {
    hide Placed, Padded, Mixed, SmoothnessCost, SmoothnessGradient, DistanceCost, DistanceGradient,
      Setting.FeasibilityCost, Setting.FeasibilityGradient, Setting.FeasibilityBend, Setting.Mix, InnerTo, Total, Zeros,
      AlongAll, Sum;
    var q, e, z := Placed(points, s.order, x), Padded(|points|, s.order, d), Zeros(|points|);
    PlacedMoves(points, s.order, x, d);
    var a := SmoothnessGradient(true, q, z);
    var b := DistanceGradient(s.clearance, q, guides, z, s.order, DistanceEnd(s, |q|));
    var c := s.FeasibilityGradient(q, z);
    ZerosInner(e, |e|);
    SmoothnessExpands(true, q, z, e);
    SmoothnessSign(e);
    DistanceTangent(s.clearance, q, guides, z, s.order, DistanceEnd(s, |q|), e);
    FeasibilityTangent(s, q, z, e);
    hide DistanceBend;
    SliceInner(s, a, b, c, d, |points|);
    var moved := Sum(q, e);
    MixGap(s, SmoothnessCost(true, moved), SmoothnessCost(true, q), Inner(a, e), SmoothnessCost(true, e),
           DistanceCost(s.clearance, moved, guides, s.order, DistanceEnd(s, |q|)),
           DistanceCost(s.clearance, q, guides, s.order, DistanceEnd(s, |q|)), Inner(b, e),
           DistanceBend(s, guides, e),
           s.FeasibilityCost(moved), s.FeasibilityCost(q), Inner(c, e), s.FeasibilityBend(e));
  }

  lemma SmoothnessSign(d: seq<V3>)
    ensures 0.0 <= SmoothnessCost(true, d)
  {
    SquaresSign(JERK, d, Steps(4, |d|));
  }

  lemma {:induction false} SquaresSign(coef: seq<real>, d: seq<V3>, n: nat)
    requires 0 < n ==> n - 1 + |coef| <= |d|
    ensures 0.0 <= Total(Square, coef, d, n)
  {
    if n != 0 {
      SquaresSign(coef, d, n - 1);
      SquareCost(Difference(coef, d, n - 1));
    }
  }

  lemma MixGap(s: Setting, a1: real, a0: real, ga: real, ka: real, b1: real, b0: real, gb: real, kb: real,
               c1: real, c0: real, gc: real, kc: real)
    requires s.Sane()
    requires 0.0 <= a1 - a0 - ga <= ka && 0.0 <= b1 - b0 - gb <= kb && 0.0 <= c1 - c0 - gc <= kc
    ensures 0.0 <= s.Mix(a1, b1, c1) - s.Mix(a0, b0, c0) - s.Mix(ga, gb, gc) <= s.Mix(ka, kb, kc)
  {
    var x, y, z := a1 - a0 - ga, b1 - b0 - gb, c1 - c0 - gc;
    MixSum(s, a0, b0, c0, ga, gb, gc);
    MixSum(s, a0 + ga, b0 + gb, c0 + gc, x, y, z);
    MixSum(s, x, y, z, ka - x, kb - y, kc - z);
    MixSign(s, x, y, z);
    MixSign(s, ka - x, kb - y, kc - z);
    hide Setting.Mix;
    assert a0 + ga + x == a1 && b0 + gb + y == b1 && c0 + gc + z == c1;
    assert x + (ka - x) == ka && y + (kb - y) == kb && z + (kc - z) == kc;
  }

  lemma MixSign(s: Setting, x: real, y: real, z: real)
    requires s.Sane() && 0.0 <= x && 0.0 <= y && 0.0 <= z
    ensures 0.0 <= s.Mix(x, y, z)
  {
    SignOf(s.lambda1, x);
    SignOf(s.newLambda2, y);
    SignOf(s.lambda3, z);
  }

  /** Clearing the vertical row takes away what the row says about the move. */
  lemma {:induction false} ClearedInner(g: seq<V3>, d: seq<V3>, n: nat)
    requires |g| == |d| && n <= |g|
    requires forall i :: 0 <= i < |g| ==> g[i].z == 0.0 || d[i].z == 0.0
    ensures InnerTo(RowCleared(g), d, n) == InnerTo(g, d, n)
  {
    if n != 0 {
      ClearedInner(g, d, n - 1);
      ClearedDot(g[n - 1], d[n - 1]);
    }
  }

  lemma ClearedDot(v: V3, d: V3)
    requires v.z == 0.0 || d.z == 0.0
    ensures Flattened(v).Dot(d) == v.Dot(d)
  {
  }

  /** Main result: what combineCostRebound returns is tangent to the combined cost along every level move
      of the free columns. */
  lemma CombinedTangent(s: Setting, guides: seq<seq<Guide>>, points: seq<V3>, x: seq<V3>, d: seq<V3>)
    requires s.Ok() && s.Sane() && |guides| == |points| && s.order + |x| <= |points| && |d| == |x| && Level(d)
    ensures TangentAlong(s, guides, points, x, RowCleared(FreePart(s, guides, points, x)), d)
  {
    hide Rise, CombinedBend, FreePart, Padded, RowCleared, InnerTo;
    WholeTangent(s, guides, points, x, d);
    ClearedInner(FreePart(s, guides, points, x), d, |d|);
  }

  /** Where the returned gradient vanishes, no level move of the free columns lowers the cost. */
  lemma StationaryIsLeast(s: Setting, guides: seq<seq<Guide>>, points: seq<V3>, x: seq<V3>, d: seq<V3>)
    requires s.Ok() && s.Sane() && |guides| == |points| && s.order + |x| <= |points| && |d| == |x| && Level(d)
    requires RowCleared(FreePart(s, guides, points, x)) == Zeros(|x|)
    ensures CombinedCost(s, guides, Placed(points, s.order, x))
            <= CombinedCost(s, guides, Placed(points, s.order, Sum(x, d)))
  {
    hide CombinedCost, FreePart, CombinedBend, Placed, Padded, InnerTo, Sum, RowCleared;
    ZerosInner(d, |d|);
    CombinedTangent(s, guides, points, x, d);
  }

  // Scaling a move scales the quadratic form by the square of the factor.

  ghost function Scaled(d: seq<V3>, t: real): (r: seq<V3>)
    ensures |r| == |d| && forall i :: 0 <= i < |d| ==> r[i] == d[i].Scale(t)
  {
    seq(|d|, i requires 0 <= i < |d| => d[i].Scale(t))
  }

  lemma ScaleScale(v: V3, t: real, c: real)
    ensures v.Scale(t).Scale(c) == v.Scale(c).Scale(t)
  {
    SwapFactors(c, t, v.x);
    SwapFactors(c, t, v.y);
    SwapFactors(c, t, v.z);
  }

  lemma SwapFactors(c: real, t: real, x: real)
    ensures c * (t * x) == t * (c * x)
  {
  }

  lemma {:induction false} ApplyScales(coef: seq<real>, d: seq<V3>, t: real, i: nat, m: nat)
    requires m <= |coef| && i + m <= |d|
    ensures Apply(coef, Scaled(d, t), i, m) == Apply(coef, d, i, m).Scale(t)
  {
    hide V3.Scale, V3.Plus;
    if m == 0 {
      ZeroScales(t);
    } else {
      ApplyScales(coef, d, t, i, m - 1);
      ScaleScale(d[i + m - 1], t, coef[m - 1]);
      PlusScales(Apply(coef, d, i, m - 1), d[i + m - 1].Scale(coef[m - 1]), t);
    }
  }

  lemma ZeroScales(t: real)
    ensures ZERO.Scale(t) == ZERO
  {
  }

  lemma PlusScales(v: V3, w: V3, t: real)
    ensures v.Plus(w).Scale(t) == v.Scale(t).Plus(w.Scale(t))
  {
    TimesSum(t, v.x, w.x, v.x + w.x);
    TimesSum(t, v.y, w.y, v.y + w.y);
    TimesSum(t, v.z, w.z, v.z + w.z);
  }

  lemma SqScales(x: real, t: real, y: real)
    requires y == t * x
    ensures Sq(y) == Times(Sq(t), Sq(x))
  {
    SwapFactors(y, t, x);
    assert Sq(y) == t * (y * x);
    assert y * x == t * (x * x);
    TimesProduct(t, t, x * x);
  }

  lemma SquareScales(v: V3, t: real)
    ensures Square.Cost(v.Scale(t)) == Times(Sq(t), Square.Cost(v))
  {
    SquareCost(v.Scale(t));
    SquareCost(v);
    var w := v.Scale(t);
    SqScales(v.x, t, w.x);
    SqScales(v.y, t, w.y);
    SqScales(v.z, t, w.z);
    hide Sq, Penalty.Cost, Times;
    TimesOfThree(Sq(t), Sq(v.x), Sq(v.y), Sq(v.z), Square.Cost(v));
  }

  lemma {:induction false} TotalScales(coef: seq<real>, d: seq<V3>, t: real, n: nat)
    requires 0 < n ==> n - 1 + |coef| <= |d|
    ensures Total(Square, coef, Scaled(d, t), n) == Times(Sq(t), Total(Square, coef, d, n))
  {
    hide Penalty.Cost, Sq, V3.Scale, Times;
    if n == 0 {
      TimesZero(Sq(t));
    } else {
      TotalScales(coef, d, t, n - 1);
      ApplyScales(coef, d, t, n - 1, |coef|);
      SquareScales(Difference(coef, d, n - 1), t);
      TimesOfSum(Sq(t), Total(Square, coef, d, n - 1), Square.Cost(Difference(coef, d, n - 1)),
                 Total(Square, coef, d, n));
    }
  }

  lemma {:induction false} AlongScales(gs: seq<Guide>, d: V3, t: real, m: nat)
    requires m <= |gs|
    ensures Along(gs, d.Scale(t), m) == Times(Sq(t), Along(gs, d, m))
  {
    hide V3.Dot, V3.Scale, Sq, Times;
    if m == 0 {
      TimesZero(Sq(t));
    } else {
      AlongScales(gs, d, t, m - 1);
      DotScaled(gs[m - 1].dir, d, t);
      TimesOfSum(Sq(t), Along(gs, d, m - 1), Sq(gs[m - 1].dir.Dot(d)), Along(gs, d, m));
    }
  }

  lemma DotScaled(v: V3, d: V3, t: real)
    ensures Sq(v.Dot(d.Scale(t))) == Times(Sq(t), Sq(v.Dot(d)))
  {
    SwapFactors(v.x, t, d.x);
    SwapFactors(v.y, t, d.y);
    SwapFactors(v.z, t, d.z);
    Distribute(t, v.x * d.x, v.y * d.y, v.z * d.z);
    SqScales(v.Dot(d), t, v.Dot(d.Scale(t)));
  }

  lemma {:induction false} AlongAllScales(gs: seq<seq<Guide>>, d: seq<V3>, t: real, lo: nat, n: nat)
    requires n <= |gs| == |d|
    ensures AlongAll(gs, Scaled(d, t), lo, n) == Times(Sq(t), AlongAll(gs, d, lo, n))
  {
    hide Sq, Along, V3.Scale, Times;
    if n <= lo {
      TimesZero(Sq(t));
    } else {
      AlongAllScales(gs, d, t, lo, n - 1);
      AlongScales(gs[n - 1], d[n - 1], t, |gs[n - 1]|);
      TimesOfSum(Sq(t), AlongAll(gs, d, lo, n - 1), Along(gs[n - 1], d[n - 1], |gs[n - 1]|), AlongAll(gs, d, lo, n));
    }
  }

  lemma FeasibilityBendScales(s: Setting, d: seq<V3>, t: real)
    requires s.Ok()
    ensures s.FeasibilityBend(Scaled(d, t)) == Times(Sq(t), s.FeasibilityBend(d))
  {
    TotalScales(VelocityCoef(s.ts), d, t, Steps(2, |d|));
    TotalScales(AccelerationCoef(s.ts), d, t, Steps(3, |d|));
    hide Sq, Total, Setting.Rate2, Scaled, Times;
    var v := Total(Square, VelocityCoef(s.ts), d, Steps(2, |d|));
    var a := Total(Square, AccelerationCoef(s.ts), d, Steps(3, |d|));
    TimesSwaps(s.Rate2(), Sq(t), v);
    TimesOfSum(Sq(t), Times(s.Rate2(), v), a, s.FeasibilityBend(d));
  }

  lemma DistanceBendScales(s: Setting, guides: seq<seq<Guide>>, d: seq<V3>, t: real)
    requires |guides| == |d|
    ensures DistanceBend(s, guides, Scaled(d, t)) == Times(Sq(t), DistanceBend(s, guides, d))
  {
    AlongAllScales(guides, d, t, s.order, DistanceEnd(s, |d|));
    hide Sq, AlongAll, Scaled, Times;
    TimesSwaps(3.0 * s.clearance, Sq(t), AlongAll(guides, d, s.order, DistanceEnd(s, |d|)));
  }

  /** The weighted sum scales with its terms. */
  lemma MixScales(s: Setting, k: real, a: real, b: real, c: real)
    ensures s.Mix(Times(k, a), Times(k, b), Times(k, c)) == Times(k, s.Mix(a, b, c))
  {
    TimesSwaps(s.lambda1, k, a);
    TimesSwaps(s.newLambda2, k, b);
    TimesSwaps(s.lambda3, k, c);
    hide Times;
    TimesOfThree(k, Times(s.lambda1, a), Times(s.newLambda2, b), Times(s.lambda3, c), s.Mix(a, b, c));
  }

  lemma BendScales(s: Setting, guides: seq<seq<Guide>>, d: seq<V3>, t: real)
    requires s.Ok() && |guides| == |d|
    ensures CombinedBend(s, guides, Scaled(d, t)) == Times(Sq(t), CombinedBend(s, guides, d))
  {
    TotalScales(JERK, d, t, Steps(4, |d|));
    hide Sq, Total, AlongAll, Setting.FeasibilityBend, Setting.Mix, Scaled, DistanceBend, Times;
    FeasibilityBendScales(s, d, t);
    DistanceBendScales(s, guides, d, t);
    MixScales(s, Sq(t), SmoothnessCost(true, d), DistanceBend(s, guides, d), s.FeasibilityBend(d));
  }

  lemma PaddedScales(n: nat, order: nat, d: seq<V3>, t: real)
    requires order + |d| <= n
    ensures Padded(n, order, Scaled(d, t)) == Scaled(Padded(n, order, d), t)
  {
    hide V3.Scale;
    ZeroScales(t);
  }

  /** One free column moved straight up by t. */
  ghost function Lift(n: nat, i: nat, t: real): (r: seq<V3>)
    requires i < n
    ensures |r| == n
  {
    seq(n, j => if j == i then V3(0.0, 0.0, t) else ZERO)
  }

  lemma LiftScales(n: nat, i: nat, t: real)
    requires i < n
    ensures Lift(n, i, t) == Scaled(Lift(n, i, 1.0), t)
  {
    ZeroScales(t);
    assert V3(0.0, 0.0, 1.0).Scale(t) == V3(0.0, 0.0, t);
  }

  lemma {:induction false} LiftInner(g: seq<V3>, i: nat, t: real, n: nat)
    requires i < |g| && n <= |g|
    ensures InnerTo(g, Lift(|g|, i, t), n) == if i < n then Times(g[i].z, t) else 0.0
  {
    if n != 0 {
      LiftInner(g, i, t, n - 1);
      DotZero(g[n - 1]);
    }
  }

  /** A parabola with slope g at zero dips below zero. */
  lemma ParabolaDips(g: real, b: real) returns (t: real)
    requires g != 0.0 && 0.0 <= b
    ensures Times(g, t) + Times(Sq(t), b) < 0.0
  {
    var k := 1.0 / (b + 1.0);
    t := -(g * k);
    assert k * (b + 1.0) == 1.0;
    var g2, k2 := g * g, k * k;
    SquarePositive(g, g2);
    assert 0.0 < k;
    assert g * t == -(g2 * k);
    assert Sq(t) == g2 * k2;
    assert k2 * b == k - k2;
    assert Sq(t) * b == g2 * (k2 * b);
    assert g2 * (k - k2) == g2 * k - g2 * k2;
    SquarePositive(k, k2);
    ProductPositive(g2, k2);
  }

  lemma ProductPositive(a: real, b: real)
    requires 0.0 < a && 0.0 < b
    ensures 0.0 < a * b
  {
  }

  /** The returned gradient is tangent along every move of the free columns, level or not, exactly when
      the row it clears was zero on them. */
  lemma TangentIff(s: Setting, guides: seq<seq<Guide>>, points: seq<V3>, x: seq<V3>)
    requires s.Ok() && s.Sane() && |guides| == |points| && s.order + |x| <= |points|
    ensures (forall d: seq<V3> :: |d| == |x| ==>
               TangentAlong(s, guides, points, x, RowCleared(FreePart(s, guides, points, x)), d))
            <==> Level(FreePart(s, guides, points, x))
  {
    hide TangentAlong, FreePart, RowCleared;
    var g := FreePart(s, guides, points, x);
    if Level(g) {
      forall d: seq<V3> | |d| == |x|
        ensures TangentAlong(s, guides, points, x, RowCleared(g), d)
      {
        LevelTangent(s, guides, points, x, d);
      }
    } else {
      var i :| 0 <= i < |g| && g[i].z != 0.0;
      var d := NotTangent(s, guides, points, x, i);
    }
  }

  lemma LevelTangent(s: Setting, guides: seq<seq<Guide>>, points: seq<V3>, x: seq<V3>, d: seq<V3>)
    requires s.Ok() && s.Sane() && |guides| == |points| && s.order + |x| <= |points| && |d| == |x|
    requires Level(FreePart(s, guides, points, x))
    ensures TangentAlong(s, guides, points, x, RowCleared(FreePart(s, guides, points, x)), d)
  {
    hide Rise, CombinedBend, FreePart, Padded, RowCleared, InnerTo;
    WholeTangent(s, guides, points, x, d);
    ClearedInner(FreePart(s, guides, points, x), d, |d|);
  }

  /** Lifting a column against a slope that was cleared lowers the cost, which the returned gradient denies. */
  lemma NotTangent(s: Setting, guides: seq<seq<Guide>>, points: seq<V3>, x: seq<V3>, i: nat) returns (d: seq<V3>)
    requires s.Ok() && s.Sane() && |guides| == |points| && s.order + |x| <= |points|
    requires i < |x| && FreePart(s, guides, points, x)[i].z != 0.0
    ensures |d| == |x| && Rise(s, guides, points, x, d) < 0.0
    ensures !TangentAlong(s, guides, points, x, RowCleared(FreePart(s, guides, points, x)), d)
  {
    hide Rise, FreePart, Padded, InnerTo, Lift, Scaled, CombinedBend, Sq, Times;
    var g, n := FreePart(s, guides, points, x), |points|;
    var b := CombinedBend(s, guides, Padded(n, s.order, Lift(|x|, i, 1.0)));
    BendSign(s, guides, Padded(n, s.order, Lift(|x|, i, 1.0)));
    var t := ParabolaDips(g[i].z, b);
    d := Lift(|x|, i, t);
    LiftBend(s, guides, |x|, i, t);
    WholeTangent(s, guides, points, x, d);
    LiftInner(g, i, t, |g|);
    LiftInner(RowCleared(g), i, t, |g|);
    TimesZero(t);
  }

  lemma LiftBend(s: Setting, guides: seq<seq<Guide>>, m: nat, i: nat, t: real)
    requires s.Ok() && s.order + m <= |guides| && i < m
    ensures var n := |guides|;
      CombinedBend(s, guides, Padded(n, s.order, Lift(m, i, t)))
      == Times(Sq(t), CombinedBend(s, guides, Padded(n, s.order, Lift(m, i, 1.0))))
  {
    hide Padded, Lift, Scaled, CombinedBend, Sq, Times;
    LiftScales(m, i, t);
    PaddedScales(|guides|, s.order, Lift(m, i, 1.0), t);
    BendScales(s, guides, Padded(|guides|, s.order, Lift(m, i, 1.0)), t);
  }

  lemma BendSign(s: Setting, guides: seq<seq<Guide>>, d: seq<V3>)
    requires s.Ok() && s.Sane() && |guides| == |d|
    ensures 0.0 <= CombinedBend(s, guides, d)
  {
    hide Total, AlongAll, Setting.Mix;
    SmoothnessSign(d);
    AlongAllSign(guides, d, s.order, DistanceEnd(s, |d|));
    SignOf(3.0 * s.clearance, AlongAll(guides, d, s.order, DistanceEnd(s, |d|)));
    SquaresSign(VelocityCoef(s.ts), d, Steps(2, |d|));
    SquaresSign(AccelerationCoef(s.ts), d, Steps(3, |d|));
    RatePositive(s);
    SignOf(s.Rate2(), Total(Square, VelocityCoef(s.ts), d, Steps(2, |d|)));
    MixSign(s, SmoothnessCost(true, d), DistanceBend(s, guides, d), s.FeasibilityBend(d));
  }

  lemma {:induction false} AlongAllSign(gs: seq<seq<Guide>>, d: seq<V3>, lo: nat, n: nat)
    requires n <= |gs| == |d|
    ensures 0.0 <= AlongAll(gs, d, lo, n)
  {
    if lo < n {
      AlongAllSign(gs, d, lo, n - 1);
      AlongSign(gs[n - 1], d[n - 1], |gs[n - 1]|);
    }
  }

  lemma {:induction false} AlongSign(gs: seq<Guide>, d: V3, m: nat)
    requires m <= |gs|
    ensures 0.0 <= Along(gs, d, m)
  {
    hide Sq;
    if m != 0 {
      AlongSign(gs, d, m - 1);
      SquareSign(gs[m - 1].dir.Dot(d));
    }
  }

  class BsplineOptimizer {
    var points: array<V3>
    var guides: seq<seq<Guide>>
    const setting: Setting

    constructor (points: array<V3>, guides: seq<seq<Guide>>, setting: Setting)
      requires setting.Ok() && |guides| == points.Length
      ensures Valid()
      ensures this.points == points && this.guides == guides && this.setting == setting
    {
      this.points, this.guides, this.setting := points, guides, setting;
    }

    ghost predicate Valid()
      reads this
    {
      setting.Ok() && |guides| == points.Length
    }

    /** Puts the solver's columns in place and returns the combined cost and the gradient over them. */
    method CombineCostRebound(x: seq<V3>) returns (f: real, grad: seq<V3>)
      requires Valid() && setting.order + |x| <= points.Length
      modifies points
      ensures Valid()
      ensures points[..] == Placed(old(points[..]), setting.order, x)
      ensures f == CombinedCost(setting, guides, points[..])
      ensures f == setting.lambda1 * SmoothnessCost(true, points[..])
                   + setting.newLambda2
                     * DistanceCost(setting.clearance, points[..], guides, setting.order,
                                    DistanceEnd(setting, points.Length))
                   + setting.lambda3 * setting.FeasibilityCost(points[..])
      ensures grad == RowCleared(FreePart(setting, guides, old(points[..]), x))
    {
      hide SmoothnessCost, SmoothnessGradient, DistanceCost, DistanceGradient, Setting.FeasibilityCost,
        Setting.FeasibilityGradient, WholeAt;
      PlaceColumns(x);
      var q := points[..];
      var gSmoothness := new V3[|q|](_ => ZERO);
      assert gSmoothness[..] == Zeros(|q|);
      var fSmoothness := CalcSmoothnessCost(q, gSmoothness, true);
      var gDistance := new V3[|q|](_ => ZERO);
      assert gDistance[..] == Zeros(|q|);
      var fDistance := CalcDistanceCostRebound(setting, q, guides, gDistance);
      var gFeasibility := new V3[|q|](_ => ZERO);
      assert gFeasibility[..] == Zeros(|q|);
      var fFeasibility := CalcFeasibilityCost(setting, q, gFeasibility);
      f := setting.lambda1 * fSmoothness + setting.newLambda2 * fDistance + setting.lambda3 * fFeasibility;
      var all := MixColumns(setting, gSmoothness[..], gDistance[..], gFeasibility[..]);
      grad := all[setting.order..setting.order + |x|];
    }

    method PlaceColumns(x: seq<V3>)
      requires setting.order + |x| <= points.Length
      modifies points
      ensures points[..] == Placed(old(points[..]), setting.order, x)
    {
      for i := 0 to |x|
        invariant forall k :: 0 <= k < points.Length ==>
          points[k] == if setting.order <= k < setting.order + i then x[k - setting.order] else old(points[k])
      {
        points[setting.order + i] := x[i];
      }
    }
  }

  method MixColumns(s: Setting, a: seq<V3>, b: seq<V3>, c: seq<V3>) returns (r: seq<V3>)
    requires |a| == |b| == |c|
    ensures r == RowCleared(Mixed(s, a, b, c))
  {
    r := [];
    for i := 0 to |a|
      invariant r == RowCleared(Mixed(s, a, b, c))[..i]
    {
      r := r + [Flattened(WholeAt(s, a[i], b[i], c[i]))];
    }
  }
}
