/** The cost functions of the B-spline optimizer as loops over the control points, and their combination. */
module BsplineOptimizers {
  import opened Vectors
  import opened BsplineCosts
  import opened Products

  const JERK: seq<real> := [-1.0, 3.0, -3.0, 1.0]
  const BEND: seq<real> := [1.0, -2.0, 1.0]

  function VelocityCoef(ts: real): seq<real>
    requires ts != 0.0
  {
    [-1.0 / ts, 1.0 / ts]
  }

  function AccelerationCoef(ts: real): seq<real>
    requires ts != 0.0
  {
    [1.0 / ts / ts, -2.0 * (1.0 / ts / ts), 1.0 / ts / ts]
  }

  /** How many differences of m terms fit into n columns. */
  function Steps(m: nat, n: nat): (r: nat)
    requires 0 < m
    ensures 0 < r ==> r - 1 + m == n
  {
    if n < m then 0 else n - m + 1
  }

  lemma JerkIs(q: seq<V3>, i: nat)
    requires i + 3 < |q|
    ensures Difference(JERK, q, i) == q[i + 3].Minus(q[i + 2].Scale(3.0)).Plus(q[i + 1].Scale(3.0)).Minus(q[i])
  {
    assert Apply(JERK, q, i, 1) == ZERO.Plus(q[i].Scale(-1.0));
    assert Apply(JERK, q, i, 2) == Apply(JERK, q, i, 1).Plus(q[i + 1].Scale(3.0));
    assert Apply(JERK, q, i, 3) == Apply(JERK, q, i, 2).Plus(q[i + 2].Scale(-3.0));
    assert Apply(JERK, q, i, 4) == Apply(JERK, q, i, 3).Plus(q[i + 3].Scale(1.0));
  }

  lemma BendIs(q: seq<V3>, i: nat)
    requires i + 2 < |q|
    ensures Difference(BEND, q, i) == q[i + 2].Minus(q[i + 1].Scale(2.0)).Plus(q[i])
  {
    assert Apply(BEND, q, i, 1) == ZERO.Plus(q[i].Scale(1.0));
    assert Apply(BEND, q, i, 2) == Apply(BEND, q, i, 1).Plus(q[i + 1].Scale(-2.0));
    assert Apply(BEND, q, i, 3) == Apply(BEND, q, i, 2).Plus(q[i + 2].Scale(1.0));
  }

  lemma VelocityIs(ts: real, q: seq<V3>, i: nat)
    requires ts != 0.0 && i + 1 < |q|
    ensures Difference(VelocityCoef(ts), q, i) == q[i + 1].Minus(q[i]).Over(ts)
  {
    var c := VelocityCoef(ts);
    assert Apply(c, q, i, 1) == ZERO.Plus(q[i].Scale(-1.0 / ts));
    assert Apply(c, q, i, 2) == Apply(c, q, i, 1).Plus(q[i + 1].Scale(1.0 / ts));
    OverSplits(q[i].x, q[i + 1].x, ts);
    OverSplits(q[i].y, q[i + 1].y, ts);
    OverSplits(q[i].z, q[i + 1].z, ts);
  }

  lemma OverSplits(a: real, b: real, ts: real)
    requires ts != 0.0
    ensures -1.0 / ts * a + 1.0 / ts * b == (b - a) / ts
  {
  }

  lemma AccelerationIs(ts: real, q: seq<V3>, i: nat)
    requires ts != 0.0 && i + 2 < |q|
    ensures Difference(AccelerationCoef(ts), q, i) ==
            q[i + 2].Minus(q[i + 1].Scale(2.0)).Plus(q[i]).Scale(1.0 / ts / ts)
  {
    var c, t := AccelerationCoef(ts), 1.0 / ts / ts;
    assert Apply(c, q, i, 1) == ZERO.Plus(q[i].Scale(t));
    assert Apply(c, q, i, 2) == Apply(c, q, i, 1).Plus(q[i + 1].Scale(-2.0 * t));
    assert Apply(c, q, i, 3) == Apply(c, q, i, 2).Plus(q[i + 2].Scale(t));
    AxisBend(t, q[i].x, q[i + 1].x, q[i + 2].x);
    AxisBend(t, q[i].y, q[i + 1].y, q[i + 2].y);
    AxisBend(t, q[i].z, q[i + 1].z, q[i + 2].z);
  }

  lemma AxisBend(t: real, a: real, b: real, c: real)
    ensures t * (c - 2.0 * b + a) == t * a + -2.0 * t * b + t * c
  {
  }

  ghost function SmoothnessCost(useJerk: bool, q: seq<V3>): real {
    var coef := if useJerk then JERK else BEND;
    Total(Square, coef, q, Steps(|coef|, |q|))
  }

  ghost function SmoothnessGradient(useJerk: bool, q: seq<V3>, g: seq<V3>): (r: seq<V3>)
    requires |g| == |q|
    ensures |r| == |g|
  {
    var coef := if useJerk then JERK else BEND;
    Gathered(Square, coef, q, g, Steps(|coef|, |q|))
  }

  /** In both branches the accumulated gradient is the exact linear term of the smoothness cost. */
  lemma SmoothnessExpands(useJerk: bool, q: seq<V3>, g: seq<V3>, d: seq<V3>)
    requires |g| == |q| == |d|
    ensures SmoothnessCost(useJerk, Sum(q, d)) ==
            SmoothnessCost(useJerk, q) + (Inner(SmoothnessGradient(useJerk, q, g), d) - Inner(g, d))
            + SmoothnessCost(useJerk, d)
  {
    var coef := if useJerk then JERK else BEND;
    SquaresExpand(coef, q, g, Steps(|coef|, |q|), d);
  }

  method CalcSmoothnessCost(q: seq<V3>, gradient: array<V3>, useJerk: bool) returns (cost: real)
    requires gradient.Length == |q|
    modifies gradient
    ensures cost == SmoothnessCost(useJerk, q)
    ensures gradient[..] == SmoothnessGradient(useJerk, q, old(gradient[..]))
  {
    hide Penalty.Cost, Penalty.Slope, Difference, Scatter;
    cost := 0.0;
    if useJerk {
      for i := 0 to Steps(4, |q|)
        invariant cost == Total(Square, JERK, q, i)
        invariant gradient[..] == Gathered(Square, JERK, q, old(gradient[..]), i)
      {
        var jerk := q[i + 3].Minus(q[i + 2].Scale(3.0)).Plus(q[i + 1].Scale(3.0)).Minus(q[i]);
        JerkIs(q, i);
        cost := cost + jerk.Dot(jerk);
        SquaredNorm(jerk);
        AddJerk(gradient, i, jerk);
      }
    } else {
      for i := 0 to Steps(3, |q|)
        invariant cost == Total(Square, BEND, q, i)
        invariant gradient[..] == Gathered(Square, BEND, q, old(gradient[..]), i)
      {
        var acc := q[i + 2].Minus(q[i + 1].Scale(2.0)).Plus(q[i]);
        BendIs(q, i);
        cost := cost + acc.Dot(acc);
        SquaredNorm(acc);
        AddBend(gradient, i, acc);
      }
    }
  }

  lemma SquaredNorm(v: V3)
    ensures v.Dot(v) == Square.Cost(v)
  {
  }

  method AddJerk(gradient: array<V3>, i: nat, jerk: V3)
    requires i + 3 < gradient.Length
    modifies gradient
    ensures gradient[..] == Scatter(JERK, old(gradient[..]), i, Square.Slope(jerk))
  {
    var tempJ := jerk.Scale(2.0);
    gradient[i] := gradient[i].Plus(tempJ.Scale(-1.0));
    gradient[i + 1] := gradient[i + 1].Plus(tempJ.Scale(3.0));
    gradient[i + 2] := gradient[i + 2].Plus(tempJ.Scale(-3.0));
    gradient[i + 3] := gradient[i + 3].Plus(tempJ);
    assert tempJ == tempJ.Scale(1.0) == Square.Slope(jerk);
  }

  method AddBend(gradient: array<V3>, i: nat, acc: V3)
    requires i + 2 < gradient.Length
    modifies gradient
    ensures gradient[..] == Scatter(BEND, old(gradient[..]), i, Square.Slope(acc))
  {
    var tempAcc := acc.Scale(2.0);
    gradient[i] := gradient[i].Plus(tempAcc);
    gradient[i + 1] := gradient[i + 1].Plus(tempAcc.Scale(-2.0));
    gradient[i + 2] := gradient[i + 2].Plus(tempAcc);
    assert tempAcc == tempAcc.Scale(1.0) == Square.Slope(acc);
  }

  /** The optimizer's settings: spline order, knot interval, limits, clearance and weights. */
  datatype Setting = Setting(order: nat, ts: real, maxVel: real, maxAcc: real, clearance: real,
                             lambda1: real, newLambda2: real, lambda3: real)
  {
    predicate Ok() { ts != 0.0 }

    /** Limits, clearance and weights are not negative. */
    predicate Sane() {
      && 0.0 <= maxVel && 0.0 <= maxAcc && 0.0 <= clearance
      && 0.0 <= lambda1 && 0.0 <= newLambda2 && 0.0 <= lambda3
    }

    /** The weighted sum of a smoothness, a distance and a feasibility term. */
    function Mix(smoothness: real, distance: real, feasibility: real): real {
      Times(lambda1, smoothness) + Times(newLambda2, distance) + Times(lambda3, feasibility)
    }

    function Rate2(): real
      requires Ok()
    {
      1.0 / ts / ts
    }

    function VelocityPenalty(): Penalty
      requires Ok()
    {
      Hinge(maxVel, Rate2())
    }

    function AccelerationPenalty(): Penalty { Hinge(maxAcc, 1.0) }

    ghost function FeasibilityCost(q: seq<V3>): real
      requires Ok()
    {
      Total(VelocityPenalty(), VelocityCoef(ts), q, Steps(2, |q|))
      + Total(AccelerationPenalty(), AccelerationCoef(ts), q, Steps(3, |q|))
    }

    ghost function FeasibilityGradient(q: seq<V3>, g: seq<V3>): (r: seq<V3>)
      requires Ok() && |g| == |q|
      ensures |r| == |g|
    {
      Gathered(AccelerationPenalty(), AccelerationCoef(ts), q,
               Gathered(VelocityPenalty(), VelocityCoef(ts), q, g, Steps(2, |q|)), Steps(3, |q|))
    }

    /** The curvature that bounds how far the feasibility cost rises above its tangent. */
    ghost function FeasibilityBend(d: seq<V3>): real
      requires Ok()
    {
      Times(Rate2(), Total(Square, VelocityCoef(ts), d, Steps(2, |d|)))
      + Total(Square, AccelerationCoef(ts), d, Steps(3, |d|))
    }
  }

  /** The feasibility cost lies above its tangent, by no more than a fixed quadratic form of the move:
      the accumulated gradient is its derivative, and the cost is convex. */
  lemma FeasibilityTangent(s: Setting, q: seq<V3>, g: seq<V3>, d: seq<V3>)
    requires s.Ok() && 0.0 <= s.maxVel && 0.0 <= s.maxAcc && |g| == |q| == |d|
    ensures var gap := s.FeasibilityCost(Sum(q, d)) - s.FeasibilityCost(q)
                       - (Inner(s.FeasibilityGradient(q, g), d) - Inner(g, d));
      0.0 <= gap <= s.FeasibilityBend(d)
  {
    hide Total, Gathered, Penalty.Cost, Inner;
    RatePositive(s);
    var g1 := Gathered(s.VelocityPenalty(), VelocityCoef(s.ts), q, g, Steps(2, |q|));
    TangentBelow(s.VelocityPenalty(), VelocityCoef(s.ts), q, g, Steps(2, |q|), d);
    TangentBelow(s.AccelerationPenalty(), AccelerationCoef(s.ts), q, g1, Steps(3, |q|), d);
  }

  lemma RatePositive(s: Setting)
    requires s.Ok()
    ensures 0.0 < s.Rate2()
  {
  }

  /** What one axis of a penalty adds to a column with coefficient c. */
  function Share(p: Penalty, v: real, c: real): real { c * p.Rate(v) }

  function ChargeFirsts(p: Penalty, v: V3, n: nat): real {
    (if 0 < n then p.Charge(v.x) else 0.0) + (if 1 < n then p.Charge(v.y) else 0.0)
      + (if 2 < n then p.Charge(v.z) else 0.0)
  }

  lemma NextAxis(p: Penalty, v: V3, g: V3, c: real, j: nat)
    requires j < 3
    ensures ChargeFirsts(p, v, j + 1) == ChargeFirsts(p, v, j) + p.Charge(v.At(j))
    ensures g.Plus(p.Slope(v).Scale(c).Firsts(j + 1))
            == g.Plus(p.Slope(v).Scale(c).Firsts(j)).Nudge(j, Share(p, v.At(j), c))
  {
    hide Penalty.Charge, Penalty.Rate;
  }

  lemma AllAxes(p: Penalty, v: V3, g: V3, c: real)
    ensures ChargeFirsts(p, v, 3) == p.Cost(v) && ChargeFirsts(p, v, 0) == 0.0
    ensures g.Plus(p.Slope(v).Scale(c).Firsts(3)) == g.Plus(p.Slope(v).Scale(c))
    ensures g.Plus(p.Slope(v).Scale(c).Firsts(0)) == g
  {
  }

  lemma VelocityShare(s: Setting, v: real, e: real)
    requires s.Ok() && if v > s.maxVel then e == v - s.maxVel else v < -s.maxVel && e == v + s.maxVel
    ensures var p, t := s.VelocityPenalty(), s.Rate2();
      && p.Charge(v) == e * e * t
      && Share(p, v, -1.0 / s.ts) == -2.0 * e / s.ts * t && Share(p, v, 1.0 / s.ts) == 2.0 * e / s.ts * t
  {
  }

  /** Adds one axis of a velocity's penalty to two columns of the gradient. */
  method ChargeVelocityAxis(s: Setting, v: real, j: nat, g0: V3, g1: V3) returns (cost: real, h0: V3, h1: V3)
    requires s.Ok() && j < 3
    ensures var p := s.VelocityPenalty();
      && cost == p.Charge(v)
      && h0 == g0.Nudge(j, Share(p, v, -1.0 / s.ts)) && h1 == g1.Nudge(j, Share(p, v, 1.0 / s.ts))
  {
    hide Setting.Rate2, V3.Nudge, Share, Penalty.Charge, Penalty.Rate;
    if v > s.maxVel {
      var e := v - s.maxVel;
      VelocityShare(s, v, e);
      cost := e * e * s.Rate2();
      h0 := g0.Nudge(j, -2.0 * e / s.ts * s.Rate2());
      h1 := g1.Nudge(j, 2.0 * e / s.ts * s.Rate2());
    } else if v < -s.maxVel {
      var e := v + s.maxVel;
      VelocityShare(s, v, e);
      cost := e * e * s.Rate2();
      h0 := g0.Nudge(j, -2.0 * e / s.ts * s.Rate2());
      h1 := g1.Nudge(j, 2.0 * e / s.ts * s.Rate2());
    } else {
      WithinLimit(s.VelocityPenalty(), v, g0, j, -1.0 / s.ts);
      WithinLimit(s.VelocityPenalty(), v, g1, j, 1.0 / s.ts);
      cost, h0, h1 := 0.0, g0, g1;
    }
  }

  lemma WithinLimit(p: Penalty, v: real, g: V3, j: nat, c: real)
    requires p.Hinge? && -p.limit <= v <= p.limit && j < 3
    ensures p.Charge(v) == 0.0 && g.Nudge(j, Share(p, v, c)) == g
  {
  }

  method ChargeVelocity(s: Setting, i: nat, vi: V3, gradient: array<V3>) returns (cost: real)
    requires s.Ok() && i + 1 < gradient.Length
    modifies gradient
    ensures cost == s.VelocityPenalty().Cost(vi)
    ensures gradient[..] == Scatter(VelocityCoef(s.ts), old(gradient[..]), i, s.VelocityPenalty().Slope(vi))
  {
    hide Share, Penalty.Charge, Penalty.Rate, Penalty.Slope, V3.Plus, V3.Scale, V3.Firsts, V3.Nudge, V3.At;
    ghost var p, was := s.VelocityPenalty(), gradient[..];
    ghost var c0, c1 := -1.0 / s.ts, 1.0 / s.ts;
    cost := 0.0;
    AllAxes(p, vi, was[i], c0);
    AllAxes(p, vi, was[i + 1], c1);
    for j := 0 to 3
      invariant cost == ChargeFirsts(p, vi, j)
      invariant gradient[i] == was[i].Plus(p.Slope(vi).Scale(c0).Firsts(j))
      invariant gradient[i + 1] == was[i + 1].Plus(p.Slope(vi).Scale(c1).Firsts(j))
      invariant forall k :: 0 <= k < gradient.Length && k != i && k != i + 1 ==> gradient[k] == was[k]
    {
      NextAxis(p, vi, was[i], c0, j);
      NextAxis(p, vi, was[i + 1], c1, j);
      var c, h0, h1 := ChargeVelocityAxis(s, vi.At(j), j, gradient[i], gradient[i + 1]);
      cost, gradient[i], gradient[i + 1] := cost + c, h0, h1;
    }
  }

  lemma AccelerationShare(s: Setting, a: real, e: real)
    requires s.Ok() && if a > s.maxAcc then e == a - s.maxAcc else a < -s.maxAcc && e == a + s.maxAcc
    ensures var p, t := s.AccelerationPenalty(), s.Rate2();
      && p.Charge(a) == e * e
      && Share(p, a, t) == 2.0 * e * t && Share(p, a, -2.0 * t) == -4.0 * e * t
  {
  }

  /** Adds one axis of an acceleration's penalty to three columns of the gradient. */
  method ChargeAccelerationAxis(s: Setting, a: real, j: nat, g0: V3, g1: V3, g2: V3)
    returns (cost: real, h0: V3, h1: V3, h2: V3)
    requires s.Ok() && j < 3
    ensures var p, t := s.AccelerationPenalty(), s.Rate2();
      && cost == p.Charge(a)
      && h0 == g0.Nudge(j, Share(p, a, t)) && h1 == g1.Nudge(j, Share(p, a, -2.0 * t))
      && h2 == g2.Nudge(j, Share(p, a, t))
  {
    hide Setting.Rate2, V3.Nudge, Share, Penalty.Charge, Penalty.Rate;
    if a > s.maxAcc {
      var e := a - s.maxAcc;
      AccelerationShare(s, a, e);
      cost := e * e;
      h0 := g0.Nudge(j, 2.0 * e * s.Rate2());
      h1 := g1.Nudge(j, -4.0 * e * s.Rate2());
      h2 := g2.Nudge(j, 2.0 * e * s.Rate2());
    } else if a < -s.maxAcc {
      var e := a + s.maxAcc;
      AccelerationShare(s, a, e);
      cost := e * e;
      h0 := g0.Nudge(j, 2.0 * e * s.Rate2());
      h1 := g1.Nudge(j, -4.0 * e * s.Rate2());
      h2 := g2.Nudge(j, 2.0 * e * s.Rate2());
    } else {
      WithinLimit(s.AccelerationPenalty(), a, g0, j, s.Rate2());
      WithinLimit(s.AccelerationPenalty(), a, g1, j, -2.0 * s.Rate2());
      WithinLimit(s.AccelerationPenalty(), a, g2, j, s.Rate2());
      cost, h0, h1, h2 := 0.0, g0, g1, g2;
    }
  }

  method ChargeAcceleration(s: Setting, i: nat, ai: V3, gradient: array<V3>) returns (cost: real)
    requires s.Ok() && i + 2 < gradient.Length
    modifies gradient
    ensures cost == s.AccelerationPenalty().Cost(ai)
    ensures gradient[..] == Scatter(AccelerationCoef(s.ts), old(gradient[..]), i, s.AccelerationPenalty().Slope(ai))
  {
    hide Share, Penalty.Charge, Penalty.Rate, Penalty.Slope, V3.Plus, V3.Scale, V3.Firsts, V3.Nudge, V3.At;
    ghost var p, was := s.AccelerationPenalty(), gradient[..];
    ghost var t := s.Rate2();
    cost := 0.0;
    AllAxes(p, ai, was[i], t);
    AllAxes(p, ai, was[i + 1], -2.0 * t);
    AllAxes(p, ai, was[i + 2], t);
    for j := 0 to 3
      invariant cost == ChargeFirsts(p, ai, j)
      invariant gradient[i] == was[i].Plus(p.Slope(ai).Scale(t).Firsts(j))
      invariant gradient[i + 1] == was[i + 1].Plus(p.Slope(ai).Scale(-2.0 * t).Firsts(j))
      invariant gradient[i + 2] == was[i + 2].Plus(p.Slope(ai).Scale(t).Firsts(j))
      invariant forall k :: 0 <= k < gradient.Length && !(i <= k <= i + 2) ==> gradient[k] == was[k]
    {
      NextAxis(p, ai, was[i], t, j);
      NextAxis(p, ai, was[i + 1], -2.0 * t, j);
      NextAxis(p, ai, was[i + 2], t, j);
      var c, h0, h1, h2 := ChargeAccelerationAxis(s, ai.At(j), j, gradient[i], gradient[i + 1], gradient[i + 2]);
      cost, gradient[i], gradient[i + 1], gradient[i + 2] := cost + c, h0, h1, h2;
    }
  }

  method CalcFeasibilityCost(s: Setting, q: seq<V3>, gradient: array<V3>) returns (cost: real)
    requires s.Ok() && gradient.Length == |q|
    modifies gradient
    ensures cost == s.FeasibilityCost(q)
    ensures gradient[..] == s.FeasibilityGradient(q, old(gradient[..]))
  {
    hide Penalty.Cost, Penalty.Slope, Difference, Scatter, Setting.Rate2, V3.Plus, V3.Minus, V3.Over, V3.Scale;
    cost := 0.0;
    ghost var g := gradient[..];
    for i := 0 to Steps(2, |q|)
      invariant cost == Total(s.VelocityPenalty(), VelocityCoef(s.ts), q, i)
      invariant gradient[..] == Gathered(s.VelocityPenalty(), VelocityCoef(s.ts), q, g, i)
    {
      VelocityIs(s.ts, q, i);
      var c := ChargeVelocity(s, i, q[i + 1].Minus(q[i]).Over(s.ts), gradient);
      cost := cost + c;
    }
    ghost var g1, c1 := gradient[..], cost;
    for i := 0 to Steps(3, |q|)
      invariant cost == c1 + Total(s.AccelerationPenalty(), AccelerationCoef(s.ts), q, i)
      invariant gradient[..] == Gathered(s.AccelerationPenalty(), AccelerationCoef(s.ts), q, g1, i)
    {
      AccelerationIs(s.ts, q, i);
      var c := ChargeAcceleration(s, i, q[i + 2].Minus(q[i + 1].Scale(2.0)).Plus(q[i]).Scale(1.0 / s.ts / s.ts),
                                  gradient);
      cost := cost + c;
    }
  }

  /** The last column whose distance is charged, plus one. */
  function DistanceEnd(s: Setting, n: nat): nat { if n < s.order then 0 else n - s.order }

  method CalcDistanceCostRebound(s: Setting, q: seq<V3>, guides: seq<seq<Guide>>, gradient: array<V3>)
    returns (cost: real)
    requires |guides| == |q| == gradient.Length
    modifies gradient
    ensures cost == DistanceCost(s.clearance, q, guides, s.order, DistanceEnd(s, |q|))
    ensures gradient[..] == DistanceGradient(s.clearance, q, guides, old(gradient[..]), s.order, DistanceEnd(s, |q|))
  {
    hide PushCost, PushSlope;
    cost := 0.0;
    ghost var g := gradient[..];
    var i := s.order;
    while i < DistanceEnd(s, |q|)
      invariant s.order <= i && (i <= DistanceEnd(s, |q|) || i == s.order)
      invariant var n := if i <= DistanceEnd(s, |q|) then i else DistanceEnd(s, |q|);
        && cost == DistanceCost(s.clearance, q, guides, s.order, n)
        && gradient[..] == DistanceGradient(s.clearance, q, guides, g, s.order, n)
    {
      var c := PushColumn(s.clearance, q[i], guides[i], i, gradient);
      cost := cost + c;
      i := i + 1;
    }
  }

  /** The charges of one control point, added to its column of the gradient. */
  method PushColumn(clear: real, p: V3, gs: seq<Guide>, i: nat, gradient: array<V3>) returns (cost: real)
    requires i < gradient.Length
    modifies gradient
    ensures cost == PushCost(clear, p, gs, |gs|)
    ensures gradient[..] == old(gradient[..])[i := old(gradient[i]).Plus(PushSlope(clear, p, gs, |gs|))]
  {
    hide Push, PushRate, Shortfall, V3.Plus, V3.Scale;
    cost := 0.0;
    PlusZero(gradient[i]);
    for j := 0 to |gs|
      invariant cost == PushCost(clear, p, gs, j)
      invariant gradient[..] == old(gradient[..])[i := old(gradient[i]).Plus(PushSlope(clear, p, gs, j))]
    {
      var err := Shortfall(clear, p, gs[j]);
      var c, w := PushOnce(clear, err, gs[j].dir);
      cost := cost + c;
      PlusAssociates(old(gradient[i]), PushSlope(clear, p, gs, j), w);
      gradient[i] := gradient[i].Plus(w);
    }
  }

  lemma PlusZero(v: V3)
    ensures v.Plus(ZERO) == v
  {
  }

  lemma PlusAssociates(u: V3, v: V3, w: V3)
    ensures u.Plus(v).Plus(w) == u.Plus(v.Plus(w))
  {
  }

  /** The three pieces of the charge. */
  method PushOnce(clear: real, err: real, dir: V3) returns (cost: real, w: V3)
    ensures cost == Push(clear, err)
    ensures w == dir.Scale(-PushRate(clear, err))
  {
    hide V3.Scale;
    var a, b, c := 3.0 * clear, -3.0 * (clear * clear), clear * clear * clear;
    if err < 0.0 {
      ScaleByZero(dir);
      cost, w := 0.0, ZERO;
    } else if err < clear {
      var r := 3.0 * err * err;
      assert -3.0 * err * err == -r;
      cost, w := err * err * err, dir.Scale(-3.0 * err * err);
    } else {
      cost, w := a * err * err + b * err + c, dir.Scale(-(2.0 * a * err + b));
    }
  }

  lemma ScaleByZero(v: V3)
    ensures v.Scale(-0.0) == ZERO
  {
  }
}
