/** What the optimizer's costs charge: which trajectories are free, and what each new control point adds. */
module CostLaws {
  import opened Vectors
  import opened BsplineCosts
  import opened BsplineOptimizers

  /** The third difference from control point i on. */
  ghost function JerkAt(q: seq<V3>, i: nat): V3
    requires i + 3 < |q|
  {
    q[i + 3].Minus(q[i + 2].Scale(3.0)).Plus(q[i + 1].Scale(3.0)).Minus(q[i])
  }

  /** The second difference from control point i on. */
  ghost function BendAt(q: seq<V3>, i: nat): V3
    requires i + 2 < |q|
  {
    q[i + 2].Minus(q[i + 1].Scale(2.0)).Plus(q[i])
  }

  lemma ChargesNonNegative(p: Penalty, v: V3)
    requires p.Hinge? ==> 0.0 < p.weight
    ensures 0.0 <= p.Cost(v)
    ensures p.Cost(v) == 0.0 <==> if p.Square? then v == ZERO else v.Within(p.limit)
  {
    hide Penalty.Charge;
    ChargeNonNegative(p, v.x);
    ChargeNonNegative(p, v.y);
    ChargeNonNegative(p, v.z);
  }

  lemma ChargeNonNegative(p: Penalty, v: real)
    requires p.Hinge? ==> 0.0 < p.weight
    ensures 0.0 <= p.Charge(v)
    ensures p.Charge(v) == 0.0 <==> if p.Square? then v == 0.0 else -p.limit <= v <= p.limit
  {
    match p
    case Square =>
      SquareSign(v, 1.0);
    case Hinge(m, c) =>
      SquareSign(v - m, c);
      SquareSign(v + m, c);
  }

  lemma SquareSign(v: real, c: real)
    requires 0.0 < c
    ensures 0.0 <= v * v * c && (v * v * c == 0.0 <==> v == 0.0)
  {
    if v != 0.0 {
      SquarePositive(v, v * v);
      ProductPositive(v * v, c, v * v * c);
    }
  }

  /** The differences of a longer trajectory start with those of the shorter one. */
  lemma {:induction false} TotalOfFront(p: Penalty, coef: seq<real>, q: seq<V3>, k: nat, n: nat)
    requires k <= |q| && (0 < n ==> n - 1 + |coef| <= k)
    ensures Total(p, coef, q[..k], n) == Total(p, coef, q, n)
  {
    if n != 0 {
      TotalOfFront(p, coef, q, k, n - 1);
      ApplyOfFront(coef, q, k, n - 1, |coef|);
    }
  }

  lemma {:induction false} ApplyOfFront(coef: seq<real>, q: seq<V3>, k: nat, i: nat, m: nat)
    requires m <= |coef| && i + m <= k <= |q|
    ensures Apply(coef, q[..k], i, m) == Apply(coef, q, i, m)
  {
    if m != 0 {
      ApplyOfFront(coef, q, k, i, m - 1);
    }
  }

  lemma {:induction false} TotalSign(p: Penalty, coef: seq<real>, q: seq<V3>, n: nat)
    requires 0 < n ==> n - 1 + |coef| <= |q|
    requires p.Hinge? ==> 0.0 < p.weight
    ensures forall i :: 0 <= i < n ==> p.Cost(Difference(coef, q, i)) <= Total(p, coef, q, n)
    ensures 0.0 <= Total(p, coef, q, n)
    ensures Total(p, coef, q, n) == 0.0 <==> forall i :: 0 <= i < n ==> p.Cost(Difference(coef, q, i)) == 0.0
  {
    hide Penalty.Cost, Difference;
    if n != 0 {
      TotalSign(p, coef, q, n - 1);
      ChargesNonNegative(p, Difference(coef, q, n - 1));
    }
  }

  /** The jerk cost vanishes exactly on trajectories whose third differences all vanish, and is at least the
      square of each; one more control point adds the square of the third difference it ends. */
  lemma JerkCost(q: seq<V3>)
    ensures SmoothnessCost(true, q) == 0.0 <==> forall i: nat :: i + 3 < |q| ==> JerkAt(q, i) == ZERO
    ensures forall i: nat :: i + 3 < |q| ==> JerkAt(q, i).Dot(JerkAt(q, i)) <= SmoothnessCost(true, q)
    ensures 4 <= |q| ==> var d := JerkAt(q, |q| - 4);
      SmoothnessCost(true, q) == SmoothnessCost(true, q[..|q| - 1]) + d.Dot(d)
  {
    hide Difference, Total, V3.Dot, V3.Plus, V3.Minus, V3.Scale, Penalty.Cost;
    var n := Steps(4, |q|);
    TotalSign(Square, JERK, q, n);
    forall i: nat | i + 3 < |q|
      ensures i < n && Difference(JERK, q, i) == JerkAt(q, i)
      ensures Square.Cost(JerkAt(q, i)) == JerkAt(q, i).Dot(JerkAt(q, i))
      ensures Square.Cost(JerkAt(q, i)) == 0.0 <==> JerkAt(q, i) == ZERO
    {
      JerkIs(q, i);
      SquaredNorm(JerkAt(q, i));
      ChargesNonNegative(Square, JerkAt(q, i));
    }
    if 4 <= |q| {
      TotalOfFront(Square, JERK, q, |q| - 1, n - 1);
      TotalStep(Square, JERK, q, n);
    }
    hide JerkAt;
  }

  /** The same for second differences in the other branch. */
  lemma BendCost(q: seq<V3>)
    ensures SmoothnessCost(false, q) == 0.0 <==> forall i: nat :: i + 2 < |q| ==> BendAt(q, i) == ZERO
    ensures forall i: nat :: i + 2 < |q| ==> BendAt(q, i).Dot(BendAt(q, i)) <= SmoothnessCost(false, q)
    ensures 3 <= |q| ==> var d := BendAt(q, |q| - 3);
      SmoothnessCost(false, q) == SmoothnessCost(false, q[..|q| - 1]) + d.Dot(d)
  {
    hide Difference, Total, V3.Dot, V3.Plus, V3.Minus, V3.Scale, Penalty.Cost;
    var n := Steps(3, |q|);
    TotalSign(Square, BEND, q, n);
    forall i: nat | i + 2 < |q|
      ensures i < n && Difference(BEND, q, i) == BendAt(q, i)
      ensures Square.Cost(BendAt(q, i)) == BendAt(q, i).Dot(BendAt(q, i))
      ensures Square.Cost(BendAt(q, i)) == 0.0 <==> BendAt(q, i) == ZERO
    {
      BendIs(q, i);
      SquaredNorm(BendAt(q, i));
      ChargesNonNegative(Square, BendAt(q, i));
    }
    if 3 <= |q| {
      TotalOfFront(Square, BEND, q, |q| - 1, n - 1);
      TotalStep(Square, BEND, q, n);
    }
    hide BendAt;
  }

  lemma TotalStep(p: Penalty, coef: seq<real>, q: seq<V3>, n: nat)
    requires 0 < n && n - 1 + |coef| <= |q|
    ensures Total(p, coef, q, n) == Total(p, coef, q, n - 1) + p.Cost(Difference(coef, q, n - 1))
  {
  }

  /** What of a component lies beyond the limit. */
  ghost function Beyond(v: real, limit: real): real {
    if limit < v then v - limit else if v < -limit then -limit - v else 0.0
  }

  ghost function SquareBeyond(v: V3, limit: real): real {
    Beyond(v.x, limit) * Beyond(v.x, limit) + Beyond(v.y, limit) * Beyond(v.y, limit)
    + Beyond(v.z, limit) * Beyond(v.z, limit)
  }

  lemma HingeCost(limit: real, weight: real, v: V3)
    ensures Hinge(limit, weight).Cost(v) == weight * SquareBeyond(v, limit)
  {
    HingeCharge(limit, weight, v.x);
    HingeCharge(limit, weight, v.y);
    HingeCharge(limit, weight, v.z);
    Spread(weight, Beyond(v.x, limit) * Beyond(v.x, limit), Beyond(v.y, limit) * Beyond(v.y, limit),
           Beyond(v.z, limit) * Beyond(v.z, limit));
    hide Penalty.Charge, Beyond;
  }

  lemma HingeCharge(limit: real, weight: real, v: real)
    ensures Hinge(limit, weight).Charge(v) == weight * (Beyond(v, limit) * Beyond(v, limit))
  {
    var b := Beyond(v, limit);
    assert b * b * weight == weight * (b * b);
    assert (v + limit) * (v + limit) == (-limit - v) * (-limit - v);
  }

  lemma Spread(c: real, x: real, y: real, z: real)
    ensures c * (x + y + z) == c * x + c * y + c * z
  {
  }

  /** The velocity and the acceleration from control point i on, as the feasibility cost takes them. */
  ghost function VelocityFrom(s: Setting, q: seq<V3>, i: nat): V3
    requires s.Ok() && i + 1 < |q|
  {
    q[i + 1].Minus(q[i]).Over(s.ts)
  }

  ghost function AccelerationFrom(s: Setting, q: seq<V3>, i: nat): V3
    requires s.Ok() && i + 2 < |q|
  {
    BendAt(q, i).Scale(1.0 / s.ts / s.ts)
  }

  /** The feasibility cost vanishes exactly when every velocity and acceleration keeps its limit. */
  lemma FeasibilityZeroIff(s: Setting, q: seq<V3>)
    requires s.Ok()
    ensures s.FeasibilityCost(q) == 0.0 <==>
            && (forall i: nat :: i + 1 < |q| ==> VelocityFrom(s, q, i).Within(s.maxVel))
            && (forall i: nat :: i + 2 < |q| ==> AccelerationFrom(s, q, i).Within(s.maxAcc))
  {
    VelocityPart(s, q);
    AccelerationPart(s, q);
    hide Total, VelocityFrom, AccelerationFrom;
  }

  lemma VelocityPart(s: Setting, q: seq<V3>)
    requires s.Ok()
    ensures var t := Total(s.VelocityPenalty(), VelocityCoef(s.ts), q, Steps(2, |q|));
      && 0.0 <= t && (t == 0.0 <==> forall i: nat :: i + 1 < |q| ==> VelocityFrom(s, q, i).Within(s.maxVel))
  {
    hide Difference, Total, V3.Minus, V3.Over, V3.Within, Penalty.Cost;
    RatePositive(s);
    var n, p := Steps(2, |q|), s.VelocityPenalty();
    TotalSign(p, VelocityCoef(s.ts), q, n);
    forall i: nat | i + 1 < |q|
      ensures i < n && Difference(VelocityCoef(s.ts), q, i) == VelocityFrom(s, q, i)
      ensures p.Cost(VelocityFrom(s, q, i)) == 0.0 <==> VelocityFrom(s, q, i).Within(s.maxVel)
    {
      VelocityIs(s.ts, q, i);
      ChargesNonNegative(p, VelocityFrom(s, q, i));
    }
    hide VelocityFrom, Setting.Rate2;
  }

  lemma AccelerationPart(s: Setting, q: seq<V3>)
    requires s.Ok()
    ensures var t := Total(s.AccelerationPenalty(), AccelerationCoef(s.ts), q, Steps(3, |q|));
      && 0.0 <= t && (t == 0.0 <==> forall i: nat :: i + 2 < |q| ==> AccelerationFrom(s, q, i).Within(s.maxAcc))
  {
    hide Difference, Total, V3.Minus, V3.Plus, V3.Scale, V3.Within, Penalty.Cost;
    var n, p := Steps(3, |q|), s.AccelerationPenalty();
    TotalSign(p, AccelerationCoef(s.ts), q, n);
    forall i: nat | i + 2 < |q|
      ensures i < n && Difference(AccelerationCoef(s.ts), q, i) == AccelerationFrom(s, q, i)
      ensures p.Cost(AccelerationFrom(s, q, i)) == 0.0 <==> AccelerationFrom(s, q, i).Within(s.maxAcc)
    {
      AccelerationIs(s.ts, q, i);
      ChargesNonNegative(p, AccelerationFrom(s, q, i));
    }
    hide AccelerationFrom;
  }

  /** What one more control point adds: the squares of what its velocity and its acceleration have beyond the
      limits, the former over the squared interval. */
  lemma FeasibilityGrows(s: Setting, q: seq<V3>)
    requires s.Ok() && q != []
    ensures s.FeasibilityCost(q) == s.FeasibilityCost(q[..|q| - 1])
      + (if 2 <= |q| then (1.0 / s.ts / s.ts) * SquareBeyond(VelocityFrom(s, q, |q| - 2), s.maxVel) else 0.0)
      + (if 3 <= |q| then SquareBeyond(AccelerationFrom(s, q, |q| - 3), s.maxAcc) else 0.0)
  {
    hide Total, SquareBeyond, VelocityFrom, AccelerationFrom, Penalty.Cost, Difference;
    if 2 <= |q| {
      VelocityGrows(s, q);
    }
    if 3 <= |q| {
      AccelerationGrows(s, q);
    }
    NothingTotals(s, q);
  }

  lemma NothingTotals(s: Setting, q: seq<V3>)
    requires s.Ok()
    ensures Total(s.VelocityPenalty(), VelocityCoef(s.ts), q, 0) == 0.0
    ensures Total(s.AccelerationPenalty(), AccelerationCoef(s.ts), q, 0) == 0.0
    ensures q != [] ==>
      && Total(s.VelocityPenalty(), VelocityCoef(s.ts), q[..|q| - 1], 0) == 0.0
      && Total(s.AccelerationPenalty(), AccelerationCoef(s.ts), q[..|q| - 1], 0) == 0.0
  {
  }

  lemma VelocityGrows(s: Setting, q: seq<V3>)
    requires s.Ok() && 2 <= |q|
    ensures Total(s.VelocityPenalty(), VelocityCoef(s.ts), q, Steps(2, |q|))
            == Total(s.VelocityPenalty(), VelocityCoef(s.ts), q[..|q| - 1], Steps(2, |q| - 1))
               + (1.0 / s.ts / s.ts) * SquareBeyond(VelocityFrom(s, q, |q| - 2), s.maxVel)
  {
    hide Total, Difference, SquareBeyond, Penalty.Cost, V3.Minus, V3.Over;
    var p, coef, n := s.VelocityPenalty(), VelocityCoef(s.ts), |q| - 1;
    TotalOfFront(p, coef, q, |q| - 1, n - 1);
    TotalStep(p, coef, q, n);
    VelocityIs(s.ts, q, n - 1);
    HingeCost(s.maxVel, s.Rate2(), VelocityFrom(s, q, n - 1));
  }

  lemma AccelerationGrows(s: Setting, q: seq<V3>)
    requires s.Ok() && 3 <= |q|
    ensures Total(s.AccelerationPenalty(), AccelerationCoef(s.ts), q, Steps(3, |q|))
            == Total(s.AccelerationPenalty(), AccelerationCoef(s.ts), q[..|q| - 1], Steps(3, |q| - 1))
               + SquareBeyond(AccelerationFrom(s, q, |q| - 3), s.maxAcc)
  {
    hide Total, Difference, SquareBeyond, Penalty.Cost, V3.Minus, V3.Plus, V3.Scale;
    var p, coef, n := s.AccelerationPenalty(), AccelerationCoef(s.ts), |q| - 2;
    TotalOfFront(p, coef, q, |q| - 1, n - 1);
    TotalStep(p, coef, q, n);
    AccelerationIs(s.ts, q, n - 1);
    HingeCost(s.maxAcc, 1.0, AccelerationFrom(s, q, n - 1));
  }

  /** The charge of a shortfall: none up to zero, its cube up to the clearance, and from there on what the cube's
      value, slope and curvature at the clearance give. */
  lemma PushPieces(clear: real, e: real)
    requires 0.0 <= clear
    ensures e <= 0.0 ==> Push(clear, e) == 0.0
    ensures 0.0 <= e <= clear ==> Push(clear, e) == e * e * e
    ensures clear <= e ==> var t := e - clear;
      Push(clear, e) == clear * clear * clear + 3.0 * clear * clear * t + 3.0 * clear * t * t
    ensures 0.0 <= Push(clear, e) && (0.0 < clear ==> (Push(clear, e) == 0.0 <==> e <= 0.0))
  {
    if clear <= e {
      PushBeyond(clear, e - clear, e);
    } else if 0.0 < e {
      Cube(e);
    }
  }

  lemma PushBeyond(a: real, t: real, e: real)
    requires 0.0 <= a && 0.0 <= t && e == a + t
    ensures Push(a, e) == a * a * a + 3.0 * a * a * t + 3.0 * a * t * t
    ensures 0.0 <= Push(a, e) && (0.0 < a ==> 0.0 < Push(a, e))
  {
    Expand(a, t, e);
    ThreeTerms(a, t);
    if 0.0 < a {
      Cube(a);
    }
  }

  lemma Expand(a: real, t: real, e: real)
    requires e == a + t
    ensures 3.0 * a * e * e + -3.0 * (a * a) * e + a * a * a == a * a * a + 3.0 * a * a * t + 3.0 * a * t * t
  {
    var ee, aa := e * e, a * a;
    assert ee == aa + 2.0 * (a * t) + t * t;
    assert a * ee == a * aa + 2.0 * (a * (a * t)) + a * (t * t);
    assert aa * e == aa * a + aa * t;
  }

  lemma ThreeTerms(a: real, t: real)
    requires 0.0 <= a && 0.0 <= t
    ensures 0.0 <= a * a * a && 0.0 <= 3.0 * a * a * t && 0.0 <= 3.0 * a * t * t
  {
  }

  lemma Cube(e: real)
    requires 0.0 < e
    ensures 0.0 < e * e * e
  {
    ProductPositive(e, e, e * e);
    ProductPositive(e * e, e, e * e * e);
  }

  /** How far control point i is past base point j, along its direction. */
  ghost function Clear(q: seq<V3>, gs: seq<seq<Guide>>, i: nat, j: nat): real
    requires i < |q| == |gs| && j < |gs[i]|
  {
    q[i].Minus(gs[i][j].base).Dot(gs[i][j].dir)
  }

  ghost predicate ClearOfAll(clear: real, q: seq<V3>, gs: seq<seq<Guide>>, i: nat)
    requires i < |q| == |gs|
  {
    forall j: nat :: j < |gs[i]| ==> clear <= Clear(q, gs, i, j)
  }

  /** The distance cost vanishes exactly when every control point but the order first and last ones is the clearance
      past all its base points. */
  lemma DistanceZeroIff(s: Setting, q: seq<V3>, gs: seq<seq<Guide>>)
    requires |q| == |gs| && 0.0 < s.clearance
    ensures DistanceCost(s.clearance, q, gs, s.order, DistanceEnd(s, |q|)) == 0.0 <==>
            forall i: nat :: s.order <= i && i + s.order < |q| ==> ClearOfAll(s.clearance, q, gs, i)
  {
    hide DistanceCost;
    DistanceSign(s.clearance, q, gs, s.order, DistanceEnd(s, |q|));
  }

  lemma {:induction false} DistanceSign(clear: real, q: seq<V3>, gs: seq<seq<Guide>>, lo: nat, n: nat)
    requires n <= |q| == |gs| && 0.0 < clear
    ensures 0.0 <= DistanceCost(clear, q, gs, lo, n)
    ensures DistanceCost(clear, q, gs, lo, n) == 0.0 <==>
            forall i: nat :: lo <= i < n ==> ClearOfAll(clear, q, gs, i)
  {
    if lo < n {
      DistanceSign(clear, q, gs, lo, n - 1);
      PointSign(clear, q, gs, n - 1, |gs[n - 1]|);
      assert PushCost(clear, q[n - 1], gs[n - 1], |gs[n - 1]|) == 0.0 <==> ClearOfAll(clear, q, gs, n - 1);
      hide Clear, PushCost, ClearOfAll;
    }
  }

  lemma {:induction false} PointSign(clear: real, q: seq<V3>, gs: seq<seq<Guide>>, i: nat, m: nat)
    requires i < |q| == |gs| && m <= |gs[i]| && 0.0 < clear
    ensures 0.0 <= PushCost(clear, q[i], gs[i], m)
    ensures PushCost(clear, q[i], gs[i], m) == 0.0 <==> forall j: nat :: j < m ==> clear <= Clear(q, gs, i, j)
  {
    hide Push, V3.Minus, V3.Dot;
    if m != 0 {
      PointSign(clear, q, gs, i, m - 1);
      var e := clear - Clear(q, gs, i, m - 1);
      assert Shortfall(clear, q[i], gs[i][m - 1]) == e;
      PushPieces(clear, e);
      hide Shortfall, Clear;
      assert PushCost(clear, q[i], gs[i], m) == PushCost(clear, q[i], gs[i], m - 1) + Push(clear, e);
    }
  }

  /** Each guide of an inner control point adds the charge of how much less than the clearance it is past the base. */
  lemma DistanceGrows(clear: real, q: seq<V3>, gs: seq<seq<Guide>>, lo: nat, n: nat, m: nat)
    requires lo <= n < |q| == |gs| && m < |gs[n]|
    ensures DistanceCost(clear, q, gs, lo, n + 1)
            == DistanceCost(clear, q, gs, lo, n) + PushCost(clear, q[n], gs[n], |gs[n]|)
    ensures PushCost(clear, q[n], gs[n], m + 1)
            == PushCost(clear, q[n], gs[n], m) + Push(clear, clear - Clear(q, gs, n, m))
    ensures PushCost(clear, q[n], gs[n], 0) == 0.0
  {
  }
}
