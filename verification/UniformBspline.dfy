/** The B-spline object: evaluation, derivatives, the feasibility check and knot stretching. */
module UniformBsplines {
  import opened Basics
  import opened Vectors
  import opened DeBoor

  /** Control points of the derivative. */
  ghost function DerivativePoints(ctrl: seq<V3>, u: seq<real>, p: nat): (q: seq<V3>)
    requires SplineOk(ctrl, u, p) && 1 <= p
    ensures |q| == |ctrl| - 1
  {
    seq(|ctrl| - 1, i requires 0 <= i < |ctrl| - 1 => VelocityAt(ctrl, u, p, i))
  }

  ghost function DerivativeKnots(u: seq<real>): (v: seq<real>)
    requires 2 <= |u|
    ensures |v| == |u| - 2
  {
    u[1..|u| - 1]
  }

  lemma DerivativeOk(ctrl: seq<V3>, u: seq<real>, p: nat)
    requires SplineOk(ctrl, u, p) && 1 <= p
    ensures SplineOk(DerivativePoints(ctrl, u, p), DerivativeKnots(u), p - 1)
  {
  }

  ghost function VelocityAt(ctrl: seq<V3>, u: seq<real>, p: nat, i: nat): V3
    requires SplineOk(ctrl, u, p) && 1 <= p && i + 1 < |ctrl|
  {
    ctrl[i + 1].Minus(ctrl[i]).Scale(p as real).Over(u[i + p + 1] - u[i + 1])
  }

  ghost function AccelerationAt(ctrl: seq<V3>, u: seq<real>, p: nat, i: nat): V3
    requires SplineOk(ctrl, u, p) && 2 <= p && i + 2 < |ctrl|
  {
    ctrl[i + 2].Minus(ctrl[i + 1]).Over(u[i + p + 2] - u[i + 2])
      .Minus(ctrl[i + 1].Minus(ctrl[i]).Over(u[i + p + 1] - u[i + 1]))
      .Scale((p * (p - 1)) as real).Over(u[i + p + 1] - u[i + 2])
  }

  ghost function AccelerationPoints(ctrl: seq<V3>, u: seq<real>, p: nat): (a: seq<V3>)
    requires SplineOk(ctrl, u, p) && 2 <= p
    ensures |a| == |ctrl| - 2
  {
    seq(|ctrl| - 2, i requires 0 <= i < |ctrl| - 2 => AccelerationAt(ctrl, u, p, i))
  }

  /** Scaling before or after the division by h is the same. */
  lemma ScaleOver(v: V3, c: real, h: real)
    requires h != 0.0
    ensures v.Scale(c).Over(h) == v.Over(h).Scale(c)
  {
    ScaleQuotient(c, v.x, h);
    ScaleQuotient(c, v.y, h);
    ScaleQuotient(c, v.z, h);
  }

  lemma ScaleQuotient(c: real, d: real, h: real)
    requires h != 0.0
    ensures c * d / h == c * (d / h)
  {
  }

  lemma ScaleTwice(s: V3, t: V3, p: nat)
    requires 1 <= p
    ensures s.Minus(t).Scale((p * (p - 1)) as real)
            == s.Scale(p as real).Minus(t.Scale(p as real)).Scale((p - 1) as real)
  {
    var a, b, ab := p as real, (p - 1) as real, (p * (p - 1)) as real;
    RealProduct(p, p - 1);
    ScaleDifference(s.x, t.x, a, b, ab);
    ScaleDifference(s.y, t.y, a, b, ab);
    ScaleDifference(s.z, t.z, a, b, ab);
  }

  lemma RealProduct(m: int, n: int)
    ensures (m * n) as real == m as real * n as real
  {
  }

  lemma ScaleDifference(s: real, t: real, a: real, b: real, ab: real)
    requires ab == a * b
    ensures ab * (s - t) == b * (a * s - a * t)
  {
  }

  /** The acceleration expression of the feasibility check is the control point of the second derivative. */
  lemma SecondDerivativePoint(ctrl: seq<V3>, u: seq<real>, p: nat, i: nat)
    requires SplineOk(ctrl, u, p) && 2 <= p && i + 2 < |ctrl|
    ensures SplineOk(DerivativePoints(ctrl, u, p), DerivativeKnots(u), p - 1)
    ensures DerivativePoints(DerivativePoints(ctrl, u, p), DerivativeKnots(u), p - 1)[i]
            == AccelerationAt(ctrl, u, p, i)
  {
    DerivativeOk(ctrl, u, p);
    var q, v := DerivativePoints(ctrl, u, p), DerivativeKnots(u);
    assert v[i + p] == u[i + p + 1] && v[i + 1] == u[i + 2];
    assert q[i + 1] == VelocityAt(ctrl, u, p, i + 1) && q[i] == VelocityAt(ctrl, u, p, i);
    AccelerationFromVelocities(ctrl, u, p, i);
  }

  lemma AccelerationFromVelocities(ctrl: seq<V3>, u: seq<real>, p: nat, i: nat)
    requires SplineOk(ctrl, u, p) && 2 <= p && i + 2 < |ctrl|
    ensures AccelerationAt(ctrl, u, p, i) ==
            VelocityAt(ctrl, u, p, i + 1).Minus(VelocityAt(ctrl, u, p, i)).Scale((p - 1) as real)
              .Over(u[i + p + 1] - u[i + 2])
  {
    hide V3.Scale, V3.Minus, V3.Over;
    var d1, d0 := ctrl[i + 2].Minus(ctrl[i + 1]), ctrl[i + 1].Minus(ctrl[i]);
    var h1, h0 := u[i + p + 2] - u[i + 2], u[i + p + 1] - u[i + 1];
    ScaleOver(d1, p as real, h1);
    ScaleOver(d0, p as real, h0);
    ScaleTwice(d1.Over(h1), d0.Over(h0), p);
  }

  /** What checkFeasibility accepts: every velocity and acceleration control point within its limit. */
  ghost predicate Feasible(ctrl: seq<V3>, u: seq<real>, p: nat, velLimit: real, accLimit: real)
    requires SplineOk(ctrl, u, p) && 2 <= p
  {
    AllKeep(DerivativePoints(ctrl, u, p), velLimit) && AllKeep(AccelerationPoints(ctrl, u, p), accLimit)
  }

  lemma FeasibleIff(ctrl: seq<V3>, u: seq<real>, p: nat, velLimit: real, accLimit: real)
    requires SplineOk(ctrl, u, p) && 2 <= p
    ensures Feasible(ctrl, u, p, velLimit, accLimit) <==>
            && (forall i: nat :: i + 1 < |ctrl| ==> VelocityAt(ctrl, u, p, i).Within(velLimit))
            && (forall i: nat :: i + 2 < |ctrl| ==> AccelerationAt(ctrl, u, p, i).Within(accLimit))
  {
    hide V3.Within, VelocityAt, AccelerationAt;
    var q, a := DerivativePoints(ctrl, u, p), AccelerationPoints(ctrl, u, p);
    assert forall i: nat :: i + 1 < |ctrl| ==> q[i] == VelocityAt(ctrl, u, p, i);
    assert forall i: nat :: i + 2 < |ctrl| ==> a[i] == AccelerationAt(ctrl, u, p, i);
  }

  /** A feasible spline moves within the limits at every time: its first two derivative splines never leave them. */
  lemma FeasibleMeansBounded(ctrl: seq<V3>, u: seq<real>, p: nat, velLimit: real, accLimit: real, t: real)
    requires SplineOk(ctrl, u, p) && 2 <= p && Feasible(ctrl, u, p, velLimit, accLimit)
    ensures var q, v := DerivativePoints(ctrl, u, p), DerivativeKnots(u);
      && SplineOk(q, v, p - 1) && Value(q, v, p - 1, t).Within(velLimit)
      && var q2, v2 := DerivativePoints(q, v, p - 1), DerivativeKnots(v);
         SplineOk(q2, v2, p - 2) && Value(q2, v2, p - 2, t).Within(accLimit)
  {
    hide V3.Within, Value, VelocityAt, AccelerationAt;
    var q, v := DerivativePoints(ctrl, u, p), DerivativeKnots(u);
    DerivativeOk(ctrl, u, p);
    DerivativeOk(q, v, p - 1);
    var q2, v2 := DerivativePoints(q, v, p - 1), DerivativeKnots(v);
    forall i | 0 <= i < |q2|
      ensures q2[i].Within(accLimit)
    {
      SecondDerivativePoint(ctrl, u, p, i);
      assert q2[i] == AccelerationPoints(ctrl, u, p)[i];
    }
    ValueWithin(q, v, p - 1, t, velLimit);
    ValueWithin(q2, v2, p - 2, t, accLimit);
  }

  function MaxAbs(v: V3): real { MaxReal(MaxReal(AbsReal(v.x), AbsReal(v.y)), AbsReal(v.z)) }

  lemma WithinIffAbs(v: V3, limit: real)
    ensures v.Within(limit) <==> !(AbsReal(v.x) > limit || AbsReal(v.y) > limit || AbsReal(v.z) > limit)
    ensures v.Within(MaxAbs(v))
  {
  }

  class UniformBspline {
    var controlPoints: seq<V3>
    var p: nat
    var u: array<real>
    var interval: real

    ghost predicate Valid()
      reads this, u
    {
      SplineOk(controlPoints, u[..], p)
    }

    /** A uniform spline: knot i stands at (i - order) intervals. */
    constructor (points: seq<V3>, order: nat, ts: real)
      requires order < |points| && 0.0 < ts
      ensures Valid() && controlPoints == points && p == order && interval == ts && fresh(u)
      ensures Uniform(u[..], order, ts)
    {
      controlPoints, p, interval := points, order, ts;
      var n := |points| - 1;
      var m := n + order + 1;
      var knots := new real[m + 1];
      for i := 0 to m + 1
        invariant forall j :: 0 <= j < i ==> knots[j] == (j - order) as real * ts
      {
        if i <= order {
          knots[i] := (i as int - order as int) as real * ts;
        } else {
          knots[i] := knots[i - 1] + ts;
          NextKnot(i - order, ts);
        }
      }
      u := knots;
      UniformIncreasing(knots[..], order, ts);
    }

    /** The spline's value at t: finds the span and runs de Boor's rounds in place. */
    method EvaluateDeBoor(t: real) returns (v: V3)
      requires Valid()
      ensures v == Value(controlPoints, u[..], p, t)
    {
      hide Triangle, Increasing;
      var m := u.Length - 1;
      var ub := Clamp(t, u[p], u[m - p]);
      ghost var knots := u[..];
      SpanEncloses(controlPoints, knots, p, t);
      var k := p;
      while u[k + 1] < ub
        invariant p <= k < |controlPoints|
        invariant SpanFrom(knots, ub, p, |controlPoints| - 1) == SpanFrom(knots, ub, k, |controlPoints| - 1)
        decreases |controlPoints| - k
      {
        assert ub <= knots[|controlPoints|];
        k := k + 1;
      }
      v := DeBoorRounds(k, ub);
    }

    /** The rounds of de Boor's triangle in one array. */
    method DeBoorRounds(k: nat, ub: real) returns (v: V3)
      requires Valid() && p <= k < |controlPoints|
      ensures v == Triangle(controlPoints, u[..], p, k, ub, p, p)
    {
      hide Blend, Increasing;
      var pts := controlPoints[k - p..k + 1];
      var d := new V3[p + 1](i requires 0 <= i < |pts| => pts[i]);
      for r := 1 to p + 1
        invariant forall i: nat :: r - 1 <= i <= p ==> d[i] == Triangle(controlPoints, u[..], p, k, ub, r - 1, i)
      {
        DeBoorRound(d, k, ub, r);
      }
      v := d[p];
    }

    method BlendingFactor(k: nat, ub: real, r: nat, i: nat) returns (alpha: real)
      requires 1 <= r <= i <= p <= k && k + p < u.Length && u[i + k - p] != u[i + 1 + k - r]
      ensures alpha == Alpha(u[..], p, k, ub, r, i)
    {
      alpha := (ub - u[i + k - p]) / (u[i + 1 + k - r] - u[i + k - p]);
    }

    /** One round, from the last place down so that each place still finds its left neighbour untouched. */
    method DeBoorRound(d: array<V3>, k: nat, ub: real, r: nat)
      requires Valid() && p <= k < |controlPoints| && 1 <= r <= p && d.Length == p + 1 && d as object != u
      requires forall i: nat :: r - 1 <= i <= p ==> d[i] == Triangle(controlPoints, u[..], p, k, ub, r - 1, i)
      modifies d
      ensures forall i: nat :: r <= i <= p ==> d[i] == Triangle(controlPoints, u[..], p, k, ub, r, i)
    {
      hide Alpha, Blend, V3.Scale, V3.Plus, Increasing;
      ghost var ctrl, knots := controlPoints, u[..];
      var i := p;
      while i >= r
        invariant r - 1 <= i <= p
        invariant forall j: nat :: r - 1 <= j <= i ==> d[j] == Triangle(ctrl, knots, p, k, ub, r - 1, j)
        invariant forall j: nat :: i < j <= p ==> d[j] == Triangle(ctrl, knots, p, k, ub, r, j)
      {
        KnotsDiffer(ctrl, knots, p, k, r, i);
        var alpha := BlendingFactor(k, ub, r, i);
        BlendIs(alpha, d[i - 1], d[i]);
        d[i] := d[i - 1].Scale(1.0 - alpha).Plus(d[i].Scale(alpha));
        i := i - 1;
      }
    }

    /** The derivative spline, on the knots without the first and the last. */
    method GetDerivative() returns (derivative: UniformBspline)
      requires Valid() && 1 <= p
      ensures derivative.Valid() && derivative.p == p - 1 && fresh(derivative) && fresh(derivative.u)
      ensures derivative.controlPoints == DerivativePoints(controlPoints, u[..], p)
      ensures derivative.u[..] == DerivativeKnots(u[..])
    {
      hide V3.Scale, V3.Minus, V3.Over;
      DerivativeOk(controlPoints, u[..], p);
      var ctp := [];
      for i := 0 to |controlPoints| - 1
        invariant ctp == DerivativePoints(controlPoints, u[..], p)[..i]
      {
        ctp := ctp + [controlPoints[i + 1].Minus(controlPoints[i]).Scale(p as real).Over(u[i + p + 1] - u[i + 1])];
      }
      var knot := new real[u.Length - 2](i requires 0 <= i < u.Length - 2 reads this, u => u[i + 1]);
      derivative := new UniformBspline.Raw(ctp, p - 1, knot, interval);
      assert knot[..] == DerivativeKnots(u[..]);
    }

    constructor Raw(points: seq<V3>, order: nat, knot: array<real>, ts: real)
      ensures controlPoints == points && p == order && u == knot && interval == ts
    {
      controlPoints, p, u, interval := points, order, knot, ts;
    }

    /** Accepts exactly the splines whose velocity and acceleration control points all keep the
        enlarged limits; otherwise reports the largest offending components. */
    method CheckFeasibility(limitVel: real, limitAcc: real, tolerance: real)
      returns (feasible: bool, maxVel: real, maxAcc: real)
      requires Valid() && 2 <= p
      ensures feasible <==>
        Feasible(controlPoints, u[..], p, EnlargedLimit(limitVel, tolerance), EnlargedLimit(limitAcc, tolerance))
      ensures Tops(DerivativePoints(controlPoints, u[..], p), EnlargedLimit(limitVel, tolerance), maxVel)
      ensures Tops(AccelerationPoints(controlPoints, u[..], p), EnlargedLimit(limitAcc, tolerance), maxAcc)
      ensures var (v, a) := (limitVel * (1.0 + tolerance) + 0.0001, limitAcc * (1.0 + tolerance) + 0.0001);
        feasible <==>
          && (forall i: nat :: i + 1 < |controlPoints| ==> VelocityAt(controlPoints, u[..], p, i).Within(v))
          && (forall i: nat :: i + 2 < |controlPoints| ==> AccelerationAt(controlPoints, u[..], p, i).Within(a))
    {
      FeasibleIff(controlPoints, u[..], p, EnlargedLimit(limitVel, tolerance), EnlargedLimit(limitAcc, tolerance));
      hide V3.Within, DerivativePoints, AccelerationPoints;
      var velOk, accOk;
      velOk, maxVel := CheckVelocities(EnlargedLimit(limitVel, tolerance));
      accOk, maxAcc := CheckAccelerations(EnlargedLimit(limitAcc, tolerance));
      feasible := velOk && accOk;
    }

    method CheckVelocities(limit: real) returns (ok: bool, most: real)
      requires Valid() && 2 <= p
      ensures ok <==> AllKeep(DerivativePoints(controlPoints, u[..], p), limit)
      ensures Tops(DerivativePoints(controlPoints, u[..], p), limit, most)
    {
      hide V3.Within, V3.Scale, V3.Minus, V3.Over, Increasing;
      ghost var ctrl, knots := controlPoints, u[..];
      ghost var vels := DerivativePoints(ctrl, knots, p);
      NothingTops(limit);
      hide Tops, AllKeep;
      ok, most := true, -1.0;
      for i := 0 to |controlPoints| - 1
        invariant (ok <==> AllKeep(vels[..i], limit)) && Tops(vels[..i], limit, most)
      {
        SpansPositive(ctrl, knots, p, i);
        var vel := controlPoints[i + 1].Minus(controlPoints[i]).Scale(p as real).Over(u[i + p + 1] - u[i + 1]);
        ok, most := Note(vels[..i], vel, limit, ok, most);
        assert vel == VelocityAt(ctrl, knots, p, i) && vels[..i + 1] == vels[..i] + [vel];
      }
      assert vels[..|vels|] == vels;
    }

    /** The acceleration expression at control point i. */
    method Acceleration(i: nat) returns (acc: V3)
      requires Valid() && 2 <= p && i + 2 < |controlPoints|
      ensures acc == AccelerationAt(controlPoints, u[..], p, i)
    {
      hide V3.Scale, V3.Minus, V3.Over, Increasing;
      SpansPositive(controlPoints, u[..], p, i);
      SpansPositive(controlPoints, u[..], p, i + 1);
      acc := controlPoints[i + 2].Minus(controlPoints[i + 1]).Over(u[i + p + 2] - u[i + 2])
        .Minus(controlPoints[i + 1].Minus(controlPoints[i]).Over(u[i + p + 1] - u[i + 1]))
        .Scale((p * (p - 1)) as real).Over(u[i + p + 1] - u[i + 2]);
    }

    method CheckAccelerations(limit: real) returns (ok: bool, most: real)
      requires Valid() && 2 <= p
      ensures ok <==> AllKeep(AccelerationPoints(controlPoints, u[..], p), limit)
      ensures Tops(AccelerationPoints(controlPoints, u[..], p), limit, most)
    {
      hide V3.Within, AccelerationAt, Increasing;
      ghost var ctrl, knots := controlPoints, u[..];
      ghost var accs := AccelerationPoints(ctrl, knots, p);
      NothingTops(limit);
      hide Tops, AllKeep;
      ok, most := true, -1.0;
      for i := 0 to |controlPoints| - 2
        invariant (ok <==> AllKeep(accs[..i], limit)) && Tops(accs[..i], limit, most)
      {
        var acc := Acceleration(i);
        ok, most := Note(accs[..i], acc, limit, ok, most);
        assert accs[..i + 1] == accs[..i] + [acc];
      }
      assert accs[..|accs|] == accs;
    }

    /** The gain of all spans between the sixth knots from either end, and of each; the quotient of a
        vector of eleven knots, zero by zero, is never used. */
    method Gains(ratio: real) returns (deltaT: real, tInc: real)
      requires 6 <= u.Length
      ensures deltaT == Shift(u[..], ratio) && tInc == Gain(u[..], ratio)
    {
      var num1 := 5;
      var num2 := u.Length - 1 - 5;
      deltaT := (ratio - 1.0) * (u[num2] - u[num1]);
      tInc := if num1 == num2 then 0.0 else deltaT / (num2 - num1) as real;
    }

    /** Stretches the spans between the sixth knot from either end so that together they last ratio
        times as long; the knots before keep their place and those after move along. */
    method LengthenTime(ratio: real)
      requires 6 <= u.Length
      modifies u
      ensures u[..] == Stretched(old(u[..]), ratio)
    {
      hide Multiple, Shift, Gain, Stretched, Increasing;
      ghost var knots := u[..];
      var num1 := 5;
      var num2 := u.Length - 1 - 5;
      var deltaT, tInc := Gains(ratio);
      var i := num1 + 1;
      while i <= num2
        invariant num1 < i && (i <= num2 + 1 || i == num1 + 1)
        invariant forall j :: 0 <= j < u.Length ==>
          u[j] == if num1 < j < i then knots[j] + Multiple(j - 5, tInc) else knots[j]
      {
        assert i - num1 == i - 5;
        u[i] := u[i] + Multiple(i - num1, tInc);
        i := i + 1;
      }
      for i := num2 + 1 to u.Length
        invariant forall j :: 0 <= j < u.Length ==>
          u[j] == if num1 < j <= num2 then knots[j] + Multiple(j - 5, tInc)
                  else if num2 < j < i then knots[j] + deltaT
                  else knots[j]
      {
        u[i] := u[i] + deltaT;
      }
      StretchedIs(knots, ratio, u[..]);
    }
  }

  /** How far the knots after the stretched ones move. */
  ghost function Shift(u: seq<real>, ratio: real): real
    requires 6 <= |u|
  {
    (ratio - 1.0) * (u[|u| - 6] - u[5])
  }

  /** What each span between the stretched knots gains. */
  ghost function Gain(u: seq<real>, ratio: real): real
    requires 6 <= |u|
  {
    if |u| == 11 then 0.0 else Shift(u, ratio) / (|u| - 11) as real
  }

  ghost function Stretched(u: seq<real>, ratio: real): (s: seq<real>)
    requires 6 <= |u|
    ensures |s| == |u|
  {
    seq(|u|, j requires 0 <= j < |u| =>
      if 5 < j <= |u| - 6 then u[j] + Multiple(j - 5, Gain(u, ratio))
      else if |u| - 6 < j then u[j] + Shift(u, ratio)
      else u[j])
  }

  lemma StretchedIs(u: seq<real>, ratio: real, s: seq<real>)
    requires 6 <= |u| == |s|
    requires forall j :: 0 <= j < |u| ==>
      s[j] == if 5 < j <= |u| - 6 then u[j] + Multiple(j - 5, Gain(u, ratio))
              else if |u| - 6 < j then u[j] + Shift(u, ratio)
              else u[j]
    ensures s == Stretched(u, ratio)
  {
  }

  /** Stretching changes only the inner spans, by the same gain each, and their total by the ratio. */
  lemma StretchedSpans(u: seq<real>, ratio: real)
    requires 12 <= |u|
    ensures var s := Stretched(u, ratio);
      && (forall j :: 0 <= j < |u| - 1 ==>
            s[j + 1] - s[j] == u[j + 1] - u[j] + (if 5 <= j < |u| - 6 then Gain(u, ratio) else 0.0))
      && s[|u| - 6] - s[5] == ratio * (u[|u| - 6] - u[5])
  {
    var g := Gain(u, ratio);
    WholeMultiple(|u| - 11, Shift(u, ratio));
    assert Multiple(0, g) == 0.0;
    var s := Stretched(u, ratio);
    forall j | 0 <= j < |u| - 1
      ensures s[j + 1] - s[j] == u[j + 1] - u[j] + (if 5 <= j < |u| - 6 then g else 0.0)
    {
      MultipleNext(j - 5, g);
      StretchedStep(u, ratio, j);
    }
  }

  lemma WholeMultiple(n: int, total: real)
    requires n != 0
    ensures Multiple(n, total / n as real) == total
  {
  }

  lemma StretchedStep(u: seq<real>, ratio: real, j: nat)
    requires 12 <= |u| && j < |u| - 1
    requires Multiple(0, Gain(u, ratio)) == 0.0 && Multiple(|u| - 11, Gain(u, ratio)) == Shift(u, ratio)
    requires Multiple(j - 5 + 1, Gain(u, ratio)) == Multiple(j - 5, Gain(u, ratio)) + Gain(u, ratio)
    ensures Stretched(u, ratio)[j + 1] - Stretched(u, ratio)[j]
            == u[j + 1] - u[j] + (if 5 <= j < |u| - 6 then Gain(u, ratio) else 0.0)
  {
  }

  function Multiple(k: int, g: real): real { k as real * g }

  lemma MultipleNext(k: int, g: real)
    ensures Multiple(k + 1, g) == Multiple(k, g) + g
  {
  }

  /** Increasing knots stay increasing exactly when no inner span is shrunk to nothing. */
  lemma StretchedIncreasingIff(u: seq<real>, ratio: real)
    requires 12 <= |u| && Increasing(u)
    ensures Increasing(Stretched(u, ratio)) <==> forall j :: 5 <= j < |u| - 6 ==> 0.0 < u[j + 1] - u[j] + Gain(u, ratio)
  {
    StretchedSpans(u, ratio);
    IncreasingIffSteps(u);
    IncreasingIffSteps(Stretched(u, ratio));
  }

  /** With eleven knots or fewer at most one span changes, the one that starts at the sixth knot from the back:
      a ratio above one shrinks it. */
  lemma ShortStretch(u: seq<real>, ratio: real)
    requires 6 <= |u| <= 11
    ensures var s := Stretched(u, ratio);
      forall j :: 0 <= j < |u| - 1 ==>
        s[j + 1] - s[j] == u[j + 1] - u[j] + (if j == |u| - 6 then (1.0 - ratio) * (u[5] - u[|u| - 6]) else 0.0)
  {
    assert Shift(u, ratio) == (1.0 - ratio) * (u[5] - u[|u| - 6]);
  }

  lemma ShortIncreasingIff(u: seq<real>, ratio: real)
    requires 6 <= |u| <= 11 && Increasing(u)
    ensures Increasing(Stretched(u, ratio))
            <==> 0.0 < u[|u| - 5] - u[|u| - 6] + (1.0 - ratio) * (u[5] - u[|u| - 6])
  {
    hide Increasing, Stretched;
    ShortStretch(u, ratio);
    OneStepChanges(u, Stretched(u, ratio), |u| - 6, (1.0 - ratio) * (u[5] - u[|u| - 6]));
  }

  lemma OneStepChanges(u: seq<real>, s: seq<real>, k: nat, d: real)
    requires |s| == |u| && k + 1 < |u| && Increasing(u)
    requires forall j :: 0 <= j < |u| - 1 ==> s[j + 1] - s[j] == u[j + 1] - u[j] + (if j == k then d else 0.0)
    ensures Increasing(s) <==> 0.0 < u[k + 1] - u[k] + d
  {
    hide Increasing;
    IncreasingIffSteps(u);
    IncreasingIffSteps(s);
    assert s[k + 1] - s[k] == u[k + 1] - u[k] + d;
  }

  /** Lengthening by a ratio lengthens the time of the spline exactly when the ratio is above one and
      there are more than eleven knots; with fewer than eleven it is a ratio below one that lengthens. */
  lemma LengthensIff(u: seq<real>, p: nat, ratio: real)
    requires p <= 4 && p + 6 <= |u| && Increasing(u)
    ensures var s, end := Stretched(u, ratio), |u| - 1 - p;
      && s[end] - s[p] == u[end] - u[p] + Shift(u, ratio)
      && (u[end] - u[p] < s[end] - s[p] <==> (11 < |u| && 1.0 < ratio) || (|u| < 11 && ratio < 1.0))
  {
    ShiftApplies(u, p, ratio);
    ShiftSign(u, ratio);
    hide Stretched, Shift, Increasing;
  }

  lemma ShiftSign(u: seq<real>, ratio: real)
    requires 6 <= |u| && Increasing(u)
    ensures 0.0 < Shift(u, ratio) <==> (11 < |u| && 1.0 < ratio) || (|u| < 11 && ratio < 1.0)
  {
    var c, h, shift := ratio - 1.0, u[|u| - 6] - u[5], Shift(u, ratio);
    assert shift == c * h;
    hide Shift;
    if 11 < |u| {
      SignOfProduct(c, h, shift);
    } else if |u| < 11 {
      assert shift == (-c) * (-h);
      SignOfProduct(-c, -h, shift);
    }
  }

  lemma SignOfProduct(c: real, h: real, s: real)
    requires 0.0 < h && s == c * h
    ensures 0.0 < s <==> 0.0 < c
  {
    ProductSign(c, h);
  }

  lemma ShiftApplies(u: seq<real>, p: nat, ratio: real)
    requires p <= 4 && p + 6 <= |u|
    ensures var s, end := Stretched(u, ratio), |u| - 1 - p;
      s[end] - s[p] == u[end] - u[p] + Shift(u, ratio)
  {
    hide Multiple, Gain, Shift;
  }

  lemma PositiveIff(c: real, h: real)
    requires 0.0 < h
    ensures 0.0 < c * h <==> 0.0 < c
  {
    ProductSign(c, h);
  }

  ghost predicate Uniform(u: seq<real>, p: nat, ts: real) { forall i :: 0 <= i < |u| ==> u[i] == (i - p) as real * ts }

  /** The ratios a uniform spline can be stretched by: the positive ones, or with eleven knots or fewer those
      whose excess over one, once for every missing knot, stays below one. */
  lemma UniformStretchIff(u: seq<real>, p: nat, ts: real, ratio: real)
    requires 6 <= |u| && 0.0 < ts && Uniform(u, p, ts)
    ensures Increasing(Stretched(u, ratio))
            <==> if 12 <= |u| then 0.0 < ratio else (ratio - 1.0) * (11 - |u|) as real < 1.0
  {
    UniformIncreasing(u, p, ts);
    if 12 <= |u| {
      UniformLongIff(u, p, ts, ratio);
    } else {
      UniformShortIff(u, p, ts, ratio);
    }
  }

  lemma UniformLongIff(u: seq<real>, p: nat, ts: real, ratio: real)
    requires 12 <= |u| && 0.0 < ts && Uniform(u, p, ts) && Increasing(u)
    ensures Increasing(Stretched(u, ratio)) <==> 0.0 < ratio
  {
    hide Increasing, Stretched, Uniform;
    StretchedIncreasingIff(u, ratio);
    forall j | 5 <= j < |u| - 6
      ensures u[j + 1] - u[j] == ts
    {
      UniformApart(u, p, ts, j, j + 1, 1.0);
    }
    EqualSteps(u, ts, Gain(u, ratio));
    UniformGain(u, p, ts, ratio);
    GainedSpan(ratio, ts);
  }

  lemma EqualSteps(u: seq<real>, ts: real, g: real)
    requires 12 <= |u| && forall j :: 5 <= j < |u| - 6 ==> u[j + 1] - u[j] == ts
    ensures (forall j :: 5 <= j < |u| - 6 ==> 0.0 < u[j + 1] - u[j] + g) <==> 0.0 < ts + g
  {
    assert u[5 + 1] - u[5] == ts;
  }

  lemma UniformShortIff(u: seq<real>, p: nat, ts: real, ratio: real)
    requires 6 <= |u| <= 11 && 0.0 < ts && Uniform(u, p, ts) && Increasing(u)
    ensures Increasing(Stretched(u, ratio)) <==> (ratio - 1.0) * (11 - |u|) as real < 1.0
  {
    hide Increasing, Stretched, Uniform;
    ShortIncreasingIff(u, ratio);
    var n := (11 - |u|) as real;
    UniformApart(u, p, ts, |u| - 6, |u| - 5, 1.0);
    UniformApart(u, p, ts, |u| - 6, 5, n);
    ShrunkSpan(ratio, n, ts, u[5] - u[|u| - 6]);
  }

  lemma GainedSpan(ratio: real, ts: real)
    requires 0.0 < ts
    ensures 0.0 < ts + (ratio - 1.0) * ts <==> 0.0 < ratio
  {
    PositiveIff(ratio, ts);
    assert ratio * ts == ts + (ratio - 1.0) * ts;
  }

  lemma ShrunkSpan(ratio: real, n: real, ts: real, d: real)
    requires 0.0 < ts && d == n * ts
    ensures 0.0 < ts + (1.0 - ratio) * d <==> (ratio - 1.0) * n < 1.0
  {
    var excess := (ratio - 1.0) * n;
    Regroup(1.0 - ratio, n, ts);
    PositiveIff(1.0 - excess, ts);
    assert (1.0 - ratio) * d == -(excess * ts);
    assert (1.0 - excess) * ts == ts - excess * ts;
  }

  lemma Regroup(a: real, b: real, c: real)
    ensures a * (b * c) == -((-a * b) * c)
  {
  }

  lemma UniformApart(u: seq<real>, p: nat, ts: real, i: nat, j: nat, n: real)
    requires Uniform(u, p, ts) && i <= j < |u| && (j - i) as real == n
    ensures u[j] - u[i] == n * ts
    ensures n == 1.0 ==> u[j] - u[i] == ts
  {
    Apart(j - p, i - p, n, ts);
  }

  lemma Apart(a: int, b: int, n: real, ts: real)
    requires (a - b) as real == n
    ensures a as real * ts - b as real * ts == n * ts
  {
  }

  lemma UniformGain(u: seq<real>, p: nat, ts: real, ratio: real)
    requires 12 <= |u| && Uniform(u, p, ts)
    ensures Gain(u, ratio) == (ratio - 1.0) * ts
  {
    var n := (|u| - 11) as real;
    UniformApart(u, p, ts, 5, |u| - 6, n);
    hide Uniform;
    var shift := Shift(u, ratio);
    assert shift == (ratio - 1.0) * (u[|u| - 6] - u[5]);
    hide Shift;
    assert Gain(u, ratio) == shift / n;
    hide Gain;
    QuotientOfMultiple(ratio - 1.0, u[|u| - 6] - u[5], n, ts, shift);
  }

  lemma QuotientOfMultiple(c: real, d: real, n: real, ts: real, shift: real)
    requires n != 0.0 && d == n * ts && shift == c * d
    ensures shift / n == c * ts
  {
    assert shift == n * (c * ts);
    QuotientBack(c * ts, n);
  }

  lemma QuotientBack(a: real, n: real)
    requires n != 0.0
    ensures n * a / n == a
  {
  }

  lemma IncreasingIffSteps(u: seq<real>)
    ensures Increasing(u) <==> forall j :: 0 <= j < |u| - 1 ==> u[j] < u[j + 1]
  {
    if forall j :: 0 <= j < |u| - 1 ==> u[j] < u[j + 1] {
      forall i, j | 0 <= i < j < |u|
        ensures u[i] < u[j]
      {
        StepsIncrease(u, i, j);
      }
    }
  }

  lemma {:induction false} StepsIncrease(u: seq<real>, i: nat, j: nat)
    requires i < j < |u| && forall k :: 0 <= k < |u| - 1 ==> u[k] < u[k + 1]
    ensures u[i] < u[j]
  {
    if i + 1 < j {
      StepsIncrease(u, i, j - 1);
    }
    assert u[j - 1] < u[j - 1 + 1];
  }

  ghost predicate AllKeep(vs: seq<V3>, limit: real) { forall i :: 0 <= i < |vs| ==> vs[i].Within(limit) }

  /** The largest component of the vectors that do not keep the limit, or -1 when all do. */
  ghost predicate Tops(vs: seq<V3>, limit: real, most: real) {
    && (forall i :: 0 <= i < |vs| ==> vs[i].Within(limit) || vs[i].Within(most))
    && if AllKeep(vs, limit) then most == -1.0
       else exists i :: 0 <= i < |vs| && !vs[i].Within(limit) && MaxAbs(vs[i]) == most
  }

  lemma NothingTops(limit: real)
    ensures AllKeep([], limit) && Tops([], limit, -1.0)
  {
  }

  /** Takes one more vector into account. */
  method Note(ghost vs: seq<V3>, v: V3, limit: real, ok: bool, most: real) returns (ok': bool, most': real)
    requires (ok <==> AllKeep(vs, limit)) && Tops(vs, limit, most)
    ensures (ok' <==> AllKeep(vs + [v], limit)) && Tops(vs + [v], limit, most')
  {
    hide V3.Within, MaxAbs, AbsReal;
    ok', most' := ok, most;
    WithinIffAbs(v, limit);
    assert (vs + [v])[|vs|] == v && forall i :: 0 <= i < |vs| ==> (vs + [v])[i] == vs[i];
    if AbsReal(v.x) > limit || AbsReal(v.y) > limit || AbsReal(v.z) > limit {
      ok' := false;
      most' := MaxReal(most, MaxAbs(v));
      WithinMonotone(v, MaxAbs(v), most');
      forall i | 0 <= i < |vs| && vs[i].Within(most)
        ensures vs[i].Within(most')
      {
        WithinMonotone(vs[i], most, most');
      }
    }
  }

  lemma WithinMonotone(v: V3, a: real, b: real)
    requires a <= b && v.Within(a)
    ensures v.Within(b)
  {
  }

  lemma SpansPositive(ctrl: seq<V3>, u: seq<real>, p: nat, i: nat)
    requires SplineOk(ctrl, u, p) && 2 <= p && i + 1 < |ctrl|
    ensures u[i + 1] < u[i + p + 1]
    ensures u[i + 2] < u[i + p + 1]
  {
  }

  lemma BlendIs(a: real, v: V3, w: V3)
    ensures v.Scale(1.0 - a).Plus(w.Scale(a)) == Blend(a, v, w)
  {
  }

  function EnlargedLimit(limit: real, tolerance: real): real { limit * (1.0 + tolerance) + 0.0001 }

  lemma NextKnot(i: int, ts: real)
    ensures i as real * ts == (i - 1) as real * ts + ts
  {
  }

  lemma UniformIncreasing(u: seq<real>, order: nat, ts: real)
    requires 0.0 < ts && Uniform(u, order, ts)
    ensures Increasing(u)
  {
  }
}
