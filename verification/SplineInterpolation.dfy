/** The linear system of parameterizeToBspline, and why its exact solutions interpolate. */
module SplineInterpolation {
  import opened Vectors
  import opened DeBoor
  import opened UniformBsplines

  /** At the knot e places above the lower end of span k, the blending factors of a uniform spline
      do not depend on the span. */
  lemma UniformAlpha(ctrl: seq<V3>, u: seq<real>, p: nat, ts: real, k: nat, e: nat, r: nat, i: nat)
    requires SplineOk(ctrl, u, p) && Uniform(u, p, ts) && 0.0 < ts
    requires p <= k < |ctrl| && e <= 1 && 1 <= r <= i <= p
    ensures u[i + k - p] != u[i + 1 + k - r]
    ensures Alpha(u, p, k, u[k + e], r, i) == (p + e - i) as real / (p + 1 - r) as real
  {
  }

  /** The span below the j-th knot of the domain and the end of it where that knot stands. */
  function SpanOf(p: nat, j: nat): nat { if j == 0 then p else p + j - 1 }

  function EndOf(j: nat): nat { if j == 0 then 0 else 1 }

  lemma ValueAtKnot(ctrl: seq<V3>, u: seq<real>, p: nat, j: nat)
    requires SplineOk(ctrl, u, p) && p + j <= |ctrl|
    ensures Value(ctrl, u, p, u[p + j]) == Triangle(ctrl, u, p, SpanOf(p, j), u[SpanOf(p, j) + EndOf(j)], p, p)
  {
  }

  function Weighted(c0: real, v0: V3, c1: real, v1: V3, c2: real, v2: V3): V3 {
    v0.Scale(c0).Plus(v1.Scale(c1)).Plus(v2.Scale(c2))
  }

  /** One step of a uniform spline's triangle at a knot, as a blend with a fixed factor. */
  lemma UniformStep(ctrl: seq<V3>, u: seq<real>, p: nat, ts: real, k: nat, e: nat, r: nat, i: nat)
    requires SplineOk(ctrl, u, p) && Uniform(u, p, ts) && 0.0 < ts
    requires p <= k < |ctrl| && e <= 1 && 1 <= r <= i <= p
    ensures Triangle(ctrl, u, p, k, u[k + e], r, i) ==
            Blend((p + e - i) as real / (p + 1 - r) as real, Triangle(ctrl, u, p, k, u[k + e], r - 1, i - 1),
                  Triangle(ctrl, u, p, k, u[k + e], r - 1, i))
  {
    UniformAlpha(ctrl, u, p, ts, k, e, r, i);
  }

  lemma CubicAtKnot(ctrl: seq<V3>, u: seq<real>, ts: real, j: nat)
    requires SplineOk(ctrl, u, 3) && Uniform(u, 3, ts) && 0.0 < ts && 3 + j <= |ctrl|
    ensures Value(ctrl, u, 3, u[3 + j]) == Weighted(1.0 / 6.0, ctrl[j], 4.0 / 6.0, ctrl[j + 1], 1.0 / 6.0, ctrl[j + 2])
  {
    hide Blend, Weighted, Value, Increasing;
    var k, e := SpanOf(3, j), EndOf(j);
    ValueAtKnot(ctrl, u, 3, j);
    UniformStep(ctrl, u, 3, ts, k, e, 1, 1);
    UniformStep(ctrl, u, 3, ts, k, e, 1, 2);
    UniformStep(ctrl, u, 3, ts, k, e, 1, 3);
    UniformStep(ctrl, u, 3, ts, k, e, 2, 2);
    UniformStep(ctrl, u, 3, ts, k, e, 2, 3);
    UniformStep(ctrl, u, 3, ts, k, e, 3, 3);
    if e == 0 {
      CubicBlendsLow(ctrl[k - 3], ctrl[k - 2], ctrl[k - 1], ctrl[k]);
    } else {
      CubicBlendsHigh(ctrl[k - 3], ctrl[k - 2], ctrl[k - 1], ctrl[k]);
    }
  }

  /** The six blends of a cubic triangle at the lower end of a span. */
  lemma CubicBlendsLow(c0: V3, c1: V3, c2: V3, c3: V3)
    ensures var d1, d2, d3 := Blend(2.0 / 3.0, c0, c1), Blend(1.0 / 3.0, c1, c2), Blend(0.0 / 3.0, c2, c3);
      Blend(0.0 / 1.0, Blend(1.0 / 2.0, d1, d2), Blend(0.0 / 2.0, d2, d3))
      == Weighted(1.0 / 6.0, c0, 4.0 / 6.0, c1, 1.0 / 6.0, c2)
  {
  }

  /** And at the upper end. */
  lemma CubicBlendsHigh(c0: V3, c1: V3, c2: V3, c3: V3)
    ensures var d1, d2, d3 := Blend(3.0 / 3.0, c0, c1), Blend(2.0 / 3.0, c1, c2), Blend(1.0 / 3.0, c2, c3);
      Blend(1.0 / 1.0, Blend(2.0 / 2.0, d1, d2), Blend(1.0 / 2.0, d2, d3))
      == Weighted(1.0 / 6.0, c1, 4.0 / 6.0, c2, 1.0 / 6.0, c3)
  {
  }

  lemma QuadraticAtKnot(ctrl: seq<V3>, u: seq<real>, ts: real, j: nat)
    requires SplineOk(ctrl, u, 2) && Uniform(u, 2, ts) && 0.0 < ts && 2 + j <= |ctrl|
    ensures Value(ctrl, u, 2, u[2 + j]) == ctrl[j].Plus(ctrl[j + 1]).Scale(1.0 / 2.0)
  {
    hide Blend, V3.Plus, V3.Scale, Value, Increasing;
    var k, e := SpanOf(2, j), EndOf(j);
    ValueAtKnot(ctrl, u, 2, j);
    UniformStep(ctrl, u, 2, ts, k, e, 1, 1);
    UniformStep(ctrl, u, 2, ts, k, e, 1, 2);
    UniformStep(ctrl, u, 2, ts, k, e, 2, 2);
    if e == 0 {
      QuadraticBlendsLow(ctrl[k - 2], ctrl[k - 1], ctrl[k]);
    } else {
      QuadraticBlendsHigh(ctrl[k - 2], ctrl[k - 1], ctrl[k]);
    }
  }

  lemma QuadraticBlendsLow(c0: V3, c1: V3, c2: V3)
    ensures Blend(0.0 / 1.0, Blend(1.0 / 2.0, c0, c1), Blend(0.0 / 2.0, c1, c2)) == c0.Plus(c1).Scale(1.0 / 2.0)
  {
  }

  lemma QuadraticBlendsHigh(c0: V3, c1: V3, c2: V3)
    ensures Blend(1.0 / 1.0, Blend(2.0 / 2.0, c0, c1), Blend(1.0 / 2.0, c1, c2)) == c1.Plus(c2).Scale(1.0 / 2.0)
  {
  }

  lemma LinearAtKnot(ctrl: seq<V3>, u: seq<real>, ts: real, j: nat)
    requires SplineOk(ctrl, u, 1) && Uniform(u, 1, ts) && 0.0 < ts && 1 + j <= |ctrl|
    ensures Value(ctrl, u, 1, u[1 + j]) == ctrl[j]
  {
    var k, e := SpanOf(1, j), EndOf(j);
    ValueAtKnot(ctrl, u, 1, j);
    UniformStep(ctrl, u, 1, ts, k, e, 1, 1);
    if e == 0 {
      assert Triangle(ctrl, u, 1, k, u[k + e], 1, 1) == Blend(0.0 / 1.0, ctrl[k - 1], ctrl[k]);
    } else {
      assert Triangle(ctrl, u, 1, k, u[k + e], 1, 1) == Blend(1.0 / 1.0, ctrl[k - 1], ctrl[k]);
    }
  }

  lemma UniformDerivativeKnots(u: seq<real>, p: nat, ts: real)
    requires 2 <= |u| && 1 <= p && Uniform(u, p, ts)
    ensures Uniform(DerivativeKnots(u), p - 1, ts)
  {
  }

  /** On uniform knots the derivative's control points are the differences over the interval. */
  lemma UniformVelocity(ctrl: seq<V3>, u: seq<real>, p: nat, ts: real, i: nat)
    requires SplineOk(ctrl, u, p) && 1 <= p && Uniform(u, p, ts) && 0.0 < ts && i + 1 < |ctrl|
    ensures DerivativePoints(ctrl, u, p)[i] == ctrl[i + 1].Minus(ctrl[i]).Over(ts)
  {
  }

  function VelocityRate(ts: real): real
    requires ts != 0.0
  {
    1.0 / 2.0 / ts
  }

  function AccelerationRate(ts: real): real
    requires ts != 0.0
  {
    1.0 / ts / ts
  }

  /** The three rows that parameterizeToBspline writes: points, velocities, accelerations. */
  function Stencil(d: int, c0: real, c1: real, c2: real): real {
    if d == 0 then c0 else if d == 1 then c1 else if d == 2 then c2 else 0.0
  }

  /** The entry of the system's matrix in row i and column j, for K points at interval ts. */
  function Entry(K: nat, ts: real, i: int, j: int): real
    requires ts != 0.0
  {
    if i < K then Stencil(j - i, 1.0 / 6.0 * 1.0, 1.0 / 6.0 * 4.0, 1.0 / 6.0 * 1.0)
    else if i == K then Stencil(j, VelocityRate(ts) * -1.0, VelocityRate(ts) * 0.0, VelocityRate(ts) * 1.0)
    else if i == K + 1 then Stencil(j - (K - 1), VelocityRate(ts) * -1.0, VelocityRate(ts) * 0.0,
                                    VelocityRate(ts) * 1.0)
    else if i == K + 2 then Stencil(j, AccelerationRate(ts) * 1.0, AccelerationRate(ts) * -2.0,
                                    AccelerationRate(ts) * 1.0)
    else Stencil(j - (K - 1), AccelerationRate(ts) * 1.0, AccelerationRate(ts) * -2.0, AccelerationRate(ts) * 1.0)
  }

  method WriteBlock(A: array2<real>, row: nat, col: nat, c: real, e0: real, e1: real, e2: real)
    requires row < A.Length0 && col + 2 < A.Length1
    requires forall j :: 0 <= j < A.Length1 ==> A[row, j] == 0.0
    modifies A
    ensures forall i, j :: 0 <= i < A.Length0 && 0 <= j < A.Length1 ==>
      A[i, j] == if i == row then Stencil(j - col, c * e0, c * e1, c * e2) else old(A[i, j])
  {
    A[row, col] := c * e0;
    A[row, col + 1] := c * e1;
    A[row, col + 2] := c * e2;
  }

  method WriteMatrix(K: nat, ts: real) returns (A: array2<real>)
    requires 0.0 < ts && 3 < K
    ensures A.Length0 == K + 4 && A.Length1 == K + 2 && fresh(A)
    ensures forall i, j :: 0 <= i < K + 4 && 0 <= j < K + 2 ==> A[i, j] == Entry(K, ts, i, j)
  {
    hide VelocityRate, AccelerationRate;
    A := new real[K + 4, K + 2]((i, j) => 0.0);
    for i := 0 to K
      invariant forall r, j :: 0 <= r < K + 4 && 0 <= j < K + 2 ==> A[r, j] == if r < i then Entry(K, ts, r, j) else 0.0
    {
      WriteBlock(A, i, i, 1.0 / 6.0, 1.0, 4.0, 1.0);
    }
    WriteBlock(A, K, 0, VelocityRate(ts), -1.0, 0.0, 1.0);
    WriteBlock(A, K + 1, K - 1, VelocityRate(ts), -1.0, 0.0, 1.0);
    WriteBlock(A, K + 2, 0, AccelerationRate(ts), 1.0, -2.0, 1.0);
    WriteBlock(A, K + 3, K - 1, AccelerationRate(ts), 1.0, -2.0, 1.0);
  }

  method WriteRightHandSide(pointSet: seq<V3>, startEnd: seq<V3>) returns (b: array<V3>)
    requires |startEnd| == 4
    ensures b[..] == pointSet + startEnd
  {
    var K := |pointSet|;
    b := new V3[K + 4](_ => ZERO);
    for i := 0 to K
      invariant b[..i] == pointSet[..i]
    {
      b[i] := pointSet[i];
    }
    for i := 0 to 4
      invariant b[..K + i] == pointSet + startEnd[..i]
    {
      b[K + i] := startEnd[i];
    }
  }

  /** Writes the system's matrix and right-hand side, or refuses as the original does. */
  method WriteSystem(ts: real, pointSet: seq<V3>, startEnd: seq<V3>) returns (ok: bool, A: array2?<real>, b: array?<V3>)
    requires |startEnd| == 4
    ensures ok <==> 0.0 < ts && 3 < |pointSet|
    ensures ok ==> var K := |pointSet|;
      && A != null && b != null && A.Length0 == K + 4 && A.Length1 == K + 2
      && (forall i, j :: 0 <= i < K + 4 && 0 <= j < K + 2 ==> A[i, j] == Entry(K, ts, i, j))
      && b[..] == pointSet + startEnd
  {
    if ts <= 0.0 || |pointSet| <= 3 {
      return false, null, null;
    }
    A := WriteMatrix(|pointSet|, ts);
    b := WriteRightHandSide(pointSet, startEnd);
    ok := true;
  }

  /** The product of row i with a column of control points, over its first n entries. */
  ghost function RowTimes(K: nat, ts: real, i: nat, x: seq<V3>, n: nat): V3
    requires ts != 0.0 && n <= |x|
  {
    if n == 0 then ZERO else RowTimes(K, ts, i, x, n - 1).Plus(x[n - 1].Scale(Entry(K, ts, i, n - 1)))
  }

  /** x solves the system exactly. */
  ghost predicate Solves(ts: real, pointSet: seq<V3>, startEnd: seq<V3>, x: seq<V3>)
    requires ts != 0.0 && |startEnd| == 4
  {
    var K := |pointSet|;
    && |x| == K + 2
    && forall i :: 0 <= i < K + 4 ==> RowTimes(K, ts, i, x, |x|) == (pointSet + startEnd)[i]
  }

  /** A row with three entries from column c on picks three control points. */
  lemma {:induction false} StencilRow(K: nat, ts: real, i: nat, x: seq<V3>, n: nat, c: nat, e0: real, e1: real,
                                      e2: real)
    requires ts != 0.0 && c + 3 <= |x| && n <= |x|
    requires forall j :: 0 <= j < |x| ==> Entry(K, ts, i, j) == Stencil(j - c, e0, e1, e2)
    ensures RowTimes(K, ts, i, x, n) ==
            if n <= c then ZERO
            else if n == c + 1 then x[c].Scale(e0)
            else if n == c + 2 then x[c].Scale(e0).Plus(x[c + 1].Scale(e1))
            else Weighted(e0, x[c], e1, x[c + 1], e2, x[c + 2])
  {
    hide Entry, V3.Scale, V3.Plus;
    if n != 0 {
      StencilRow(K, ts, i, x, n - 1, c, e0, e1, e2);
      assert Entry(K, ts, i, n - 1) == Stencil(n - 1 - c, e0, e1, e2);
      ScaleZero(x[n - 1]);
      PlusZero(x[n - 1].Scale(e0), RowTimes(K, ts, i, x, n - 1));
    }
  }

  lemma ScaleZero(v: V3)
    ensures v.Scale(0.0) == ZERO
  {
  }

  lemma PlusZero(v: V3, w: V3)
    ensures ZERO.Plus(v) == v && w.Plus(ZERO) == w
  {
  }

  /** An exact solution of the system gives a cubic spline that passes through every point at its
      knot time, and whose first and second derivative splines begin and end with the given values. */
  lemma ExactSolutionInterpolates(ts: real, pointSet: seq<V3>, startEnd: seq<V3>, x: seq<V3>, u: seq<real>)
    requires 0.0 < ts && 3 < |pointSet| && |startEnd| == 4 && Solves(ts, pointSet, startEnd, x)
    requires SplineOk(x, u, 3) && Uniform(u, 3, ts)
    ensures forall i :: 0 <= i < |pointSet| ==> Value(x, u, 3, i as real * ts) == pointSet[i]
    ensures DerivativesAt(x, u, 0.0, startEnd[0], startEnd[2])
    ensures DerivativesAt(x, u, (|pointSet| - 1) as real * ts, startEnd[1], startEnd[3])
  {
    hide Value, Weighted, Entry, Increasing, Stencil, DerivativesAt, VelocityRow, AccelerationRow;
    var K := |pointSet|;
    forall i | 0 <= i < K
      ensures Value(x, u, 3, i as real * ts) == pointSet[i]
    {
      assert u[3 + i] == i as real * ts;
      CubicAtKnot(x, u, ts, i);
      PointRow(K, ts, i, x);
    }
    assert 0 as real * ts == 0.0;
    DerivativeEnds(ts, K, x, u, 0, 0.0);
    DerivativeEnds(ts, K, x, u, K - 1, (|pointSet| - 1) as real * ts);
    EndRows(K, ts, x);
    var b := pointSet + startEnd;
    assert b[K] == startEnd[0] && b[K + 1] == startEnd[1] && b[K + 2] == startEnd[2] && b[K + 3] == startEnd[3];
    assert x[K - 1 + 1] == x[K] && x[K - 1 + 2] == x[K + 1];
  }

  /** The first and second derivative splines take these values at t. */
  ghost predicate DerivativesAt(x: seq<V3>, u: seq<real>, t: real, vel: V3, acc: V3)
    requires SplineOk(x, u, 3)
  {
    var q, v := DerivativePoints(x, u, 3), DerivativeKnots(u);
    && SplineOk(q, v, 2) && Value(q, v, 2, t) == vel
    && var q2, v2 := DerivativePoints(q, v, 2), DerivativeKnots(v);
       SplineOk(q2, v2, 1) && Value(q2, v2, 1, t) == acc
  }

  lemma PointRow(K: nat, ts: real, i: nat, x: seq<V3>)
    requires ts != 0.0 && i < K && |x| == K + 2
    ensures RowTimes(K, ts, i, x, |x|) == Weighted(1.0 / 6.0, x[i], 4.0 / 6.0, x[i + 1], 1.0 / 6.0, x[i + 2])
  {
    StencilRow(K, ts, i, x, |x|, i, 1.0 / 6.0 * 1.0, 1.0 / 6.0 * 4.0, 1.0 / 6.0 * 1.0);
    assert 1.0 / 6.0 * 4.0 == 4.0 / 6.0 && 1.0 / 6.0 * 1.0 == 1.0 / 6.0;
  }

  lemma EndRows(K: nat, ts: real, x: seq<V3>)
    requires ts != 0.0 && 3 < K && |x| == K + 2
    ensures RowTimes(K, ts, K, x, |x|) == VelocityRow(ts, x[0], x[1], x[2])
    ensures RowTimes(K, ts, K + 1, x, |x|) == VelocityRow(ts, x[K - 1], x[K], x[K + 1])
    ensures RowTimes(K, ts, K + 2, x, |x|) == AccelerationRow(ts, x[0], x[1], x[2])
    ensures RowTimes(K, ts, K + 3, x, |x|) == AccelerationRow(ts, x[K - 1], x[K], x[K + 1])
  {
    hide Stencil, Weighted, VelocityRate, AccelerationRate;
    var h, g := VelocityRate(ts), AccelerationRate(ts);
    StencilRow(K, ts, K, x, |x|, 0, h * -1.0, h * 0.0, h * 1.0);
    StencilRow(K, ts, K + 1, x, |x|, K - 1, h * -1.0, h * 0.0, h * 1.0);
    StencilRow(K, ts, K + 2, x, |x|, 0, g * 1.0, g * -2.0, g * 1.0);
    StencilRow(K, ts, K + 3, x, |x|, K - 1, g * 1.0, g * -2.0, g * 1.0);
  }

  function VelocityRow(ts: real, a: V3, b: V3, c: V3): V3
    requires ts != 0.0
  {
    Weighted(VelocityRate(ts) * -1.0, a, VelocityRate(ts) * 0.0, b, VelocityRate(ts) * 1.0, c)
  }

  function AccelerationRow(ts: real, a: V3, b: V3, c: V3): V3
    requires ts != 0.0
  {
    Weighted(AccelerationRate(ts) * 1.0, a, AccelerationRate(ts) * -2.0, b, AccelerationRate(ts) * 1.0, c)
  }

  /** The derivative splines at the knot j: the middle differences of the control points there. */
  lemma DerivativeEnds(ts: real, K: nat, x: seq<V3>, u: seq<real>, j: nat, t: real)
    requires t == j as real * ts && 0.0 < ts && 3 < K && |x| == K + 2 && j < K
    requires SplineOk(x, u, 3) && Uniform(u, 3, ts)
    ensures DerivativesAt(x, u, t, VelocityRow(ts, x[j], x[j + 1], x[j + 2]),
                          AccelerationRow(ts, x[j], x[j + 1], x[j + 2]))
  {
    hide Value, VelocityRow, AccelerationRow, DerivativePoints;
    DerivativeOk(x, u, 3);
    UniformDerivativeKnots(u, 3, ts);
    var q, v := DerivativePoints(x, u, 3), DerivativeKnots(u);
    DerivativeOk(q, v, 2);
    UniformDerivativeKnots(v, 2, ts);
    var q2, v2 := DerivativePoints(q, v, 2), DerivativeKnots(v);
    UniformVelocity(x, u, 3, ts, j);
    UniformVelocity(x, u, 3, ts, j + 1);
    UniformVelocity(q, v, 2, ts, j);
    assert v[2 + j] == (2 + j - 2) as real * ts == t;
    assert v2[1 + j] == (1 + j - 1) as real * ts == t;
    QuadraticAtKnot(q, v, ts, j);
    LinearAtKnot(q2, v2, ts, j);
    MiddleVelocity(ts, x[j], x[j + 1], x[j + 2]);
    MiddleAcceleration(ts, x[j], x[j + 1], x[j + 2]);
  }

  lemma MiddleVelocity(ts: real, a: V3, b: V3, c: V3)
    requires ts != 0.0
    ensures b.Minus(a).Over(ts).Plus(c.Minus(b).Over(ts)).Scale(1.0 / 2.0) == VelocityRow(ts, a, b, c)
  {
  }

  lemma MiddleAcceleration(ts: real, a: V3, b: V3, c: V3)
    requires ts != 0.0
    ensures c.Minus(b).Over(ts).Minus(b.Minus(a).Over(ts)).Over(ts) == AccelerationRow(ts, a, b, c)
  {
    hide AccelerationRate;
    var d := c.Minus(b).Over(ts).Minus(b.Minus(a).Over(ts));
    AxisAcceleration(ts, a.x, b.x, c.x, d.x);
    AxisAcceleration(ts, a.y, b.y, c.y, d.y);
    AxisAcceleration(ts, a.z, b.z, c.z, d.z);
    var g, w := AccelerationRate(ts), AccelerationRow(ts, a, b, c);
    assert w.x == g * 1.0 * a.x + g * -2.0 * b.x + g * 1.0 * c.x;
    assert d.Over(ts).x == w.x;
    assert d.Over(ts).y == w.y;
    assert d.Over(ts).z == w.z;
  }

  lemma AxisAcceleration(ts: real, a: real, b: real, c: real, d: real)
    requires ts != 0.0 && d == (c - b) / ts - (b - a) / ts
    ensures var g := AccelerationRate(ts); d / ts == g * 1.0 * a + g * -2.0 * b + g * 1.0 * c
  {
  }
}
