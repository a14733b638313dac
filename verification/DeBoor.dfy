/** The value of a B-spline by de Boor's recursion, and why it is a convex combination. */
module DeBoor {
  import opened Vectors

  ghost predicate Increasing(u: seq<real>) { forall i, j :: 0 <= i < j < |u| ==> u[i] < u[j] }

  /** Degree, control points and knots belong together, and the degree leaves at least one span. */
  ghost predicate SplineOk(ctrl: seq<V3>, u: seq<real>, p: nat) {
    p < |ctrl| && |u| == |ctrl| + p + 1 && Increasing(u)
  }

  function Clamp(t: real, lo: real, hi: real): real {
    var m := if lo < t then t else lo;
    if hi < m then hi else m
  }

  /** The parameter clamped to the spline's domain. */
  function ClampToDomain(u: seq<real>, p: nat, t: real): real
    requires 2 * p + 1 < |u|
  {
    Clamp(t, u[p], u[|u| - 1 - p])
  }

  /** A parameter of the domain is itself, any other the nearer end. */
  lemma NearestInDomain(ctrl: seq<V3>, u: seq<real>, p: nat, t: real)
    requires SplineOk(ctrl, u, p)
    ensures ClampToDomain(u, p, t) == if t < u[p] then u[p] else if u[|ctrl|] < t then u[|ctrl|] else t
  {
    assert u[p] < u[|ctrl|];
  }

  /** The first span at or after k whose upper knot reaches ub. */
  function SpanFrom(u: seq<real>, ub: real, k: nat, last: nat): (s: nat)
    requires k <= last && last + 1 < |u|
    ensures k <= s <= last
    ensures k < s ==> u[s] < ub
    ensures s < last ==> ub <= u[s + 1]
    decreases last - k
  {
    if k == last || u[k + 1] >= ub then k else SpanFrom(u, ub, k + 1, last)
  }

  /** k is the span that holds ub: its knots enclose it. */
  ghost predicate Encloses(ctrl: seq<V3>, u: seq<real>, p: nat, k: nat, ub: real) {
    SplineOk(ctrl, u, p) && p <= k < |ctrl| && u[k] <= ub <= u[k + 1]
  }

  lemma SpanEncloses(ctrl: seq<V3>, u: seq<real>, p: nat, t: real)
    requires SplineOk(ctrl, u, p)
    ensures var ub := ClampToDomain(u, p, t); Encloses(ctrl, u, p, SpanFrom(u, ub, p, |ctrl| - 1), ub)
  {
  }

  /** The blending factor of de Boor's round r at place i. */
  function Alpha(u: seq<real>, p: nat, k: nat, ub: real, r: nat, i: nat): real
    requires 1 <= r <= i <= p <= k && k + p < |u| && u[i + k - p] != u[i + 1 + k - r]
  {
    (ub - u[i + k - p]) / (u[i + 1 + k - r] - u[i + k - p])
  }

  function BlendReal(a: real, x: real, y: real): real { (1.0 - a) * x + a * y }

  function Blend(a: real, v: V3, w: V3): V3 {
    V3(BlendReal(a, v.x, w.x), BlendReal(a, v.y, w.y), BlendReal(a, v.z, w.z))
  }

  lemma KnotsDiffer(ctrl: seq<V3>, u: seq<real>, p: nat, k: nat, r: nat, i: nat)
    requires SplineOk(ctrl, u, p) && p <= k < |ctrl| && 1 <= r <= i <= p
    ensures u[i + k - p] < u[i + 1 + k - r]
  {
  }

  /** Place i of the triangle after round r. */
  ghost function Triangle(ctrl: seq<V3>, u: seq<real>, p: nat, k: nat, ub: real, r: nat, i: nat): V3
    requires SplineOk(ctrl, u, p) && p <= k < |ctrl| && r <= i <= p
    decreases r
  {
    if r == 0 then ctrl[k - p + i]
    else
      KnotsDiffer(ctrl, u, p, k, r, i);
      Blend(Alpha(u, p, k, ub, r, i), Triangle(ctrl, u, p, k, ub, r - 1, i - 1), Triangle(ctrl, u, p, k, ub, r - 1, i))
  }

  /** The value of the spline at t. */
  ghost function Value(ctrl: seq<V3>, u: seq<real>, p: nat, t: real): V3
    requires SplineOk(ctrl, u, p)
  {
    var ub := ClampToDomain(u, p, t);
    Triangle(ctrl, u, p, SpanFrom(u, ub, p, |ctrl| - 1), ub, p, p)
  }

  /** Inside the span every blending factor lies in [0, 1]. */
  lemma AlphaInUnit(ctrl: seq<V3>, u: seq<real>, p: nat, k: nat, ub: real, r: nat, i: nat)
    requires Encloses(ctrl, u, p, k, ub) && 1 <= r <= i <= p
    ensures u[i + k - p] != u[i + 1 + k - r] && 0.0 <= Alpha(u, p, k, ub, r, i) <= 1.0
  {
    var lo, hi := u[i + k - p], u[i + 1 + k - r];
    assert lo <= u[k] && u[k + 1] <= hi && lo < hi;
    QuotientInUnit(ub - lo, hi - lo);
  }

  lemma QuotientInUnit(a: real, b: real)
    requires 0.0 < b && 0.0 <= a <= b
    ensures 0.0 <= a / b <= 1.0
  {
  }

  lemma ProductSign(q: real, b: real)
    requires 0.0 < b
    ensures 0.0 < q ==> 0.0 < q * b
    ensures q < 0.0 ==> q * b < 0.0
  {
  }

  ghost function SumOf(w: seq<real>): real { if w == [] then 0.0 else w[0] + SumOf(w[1..]) }

  /** Non-negative weights that add up to one. */
  ghost predicate Convex(w: seq<real>) { (forall i :: 0 <= i < |w| ==> 0.0 <= w[i]) && SumOf(w) == 1.0 }

  ghost function Combine(w: seq<real>, pts: seq<V3>): V3
    requires |w| == |pts|
  {
    if w == [] then ZERO else pts[0].Scale(w[0]).Plus(Combine(w[1..], pts[1..]))
  }

  ghost function BlendWeights(a: real, v: seq<real>, w: seq<real>): seq<real>
    requires |v| == |w|
  {
    seq(|v|, i requires 0 <= i < |v| => BlendReal(a, v[i], w[i]))
  }

  lemma {:induction false} BlendCombines(a: real, v: seq<real>, w: seq<real>, pts: seq<V3>)
    requires |v| == |w| == |pts|
    ensures SumOf(BlendWeights(a, v, w)) == BlendReal(a, SumOf(v), SumOf(w))
    ensures Combine(BlendWeights(a, v, w), pts) == Blend(a, Combine(v, pts), Combine(w, pts))
  {
    hide Blend, BlendReal, V3.Scale, V3.Plus;
    if v == [] {
      assert BlendWeights(a, v, w) == [] && v == w == [] && pts == [];
      BlendNothing(a);
    } else {
      BlendTail(a, v, w);
      BlendCombines(a, v[1..], w[1..], pts[1..]);
      BlendPoint(a, v[0], w[0], pts[0], Combine(v[1..], pts[1..]), Combine(w[1..], pts[1..]));
      BlendSum(a, v[0], w[0], SumOf(v[1..]), SumOf(w[1..]));
    }
  }

  lemma BlendNothing(a: real)
    ensures BlendReal(a, SumOf([]), SumOf([])) == 0.0
    ensures Blend(a, ZERO, ZERO) == ZERO
  {
  }

  lemma BlendSum(a: real, v: real, w: real, restV: real, restW: real)
    ensures BlendReal(a, v, w) + BlendReal(a, restV, restW) == BlendReal(a, v + restV, w + restW)
  {
  }

  lemma BlendTail(a: real, v: seq<real>, w: seq<real>)
    requires |v| == |w| && v != []
    ensures BlendWeights(a, v, w)[0] == BlendReal(a, v[0], w[0])
    ensures BlendWeights(a, v, w)[1..] == BlendWeights(a, v[1..], w[1..])
  {
  }

  lemma BlendAxis(a: real, c: real, v: real, w: real, p: real, restV: real, restW: real, sumV: real, sumW: real)
    requires c == BlendReal(a, v, w) && sumV == v * p + restV && sumW == w * p + restW
    ensures c * p + BlendReal(a, restV, restW) == BlendReal(a, sumV, sumW)
  {
  }

  lemma BlendPoint(a: real, v: real, w: real, p: V3, restV: V3, restW: V3)
    ensures p.Scale(BlendReal(a, v, w)).Plus(Blend(a, restV, restW))
            == Blend(a, p.Scale(v).Plus(restV), p.Scale(w).Plus(restW))
  {
    hide BlendReal;
    var c, sumV, sumW := BlendReal(a, v, w), p.Scale(v).Plus(restV), p.Scale(w).Plus(restW);
    BlendAxis(a, c, v, w, p.x, restV.x, restW.x, sumV.x, sumW.x);
    BlendAxis(a, c, v, w, p.y, restV.y, restW.y, sumV.y, sumW.y);
    BlendAxis(a, c, v, w, p.z, restV.z, restW.z, sumV.z, sumW.z);
  }

  lemma BlendConvex(a: real, v: seq<real>, w: seq<real>)
    requires |v| == |w| && Convex(v) && Convex(w) && 0.0 <= a <= 1.0
    ensures Convex(BlendWeights(a, v, w))
  {
    hide SumOf, Combine, Blend;
    BlendCombines(a, v, w, seq(|v|, _ => ZERO));
    forall i | 0 <= i < |v|
      ensures 0.0 <= BlendReal(a, v[i], w[i])
    {
      BlendNonNegative(a, v[i], w[i]);
    }
  }

  lemma BlendNonNegative(a: real, v: real, w: real)
    requires 0.0 <= a <= 1.0 && 0.0 <= v && 0.0 <= w
    ensures 0.0 <= BlendReal(a, v, w)
  {
    var b := 1.0 - a;
    ProductNonNegative(b, v);
    ProductNonNegative(a, w);
    assert b * v == (1.0 - a) * v;
  }

  lemma ProductNonNegative(a: real, b: real)
    requires 0.0 <= a && 0.0 <= b
    ensures 0.0 <= a * b
  {
  }

  ghost function Unit(n: nat, i: nat): seq<real>
    requires i < n
  {
    seq(n, j => if j == i then 1.0 else 0.0)
  }

  lemma {:induction false} UnitPicks(n: nat, i: nat, pts: seq<V3>)
    requires i < n == |pts|
    ensures Convex(Unit(n, i)) && Combine(Unit(n, i), pts) == pts[i]
  {
    var w := Unit(n, i);
    if i == 0 {
      assert forall j :: 0 <= j < n - 1 ==> w[1..][j] == 0.0;
      ZeroWeights(w[1..], pts[1..]);
    } else {
      UnitPicks(n - 1, i - 1, pts[1..]);
      assert w[1..] == Unit(n - 1, i - 1);
    }
  }

  lemma {:induction false} ZeroWeights(w: seq<real>, pts: seq<V3>)
    requires |w| == |pts| && forall j :: 0 <= j < |w| ==> w[j] == 0.0
    ensures SumOf(w) == 0.0 && Combine(w, pts) == ZERO
  {
    if w != [] {
      ZeroWeights(w[1..], pts[1..]);
    }
  }

  /** Every place of the triangle is a convex combination of the p + 1 control points of the span. */
  lemma {:induction false} TriangleConvex(ctrl: seq<V3>, u: seq<real>, p: nat, k: nat, ub: real, r: nat, i: nat)
    returns (w: seq<real>)
    requires Encloses(ctrl, u, p, k, ub) && r <= i <= p
    ensures |w| == p + 1 && Convex(w)
    ensures Triangle(ctrl, u, p, k, ub, r, i) == Combine(w, ctrl[k - p..k + 1])
    decreases r
  {
    var pts := ctrl[k - p..k + 1];
    if r == 0 {
      w := Unit(p + 1, i);
      UnitPicks(p + 1, i, pts);
    } else {
      var v0 := TriangleConvex(ctrl, u, p, k, ub, r - 1, i - 1);
      var v1 := TriangleConvex(ctrl, u, p, k, ub, r - 1, i);
      AlphaInUnit(ctrl, u, p, k, ub, r, i);
      var a := Alpha(u, p, k, ub, r, i);
      w := BlendWeights(a, v0, v1);
      hide SumOf, Combine, Blend, Alpha;
      BlendCombines(a, v0, v1, pts);
      BlendConvex(a, v0, v1);
    }
  }

  /** The value of a spline is a convex combination of p + 1 successive control points. */
  lemma ValueConvex(ctrl: seq<V3>, u: seq<real>, p: nat, t: real) returns (k: nat, w: seq<real>)
    requires SplineOk(ctrl, u, p)
    ensures p <= k < |ctrl| && |w| == p + 1 && Convex(w)
    ensures Value(ctrl, u, p, t) == Combine(w, ctrl[k - p..k + 1])
  {
    var ub := ClampToDomain(u, p, t);
    k := SpanFrom(u, ub, p, |ctrl| - 1);
    SpanEncloses(ctrl, u, p, t);
    w := TriangleConvex(ctrl, u, p, k, ub, p, p);
  }

  lemma BlendBetween(a: real, x: real, y: real, limit: real)
    requires 0.0 <= a <= 1.0 && -limit <= x <= limit && -limit <= y <= limit
    ensures -limit <= BlendReal(a, x, y) <= limit
  {
    var b := 1.0 - a;
    ProductNonNegative(b, limit - x);
    ProductNonNegative(a, limit - y);
    ProductNonNegative(b, x + limit);
    ProductNonNegative(a, y + limit);
    assert b * (limit - x) + a * (limit - y) == limit - (b * x + a * y);
    assert b * (x + limit) + a * (y + limit) == limit + (b * x + a * y);
  }

  lemma BlendWithin(a: real, v: V3, w: V3, limit: real)
    requires 0.0 <= a <= 1.0 && v.Within(limit) && w.Within(limit)
    ensures Blend(a, v, w).Within(limit)
  {
    hide BlendReal;
    BlendBetween(a, v.x, w.x, limit);
    BlendBetween(a, v.y, w.y, limit);
    BlendBetween(a, v.z, w.z, limit);
  }

  lemma {:induction false} TriangleWithin(ctrl: seq<V3>, u: seq<real>, p: nat, k: nat, ub: real, r: nat, i: nat,
                                          limit: real)
    requires Encloses(ctrl, u, p, k, ub) && r <= i <= p
    requires forall j :: 0 <= j < |ctrl| ==> ctrl[j].Within(limit)
    ensures Triangle(ctrl, u, p, k, ub, r, i).Within(limit)
    decreases r
  {
    hide V3.Within, Blend, Alpha;
    if r != 0 {
      TriangleWithin(ctrl, u, p, k, ub, r - 1, i - 1, limit);
      TriangleWithin(ctrl, u, p, k, ub, r - 1, i, limit);
      AlphaInUnit(ctrl, u, p, k, ub, r, i);
      BlendWithin(Alpha(u, p, k, ub, r, i), Triangle(ctrl, u, p, k, ub, r - 1, i - 1),
                  Triangle(ctrl, u, p, k, ub, r - 1, i), limit);
    }
  }

  /** A spline stays within every limit its control points keep. */
  lemma ValueWithin(ctrl: seq<V3>, u: seq<real>, p: nat, t: real, limit: real)
    requires SplineOk(ctrl, u, p)
    requires forall i :: 0 <= i < |ctrl| ==> ctrl[i].Within(limit)
    ensures Value(ctrl, u, p, t).Within(limit)
  {
    var ub := ClampToDomain(u, p, t);
    SpanEncloses(ctrl, u, p, t);
    TriangleWithin(ctrl, u, p, SpanFrom(u, ub, p, |ctrl| - 1), ub, p, p, limit);
  }
}
