/** A spline moves no faster than the control points of its derivative allow. */
module SplineSpeed {
  import opened Basics
  import opened Vectors
  import opened DeBoor
  import opened Products
  import opened UniformBsplines

  /** The triangle with its own argument in every round: place i after the rounds of args. */
  ghost function Polar(ctrl: seq<V3>, u: seq<real>, p: nat, k: nat, args: seq<real>, i: nat): V3
    requires SplineOk(ctrl, u, p) && p <= k < |ctrl| && |args| <= i <= p
    decreases |args|
  {
    var r := |args|;
    if r == 0 then ctrl[k - p + i]
    else
      KnotsDiffer(ctrl, u, p, k, r, i);
      Blend(Alpha(u, p, k, args[r - 1], r, i), Polar(ctrl, u, p, k, args[..r - 1], i - 1),
            Polar(ctrl, u, p, k, args[..r - 1], i))
  }

  ghost function Same(n: nat, t: real): (s: seq<real>)
    ensures |s| == n && forall j :: 0 <= j < n ==> s[j] == t
  {
    seq(n, _ => t)
  }

  lemma {:induction false} TriangleIsPolar(ctrl: seq<V3>, u: seq<real>, p: nat, k: nat, t: real, r: nat, i: nat)
    requires SplineOk(ctrl, u, p) && p <= k < |ctrl| && r <= i <= p
    ensures Triangle(ctrl, u, p, k, t, r, i) == Polar(ctrl, u, p, k, Same(r, t), i)
    decreases r
  {
    hide Blend, Alpha, Increasing;
    if r != 0 {
      assert Same(r, t)[..r - 1] == Same(r - 1, t);
      KnotsDiffer(ctrl, u, p, k, r, i);
      TriangleIsPolar(ctrl, u, p, k, t, r - 1, i - 1);
      TriangleIsPolar(ctrl, u, p, k, t, r - 1, i);
    }
  }

  /** All arguments lie in the span. */
  ghost predicate InSpan(u: seq<real>, k: nat, args: seq<real>)
    requires k + 1 < |u|
  {
    forall j :: 0 <= j < |args| ==> u[k] <= args[j] <= u[k + 1]
  }

  lemma {:induction false} PolarWithin(ctrl: seq<V3>, u: seq<real>, p: nat, k: nat, args: seq<real>, i: nat,
                                       limit: real)
    requires SplineOk(ctrl, u, p) && p <= k < |ctrl| && |args| <= i <= p && InSpan(u, k, args)
    requires forall j :: 0 <= j < |ctrl| ==> ctrl[j].Within(limit)
    ensures Polar(ctrl, u, p, k, args, i).Within(limit)
    decreases |args|
  {
    hide V3.Within, Blend, Alpha, Increasing;
    var r := |args|;
    if r != 0 {
      PolarWithin(ctrl, u, p, k, args[..r - 1], i - 1, limit);
      PolarWithin(ctrl, u, p, k, args[..r - 1], i, limit);
      AlphaInUnit(ctrl, u, p, k, args[r - 1], r, i);
      BlendWithin(Alpha(u, p, k, args[r - 1], r, i), Polar(ctrl, u, p, k, args[..r - 1], i - 1),
                  Polar(ctrl, u, p, k, args[..r - 1], i), limit);
    }
  }

  /** The knots between which place i blends in round r. */
  function Gap(u: seq<real>, p: nat, k: nat, r: nat, i: nat): real
    requires r <= i <= p <= k && i + k < |u| + r && k + 1 < |u|
  {
    u[i + k - r] - u[i + k - p]
  }

  /** n times the difference of v and w is g times d. */
  ghost predicate Balance(n: real, v: V3, w: V3, g: real, d: V3) {
    Times(n, v.x - w.x) == Times(g, d.x) && Times(n, v.y - w.y) == Times(g, d.y) && Times(n, v.z - w.z) == Times(g, d.z)
  }

  /** Places i and i - 1 of the triangle differ by what the derivative's triangle has between them. */
  ghost predicate Differ(ctrl: seq<V3>, u: seq<real>, p: nat, k: nat, args: seq<real>, i: nat)
    requires SplineOk(ctrl, u, p) && 1 <= p <= k < |ctrl| && |args| < i <= p
    requires SplineOk(DerivativePoints(ctrl, u, p), DerivativeKnots(u), p - 1)
  {
    Balance(p as real, Polar(ctrl, u, p, k, args, i), Polar(ctrl, u, p, k, args, i - 1), Gap(u, p, k, |args|, i),
            Polar(DerivativePoints(ctrl, u, p), DerivativeKnots(u), p - 1, k - 1, args, i - 1))
  }

  lemma {:induction false} PolarDifference(ctrl: seq<V3>, u: seq<real>, p: nat, k: nat, args: seq<real>, i: nat)
    requires SplineOk(ctrl, u, p) && 1 <= p <= k < |ctrl| && |args| < i <= p
    ensures SplineOk(DerivativePoints(ctrl, u, p), DerivativeKnots(u), p - 1) && Differ(ctrl, u, p, k, args, i)
    decreases |args|
  {
    DerivativeOk(ctrl, u, p);
    var r := |args|;
    hide Differ, Increasing, DerivativePoints, DerivativeKnots;
    if r == 0 {
      BaseDifference(ctrl, u, p, k, i);
    } else {
      PolarDifference(ctrl, u, p, k, args[..r - 1], i);
      PolarDifference(ctrl, u, p, k, args[..r - 1], i - 1);
      NextDifference(ctrl, u, p, k, args, i);
    }
  }

  lemma BaseDifference(ctrl: seq<V3>, u: seq<real>, p: nat, k: nat, i: nat)
    requires SplineOk(ctrl, u, p) && 1 <= p <= k < |ctrl| && 0 < i <= p
    requires SplineOk(DerivativePoints(ctrl, u, p), DerivativeKnots(u), p - 1)
    ensures Differ(ctrl, u, p, k, [], i)
  {
    hide Times, V3.Over;
    var m := k - p + i - 1;
    var h := u[m + p + 1] - u[m + 1];
    assert 0.0 < h && Gap(u, p, k, 0, i) == h;
    var d := ctrl[m + 1].Minus(ctrl[m]);
    assert DerivativePoints(ctrl, u, p)[m] == d.Scale(p as real).Over(h);
    OverBack(p as real, d, h);
  }

  lemma OverBack(n: real, d: V3, h: real)
    requires h != 0.0
    ensures var w := d.Scale(n).Over(h);
      Times(h, w.x) == Times(n, d.x) && Times(h, w.y) == Times(n, d.y) && Times(h, w.z) == Times(n, d.z)
  {
  }

  /** What the step of the difference needs of one axis: the differences one round before, the blending
      factors times the gaps h1, h2, g they divide by, and the places after the round. */
  lemma AxisDifference(n: real, h1: real, h2: real, g: real, e1: real, e2: real, al1: real, al2: real, be: real,
                       x0: real, x1: real, x2: real, d0: real, d1: real)
    requires Times(n, x1 - x0) == Times(h1, d0) && Times(n, x2 - x1) == Times(h2, d1) && h1 - e1 == g - e2
    requires Times(al1, h1) == e1 && Times(al2, h2) == e2 && Times(be, g) == e2
    ensures Times(n, BlendReal(al2, x1, x2) - BlendReal(al1, x0, x1)) == Times(g, BlendReal(be, d0, d1))
  {
    hide Times, BlendReal;
    var s, t, d := x1 - x0, x2 - x1, d1 - d0;
    BlendIsStep(al2, x1, x2, t);
    BlendIsStep(al1, x0, x1, s);
    BlendIsStep(be, d0, d1, d);
    Reorder(n, al2, t, h2, d1, e2);
    Reorder(n, al1, s, h1, d0, e1);
    Reorder(g, be, d, g, d, e2);
    CoefficientsMeet(h1, g, e1, e2, d0, d1);
    TimesOfThree(n, s, Times(al2, t), -Times(al1, s), BlendReal(al2, x1, x2) - BlendReal(al1, x0, x1));
    TimesOpposite(n, Times(al1, s));
    TimesOfSum(g, d0, Times(be, d), BlendReal(be, d0, d1));
  }

  lemma BlendIsStep(a: real, x: real, y: real, t: real)
    requires t == y - x
    ensures BlendReal(a, x, y) == x + Times(a, t)
  {
  }

  /** n times (al times t), where n times t is h times d and al times h is e. */
  lemma Reorder(n: real, al: real, t: real, h: real, d: real, e: real)
    requires Times(n, t) == Times(h, d) && Times(al, h) == e
    ensures Times(n, Times(al, t)) == Times(e, d)
  {
    TimesSwaps(n, al, t);
    assert al * (h * d) == (al * h) * d;
  }

  lemma CoefficientsMeet(h1: real, g: real, e1: real, e2: real, d0: real, d1: real)
    requires h1 - e1 == g - e2
    ensures Times(h1, d0) + Times(e2, d1) - Times(e1, d0) == Times(g, d0) + Times(e2, d1 - d0)
  {
    assert (h1 - e1) * d0 == (g - e2) * d0;
  }

  lemma BlendDifference(n: real, h1: real, h2: real, g: real, e1: real, e2: real, al1: real, al2: real, be: real,
                        x0: V3, x1: V3, x2: V3, d0: V3, d1: V3)
    requires Balance(n, x1, x0, h1, d0) && Balance(n, x2, x1, h2, d1) && h1 - e1 == g - e2
    requires Times(al1, h1) == e1 && Times(al2, h2) == e2 && Times(be, g) == e2
    ensures Balance(n, Blend(al2, x1, x2), Blend(al1, x0, x1), g, Blend(be, d0, d1))
  {
    hide BlendReal, Times;
    AxisDifference(n, h1, h2, g, e1, e2, al1, al2, be, x0.x, x1.x, x2.x, d0.x, d1.x);
    AxisDifference(n, h1, h2, g, e1, e2, al1, al2, be, x0.y, x1.y, x2.y, d0.y, d1.y);
    AxisDifference(n, h1, h2, g, e1, e2, al1, al2, be, x0.z, x1.z, x2.z, d0.z, d1.z);
  }

  lemma NextDifference(ctrl: seq<V3>, u: seq<real>, p: nat, k: nat, args: seq<real>, i: nat)
    requires SplineOk(ctrl, u, p) && 1 <= p <= k < |ctrl| && 0 < |args| < i <= p
    requires SplineOk(DerivativePoints(ctrl, u, p), DerivativeKnots(u), p - 1)
    requires Differ(ctrl, u, p, k, args[..|args| - 1], i) && Differ(ctrl, u, p, k, args[..|args| - 1], i - 1)
    ensures Differ(ctrl, u, p, k, args, i)
  {
    hide Balance, DerivativePoints, Alpha, Times, Gap, Increasing;
    var q, v, r := DerivativePoints(ctrl, u, p), DerivativeKnots(u), |args|;
    var a := args[r - 1];
    KnotsDiffer(ctrl, u, p, k, r, i);
    KnotsDiffer(ctrl, u, p, k, r, i - 1);
    KnotsDiffer(q, v, p - 1, k - 1, r, i - 1);
    AlphaTimes(u, p, k, a, r, i);
    AlphaTimes(u, p, k, a, r, i - 1);
    AlphaTimes(v, p - 1, k - 1, a, r, i - 1);
    GapsMeet(u, p, k, r, i);
    var x, y := Places(ctrl, u, p, k, args, i), Places(q, v, p - 1, k - 1, args, i - 1);
    PlacesBlend(ctrl, u, p, k, args, i);
    PlacesBlend(ctrl, u, p, k, args, i - 1);
    PlacesBlend(q, v, p - 1, k - 1, args, i - 1);
    hide DerivativeKnots, Polar, Blend, SplineOk;
    BlendDifference(p as real, Gap(u, p, k, r - 1, i - 1), Gap(u, p, k, r - 1, i), Gap(u, p, k, r, i),
                    a - u[i - 1 + k - p], a - u[i + k - p],
                    Alpha(u, p, k, a, r, i - 1), Alpha(u, p, k, a, r, i), Alpha(v, p - 1, k - 1, a, r, i - 1),
                    Places(ctrl, u, p, k, args, i - 1).0, x.0, x.1, y.0, y.1);
  }

  /** The two places that place i blends in the last round. */
  ghost function Places(ctrl: seq<V3>, u: seq<real>, p: nat, k: nat, args: seq<real>, i: nat): (V3, V3)
    requires SplineOk(ctrl, u, p) && p <= k < |ctrl| && 0 < |args| <= i <= p
  {
    (Polar(ctrl, u, p, k, args[..|args| - 1], i - 1), Polar(ctrl, u, p, k, args[..|args| - 1], i))
  }

  lemma PlacesBlend(ctrl: seq<V3>, u: seq<real>, p: nat, k: nat, args: seq<real>, i: nat)
    requires SplineOk(ctrl, u, p) && p <= k < |ctrl| && 0 < |args| <= i <= p
    ensures u[i + k - p] != u[i + 1 + k - |args|]
    ensures var w := Places(ctrl, u, p, k, args, i);
      Polar(ctrl, u, p, k, args, i) == Blend(Alpha(u, p, k, args[|args| - 1], |args|, i), w.0, w.1)
  {
    KnotsDiffer(ctrl, u, p, k, |args|, i);
    hide Increasing, Blend, Alpha;
  }

  lemma AlphaTimes(u: seq<real>, p: nat, k: nat, a: real, r: nat, i: nat)
    requires 1 <= r <= i <= p <= k && k + p < |u| && u[i + k - p] != u[i + 1 + k - r]
    ensures Times(Alpha(u, p, k, a, r, i), Gap(u, p, k, r - 1, i)) == a - u[i + k - p]
  {
  }

  lemma GapsMeet(u: seq<real>, p: nat, k: nat, r: nat, i: nat)
    requires 1 <= r < i <= p <= k && k + p < |u|
    ensures Gap(DerivativeKnots(u), p - 1, k - 1, r - 1, i - 1) == Gap(u, p, k, r, i)
    ensures DerivativeKnots(u)[i - 1 + k - p] == u[i + k - p]
    ensures Gap(u, p, k, r - 1, i - 1) + u[i - 1 + k - p] == Gap(u, p, k, r, i) + u[i + k - p]
  {
  }

  /** Every control point of the derivative keeps the limit. */
  ghost predicate Slow(ctrl: seq<V3>, u: seq<real>, p: nat, limit: real)
    requires SplineOk(ctrl, u, p) && 1 <= p
  {
    AllKeep(DerivativePoints(ctrl, u, p), limit)
  }

  lemma AxisMove(n: real, h: real, lo: real, a: real, b: real, ala: real, alb: real, x: real, y: real, d: real,
                 limit: real, step: real)
    requires 0.0 < n && Times(n, y - x) == Times(h, d) && Times(ala, h) == a - lo && Times(alb, h) == b - lo
    requires -limit <= d <= limit && Times(n, step) == Times(AbsReal(a - b), limit)
    ensures -step <= BlendReal(ala, x, y) - BlendReal(alb, x, y) <= step
  {
    hide Times, BlendReal;
    var t := y - x;
    BlendIsStep(ala, x, y, t);
    BlendIsStep(alb, x, y, t);
    Reorder(n, ala, t, h, d, a - lo);
    Reorder(n, alb, t, h, d, b - lo);
    var m := Times(ala, t) - Times(alb, t);
    TimesOfSum(n, m, Times(alb, t), Times(ala, t));
    TimesOfDifference(a - lo, b - lo, d);
    Scaled(n, a - b, d, limit, m, step);
  }

  lemma TimesOfDifference(a: real, b: real, d: real)
    ensures Times(a, d) - Times(b, d) == Times(a - b, d)
  {
  }

  lemma Scaled(n: real, c: real, d: real, limit: real, m: real, step: real)
    requires 0.0 < n && Times(n, m) == Times(c, d) && -limit <= d <= limit && Times(n, step) == Times(AbsReal(c), limit)
    ensures -step <= m <= step
  {
    var e := if c < 0.0 then -d else d;
    assert Times(c, d) == Times(AbsReal(c), e);
    TimesSign(AbsReal(c), limit - e);
    TimesSign(AbsReal(c), limit + e);
    TimesOfSum(AbsReal(c), e, limit - e, limit);
    TimesOfSum(AbsReal(c), -e, limit + e, limit);
    TimesOpposite(AbsReal(c), e);
    hide Times;
    assert Times(n, m) <= Times(n, step) && -Times(n, m) <= Times(n, step);
    TimesOpposite(n, m);
    TimesReflects(n, m, step);
    TimesReflects(n, -m, step);
  }

  lemma TimesReflects(n: real, x: real, y: real)
    requires 0.0 < n && Times(n, x) <= Times(n, y)
    ensures x <= y
  {
    if y < x {
      TimesSign(n, x - y);
      TimesOfSum(n, y, x - y, x);
    }
  }

  lemma VectorMove(n: real, h: real, lo: real, a: real, b: real, ala: real, alb: real, x: V3, y: V3, d: V3,
                   limit: real, step: real)
    requires 0.0 < n && Balance(n, y, x, h, d) && Times(ala, h) == a - lo && Times(alb, h) == b - lo
    requires d.Within(limit) && Times(n, step) == Times(AbsReal(a - b), limit)
    ensures Blend(ala, x, y).Minus(Blend(alb, x, y)).Within(step)
  {
    hide BlendReal, Times;
    AxisMove(n, h, lo, a, b, ala, alb, x.x, y.x, d.x, limit, step);
    AxisMove(n, h, lo, a, b, ala, alb, x.y, y.y, d.y, limit, step);
    AxisMove(n, h, lo, a, b, ala, alb, x.z, y.z, d.z, limit, step);
  }

  /** Changing the last argument from b to a moves the place by no more than a p-th of the way the limit allows. */
  lemma LastArgument(ctrl: seq<V3>, u: seq<real>, p: nat, k: nat, pre: seq<real>, a: real, b: real, i: nat,
                     limit: real, step: real)
    requires SplineOk(ctrl, u, p) && 1 <= p <= k < |ctrl| && |pre| < i <= p && InSpan(u, k, pre)
             && Slow(ctrl, u, p, limit)
    requires Times(p as real, step) == Times(AbsReal(a - b), limit)
    ensures Polar(ctrl, u, p, k, pre + [a], i).Minus(Polar(ctrl, u, p, k, pre + [b], i)).Within(step)
  {
    hide Alpha, Blend, Times, Gap, Increasing, V3.Within, V3.Minus, Balance, DerivativePoints;
    var q, v, r := DerivativePoints(ctrl, u, p), DerivativeKnots(u), |pre| + 1;
    assert (pre + [a])[..r - 1] == pre == (pre + [b])[..r - 1];
    PolarDifference(ctrl, u, p, k, pre, i);
    KnotsDiffer(ctrl, u, p, k, r, i);
    AlphaTimes(u, p, k, a, r, i);
    AlphaTimes(u, p, k, b, r, i);
    InDerivativeSpan(u, p, k, pre);
    PolarWithin(q, v, p - 1, k - 1, pre, i - 1, limit);
    VectorMove(p as real, Gap(u, p, k, r - 1, i), u[i + k - p], a, b, Alpha(u, p, k, a, r, i), Alpha(u, p, k, b, r, i),
               Polar(ctrl, u, p, k, pre, i - 1), Polar(ctrl, u, p, k, pre, i), Polar(q, v, p - 1, k - 1, pre, i - 1),
               limit, step);
  }

  lemma InDerivativeSpan(u: seq<real>, p: nat, k: nat, args: seq<real>)
    requires 1 <= p <= k && k + 2 < |u| && InSpan(u, k, args)
    ensures InSpan(DerivativeKnots(u), k - 1, args)
  {
  }

  /** Changing any one argument does so too: later rounds only blend. */
  lemma {:induction false} OneArgument(ctrl: seq<V3>, u: seq<real>, p: nat, k: nat, args: seq<real>, j: nat, b: real,
                                       i: nat, limit: real, step: real)
    requires SplineOk(ctrl, u, p) && 1 <= p <= k < |ctrl| && j < |args| <= i <= p && InSpan(u, k, args)
    requires Slow(ctrl, u, p, limit) && Times(p as real, step) == Times(AbsReal(args[j] - b), limit)
    ensures Polar(ctrl, u, p, k, args, i).Minus(Polar(ctrl, u, p, k, args[j := b], i)).Within(step)
    decreases |args|
  {
    hide Alpha, Blend, Times, Gap, Increasing, V3.Within, V3.Minus, Slow;
    var r := |args|;
    var pre := args[..r - 1];
    if j == r - 1 {
      assert args == pre + [args[j]] && args[j := b] == pre + [b];
      LastArgument(ctrl, u, p, k, pre, args[j], b, i, limit, step);
    } else {
      assert args[j := b][..r - 1] == pre[j := b];
      OneArgument(ctrl, u, p, k, pre, j, b, i - 1, limit, step);
      OneArgument(ctrl, u, p, k, pre, j, b, i, limit, step);
      AlphaInUnit(ctrl, u, p, k, args[r - 1], r, i);
      var al := Alpha(u, p, k, args[r - 1], r, i);
      var x0, x1 := Polar(ctrl, u, p, k, pre, i - 1), Polar(ctrl, u, p, k, pre, i);
      var y0, y1 := Polar(ctrl, u, p, k, pre[j := b], i - 1), Polar(ctrl, u, p, k, pre[j := b], i);
      BlendMinus(al, x0, x1, y0, y1);
      BlendWithin(al, x0.Minus(y0), x1.Minus(y1), step);
    }
  }

  lemma BlendMinus(a: real, x0: V3, x1: V3, y0: V3, y1: V3)
    ensures Blend(a, x0, x1).Minus(Blend(a, y0, y1)) == Blend(a, x0.Minus(y0), x1.Minus(y1))
  {
  }

  /** The first j arguments at t, the others at s. */
  ghost function Mixed(n: nat, j: nat, s: real, t: real): (r: seq<real>)
    ensures |r| == n && forall m :: 0 <= m < n ==> r[m] == if m < j then t else s
  {
    seq(n, m => if m < j then t else s)
  }

  lemma {:induction false} MovedArguments(ctrl: seq<V3>, u: seq<real>, p: nat, k: nat, j: nat, s: real, t: real,
                                          limit: real, step: real)
    requires SplineOk(ctrl, u, p) && 1 <= p <= k < |ctrl| && j <= p && Slow(ctrl, u, p, limit)
    requires u[k] <= s <= u[k + 1] && u[k] <= t <= u[k + 1] && Times(p as real, step) == Times(AbsReal(t - s), limit)
    ensures Polar(ctrl, u, p, k, Mixed(p, j, s, t), p).Minus(Polar(ctrl, u, p, k, Mixed(p, 0, s, t), p))
              .Within(Times(j as real, step))
  {
    hide Polar, Times, Increasing, Slow, Mixed;
    if j == 0 {
      TimesZero(step);
    } else {
      MovedArguments(ctrl, u, p, k, j - 1, s, t, limit, step);
      var args := Mixed(p, j, s, t);
      assert args[j - 1 := s] == Mixed(p, j - 1, s, t);
      OneArgument(ctrl, u, p, k, args, j - 1, s, p, limit, step);
      var x, y, z := Polar(ctrl, u, p, k, args, p), Polar(ctrl, u, p, k, Mixed(p, j - 1, s, t), p),
                     Polar(ctrl, u, p, k, Mixed(p, 0, s, t), p);
      TimesNext(j - 1, step);
      WithinAdds(x, y, z, step, Times((j - 1) as real, step), Times(j as real, step));
    }
  }

  lemma WithinAdds(x: V3, y: V3, z: V3, a: real, b: real, c: real)
    requires x.Minus(y).Within(a) && y.Minus(z).Within(b) && c == a + b
    ensures x.Minus(z).Within(c)
  {
  }

  /** The polynomial of span k at t. */
  ghost function Piece(ctrl: seq<V3>, u: seq<real>, p: nat, k: nat, t: real): V3
    requires SplineOk(ctrl, u, p) && p <= k < |ctrl|
  {
    Triangle(ctrl, u, p, k, t, p, p)
  }

  lemma PieceSlow(ctrl: seq<V3>, u: seq<real>, p: nat, k: nat, s: real, t: real, limit: real)
    requires SplineOk(ctrl, u, p) && 1 <= p <= k < |ctrl| && Slow(ctrl, u, p, limit)
    requires u[k] <= s <= t <= u[k + 1]
    ensures Piece(ctrl, u, p, k, t).Minus(Piece(ctrl, u, p, k, s)).Within(Times(t - s, limit))
  {
    hide Triangle, Polar, Increasing, Slow;
    var n := p as real;
    var step := Times(t - s, limit) / n;
    assert Times(n, step) == Times(t - s, limit);
    MovedArguments(ctrl, u, p, k, p, s, t, limit, step);
    TriangleIsPolar(ctrl, u, p, k, t, p, p);
    TriangleIsPolar(ctrl, u, p, k, s, p, p);
    assert Mixed(p, p, s, t) == Same(p, t) && Mixed(p, 0, s, t) == Same(p, s);
    hide Times;
  }

  /** The triangles of neighbouring spans share their inner places. */
  lemma {:induction false} SharedPlaces(ctrl: seq<V3>, u: seq<real>, p: nat, k: nat, t: real, r: nat, i: nat)
    requires SplineOk(ctrl, u, p) && p <= k && k + 1 < |ctrl| && r <= i < p
    ensures Triangle(ctrl, u, p, k, t, r, i + 1) == Triangle(ctrl, u, p, k + 1, t, r, i)
    decreases r
  {
    hide Blend, Increasing;
    if r != 0 {
      KnotsDiffer(ctrl, u, p, k, r, i + 1);
      KnotsDiffer(ctrl, u, p, k + 1, r, i);
      SharedPlaces(ctrl, u, p, k, t, r - 1, i - 1);
      SharedPlaces(ctrl, u, p, k, t, r - 1, i);
    }
  }

  /** Neighbouring pieces meet at their common knot. */
  lemma PiecesJoin(ctrl: seq<V3>, u: seq<real>, p: nat, k: nat)
    requires SplineOk(ctrl, u, p) && 1 <= p <= k && k + 1 < |ctrl|
    ensures Piece(ctrl, u, p, k, u[k + 1]) == Piece(ctrl, u, p, k + 1, u[k + 1])
  {
    var t := u[k + 1];
    KnotsDiffer(ctrl, u, p, k, p, p);
    KnotsDiffer(ctrl, u, p, k + 1, p, p);
    SharedPlaces(ctrl, u, p, k, t, p - 1, p - 1);
    EndAlphas(u, p, k);
    hide Increasing, Alpha;
    BlendEnds(Triangle(ctrl, u, p, k, t, p - 1, p - 1), Triangle(ctrl, u, p, k, t, p - 1, p));
    BlendEnds(Triangle(ctrl, u, p, k + 1, t, p - 1, p - 1), Triangle(ctrl, u, p, k + 1, t, p - 1, p));
    hide Blend;
  }

  lemma EndAlphas(u: seq<real>, p: nat, k: nat)
    requires 1 <= p <= k && k + p + 1 < |u| && u[k] != u[k + 1] && u[k + 1] != u[k + 2]
    ensures Alpha(u, p, k, u[k + 1], p, p) == 1.0 && Alpha(u, p, k + 1, u[k + 1], p, p) == 0.0
  {
    var a, b, c := u[k], u[k + 1], u[k + 2];
    assert Alpha(u, p, k, b, p, p) == (b - a) / (b - a) by {
      assert u[p + k - p] == a && u[p + 1 + k - p] == b;
    }
    assert Alpha(u, p, k + 1, b, p, p) == (b - b) / (c - b) by {
      assert u[p + (k + 1) - p] == b && u[p + 1 + (k + 1) - p] == c;
    }
    hide Alpha;
    OneAndNone(b - a);
    OneAndNone(c - b);
  }

  lemma OneAndNone(h: real)
    requires h != 0.0
    ensures h / h == 1.0 && 0.0 / h == 0.0
  {
  }

  lemma BlendEnds(x: V3, y: V3)
    ensures Blend(1.0, x, y) == y && Blend(0.0, x, y) == x
  {
  }

  /** From a point of span k to a later one of span m. */
  lemma {:induction false} PiecesSlow(ctrl: seq<V3>, u: seq<real>, p: nat, k: nat, m: nat, s: real, t: real,
                                      limit: real)
    requires SplineOk(ctrl, u, p) && 1 <= p <= k <= m < |ctrl| && Slow(ctrl, u, p, limit)
    requires u[k] <= s <= u[k + 1] && u[m] <= t <= u[m + 1] && s <= t
    ensures Piece(ctrl, u, p, m, t).Minus(Piece(ctrl, u, p, k, s)).Within(Times(t - s, limit))
    decreases m - k
  {
    hide Piece, Times, Slow;
    if k == m {
      PieceSlow(ctrl, u, p, k, s, t, limit);
    } else {
      var w := u[k + 1];
      assert w <= u[m];
      PiecesJoin(ctrl, u, p, k);
      PieceSlow(ctrl, u, p, k, s, w, limit);
      PiecesSlow(ctrl, u, p, k + 1, m, w, t, limit);
      LimitAdds(t - w, w - s, t - s, limit);
      WithinAdds(Piece(ctrl, u, p, m, t), Piece(ctrl, u, p, k + 1, w), Piece(ctrl, u, p, k, s),
                 Times(t - w, limit), Times(w - s, limit), Times(t - s, limit));
    }
  }

  lemma LimitAdds(a: real, b: real, c: real, limit: real)
    requires c == a + b
    ensures Times(c, limit) == Times(a, limit) + Times(b, limit)
  {
  }

  lemma {:induction false} SpansRise(u: seq<real>, s: real, t: real, k: nat, last: nat)
    requires k <= last && last + 1 < |u| && s <= t
    ensures SpanFrom(u, s, k, last) <= SpanFrom(u, t, k, last)
    decreases last - k
  {
    if k < last && u[k + 1] < s {
      SpansRise(u, s, t, k + 1, last);
    }
  }

  lemma ValueIsPiece(ctrl: seq<V3>, u: seq<real>, p: nat, t: real) returns (k: nat)
    requires SplineOk(ctrl, u, p)
    ensures var ub := ClampToDomain(u, p, t);
      k == SpanFrom(u, ub, p, |ctrl| - 1) && Encloses(ctrl, u, p, k, ub)
        && Value(ctrl, u, p, t) == Piece(ctrl, u, p, k, ub)
  {
    SpanEncloses(ctrl, u, p, t);
    k := SpanFrom(u, ClampToDomain(u, p, t), p, |ctrl| - 1);
  }

  /** Main result: between any two times the spline moves on each axis by at most the limit that the control
      points of its derivative keep, times the time between. */
  lemma SplineSlow(ctrl: seq<V3>, u: seq<real>, p: nat, s: real, t: real, limit: real)
    requires SplineOk(ctrl, u, p) && 1 <= p && s <= t && Slow(ctrl, u, p, limit)
    ensures Value(ctrl, u, p, t).Minus(Value(ctrl, u, p, s)).Within(Times(t - s, limit))
  {
    hide Slow, Increasing, Value, Piece, SpanFrom, Times, V3.Within, V3.Minus;
    var a, b := ClampToDomain(u, p, s), ClampToDomain(u, p, t);
    var k := ValueIsPiece(ctrl, u, p, s);
    var m := ValueIsPiece(ctrl, u, p, t);
    ClampShrinks(ctrl, u, p, s, t);
    hide ClampToDomain;
    SpansRise(u, a, b, p, |ctrl| - 1);
    PiecesSlow(ctrl, u, p, k, m, a, b, limit);
    LimitSign(ctrl, u, p, limit);
    LimitGrows(b - a, t - s, limit);
    WithinMonotone(Value(ctrl, u, p, t).Minus(Value(ctrl, u, p, s)), Times(b - a, limit), Times(t - s, limit));
  }

  lemma LimitGrows(a: real, b: real, limit: real)
    requires a <= b && 0.0 <= limit
    ensures Times(a, limit) <= Times(b, limit)
  {
    TimesSign(b - a, limit);
    LimitAdds(b - a, a, b, limit);
  }

  lemma LimitSign(ctrl: seq<V3>, u: seq<real>, p: nat, limit: real)
    requires SplineOk(ctrl, u, p) && 1 <= p && Slow(ctrl, u, p, limit)
    ensures 0.0 <= limit
  {
    assert DerivativePoints(ctrl, u, p)[0].Within(limit);
  }

  lemma ClampShrinks(ctrl: seq<V3>, u: seq<real>, p: nat, s: real, t: real)
    requires SplineOk(ctrl, u, p) && s <= t
    ensures 0.0 <= ClampToDomain(u, p, t) - ClampToDomain(u, p, s) <= t - s
  {
    assert u[p] < u[|u| - 1 - p];
  }

  /** A spline that the feasibility check accepts moves within the enlarged velocity limit, and its velocity
      spline changes within the enlarged acceleration limit. */
  lemma FeasibleMovesSlowly(ctrl: seq<V3>, u: seq<real>, p: nat, velLimit: real, accLimit: real, s: real, t: real)
    requires SplineOk(ctrl, u, p) && 2 <= p && Feasible(ctrl, u, p, velLimit, accLimit) && s <= t
    ensures Value(ctrl, u, p, t).Minus(Value(ctrl, u, p, s)).Within(Times(t - s, velLimit))
    ensures var q, v := DerivativePoints(ctrl, u, p), DerivativeKnots(u);
      && SplineOk(q, v, p - 1)
      && Value(q, v, p - 1, t).Minus(Value(q, v, p - 1, s)).Within(Times(t - s, accLimit))
  {
    hide V3.Within, V3.Minus, Value, VelocityAt, AccelerationAt, Times;
    var q, v := DerivativePoints(ctrl, u, p), DerivativeKnots(u);
    DerivativeOk(ctrl, u, p);
    SplineSlow(ctrl, u, p, s, t, velLimit);
    DerivativeOk(q, v, p - 1);
    var q2 := DerivativePoints(q, v, p - 1);
    forall i | 0 <= i < |q2|
      ensures q2[i].Within(accLimit)
    {
      SecondDerivativePoint(ctrl, u, p, i);
      assert q2[i] == AccelerationPoints(ctrl, u, p)[i];
    }
    SplineSlow(q, v, p - 1, s, t, accLimit);
  }
}
