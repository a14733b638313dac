/** The smoothness, feasibility and distance costs of the B-spline optimizer, and their gradients. */
module BsplineCosts {
  import opened Vectors

  /** One column of control points moved by another. */
  ghost function Sum(q: seq<V3>, d: seq<V3>): (r: seq<V3>)
    requires |q| == |d|
    ensures |r| == |q| && forall i :: 0 <= i < |q| ==> r[i] == q[i].Plus(d[i])
  {
    seq(|q|, i requires 0 <= i < |q| => q[i].Plus(d[i]))
  }

  ghost function InnerTo(g: seq<V3>, d: seq<V3>, n: nat): real
    requires |g| == |d| && n <= |g|
  {
    if n == 0 then 0.0 else InnerTo(g, d, n - 1) + g[n - 1].Dot(d[n - 1])
  }

  /** The inner product of a gradient with a move of the control points. */
  ghost function Inner(g: seq<V3>, d: seq<V3>): real
    requires |g| == |d|
  {
    InnerTo(g, d, |g|)
  }

  /** The difference with the given coefficients, taken from column i on, over its first m terms. */
  ghost function Apply(coef: seq<real>, q: seq<V3>, i: nat, m: nat): V3
    requires m <= |coef| && i + m <= |q|
  {
    if m == 0 then ZERO else Apply(coef, q, i, m - 1).Plus(q[i + m - 1].Scale(coef[m - 1]))
  }

  ghost function Difference(coef: seq<real>, q: seq<V3>, i: nat): V3
    requires i + |coef| <= |q|
  {
    Apply(coef, q, i, |coef|)
  }

  lemma {:induction false} ApplySum(coef: seq<real>, q: seq<V3>, d: seq<V3>, i: nat, m: nat)
    requires |q| == |d| && m <= |coef| && i + m <= |q|
    ensures Apply(coef, Sum(q, d), i, m) == Apply(coef, q, i, m).Plus(Apply(coef, d, i, m))
  {
    if m != 0 {
      ApplySum(coef, q, d, i, m - 1);
      ScaleSum(q[i + m - 1], d[i + m - 1], coef[m - 1]);
    }
  }

  lemma ScaleSum(v: V3, w: V3, c: real)
    ensures v.Plus(w).Scale(c) == v.Scale(c).Plus(w.Scale(c))
  {
  }

  lemma DifferenceSum(coef: seq<real>, q: seq<V3>, d: seq<V3>, i: nat)
    requires |q| == |d| && i + |coef| <= |q|
    ensures Difference(coef, Sum(q, d), i) == Difference(coef, q, i).Plus(Difference(coef, d, i))
  {
    ApplySum(coef, q, d, i, |coef|);
  }

  /** What one difference adds to the gradient: w times its coefficient in each column it takes part in. */
  ghost function Scatter(coef: seq<real>, g: seq<V3>, i: nat, w: V3): (r: seq<V3>)
    requires i + |coef| <= |g|
    ensures |r| == |g|
  {
    seq(|g|, j requires 0 <= j < |g| => if i <= j < i + |coef| then g[j].Plus(w.Scale(coef[j - i])) else g[j])
  }

  function Covered(i: nat, m: nat, n: nat): (r: nat)
    ensures r <= m
  {
    if n <= i then 0 else if n - i <= m then n - i else m
  }

  /** Scattering is the transpose of taking the difference. */
  lemma {:induction false} ScatterTransposes(coef: seq<real>, g: seq<V3>, i: nat, w: V3, d: seq<V3>, n: nat)
    requires i + |coef| <= |g| == |d| && n <= |g|
    ensures InnerTo(Scatter(coef, g, i, w), d, n) ==
            InnerTo(g, d, n) + w.Dot(Apply(coef, d, i, Covered(i, |coef|, n)))
  {
    if n == 0 {
      assert w.Dot(ZERO) == 0.0;
    } else {
      ScatterTransposes(coef, g, i, w, d, n - 1);
      if i < n <= i + |coef| {
        DotStep(g[n - 1], w, coef[n - 1 - i], d[n - 1], Apply(coef, d, i, n - 1 - i));
      }
    }
  }

  lemma DotStep(g: V3, w: V3, c: real, d: V3, a: V3)
    ensures g.Plus(w.Scale(c)).Dot(d) + w.Dot(a) == g.Dot(d) + w.Dot(a.Plus(d.Scale(c)))
  {
  }

  /** How a difference is charged: its square, or the weighted square of what exceeds a limit. */
  datatype Penalty = Square | Hinge(limit: real, weight: real) {
    function Charge(v: real): real {
      match this
      case Square => v * v
      case Hinge(m, c) =>
        if v > m then (v - m) * (v - m) * c else if v < -m then (v + m) * (v + m) * c else 0.0
    }

    function Rate(v: real): real {
      match this
      case Square => 2.0 * v
      case Hinge(m, c) =>
        if v > m then 2.0 * (v - m) * c else if v < -m then 2.0 * (v + m) * c else 0.0
    }

    function Cost(v: V3): real { Charge(v.x) + Charge(v.y) + Charge(v.z) }

    function Slope(v: V3): V3 { V3(Rate(v.x), Rate(v.y), Rate(v.z)) }

    /** The penalties the optimizer is meant to use. */
    predicate Convex() { Hinge? ==> 0.0 <= limit && 0.0 <= weight }

    function Bend(): real { if Square? then 1.0 else weight }
  }

  lemma SquareExpands(v: V3, w: V3)
    ensures Square.Cost(v.Plus(w)) == Square.Cost(v) + Square.Slope(v).Dot(w) + Square.Cost(w)
  {
  }

  /** What exceeds the limit, with its sign. */
  function Excess(m: real, v: real): real { if v > m then v - m else if v < -m then v + m else 0.0 }

  lemma HingeIsExcess(m: real, c: real, v: real)
    requires 0.0 <= m
    ensures Hinge(m, c).Charge(v) == c * (Excess(m, v) * Excess(m, v))
            && Hinge(m, c).Rate(v) == c * (2.0 * Excess(m, v))
  {
  }

  /** The part of the step that does not go into the excess is of the sign of the new excess, and
      opposite to that of the old one. */
  lemma ExcessLags(m: real, v: real, w: real)
    requires 0.0 <= m
    ensures var a, b := Excess(m, v), Excess(m, v + w); a * (w - (b - a)) <= 0.0 <= b * (w - (b - a))
  {
    var a, b := Excess(m, v), Excess(m, v + w);
    var s := w - (b - a);
    SignOf(a, s);
    SignOf(b, s);
  }

  function Sq(x: real): real { x * x }

  lemma SignOf(a: real, s: real)
    ensures (0.0 <= a && 0.0 <= s) || (a <= 0.0 && s <= 0.0) ==> 0.0 <= a * s
    ensures (0.0 <= a && s <= 0.0) || (a <= 0.0 && 0.0 <= s) ==> a * s <= 0.0
  {
  }

  lemma SquareGap(a: real, b: real, s: real, w: real)
    requires w == (b - a) + s && a * s <= 0.0 <= b * s
    ensures 0.0 <= b * b - a * a - 2.0 * a * w <= w * w
  {
  }

  lemma WeightedGap(c: real, a2: real, b2: real, r: real, w: real, w2: real)
    requires 0.0 <= c && 0.0 <= b2 - a2 - r * w <= w2
    ensures 0.0 <= c * b2 - c * a2 - c * r * w <= c * w2
  {
  }

  /** The gap between the charge at u and the tangent of slope r at v, followed for w. */
  function TangentGap(p: Penalty, v: real, w: real, u: real, r: real): real { p.Charge(u) - p.Charge(v) - r * w }

  /** One axis of the hinge, stepping from v to u: its tangent is a lower bound, off by no more than
      the weighted square of the step. */
  lemma HingeTangent(p: Penalty, v: real, w: real, u: real, r: real)
    requires p.Hinge? && p.Convex() && u == v + w && r == p.Rate(v)
    ensures 0.0 <= TangentGap(p, v, w, u, r) <= p.weight * Sq(w)
  {
    hide Excess, Penalty.Charge, Penalty.Rate;
    var m, c := p.limit, p.weight;
    var a, b := Excess(m, v), Excess(m, u);
    HingeIsExcess(m, c, v);
    HingeIsExcess(m, c, u);
    ExcessLags(m, v, w);
    SquareGap(a, b, w - (b - a), w);
    WeightedGap(c, a * a, b * b, 2.0 * a, w, w * w);
  }

  /** The tangent of the hinge at v, followed for a step w, does not lie above it. */
  ghost predicate TangentHolds(m: real, v: real, w: real) {
    var p := Hinge(m, 1.0);
    p.Charge(v + w) >= p.Charge(v) + p.Rate(v) * w
  }

  /** The tangent is a lower bound everywhere exactly when the limit is not negative. */
  lemma HingeTangentIff(m: real)
    ensures (forall v: real, w: real :: TangentHolds(m, v, w)) <==> 0.0 <= m
  {
    if 0.0 <= m {
      forall v: real, w: real
        ensures TangentHolds(m, v, w)
      {
        HingeTangent(Hinge(m, 1.0), v, w, v + w, Hinge(m, 1.0).Rate(v));
      }
    } else {
      var w := -m / 2.0;
      var s := m * m;
      SquarePositive(m, s);
      assert 2.0 * m * w == -s && (m / 2.0 - m) * (m / 2.0 - m) == s / 4.0;
      assert (m + m) * (m + m) == 4.0 * s && 2.0 * (m + m) * w == -2.0 * s;
      assert m + w == m / 2.0;
      assert !TangentHolds(m, m, w);
    }
  }

  lemma SquarePositive(m: real, s: real)
    requires m != 0.0 && s == m * m
    ensures 0.0 < s
  {
    if 0.0 < m {
      ProductPositive(m, m, s);
    } else {
      assert s == (-m) * (-m);
      ProductPositive(-m, -m, s);
    }
  }

  lemma ProductPositive(a: real, b: real, s: real)
    requires 0.0 < a && 0.0 < b && s == a * b
    ensures 0.0 < s
  {
  }

  lemma PenaltyTangent(p: Penalty, v: V3, w: V3)
    requires p.Convex()
    ensures 0.0 <= p.Cost(v.Plus(w)) - p.Cost(v) - p.Slope(v).Dot(w) <= p.Bend() * Square.Cost(w)
  {
    hide Penalty.Charge, Penalty.Rate, Penalty.Cost, Penalty.Slope, V3.Dot;
    SquareCost(w);
    if p.Square? {
      SquareExpands(v, w);
    } else {
      HingesTangent(p, v, w, v.Plus(w), p.Slope(v));
    }
  }

  lemma HingesTangent(p: Penalty, v: V3, w: V3, u: V3, s: V3)
    requires p.Hinge? && p.Convex() && u == v.Plus(w) && s == p.Slope(v)
    ensures 0.0 <= p.Cost(u) - p.Cost(v) - s.Dot(w) <= p.weight * Square.Cost(w)
  {
    hide Sq, TangentGap, Penalty.Charge, Penalty.Rate, Penalty.Cost, V3.Dot;
    HingeTangent(p, v.x, w.x, u.x, s.x);
    HingeTangent(p, v.y, w.y, u.y, s.y);
    HingeTangent(p, v.z, w.z, u.z, s.z);
    Axes(p, v, w, u, s);
    SquareCost(w);
    Distribute(p.weight, Sq(w.x), Sq(w.y), Sq(w.z));
  }

  lemma Axes(p: Penalty, v: V3, w: V3, u: V3, s: V3)
    ensures p.Cost(u) - p.Cost(v) - s.Dot(w) ==
            TangentGap(p, v.x, w.x, u.x, s.x) + TangentGap(p, v.y, w.y, u.y, s.y) + TangentGap(p, v.z, w.z, u.z, s.z)
  {
    hide Penalty.Charge;
  }

  lemma SquareCost(w: V3)
    ensures 0.0 <= Square.Cost(w) == Sq(w.x) + Sq(w.y) + Sq(w.z)
  {
  }

  lemma Distribute(c: real, x: real, y: real, z: real)
    ensures c * x + c * y + c * z == c * (x + y + z)
  {
  }

  /** The charge of the first n differences. */
  ghost function Total(p: Penalty, coef: seq<real>, q: seq<V3>, n: nat): real
    requires 0 < n ==> n - 1 + |coef| <= |q|
  {
    if n == 0 then 0.0 else Total(p, coef, q, n - 1) + p.Cost(Difference(coef, q, n - 1))
  }

  /** The gradient g after the first n differences have been added to it. */
  ghost function Gathered(p: Penalty, coef: seq<real>, q: seq<V3>, g: seq<V3>, n: nat): (r: seq<V3>)
    requires |g| == |q| && (0 < n ==> n - 1 + |coef| <= |q|)
    ensures |r| == |g|
  {
    if n == 0 then g
    else Scatter(coef, Gathered(p, coef, q, g, n - 1), n - 1, p.Slope(Difference(coef, q, n - 1)))
  }

  /** What the accumulated gradient says about the move d. */
  ghost function Gain(p: Penalty, coef: seq<real>, q: seq<V3>, g: seq<V3>, n: nat, d: seq<V3>): real
    requires |g| == |q| == |d| && (0 < n ==> n - 1 + |coef| <= |q|)
  {
    Inner(Gathered(p, coef, q, g, n), d) - Inner(g, d)
  }

  lemma GainNone(p: Penalty, coef: seq<real>, q: seq<V3>, g: seq<V3>, d: seq<V3>)
    requires |g| == |q| == |d|
    ensures Gain(p, coef, q, g, 0, d) == 0.0
  {
  }

  lemma GainStep(p: Penalty, coef: seq<real>, q: seq<V3>, g: seq<V3>, n: nat, d: seq<V3>)
    requires |g| == |q| == |d| && n + |coef| <= |q|
    ensures Gain(p, coef, q, g, n + 1, d) ==
            Gain(p, coef, q, g, n, d) + p.Slope(Difference(coef, q, n)).Dot(Difference(coef, d, n))
  {
    var was := Gathered(p, coef, q, g, n);
    ScatterTransposes(coef, was, n, p.Slope(Difference(coef, q, n)), d, |d|);
    assert Covered(n, |coef|, |d|) == |coef|;
  }

  /** The squared differences expand exactly, with the accumulated gradient as the linear term. */
  lemma {:induction false} SquaresExpand(coef: seq<real>, q: seq<V3>, g: seq<V3>, n: nat, d: seq<V3>)
    requires |g| == |q| == |d| && (0 < n ==> n - 1 + |coef| <= |q|)
    ensures Total(Square, coef, Sum(q, d), n) ==
            Total(Square, coef, q, n) + Gain(Square, coef, q, g, n, d) + Total(Square, coef, d, n)
  {
    hide Penalty.Cost, Penalty.Slope, Gain, Gathered, Difference, Sum, V3.Plus;
    if n == 0 {
      GainNone(Square, coef, q, g, d);
    } else {
      SquaresExpand(coef, q, g, n - 1, d);
      GainStep(Square, coef, q, g, n - 1, d);
      DifferenceSum(coef, q, d, n - 1);
      SquareExpands(Difference(coef, q, n - 1), Difference(coef, d, n - 1));
    }
  }

  /** For a convex penalty the accumulated gradient is a tangent from below with a quadratic gap. */
  lemma {:induction false} TangentBelow(p: Penalty, coef: seq<real>, q: seq<V3>, g: seq<V3>, n: nat, d: seq<V3>)
    requires |g| == |q| == |d| && (0 < n ==> n - 1 + |coef| <= |q|) && p.Convex()
    ensures 0.0 <= Total(p, coef, Sum(q, d), n) - Total(p, coef, q, n) - Gain(p, coef, q, g, n, d)
    ensures Total(p, coef, Sum(q, d), n) - Total(p, coef, q, n) - Gain(p, coef, q, g, n, d)
            <= p.Bend() * Total(Square, coef, d, n)
  {
    hide Penalty.Cost, Penalty.Slope, Penalty.Bend, Penalty.Convex, Gain, Gathered, Difference, Sum, V3.Plus;
    if n == 0 {
      GainNone(p, coef, q, g, d);
    } else {
      TangentBelow(p, coef, q, g, n - 1, d);
      GainStep(p, coef, q, g, n - 1, d);
      DifferenceSum(coef, q, d, n - 1);
      PenaltyTangent(p, Difference(coef, q, n - 1), Difference(coef, d, n - 1));
      TimesSum(p.Bend(), Total(Square, coef, d, n - 1), Square.Cost(Difference(coef, d, n - 1)),
               Total(Square, coef, d, n));
    }
  }

  /** The charge of the distance cost for a control point that is e short of the clearance. */
  function Push(clear: real, e: real): real {
    if e < 0.0 then 0.0
    else if e < clear then e * e * e
    else 3.0 * clear * e * e + -3.0 * (clear * clear) * e + clear * clear * clear
  }

  function PushRate(clear: real, e: real): real {
    if e < 0.0 then 0.0
    else if e < clear then 3.0 * e * e
    else 2.0 * (3.0 * clear) * e + -3.0 * (clear * clear)
  }

  /** The pieces meet at zero and at the clearance, in value and in slope. */
  lemma PiecesMeet(clear: real)
    requires 0.0 < clear
    ensures Push(clear, 0.0) == 0.0 && PushRate(clear, 0.0) == 0.0
    ensures Push(clear, clear) == clear * clear * clear && PushRate(clear, clear) == 3.0 * clear * clear
  {
  }

  /** The gap between the cost at f and the tangent at e. */
  function PushGap(clear: real, e: real, f: real): real {
    Push(clear, f) - Push(clear, e) - PushRate(clear, e) * (f - e)
  }

  lemma FlatPiece(a: real, e: real)
    requires 0.0 <= a && e <= 0.0
    ensures Push(a, e) == 0.0 && PushRate(a, e) == 0.0
  {
  }

  lemma CubicPiece(a: real, e: real)
    requires 0.0 <= e <= a
    ensures Push(a, e) == e * e * e && PushRate(a, e) == 3.0 * e * e
  {
  }

  lemma FlatGap(a: real, e: real, f: real)
    requires 0.0 <= a && e <= 0.0 && f <= 0.0
    ensures PushGap(a, e, f) == 0.0
  {
  }

  lemma GapWithinCubic(a: real, e: real, f: real)
    requires 0.0 <= e <= a && 0.0 <= f <= a
    ensures 0.0 <= PushGap(a, e, f) <= 3.0 * a * Sq(f - e)
  {
    hide Push, PushRate;
    CubicPiece(a, e);
    CubicPiece(a, f);
    CubicGap(e, f);
    var d2 := Sq(f - e);
    SquareSign(f - e);
    SignOf(f + 2.0 * e, d2);
    SignOf(3.0 * a - f - 2.0 * e, d2);
  }

  lemma CubicGap(e: real, f: real)
    ensures f * f * f - e * e * e - 3.0 * e * e * (f - e) == (f + 2.0 * e) * Sq(f - e)
  {
  }

  lemma GapWithinQuadratic(a: real, e: real, f: real)
    requires 0.0 <= a <= e && a <= f
    ensures PushGap(a, e, f) == 3.0 * a * Sq(f - e)
  {
  }

  /** Some boundary between the pieces lies strictly between e and f. */
  predicate Splits(m: real, e: real, f: real) { e < m < f || f < m < e }

  lemma RateRises(a: real, e: real, f: real)
    requires 0.0 <= a && e <= f
    ensures 0.0 <= PushRate(a, f) - PushRate(a, e) <= 6.0 * a * (f - e)
    decreases (if Splits(0.0, e, f) then 1 else 0) + (if Splits(a, e, f) then 1 else 0)
  {
    hide Push, PushRate;
    if Splits(0.0, e, f) || Splits(a, e, f) {
      var m := if Splits(0.0, e, f) then 0.0 else a;
      RateRises(a, e, m);
      RateRises(a, m, f);
    } else if f <= 0.0 {
      FlatPiece(a, e);
      FlatPiece(a, f);
      SignOf(a, f - e);
    } else if f <= a {
      CubicPiece(a, e);
      CubicPiece(a, f);
      assert 3.0 * f * f - 3.0 * e * e == 3.0 * (f + e) * (f - e);
      SignOf(3.0 * (f + e), f - e);
      SignOf(6.0 * a - 3.0 * (f + e), f - e);
    } else {
      SignOf(a, f - e);
      QuadraticRate(a, e, f);
    }
  }

  lemma QuadraticRate(a: real, e: real, f: real)
    requires 0.0 <= a <= e <= f
    ensures PushRate(a, f) - PushRate(a, e) == 6.0 * a * (f - e)
  {
  }

  lemma SquareSign(x: real)
    ensures 0.0 <= Sq(x)
  {
  }

  /** The tangent of the distance charge is a lower bound, off by at most three clearances times the
      square of the step. */
  lemma PushTangent(a: real, e: real, f: real)
    requires 0.0 <= a
    ensures 0.0 <= PushGap(a, e, f) <= 3.0 * a * Sq(f - e)
    decreases (if Splits(0.0, e, f) then 1 else 0) + (if Splits(a, e, f) then 1 else 0)
  {
    hide Push, PushRate, PushGap, Sq;
    if Splits(0.0, e, f) || Splits(a, e, f) {
      var m := if Splits(0.0, e, f) then 0.0 else a;
      PushTangent(a, e, m);
      PushTangent(a, m, f);
      Compose(a, e, m, f);
    } else if e <= 0.0 && f <= 0.0 {
      FlatGap(a, e, f);
      SquareSign(f - e);
      SignOf(a, Sq(f - e));
    } else if e <= a && f <= a {
      GapWithinCubic(a, e, f);
    } else {
      GapWithinQuadratic(a, e, f);
      SquareSign(f - e);
      SignOf(a, Sq(f - e));
    }
  }

  lemma Compose(a: real, e: real, m: real, f: real)
    requires 0.0 <= a && Splits(m, e, f)
    requires 0.0 <= PushGap(a, e, m) <= 3.0 * a * Sq(m - e)
    requires 0.0 <= PushGap(a, m, f) <= 3.0 * a * Sq(f - m)
    ensures 0.0 <= PushGap(a, e, f) <= 3.0 * a * Sq(f - e)
  {
    hide Push, PushRate, PushGap, Sq;
    if e < m {
      RateRises(a, e, m);
    } else {
      RateRises(a, m, e);
    }
    var x, y := m - e, f - m;
    var r := PushRate(a, m) - PushRate(a, e);
    var p, c := x * y, r * y;
    CrossTerm(a, r, x, y, p, c);
    GapsAdd(a, e, m, f, r, y, c);
    SquareOfSum(a, x, y, f - e, p);
  }

  lemma GapsAdd(a: real, e: real, m: real, f: real, c: real, y: real, t: real)
    requires c == PushRate(a, m) - PushRate(a, e) && y == f - m && t == c * y
    ensures PushGap(a, e, f) == PushGap(a, e, m) + PushGap(a, m, f) + t
  {
  }

  lemma SquareOfSum(a: real, x: real, y: real, z: real, p: real)
    requires z == x + y && p == x * y
    ensures 3.0 * a * Sq(z) == 3.0 * a * Sq(x) + 3.0 * a * Sq(y) + 6.0 * a * p
  {
  }

  lemma CrossTerm(a: real, r: real, x: real, y: real, p: real, t: real)
    requires 0.0 <= a && p == x * y && t == r * y
    requires (0.0 < x && 0.0 < y && 0.0 <= r <= 6.0 * a * x) || (x < 0.0 && y < 0.0 && 6.0 * a * x <= r <= 0.0)
    ensures 0.0 <= t <= 6.0 * a * p
  {
  }

  ghost predicate PushTangentHolds(a: real, e: real, f: real) { 0.0 <= PushGap(a, e, f) }

  /** The tangent is a lower bound everywhere exactly when the clearance is not negative. */
  lemma PushTangentIff(a: real)
    ensures (forall e: real, f: real :: PushTangentHolds(a, e, f)) <==> 0.0 <= a
  {
    if 0.0 <= a {
      forall e: real, f: real
        ensures PushTangentHolds(a, e, f)
      {
        PushTangent(a, e, f);
      }
    } else {
      SquarePositive(a, a * a);
      SignOf(a, a * a);
      assert a * a * a / (a * a) == a;
      assert !PushTangentHolds(a, -1.0, 0.0);
    }
  }

  /** A base point on an obstacle's surface and the direction a control point is pushed from it. */
  datatype Guide = Guide(base: V3, dir: V3)

  function Shortfall(clear: real, p: V3, g: Guide): real { clear - p.Minus(g.base).Dot(g.dir) }

  ghost function PushCost(clear: real, p: V3, gs: seq<Guide>, m: nat): real
    requires m <= |gs|
  {
    if m == 0 then 0.0 else PushCost(clear, p, gs, m - 1) + Push(clear, Shortfall(clear, p, gs[m - 1]))
  }

  ghost function PushSlope(clear: real, p: V3, gs: seq<Guide>, m: nat): V3
    requires m <= |gs|
  {
    if m == 0 then ZERO
    else PushSlope(clear, p, gs, m - 1).Plus(gs[m - 1].dir.Scale(-PushRate(clear, Shortfall(clear, p, gs[m - 1]))))
  }

  /** How far the move d goes along the directions, squared and summed. */
  ghost function Along(gs: seq<Guide>, d: V3, m: nat): (r: real)
    requires m <= |gs|
  {
    if m == 0 then 0.0 else Along(gs, d, m - 1) + Sq(gs[m - 1].dir.Dot(d))
  }

  lemma ShortfallMoves(clear: real, p: V3, d: V3, g: Guide)
    ensures Shortfall(clear, p.Plus(d), g) == Shortfall(clear, p, g) - g.dir.Dot(d)
  {
  }

  lemma ZeroDot(d: V3)
    ensures ZERO.Dot(d) == 0.0
  {
  }

  lemma PlusDot(v: V3, w: V3, c: real, d: V3)
    ensures v.Plus(w.Scale(c)).Dot(d) == v.Dot(d) + c * w.Dot(d)
  {
  }

  /** One control point: the push's slope is a tangent from below, with a quadratic gap. */
  lemma {:induction false} PointTangent(clear: real, p: V3, d: V3, gs: seq<Guide>, m: nat)
    requires 0.0 <= clear && m <= |gs|
    ensures 0.0 <= PushCost(clear, p.Plus(d), gs, m) - PushCost(clear, p, gs, m) - PushSlope(clear, p, gs, m).Dot(d)
    ensures PushCost(clear, p.Plus(d), gs, m) - PushCost(clear, p, gs, m) - PushSlope(clear, p, gs, m).Dot(d)
            <= 3.0 * clear * Along(gs, d, m)
  {
    hide V3.Plus, V3.Dot, V3.Scale, Push, PushRate, PushGap, Shortfall, Sq;
    if m == 0 {
      ZeroDot(d);
    } else {
      PointTangent(clear, p, d, gs, m - 1);
      var g := gs[m - 1];
      var e, t := Shortfall(clear, p, g), g.dir.Dot(d);
      ShortfallMoves(clear, p, d, g);
      GapAgainst(clear, e, t, e - t, -PushRate(clear, e));
      PlusDot(PushSlope(clear, p, gs, m - 1), g.dir, -PushRate(clear, e), d);
      GuideAdds(3.0 * clear, Along(gs, d, m - 1), Sq(t), Along(gs, d, m),
                PushCost(clear, p.Plus(d), gs, m - 1) - PushCost(clear, p, gs, m - 1)
                  - PushSlope(clear, p, gs, m - 1).Dot(d),
                Push(clear, e - t) - Push(clear, e) + PushRate(clear, e) * t);
    }
  }

  lemma GuideAdds(k: real, x: real, y: real, z: real, gapX: real, gapY: real)
    requires 0.0 <= gapX <= k * x && 0.0 <= gapY <= k * y && z == x + y
    ensures 0.0 <= gapX + gapY <= k * z
  {
    TimesSum(k, x, y, z);
  }

  lemma GapAgainst(clear: real, e: real, t: real, f: real, r: real)
    requires 0.0 <= clear && f == e - t && r == -PushRate(clear, e)
    ensures 0.0 <= Push(clear, f) - Push(clear, e) - r * t <= 3.0 * clear * Sq(t)
  {
    hide Push, PushRate, PushGap, Sq;
    PushTangent(clear, e, f);
    SquareOfNegative(f - e, t);
    GapIs(clear, e, t, f, r);
  }

  lemma SquareOfNegative(a: real, b: real)
    requires a == -b
    ensures Sq(a) == Sq(b)
  {
  }

  lemma GapIs(clear: real, e: real, t: real, f: real, r: real)
    requires f == e - t && r == -PushRate(clear, e)
    ensures PushGap(clear, e, f) == Push(clear, f) - Push(clear, e) - r * t
  {
    hide Push, PushRate;
    NegateBoth(PushRate(clear, e), t, r, f - e);
  }

  lemma NegateBoth(a: real, b: real, a': real, b': real)
    requires a' == -a && b' == -b
    ensures a' * b == a * b'
  {
  }

  lemma TimesSum(k: real, x: real, y: real, z: real)
    requires z == x + y
    ensures k * z == k * x + k * y
  {
  }

  /** The distance cost of the control points from lo up to n. */
  ghost function DistanceCost(clear: real, q: seq<V3>, gs: seq<seq<Guide>>, lo: nat, n: nat): real
    requires n <= |q| == |gs|
  {
    if n <= lo then 0.0 else DistanceCost(clear, q, gs, lo, n - 1) + PushCost(clear, q[n - 1], gs[n - 1], |gs[n - 1]|)
  }

  ghost function DistanceGradient(clear: real, q: seq<V3>, gs: seq<seq<Guide>>, g: seq<V3>, lo: nat,
                                  n: nat): (r: seq<V3>)
    requires n <= |q| == |gs| == |g|
    ensures |r| == |g|
    ensures forall i :: n <= i < |g| ==> r[i] == g[i]
  {
    if n <= lo then g
    else
      DistanceGradient(clear, q, gs, g, lo, n - 1)
      [n - 1 := g[n - 1].Plus(PushSlope(clear, q[n - 1], gs[n - 1], |gs[n - 1]|))]
  }

  ghost function AlongAll(gs: seq<seq<Guide>>, d: seq<V3>, lo: nat, n: nat): real
    requires n <= |gs| == |d|
  {
    if n <= lo then 0.0 else AlongAll(gs, d, lo, n - 1) + Along(gs[n - 1], d[n - 1], |gs[n - 1]|)
  }

  lemma {:induction false} ReplaceInner(g: seq<V3>, k: nat, w: V3, d: seq<V3>, n: nat)
    requires k < |g| == |d| && n <= |g|
    ensures InnerTo(g[k := g[k].Plus(w)], d, n) == InnerTo(g, d, n) + if k < n then w.Dot(d[k]) else 0.0
  {
    hide V3.Plus, V3.Dot;
    if n != 0 {
      ReplaceInner(g, k, w, d, n - 1);
      DotSum(g[k], w, d[k]);
    }
  }

  lemma DotSum(v: V3, w: V3, d: V3)
    ensures v.Plus(w).Dot(d) == v.Dot(d) + w.Dot(d)
  {
  }

  /** With base points and directions held fixed, the distance cost's gradient is a tangent from below. */
  lemma {:induction false} DistanceTangent(clear: real, q: seq<V3>, gs: seq<seq<Guide>>, g: seq<V3>, lo: nat, n: nat,
                                           d: seq<V3>)
    requires 0.0 <= clear && n <= |q| == |gs| == |g| == |d|
    ensures var gap := DistanceCost(clear, Sum(q, d), gs, lo, n) - DistanceCost(clear, q, gs, lo, n)
                       - (Inner(DistanceGradient(clear, q, gs, g, lo, n), d) - Inner(g, d));
      0.0 <= gap <= 3.0 * clear * AlongAll(gs, d, lo, n)
  {
    hide V3.Plus, V3.Dot, PushCost, PushSlope, Along;
    if lo < n {
      DistanceTangent(clear, q, gs, g, lo, n - 1, d);
      PointTangent(clear, q[n - 1], d[n - 1], gs[n - 1], |gs[n - 1]|);
      ReplaceInner(DistanceGradient(clear, q, gs, g, lo, n - 1), n - 1,
                   PushSlope(clear, q[n - 1], gs[n - 1], |gs[n - 1]|), d, |d|);
      TimesSum(3.0 * clear, AlongAll(gs, d, lo, n - 1), Along(gs[n - 1], d[n - 1], |gs[n - 1]|),
               AlongAll(gs, d, lo, n));
    }
  }
}
