// The Bernstein blend `calcBezierAtT` of Bezier.h along one axis, over
// exact reals: the specification as a recursive sum, the accumulating loop
// as a method proved equal to it, and the laws of the blend (clamping,
// endpoint interpolation, low degrees, the convex-hull bound).

module Bernstein {
  import opened Combinatorics

  /** x^e for a natural exponent, with 0^0 == 1 as C's `pow` gives it. */
  function Pow(x: real, e: nat): real
  {
    if e == 0 then 1.0 else x * Pow(x, e - 1)
  }

  lemma {:induction false} PowNonNegative(x: real, e: nat)
    requires x >= 0.0
    ensures Pow(x, e) >= 0.0
  {
    if e > 0 {
      PowNonNegative(x, e - 1);
    }
  }

  lemma {:induction false} PowOfOne(e: nat)
    ensures Pow(1.0, e) == 1.0
  {
    if e > 0 {
      PowOfOne(e - 1);
    }
  }

  lemma PowOfZero(e: nat)
    requires e > 0
    ensures Pow(0.0, e) == 0.0
  {
  }

  /** The bound control of `calcBezierAtT`: t is moved into [0, 1] and left alone inside it. */
  function Clamp(t: real): (r: real)
    ensures 0.0 <= r <= 1.0
    ensures 0.0 <= t <= 1.0 ==> r == t
    ensures t < 0.0 ==> r == 0.0
    ensures t > 1.0 ==> r == 1.0
  {
    if t < 0.0 then 0.0 else if t > 1.0 then 1.0 else t
  }

  /**
   * The binomial coefficient as the real number `binomial` hands to the
   * blend, given by Pascal's triangle over the reals (zero outside 0 <= k <= n).
   * It is kept as its own real-valued recursion rather than as
   * `Pascal(n, k) as real` so that the proofs of Pascal's rule for the
   * weights below stay in real arithmetic, with no int-to-real conversion
   * inside the products; `CoefficientIsPascal` ties the two together.
   */
  function Coefficient(n: nat, k: int): real
  {
    if k < 0 || k > n then 0.0
    else if k == 0 || k == n then 1.0
    else Coefficient(n - 1, k - 1) + Coefficient(n - 1, k)
  }

  lemma {:induction false} CoefficientIsPascal(n: nat, k: int)
    ensures Coefficient(n, k) == Pascal(n, k) as real
  {
    if 0 < k < n {
      CoefficientIsPascal(n - 1, k - 1);
      CoefficientIsPascal(n - 1, k);
    }
  }

  /** The real coefficient is exactly the integer `binomial(n, k)` of the source. */
  lemma CoefficientIsBinomial(n: nat, k: int)
    requires 0 <= k <= n
    ensures Coefficient(n, k) == Binomial(n, k) as real
  {
    CoefficientIsPascal(n, k);
    BinomialIsPascal(n, k);
  }

  /** The Bernstein weight C(n, i) t^i (1-t)^(n-i) of control value i, zero outside 0 <= i <= n. */
  function Weight(n: nat, i: int, t: real): real
  {
    if 0 <= i <= n then Coefficient(n, i) * Pow(t, i) * Pow(1.0 - t, n - i) else 0.0
  }

  /** The row of the n + 1 weights of degree n. */
  function Weights(n: nat, t: real): (ws: seq<real>)
    ensures |ws| == n + 1
  {
    seq(n + 1, i => Weight(n, i, t))
  }

  /** Element k of a sequence, read as 0 outside its bounds. */
  function At(s: seq<real>, k: int): real
  {
    if 0 <= k < |s| then s[k] else 0.0
  }

  /** Every entry of the row, in or out of range, is the weight itself. */
  lemma AtWeights(n: nat, t: real, k: int)
    ensures At(Weights(n, t), k) == Weight(n, k, t)
  {
  }

  /** The sum of the first m entries of s (entries past the end count as 0). */
  function Sum(s: seq<real>, m: nat): real
  {
    if m == 0 then 0.0 else Sum(s, m - 1) + At(s, m - 1)
  }

  /** Adding entry m to the sum of the first m. */
  lemma SumNext(s: seq<real>, m: nat)
    ensures Sum(s, m + 1) == Sum(s, m) + At(s, m)
  {
  }

  /** The weighted sum of the first m entries, w_0 p_0 + ... + w_(m-1) p_(m-1), in that order. */
  function Dot(w: seq<real>, p: seq<real>, m: nat): real
  {
    if m == 0 then 0.0 else Dot(w, p, m - 1) + At(w, m - 1) * At(p, m - 1)
  }

  /** Adding term m to the weighted sum of the first m. */
  lemma DotNext(w: seq<real>, p: seq<real>, m: nat)
    ensures Dot(w, p, m + 1) == Dot(w, p, m) + At(w, m) * At(p, m)
  {
  }

  /**
   * The value of the curve along one axis at parameter t: t is clamped and
   * the control values are blended with the weights of degree |ps| - 1; an
   * empty list gives 0.
   */
  function BezierAt(t: real, ps: seq<real>): real
  {
    if |ps| == 0 then 0.0 else Dot(Weights(|ps| - 1, Clamp(t)), ps, |ps|)
  }

  /**
   * `calcBezierAtT(t, ps)`: clamp t, take n = size - 1 and accumulate
   * binomial(n, i) t^i (1-t)^(n-i) ps[i] for i from 0 below size.
   */
  method CalcBezierAtT(t: real, ps: seq<real>) returns (bt: real)
    ensures bt == BezierAt(t, ps)
  {
    var tc := t;
    if tc < 0.0 {
      tc := 0.0;
    } else if tc > 1.0 {
      tc := 1.0;
    }
    var size := |ps|;
    var n := size - 1;
    ghost var ws := Weights(if size == 0 then 0 else n, tc);
    bt := 0.0;
    for i := 0 to size
      invariant bt == Dot(ws, ps, i)
    {
      var c, p, q := Binomial(n, i) as real, Pow(tc, i), Pow(1.0 - tc, n - i);
      var w := c * p * q;
      CoefficientIsBinomial(n, i);
      WeightAt(ws, n, i, tc, c, p, q, w);
      ghost var before := bt;
      bt := bt + w * ps[i];
      DotAppend(ws, ps, i, w, before, bt);
    }
  }

  /** binomial(n, i) t^i (1-t)^(n-i), as the loop computes it, is entry i of the row of weights. */
  lemma WeightAt(ws: seq<real>, n: nat, i: nat, t: real, c: real, p: real, q: real, w: real)
    requires i <= n && ws == Weights(n, t)
    requires c == Coefficient(n, i) && p == Pow(t, i) && q == Pow(1.0 - t, n - i) && w == c * p * q
    ensures w == At(ws, i)
  {
    WeightIs(n, i, t, c, p, q);
    AtWeights(n, t, i);
  }

  /** Adding w * p_i, with w the i-th weight, extends the weighted sum by one term. */
  lemma DotAppend(ws: seq<real>, ps: seq<real>, i: nat, w: real, before: real, after: real)
    requires i < |ps| && w == At(ws, i)
    requires before == Dot(ws, ps, i) && after == before + w * ps[i]
    ensures after == Dot(ws, ps, i + 1)
  {
    DotNext(ws, ps, i);
  }

  // ---------------------------------------------------------------------------
  // Clamping and endpoint interpolation

  /** Parameters below 0 give the curve's value at 0, parameters above 1 its value at 1. */
  lemma ClampLaw(ps: seq<real>, t: real)
    ensures t < 0.0 ==> BezierAt(t, ps) == BezierAt(0.0, ps)
    ensures t > 1.0 ==> BezierAt(t, ps) == BezierAt(1.0, ps)
  {
  }

  /** With no control points the loop never runs and the value is 0. */
  lemma EmptyCurve(t: real)
    ensures BezierAt(t, []) == 0.0
  {
  }

  /** At t = 0 only the first weight is non-zero, and it is 1. */
  lemma WeightAtZero(n: nat, i: int)
    ensures Weight(n, i, 0.0) == if i == 0 then 1.0 else 0.0
  {
    if i == 0 {
      PowOfOne(n);
      assert Weight(n, 0, 0.0) == Coefficient(n, 0) * Pow(0.0, 0) * Pow(1.0, n);
    } else if 0 < i <= n {
      PowOfZero(i);
      ZeroFactor(Coefficient(n, i), Pow(0.0, i), Pow(1.0, n - i));
      assert Weight(n, i, 0.0) == Coefficient(n, i) * Pow(0.0, i) * Pow(1.0, n - i);
    }
  }

  /** At t = 1 only the last weight is non-zero, and it is 1. */
  lemma WeightAtOne(n: nat, i: int)
    ensures Weight(n, i, 1.0) == if i == n then 1.0 else 0.0
  {
    if i == n {
      PowOfOne(n);
      assert Weight(n, n, 1.0) == Coefficient(n, n) * Pow(1.0, n) * Pow(0.0, 0);
    } else if 0 <= i < n {
      PowOfZero(n - i);
      ZeroFactor(Coefficient(n, i) * Pow(1.0, i), Pow(0.0, n - i), 1.0);
      assert Weight(n, i, 1.0) == Coefficient(n, i) * Pow(1.0, i) * Pow(0.0, n - i);
    }
  }

  /** Degree 0 has the single weight 1. */
  lemma WeightDegreeZero(i: int, t: real)
    ensures Weight(0, i, t) == if i == 0 then 1.0 else 0.0
  {
    if i == 0 {
      assert Weight(0, 0, t) == Coefficient(0, 0) * Pow(t, 0) * Pow(1.0 - t, 0);
    }
  }

  /** Degree 1 has the weights 1 - t and t. */
  lemma WeightDegreeOne(t: real)
    ensures Weight(1, 0, t) == 1.0 - t && Weight(1, 1, t) == t
  {
    assert Pow(1.0 - t, 1) == (1.0 - t) * Pow(1.0 - t, 0);
    assert Pow(t, 1) == t * Pow(t, 0);
    assert Weight(1, 0, t) == Coefficient(1, 0) * Pow(t, 0) * Pow(1.0 - t, 1);
    assert Weight(1, 1, t) == Coefficient(1, 1) * Pow(t, 1) * Pow(1.0 - t, 0);
  }

  /** A blend whose weights are the unit vector at k picks out entry k. */
  lemma {:induction false} DotOfUnit(w: seq<real>, p: seq<real>, m: nat, k: int)
    requires forall i :: At(w, i) == if i == k then 1.0 else 0.0
    ensures Dot(w, p, m) == if 0 <= k < m then At(p, k) else 0.0
  {
    if m > 0 {
      DotOfUnit(w, p, m - 1, k);
      UnitProduct(At(w, m - 1), At(p, m - 1), m - 1 == k);
    }
  }

  /** At t = 0 the curve passes through its first control point. */
  lemma StartPoint(ps: seq<real>)
    requires |ps| >= 1
    ensures BezierAt(0.0, ps) == ps[0]
  {
    var ws := Weights(|ps| - 1, 0.0);
    forall i
      ensures At(ws, i) == if i == 0 then 1.0 else 0.0
    {
      AtWeights(|ps| - 1, 0.0, i);
      WeightAtZero(|ps| - 1, i);
    }
    DotOfUnit(ws, ps, |ps|, 0);
  }

  /** At t = 1 the curve passes through its last control point. */
  lemma EndPoint(ps: seq<real>)
    requires |ps| >= 1
    ensures BezierAt(1.0, ps) == ps[|ps| - 1]
  {
    var ws := Weights(|ps| - 1, 1.0);
    forall i
      ensures At(ws, i) == if i == |ps| - 1 then 1.0 else 0.0
    {
      AtWeights(|ps| - 1, 1.0, i);
      WeightAtOne(|ps| - 1, i);
    }
    DotOfUnit(ws, ps, |ps|, |ps| - 1);
  }

  /** A single control point is a constant curve. */
  lemma SinglePoint(ps: seq<real>, t: real)
    requires |ps| == 1
    ensures BezierAt(t, ps) == ps[0]
  {
    var ws := Weights(0, Clamp(t));
    forall i
      ensures At(ws, i) == if i == 0 then 1.0 else 0.0
    {
      AtWeights(0, Clamp(t), i);
      WeightDegreeZero(i, Clamp(t));
    }
    DotOfUnit(ws, ps, 1, 0);
  }

  /** Two control points give the straight segment (1-t) p0 + t p1, t clamped. */
  lemma TwoPoints(ps: seq<real>, t: real)
    requires |ps| == 2
    ensures BezierAt(t, ps) == (1.0 - Clamp(t)) * ps[0] + Clamp(t) * ps[1]
  {
    var ws := Weights(1, Clamp(t));
    WeightDegreeOne(Clamp(t));
    AtWeights(1, Clamp(t), 0);
    AtWeights(1, Clamp(t), 1);
    TwoTerms(Dot(ws, ps, 2), Dot(ws, ps, 1), Dot(ws, ps, 0), At(ws, 0), At(ws, 1), At(ps, 0), At(ps, 1),
      1.0 - Clamp(t), Clamp(t), ps[0], ps[1]);
  }

  /** The quadratics with ordinates 0, 1, 2 and 0, 2, 0 are both 1 at t = 1/2. */
  lemma QuadraticAtHalf()
    ensures BezierAt(0.5, [0.0, 1.0, 2.0]) == 1.0
    ensures BezierAt(0.5, [0.0, 2.0, 0.0]) == 1.0
  {
    var ws := Weights(2, 0.5);
    assert Coefficient(2, 1) == 2.0;
    assert ws[0] == 0.25 && ws[1] == 0.5 && ws[2] == 0.25;
    assert At(ws, 0) == 0.25 && At(ws, 1) == 0.5 && At(ws, 2) == 0.25;
    var p, q := [0.0, 1.0, 2.0], [0.0, 2.0, 0.0];
    assert Dot(ws, p, 3) == 0.25 * 0.0 + 0.5 * 1.0 + 0.25 * 2.0;
    assert Dot(ws, q, 3) == 0.25 * 0.0 + 0.5 * 2.0 + 0.25 * 0.0;
  }

  // ---------------------------------------------------------------------------
  // Partition of unity: the weights of every degree sum to 1 for every t (the
  // binomial theorem for t + (1 - t)), proved from Pascal's rule for the weights.

  /** The affine blend t x + (1-t) y, the step of de Casteljau's construction. */
  function Mix(t: real, x: real, y: real): real
  {
    t * x + (1.0 - t) * y
  }

  /** Pascal's rule lifted to the weights: W(n+1, m) == t W(n, m-1) + (1-t) W(n, m). */
  lemma WeightPascal(n: nat, m: int, t: real)
    requires 0 <= m <= n + 1
    ensures Weight(n + 1, m, t) == Mix(t, Weight(n, m - 1, t), Weight(n, m, t))
  {
    if m == 0 {
      WeightPascalFirst(n, t);
    } else if m == n + 1 {
      WeightPascalLast(n, t);
    } else {
      WeightPascalMiddle(n, m, t);
    }
  }

  lemma WeightPascalFirst(n: nat, t: real)
    ensures Weight(n + 1, 0, t) == Mix(t, Weight(n, -1, t), Weight(n, 0, t))
  {
    var c1, c0, one := Coefficient(n + 1, 0), Coefficient(n, 0), Pow(t, 0);
    var q, uq := Pow(1.0 - t, n + 1), Pow(1.0 - t, n);
    WeightIs(n + 1, 0, t, c1, one, q);
    WeightIs(n, 0, t, c0, one, uq);
    PowPair(1.0 - t, n, n + 1);
    FirstStep(Weight(n + 1, 0, t), Weight(n, 0, t), Weight(n, -1, t), c1, c0, one, q, uq, t);
  }

  lemma WeightPascalLast(n: nat, t: real)
    ensures Weight(n + 1, n + 1, t) == Mix(t, Weight(n, n, t), Weight(n, n + 1, t))
  {
    var c1, c0, one := Coefficient(n + 1, n + 1), Coefficient(n, n), Pow(1.0 - t, 0);
    var p, tp := Pow(t, n + 1), Pow(t, n);
    assert n + 1 - (n + 1) == 0 && n - n == 0;
    WeightIs(n + 1, n + 1, t, c1, p, one);
    WeightIs(n, n, t, c0, tp, one);
    PowPair(t, n, n + 1);
    LastStep(Weight(n + 1, n + 1, t), Weight(n, n, t), Weight(n, n + 1, t), c1, c0, one, p, tp, t);
  }

  lemma WeightPascalMiddle(n: nat, m: int, t: real)
    requires 0 < m <= n
    ensures Weight(n + 1, m, t) == Mix(t, Weight(n, m - 1, t), Weight(n, m, t))
  {
    var c, a, b, p, tp, q, up := MiddleFactors(n, m, t);
    MiddleStep(Weight(n + 1, m, t), Weight(n, m - 1, t), Weight(n, m, t), c, a, b, p, tp, q, up, t);
  }

  /** The factors of the three weights in the middle case, and how they are related. */
  lemma MiddleFactors(n: nat, m: int, t: real) returns (c: real, a: real, b: real, p: real, tp: real, q: real, up: real)
    requires 0 < m <= n
    ensures Weight(n + 1, m, t) == c * p * q && Weight(n, m - 1, t) == a * tp * q && Weight(n, m, t) == b * p * up
    ensures c == a + b && p == t * tp && q == (1.0 - t) * up
  {
    c, a, b := Coefficient(n + 1, m), Coefficient(n, m - 1), Coefficient(n, m);
    p, tp, q, up := Pow(t, m), Pow(t, m - 1), Pow(1.0 - t, n + 1 - m), Pow(1.0 - t, n - m);
    WeightIs(n + 1, m, t, c, p, q);
    WeightIs(n, m - 1, t, a, tp, q);
    WeightIs(n, m, t, b, p, up);
    CoefficientRule(n, m);
    PowPair(t, m - 1, m);
    PowPair(1.0 - t, n - m, n + 1 - m);
  }

  /** An in-range weight is the product of its three factors. */
  lemma WeightIs(n: nat, i: int, t: real, c: real, p: real, q: real)
    requires 0 <= i <= n
    requires c == Coefficient(n, i) && p == Pow(t, i) && q == Pow(1.0 - t, n - i)
    ensures Weight(n, i, t) == c * p * q
  {
  }

  /** Pascal's rule for the real coefficients. */
  lemma CoefficientRule(n: nat, m: int)
    requires 0 < m <= n
    ensures Coefficient(n + 1, m) == Coefficient(n, m - 1) + Coefficient(n, m)
  {
  }

  /** Consecutive powers: x^(e+1) == x x^e, with both exponents given. */
  lemma PowPair(x: real, e: nat, e1: nat)
    requires e1 == e + 1
    ensures Pow(x, e1) == x * Pow(x, e)
  {
  }

  /** Pascal's rule for whole rows: entry j of row n blends entries j - 1 and j of row n - 1. */
  lemma PascalRow(n: nat, t: real)
    requires n >= 1
    ensures forall j :: 0 <= j <= n ==>
      At(Weights(n, t), j) == Mix(t, At(Weights(n - 1, t), j - 1), At(Weights(n - 1, t), j))
  {
    forall j | 0 <= j <= n
      ensures At(Weights(n, t), j) == Mix(t, At(Weights(n - 1, t), j - 1), At(Weights(n - 1, t), j))
    {
      RowEntry(n, t, j);
    }
  }

  /** One entry of `PascalRow`. */
  lemma RowEntry(n: nat, t: real, j: int)
    requires n >= 1 && 0 <= j <= n
    ensures At(Weights(n, t), j) == Mix(t, At(Weights(n - 1, t), j - 1), At(Weights(n - 1, t), j))
  {
    var k := n - 1;
    WeightPascal(k, j, t);
    assert k + 1 == n;
    AtWeights(n, t, j);
    AtWeights(k, t, j - 1);
    AtWeights(k, t, j);
  }

  /**
   * If every entry of a blends the entry before it in b with the entry at the
   * same place in b, the first m + 1 entries of a sum to the blend of the
   * first m and the first m + 1 entries of b.
   */
  lemma {:induction false} PascalPrefix(a: seq<real>, b: seq<real>, t: real, m: nat)
    requires forall j :: 0 <= j <= m ==> At(a, j) == Mix(t, At(b, j - 1), At(b, j))
    ensures Sum(a, m + 1) == Mix(t, Sum(b, m), Sum(b, m + 1))
  {
    if m == 0 {
      PascalBase(a, b, t);
    } else {
      var k := m - 1;
      PascalPrefix(a, b, t, k);
      assert k + 1 == m;
      PascalNext(a, b, t, m);
    }
  }

  /** The base case of `PascalPrefix`. */
  lemma PascalBase(a: seq<real>, b: seq<real>, t: real)
    requires At(a, 0) == Mix(t, At(b, -1), At(b, 0))
    ensures Sum(a, 1) == Mix(t, Sum(b, 0), Sum(b, 1))
  {
    SumNext(a, 0);
    SumNext(b, 0);
    MixStep(0.0, 0.0, 0.0, Sum(b, 1), At(a, 0), At(b, -1), At(b, 0), t);
  }

  /** The inductive step of `PascalPrefix`. */
  lemma PascalNext(a: seq<real>, b: seq<real>, t: real, m: nat)
    requires m >= 1
    requires At(a, m) == Mix(t, At(b, m - 1), At(b, m))
    requires Sum(a, m) == Mix(t, Sum(b, m - 1), Sum(b, m))
    ensures Sum(a, m + 1) == Mix(t, Sum(b, m), Sum(b, m + 1))
  {
    var k := m - 1;
    SumNext(a, m);
    SumNext(b, m);
    SumNext(b, k);
    assert k + 1 == m;
    MixStep(Sum(a, m), Sum(b, k), Sum(b, m), Sum(b, m + 1), At(a, m), At(b, k), At(b, m), t);
  }

  /** The degree-n weights sum to 1 for every t. */
  lemma {:induction false} PartitionOfUnity(n: nat, t: real)
    ensures Sum(Weights(n, t), n + 1) == 1.0
  {
    if n == 0 {
      AtWeights(0, t, 0);
      WeightDegreeZero(0, t);
    } else {
      var k := n - 1;
      PartitionOfUnity(k, t);
      assert k + 1 == n;
      PascalRow(n, t);
      PascalPrefix(Weights(n, t), Weights(k, t), t, n);
      SumNext(Weights(k, t), n);
      MixOfOnes(Mix(t, Sum(Weights(k, t), n), Sum(Weights(k, t), n + 1)),
        Sum(Weights(k, t), n), Sum(Weights(k, t), n + 1), t);
    }
  }

  // ---------------------------------------------------------------------------
  // The convex-hull bound

  lemma {:induction false} CoefficientNonNegative(n: nat, k: int)
    ensures Coefficient(n, k) >= 0.0
  {
    if 0 < k < n {
      CoefficientNonNegative(n - 1, k - 1);
      CoefficientNonNegative(n - 1, k);
    }
  }

  /** On [0, 1] every weight is non-negative. */
  lemma WeightNonNegative(n: nat, i: int, t: real)
    requires 0.0 <= t <= 1.0
    ensures Weight(n, i, t) >= 0.0
  {
    if 0 <= i <= n {
      CoefficientNonNegative(n, i);
      PowNonNegative(t, i);
      PowNonNegative(1.0 - t, n - i);
      ProductNonNegative(Coefficient(n, i), Pow(t, i), Pow(1.0 - t, n - i));
    }
  }

  /** With non-negative weights and values in [lo, hi], the blend lies between lo and hi times the weight sum. */
  lemma {:induction false} DotBounds(w: seq<real>, p: seq<real>, m: nat, lo: real, hi: real)
    requires forall i :: At(w, i) >= 0.0
    requires forall i :: 0 <= i < |p| ==> lo <= p[i] <= hi
    requires m <= |p|
    ensures lo * Sum(w, m) <= Dot(w, p, m) <= hi * Sum(w, m)
  {
    if m > 0 {
      DotBounds(w, p, m - 1, lo, hi);
      assert At(p, m - 1) == p[m - 1];
      ScaledBounds(At(w, m - 1), Sum(w, m - 1), Sum(w, m), Dot(w, p, m - 1), Dot(w, p, m), At(p, m - 1), lo, hi);
    }
  }

  /** Convex hull: a curve whose control values lie in [lo, hi] stays in [lo, hi] for every t. */
  lemma ConvexHull(ps: seq<real>, t: real, lo: real, hi: real)
    requires |ps| >= 1
    requires forall i :: 0 <= i < |ps| ==> lo <= ps[i] <= hi
    ensures lo <= BezierAt(t, ps) <= hi
  {
    var n, tc := |ps| - 1, Clamp(t);
    var ws := Weights(n, tc);
    forall i
      ensures At(ws, i) >= 0.0
    {
      AtWeights(n, tc, i);
      WeightNonNegative(n, i, tc);
    }
    DotBounds(ws, ps, |ps|, lo, hi);
    PartitionOfUnity(n, tc);
    UnitBounds(Sum(ws, |ps|), Dot(ws, ps, |ps|), lo, hi);
  }

  // ---------------------------------------------------------------------------
  // Arithmetic steps on plain reals. Each states one identity or inequality
  // of real arithmetic over variables only; the proofs above pass the values
  // of recursive functions (weights, sums, powers) to them as arguments, so
  // the solver meets each nonlinear fact once, over plain variables, instead
  // of inside the function definitions.

  /** A product with a zero factor in first or second place is zero. */
  lemma ZeroFactor(a: real, b: real, c: real)
    requires b == 0.0
    ensures a * b * c == 0.0 && a * b == 0.0
  {
  }

  /** x y is y or 0 as x is 1 or 0. */
  lemma UnitProduct(x: real, y: real, one: bool)
    requires x == if one then 1.0 else 0.0
    ensures x * y == if one then y else 0.0
  {
  }

  /** Unrolling a two-term blend, on plain reals. */
  lemma TwoTerms(d2: real, d1: real, d0: real, w0: real, w1: real, a0: real, a1: real,
                 u: real, v: real, p0: real, p1: real)
    requires d2 == d1 + w1 * a1 && d1 == d0 + w0 * a0 && d0 == 0.0
    requires w0 == u && w1 == v && a0 == p0 && a1 == p1
    ensures d2 == u * p0 + v * p1
  {
  }

  /** The first-entry case of `WeightPascal` on plain reals. */
  lemma FirstStep(w: real, v: real, z: real, c1: real, c0: real, one: real, q: real, uq: real, t: real)
    requires w == c1 * one * q && v == c0 * one * uq && z == 0.0
    requires c1 == 1.0 && c0 == 1.0 && one == 1.0 && q == (1.0 - t) * uq
    ensures w == Mix(t, z, v)
  {
  }

  /** The last-entry case of `WeightPascal` on plain reals. */
  lemma LastStep(w: real, v: real, z: real, c1: real, c0: real, one: real, p: real, tp: real, t: real)
    requires w == c1 * p * one && v == c0 * tp * one && z == 0.0
    requires c1 == 1.0 && c0 == 1.0 && one == 1.0 && p == t * tp
    ensures w == Mix(t, v, z)
  {
  }

  /** The middle case of `WeightPascal` on plain reals. */
  lemma MiddleStep(w: real, w1: real, w0: real, c: real, a: real, b: real,
                   p: real, tp: real, q: real, up: real, t: real)
    requires w == c * p * q && w1 == a * tp * q && w0 == b * p * up
    requires c == a + b && p == t * tp && q == (1.0 - t) * up
    ensures w == Mix(t, w1, w0)
  {
    assert w == a * p * q + b * p * q;
    assert a * p * q == t * (a * tp * q);
    assert b * p * q == (1.0 - t) * (b * p * up);
  }

  /** Blends add up: the ring identity behind `PascalPrefix`, on plain reals. */
  lemma MixStep(before: real, s0: real, s1: real, s2: real, w: real, w1: real, w0: real, t: real)
    requires before == Mix(t, s0, s1) && w == Mix(t, w1, w0)
    requires s1 == s0 + w1 && s2 == s1 + w0
    ensures before + w == Mix(t, s1, s2)
  {
  }

  /** A blend of two ones is one, on plain reals. */
  lemma MixOfOnes(s: real, x: real, y: real, t: real)
    requires s == Mix(t, x, y) && x == 1.0 && y == 1.0
    ensures s == 1.0
  {
  }

  /** A product of three non-negative factors is non-negative. */
  lemma ProductNonNegative(a: real, b: real, c: real)
    requires a >= 0.0 && b >= 0.0 && c >= 0.0
    ensures a * b * c >= 0.0
  {
  }

  /** One step of the bound: adding w p with w >= 0 and lo <= p <= hi keeps the sandwich. */
  lemma ScaledBounds(w: real, s: real, s': real, acc: real, acc': real, p: real, lo: real, hi: real)
    requires w >= 0.0 && lo <= p <= hi
    requires lo * s <= acc <= hi * s
    requires s' == s + w && acc' == acc + w * p
    ensures lo * s' <= acc' <= hi * s'
  {
    assert lo * w <= w * p <= hi * w;
  }

  /** With weight sum 1 the sandwich is [lo, hi] itself, on plain reals. */
  lemma UnitBounds(s: real, d: real, lo: real, hi: real)
    requires s == 1.0 && lo * s <= d <= hi * s
    ensures lo <= d <= hi
  {
  }
}
