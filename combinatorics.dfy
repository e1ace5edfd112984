// Integer combinatorics behind the Bernstein blend: `factorial` and
// `binomial` of Bezier.h, over unbounded integers, together with Pascal's
// triangle as an independent reference definition of the binomial coefficient.

module Combinatorics {

  /** `factorial(n)`: 1 for every n <= 1 (negative n included), n * (n-1)! above. */
  function Factorial(n: int): int
    decreases n
  {
    if n > 1 then n * Factorial(n - 1) else 1
  }

  /** n! >= 1 for every n, so the divisor in `binomial` is never zero. */
  lemma {:induction false} FactorialPositive(n: int)
    ensures Factorial(n) >= 1
    decreases n
  {
    if n > 1 {
      FactorialPositive(n - 1);
      MultipleBounds(n, Factorial(n - 1));
    }
  }

  /** k! (n-k)! > 0. */
  lemma DivisorPositive(n: int, k: int)
    ensures Factorial(k) * Factorial(n - k) > 0
  {
    FactorialPositive(k);
    FactorialPositive(n - k);
  }

  /**
   * `binomial(n, k)`: n! / (k! * (n-k)!). Both operands are `int` in the
   * source, so this is integer division; the divisor is positive, so Dafny's
   * Euclidean division agrees with C's truncating one here.
   */
  function Binomial(n: int, k: int): int
  {
    DivisorPositive(n, k);
    Factorial(n) / (Factorial(k) * Factorial(n - k))
  }

  /** Pascal's triangle: the reference definition the division is checked against. */
  function Pascal(n: nat, k: int): (r: nat)
    ensures r >= 1 <==> 0 <= k <= n
  {
    if k < 0 || k > n then 0
    else if k == 0 || k == n then 1
    else Pascal(n - 1, k - 1) + Pascal(n - 1, k)
  }

  /** One unfolding of the factorial recursion, valid from 1 upwards (1! == 1 * 0!). */
  lemma FactorialStep(m: int)
    requires m >= 1
    ensures Factorial(m) == m * Factorial(m - 1)
  {
  }

  /** Pascal's coefficient times k! (n-k)! is n!: the factorial formula is exact. */
  lemma {:induction false} PascalTimesFactorials(n: nat, k: int)
    requires 0 <= k <= n
    ensures Pascal(n, k) * (Factorial(k) * Factorial(n - k)) == Factorial(n)
  {
    if k == 0 || k == n {
      assert Factorial(0) == 1;
      assert Factorial(n - n) == 1;
    } else {
      var a, b := Pascal(n - 1, k - 1), Pascal(n - 1, k);
      var fk1, fnk1, fn1 := Factorial(k - 1), Factorial(n - k - 1), Factorial(n - 1);
      PascalTimesFactorials(n - 1, k - 1);
      PascalTimesFactorials(n - 1, k);
      assert a * (fk1 * Factorial(n - k)) == fn1;
      assert b * (Factorial(k) * fnk1) == fn1;
      FactorialStep(k);
      FactorialStep(n - k);
      FactorialStep(n);
      SplitProduct(a, b, k, n - k, fk1, fnk1, fn1);
    }
  }

  /**
   * The arithmetic step of the Pascal induction: if a (k-1)! m! == F and
   * b k! (m-1)! == F, then (a + b) k! m! == (k + m) F, where k! == k (k-1)!
   * and m! == m (m-1)!.
   */
  lemma SplitProduct(a: int, b: int, k: int, m: int, fk1: int, fm1: int, f: int)
    requires a * (fk1 * (m * fm1)) == f
    requires b * ((k * fk1) * fm1) == f
    ensures (a + b) * ((k * fk1) * (m * fm1)) == (k + m) * f
  {
    var x, y := k * fk1, m * fm1;
    assert (a + b) * (x * y) == a * (x * y) + b * (x * y);
    assert a * (x * y) == k * (a * (fk1 * y));
    assert b * (x * y) == m * (b * (x * fm1));
  }

  /** Integer division of an exact multiple gives back the factor. */
  lemma ExactQuotient(c: int, d: int)
    requires d > 0
    ensures (c * d) / d == c
  {
    var q, r := (c * d) / d, (c * d) % d;
    assert c * d == q * d + r && 0 <= r < d;
    assert (c - q) * d == r;
    MultipleBounds(c - q, d);
  }

  /** A non-zero multiple of a positive d is at least d away from zero. */
  lemma MultipleBounds(x: int, d: int)
    requires d > 0
    ensures x >= 1 ==> x * d >= d
    ensures x <= -1 ==> x * d <= -d
  {
  }

  /** Within 0 <= k <= n the division in `binomial` is exact ... */
  lemma BinomialExact(n: int, k: int)
    requires 0 <= k <= n
    ensures Binomial(n, k) * (Factorial(k) * Factorial(n - k)) == Factorial(n)
  {
    BinomialIsPascal(n, k);
    PascalTimesFactorials(n, k);
  }

  /** ... and yields the entry of Pascal's triangle. */
  lemma BinomialIsPascal(n: int, k: int)
    requires 0 <= k <= n
    ensures Binomial(n, k) == Pascal(n, k)
  {
    PascalTimesFactorials(n, k);
    DivisorPositive(n, k);
    ExactQuotient(Pascal(n, k), Factorial(k) * Factorial(n - k));
  }

  /** Within range the coefficient is at least 1 (it never truncates to 0). */
  lemma BinomialPositive(n: int, k: int)
    requires 0 <= k <= n
    ensures Binomial(n, k) >= 1
  {
    BinomialIsPascal(n, k);
  }

  /** C(n, k) == C(n, n-k). */
  lemma BinomialSymmetric(n: int, k: int)
    requires 0 <= k <= n
    ensures Binomial(n, k) == Binomial(n, n - k)
  {
    assert n - (n - k) == k;
    assert Factorial(k) * Factorial(n - k) == Factorial(n - k) * Factorial(k);
  }

  /** Pascal's rule holds for the factorial formula: C(n, k) == C(n-1, k-1) + C(n-1, k). */
  lemma BinomialPascalRule(n: int, k: int)
    requires 0 < k < n
    ensures Binomial(n, k) == Binomial(n - 1, k - 1) + Binomial(n - 1, k)
  {
    BinomialIsPascal(n, k);
    BinomialIsPascal(n - 1, k - 1);
    BinomialIsPascal(n - 1, k);
  }

  /** The edges of the triangle: C(n, 0) == C(n, n) == 1. */
  lemma BinomialEdges(n: int)
    requires n >= 0
    ensures Binomial(n, 0) == 1 && Binomial(n, n) == 1
  {
    BinomialIsPascal(n, 0);
    BinomialIsPascal(n, n);
  }

  /** From 0 upwards the factorial never decreases. */
  lemma {:induction false} FactorialMonotone(m: int, n: int)
    requires 0 <= m <= n
    ensures Factorial(m) <= Factorial(n)
    decreases n
  {
    if m < n {
      FactorialMonotone(m, n - 1);
      FactorialPositive(n - 1);
      var f := Factorial(n - 1);
      assert Factorial(n) == n * f;
      assert n * f >= f;
    }
  }

  /** Concrete values: 5! == 120 and C(4, 2) == 6. */
  lemma SmallValues()
    ensures Factorial(5) == 120
    ensures Binomial(4, 2) == 6
  {
  }

  // The source's `int` is 32 bits wide. The functions above are the exact
  // ones the rest of the model uses; those below model the 32-bit
  // arithmetic, where the factorial overflows from 13! on.

  /** A 32-bit two's-complement `int` result: x reduced into [-2^31, 2^31). */
  function Wrap32(x: int): (r: int)
    ensures -0x8000_0000 <= r < 0x8000_0000
    ensures -0x8000_0000 <= x < 0x8000_0000 ==> r == x
  {
    (x + 0x8000_0000) % 0x1_0000_0000 - 0x8000_0000
  }

  /** C's `/` on `int`: the quotient truncated toward zero. */
  function Quot(a: int, b: int): (q: int)
    requires b != 0
    ensures a >= 0 && b > 0 ==> q == a / b
  {
    var m, d := if a < 0 then -a else a, if b < 0 then -b else b;
    if (a < 0) == (b < 0) then m / d else -(m / d)
  }

  /** `factorial` as written, with every product wrapped to 32 bits. */
  function Factorial32(n: int): int
    decreases n
  {
    if n > 1 then Wrap32(n * Factorial32(n - 1)) else 1
  }

  /**
   * `binomial` as written over 32-bit `int`, where the divisor is not zero.
   * Up to degree 12 nothing overflows and it is the exact coefficient.
   */
  function Binomial32(n: int, k: int): int
    requires Wrap32(Factorial32(k) * Factorial32(n - k)) != 0
  {
    Quot(Factorial32(n), Wrap32(Factorial32(k) * Factorial32(n - k)))
  }

  /** Up to degree 12 nothing overflows: the 32-bit `binomial` is defined and exact. */
  lemma Binomial32Exact(n: int, k: int)
    requires 0 <= k <= n <= 12
    ensures Wrap32(Factorial32(k) * Factorial32(n - k)) != 0
    ensures Binomial32(n, k) == Binomial(n, k)
  {
    SmallOperands(n, k);
    var c, d := Binomial(n, k), Factorial(k) * Factorial(n - k);
    BinomialPositive(n, k);
    QuotOfProduct(c, d);
    assert Factorial32(n) == c * d;
    assert Wrap32(Factorial32(k) * Factorial32(n - k)) == d;
  }

  /** Dividing a product by one of its positive factors gives the other. */
  lemma QuotOfProduct(c: int, d: int)
    requires c >= 1 && d > 0
    ensures Quot(c * d, d) == c
  {
    MultipleBounds(c, d);
    ExactQuotient(c, d);
  }

  /** Up to degree 12 the operands of the 32-bit `binomial` are the exact ones. */
  lemma SmallOperands(n: int, k: int)
    requires 0 <= k <= n <= 12
    ensures Factorial32(n) == Factorial(n) == Binomial(n, k) * (Factorial(k) * Factorial(n - k))
    ensures Wrap32(Factorial32(k) * Factorial32(n - k)) == Factorial(k) * Factorial(n - k) > 0
  {
    Factorial32Exact(n);
    Factorial32Exact(k);
    Factorial32Exact(n - k);
    BinomialExact(n, k);
    BinomialPositive(n, k);
    DivisorPositive(n, k);
    FactorialMonotone(n, 12);
    assert Factorial(12) == 479001600;
    FactorBelow(Binomial(n, k), Factorial(k) * Factorial(n - k), Factorial(n));
  }

  /** 12!, the largest factorial a 32-bit `int` holds. */
  lemma TwelveFactorial()
    ensures Factorial(12) == 479001600
  {
  }

  /** A positive factor of a product no larger than 12! is no larger than 12!. */
  lemma FactorBelow(c: int, d: int, f: int)
    requires c >= 1 && d > 0 && c * d == f <= 479001600
    ensures d <= 479001600
  {
    MultipleBounds(c, d);
  }

  /** Up to 12! the 32-bit factorial is exact. */
  lemma {:induction false} Factorial32Exact(n: int)
    requires n <= 12
    ensures Factorial32(n) == Factorial(n)
    decreases n
  {
    if n > 1 {
      Factorial32Exact(n - 1);
      FactorialMonotone(n, 12);
      TwelveFactorial();
      FactorialStep(n);
      var f := Factorial(n - 1);
      assert Factorial32(n) == Wrap32(n * f);
      assert n * f <= 479001600;
    }
  }

  /**
   * 13! overflows: a curve of 14 control points, degree 13, gets the
   * coefficient 4 for C(13, 1), where the exact value is 13.
   */
  lemma Overflow()
    ensures Factorial(13) == 6227020800 && Factorial32(13) == 1932053504
    ensures Binomial32(13, 1) == 4 && Binomial(13, 1) == 13
  {
    Factorial32Exact(12);
    assert Factorial(12) == 479001600;
    BinomialIsPascal(13, 1);
  }
}
