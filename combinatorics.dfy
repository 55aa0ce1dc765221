/**
 * The binomial helper `ncr` of the classical dot simulator, and the
 * reference binomial coefficient (Pascal's rule) it is proved against.
 */
module Combinatorics {

  datatype Option<T> = None | Some(value: T)

  /** r! = reduce(mul, range(1, r + 1)) for r >= 1, and 1 for r == 0 */
  function Factorial(r: nat): (f: nat)
    ensures f >= 1
  {
    if r == 0 then 1 else r * Factorial(r - 1)
  }

  /** n * (n - 1) * ... * (n - r + 1) = reduce(mul, range(n, n - r, -1)) for r >= 1 */
  function FallingProduct(n: int, r: nat): int
    decreases r
  {
    if r == 0 then 1 else n * FallingProduct(n - 1, r - 1)
  }

  /** The binomial coefficient, defined independently of `Ncr` by Pascal's rule. */
  function Binomial(n: nat, k: nat): nat
  {
    if k == 0 then 1
    else if n == 0 then 0
    else Binomial(n - 1, k - 1) + Binomial(n - 1, k)
  }

  /**
   * ncr(n, r): r is replaced by min(r, n - r); 0 gives 1; otherwise the
   * falling product is floor-divided by r!.  When min(r, n - r) is negative
   * the range reduced over is empty, and `functools.reduce` without an
   * initial value raises; that error is `None` here.
   */
  function Ncr(n: int, r: int): (c: Option<int>)
    ensures c.Some? <==> 0 <= r <= n
  {
    var k := if r <= n - r then r else n - r;
    if k == 0 then Some(1)
    else if k < 0 then None
    else Some(FallingProduct(n, k) / Factorial(k))
  }

  lemma {:induction false} BinomialAboveTop(n: nat, k: nat)
    requires k > n
    ensures Binomial(n, k) == 0
  {
    if n > 0 {
      BinomialAboveTop(n - 1, k - 1);
      BinomialAboveTop(n - 1, k);
    }
  }

  lemma {:induction false} BinomialTop(n: nat)
    ensures Binomial(n, n) == 1
  {
    if n > 0 {
      BinomialTop(n - 1);
      BinomialAboveTop(n - 1, n);
    }
  }

  /** C(n, k) == C(n, n - k) */
  lemma {:induction false} BinomialSymmetric(n: nat, k: nat)
    requires k <= n
    ensures Binomial(n, k) == Binomial(n, n - k)
  {
    if k == 0 {
      BinomialTop(n);
    } else if k == n {
      BinomialTop(n);
    } else {
      BinomialSymmetric(n - 1, k - 1);
      BinomialSymmetric(n - 1, k);
      assert n - 1 - (k - 1) == n - k;
      assert Binomial(n, n - k) == Binomial(n - 1, n - k - 1) + Binomial(n - 1, n - k);
    }
  }

  /** One more factor at the low end of a falling product. */
  lemma {:induction false} FallingProductStep(n: int, r: nat)
    ensures FallingProduct(n, r + 1) == FallingProduct(n, r) * (n - r)
    decreases r
  {
    if r > 0 {
      FallingProductStep(n - 1, r - 1);
      calc {
        FallingProduct(n, r + 1);
        n * FallingProduct(n - 1, r);
        n * (FallingProduct(n - 1, r - 1) * (n - 1 - (r - 1)));
        (n * FallingProduct(n - 1, r - 1)) * (n - r);
        FallingProduct(n, r) * (n - r);
      }
    }
  }

  /** The falling product is r! times the binomial coefficient. */
  lemma {:induction false} FallingProductIsFactorialTimesBinomial(n: nat, k: nat)
    ensures FallingProduct(n, k) == Factorial(k) * Binomial(n, k)
  {
    if k == 0 {
    } else if n == 0 {
      assert FallingProduct(0, k) == 0 * FallingProduct(-1, k - 1);
    } else {
      FallingProductIsFactorialTimesBinomial(n - 1, k - 1);
      FallingProductIsFactorialTimesBinomial(n - 1, k);
      FallingProductStep(n - 1, k - 1);
      var p := FallingProduct(n - 1, k - 1);
      var f, a, b := Factorial(k - 1), Binomial(n - 1, k - 1), Binomial(n - 1, k);
      assert Factorial(k) == k * f;
      assert FallingProduct(n, k) == n * p;
      assert k * f * b == p * (n - k) by {
        assert Factorial(k) * b == FallingProduct(n - 1, k);
        assert FallingProduct(n - 1, k) == p * (n - 1 - (k - 1));
      }
      PascalStep(n, k, p, f, a, b);
      assert Binomial(n, k) == a + b;
    }
  }

  /** The arithmetic step of the induction above: r! C(n-1, r-1) + r! C(n-1, r) = n (n-1)...(n-r+1). */
  lemma PascalStep(n: int, k: int, p: int, f: int, a: int, b: int)
    requires p == f * a
    requires k * f * b == p * (n - k)
    ensures k * f * (a + b) == n * p
  {
    calc {
      k * f * (a + b);
      k * f * a + k * f * b;
      k * (f * a) + p * (n - k);
      k * p + p * (n - k);
      n * p;
    }
  }

  /** ncr(n, r) is the binomial coefficient C(n, r) on its whole domain 0 <= r <= n. */
  lemma NcrIsBinomial(n: int, r: int)
    requires 0 <= r <= n
    ensures Ncr(n, r) == Some(Binomial(n, r))
  {
    var k := if r <= n - r then r else n - r;
    BinomialSymmetric(n, r);
    assert Binomial(n, k) == Binomial(n, r);
    if k > 0 {
      FallingProductIsFactorialTimesBinomial(n, k);
      ExactDivision(FallingProduct(n, k), Factorial(k), Binomial(n, k));
    } else {
      assert k == 0;
      if r == n { BinomialTop(n); }
    }
  }

  lemma ExactDivision(x: int, f: int, c: int)
    requires f > 0 && x == f * c
    ensures x / f == c
  {
    var q, m := x / f, x % f;
    assert x == f * q + m && 0 <= m < f;
    var d := c - q;
    assert f * d == m by {
      assert f * c == f * q + f * d;
    }
  }

  /** ncr(n, 0) == ncr(n, n) == 1 and ncr(n, r) == ncr(n, n - r). */
  lemma NcrEdgesAndSymmetry(n: nat, r: int)
    requires 0 <= r <= n
    ensures Ncr(n, 0) == Some(1) && Ncr(n, n) == Some(1)
    ensures Ncr(n, r) == Ncr(n, n - r)
  {
  }

  /** The number of unordered pairs of d dots is ncr(d, 2) = d (d - 1) / 2. */
  lemma NcrTwo(d: nat)
    requires d >= 2
    ensures Ncr(d, 2) == Some(d * (d - 1) / 2)
  {
    NcrIsBinomial(d, 2);
    FallingProductIsFactorialTimesBinomial(d, 2);
    assert FallingProduct(d, 2) == d * ((d - 1) * 1);
    assert Factorial(2) == 2;
  }
}
