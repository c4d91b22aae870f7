/**
 * Sums over a list, as Python's `sum` over a list comprehension computes
 * them, and the algebra the reliability formulas rely on.
 */
module Sums {

  /** The sum of `f(x)` over the elements `x` of `xs`, in list order. */
  function SumOf<T>(xs: seq<T>, f: T -> real): real
    decreases |xs|
  {
    if |xs| == 0 then 0.0 else f(xs[0]) + SumOf(xs[1..], f)
  }

  /** A sum over a concatenation splits into the sums over its parts. */
  lemma {:induction false} SumOfAppend<T>(xs: seq<T>, ys: seq<T>, f: T -> real)
    ensures SumOf(xs + ys, f) == SumOf(xs, f) + SumOf(ys, f)
    decreases |xs|
  {
    if |xs| == 0 {
      assert xs + ys == ys;
    } else {
      assert (xs + ys)[1..] == xs[1..] + ys;
      SumOfAppend(xs[1..], ys, f);
    }
  }

  /** Reordering the list does not change the sum. */
  lemma {:induction false} SumOfPermutation<T>(xs: seq<T>, ys: seq<T>, f: T -> real)
    requires multiset(xs) == multiset(ys)
    ensures SumOf(xs, f) == SumOf(ys, f)
    decreases |xs|
  {
    if |xs| == 0 {
      assert |ys| == |multiset(ys)| == 0;
    } else {
      var x := xs[0];
      assert x in multiset(ys);
      var k :| 0 <= k < |ys| && ys[k] == x;
      var rest := ys[..k] + ys[k + 1..];
      assert ys == ys[..k] + ([x] + ys[k + 1..]);
      assert xs == [x] + xs[1..];
      assert multiset(ys) == multiset(ys[..k]) + multiset{x} + multiset(ys[k + 1..]);
      assert multiset(xs) == multiset{x} + multiset(xs[1..]);
      assert multiset(rest) == multiset(ys[..k]) + multiset(ys[k + 1..]);
      assert multiset(xs[1..]) == multiset(xs) - multiset{x};
      assert multiset(rest) == multiset(ys) - multiset{x};
      SumOfPermutation(xs[1..], rest, f);
      SumOfAppend(ys[..k], [x] + ys[k + 1..], f);
      SumOfAppend(ys[..k], ys[k + 1..], f);
      assert ([x] + ys[k + 1..])[1..] == ys[k + 1..];
    }
  }

  /** A sum of non-negative terms is non-negative. */
  lemma {:induction false} SumOfNonNegative<T>(xs: seq<T>, f: T -> real)
    ensures (forall x :: x in xs ==> 0.0 <= f(x)) ==> 0.0 <= SumOf(xs, f)
    decreases |xs|
  {
    if |xs| != 0 && forall x :: x in xs ==> 0.0 <= f(x) {
      assert xs[0] in xs;
      assert forall x :: x in xs[1..] ==> x in xs;
      SumOfNonNegative(xs[1..], f);
    }
  }

  /** Termwise `f <= g` on the elements of `xs` gives `SumOf(xs, f) <= SumOf(xs, g)`. */
  lemma {:induction false} SumOfMonotone<T>(xs: seq<T>, f: T -> real, g: T -> real)
    requires forall x :: x in xs ==> f(x) <= g(x)
    ensures SumOf(xs, f) <= SumOf(xs, g)
    decreases |xs|
  {
    if |xs| != 0 {
      assert xs[0] in xs;
      SumOfMonotone(xs[1..], f, g);
    }
  }

  /** Sums of functions that agree on the elements of `xs` are equal. */
  lemma SumOfCongruent<T>(xs: seq<T>, f: T -> real, g: T -> real)
    requires forall x :: x in xs ==> f(x) == g(x)
    ensures SumOf(xs, f) == SumOf(xs, g)
  {
    SumOfMonotone(xs, f, g);
    SumOfMonotone(xs, g, f);
  }

  /** A common divisor of every term comes out of the sum. */
  lemma {:induction false} SumOfDivided<T>(xs: seq<T>, f: T -> real, g: T -> real, t: real)
    requires t != 0.0
    requires forall x :: x in xs ==> g(x) == f(x) / t
    ensures SumOf(xs, g) == SumOf(xs, f) / t
    decreases |xs|
  {
    if |xs| != 0 {
      assert xs[0] in xs;
      SumOfDivided(xs[1..], f, g, t);
      SumOfQuotients(f(xs[0]), SumOf(xs[1..], f), t);
    }
  }

  /** `a / t + b / t == (a + b) / t`. */
  lemma SumOfQuotients(a: real, b: real, t: real)
    requires t != 0.0
    ensures a / t + b / t == (a + b) / t
  {
  }

  /** When every term lies in [lo, hi], the sum lies in [lo * |xs|, hi * |xs|]. */
  lemma {:induction false} SumOfBounded<T>(xs: seq<T>, f: T -> real, lo: real, hi: real)
    requires forall x :: x in xs ==> lo <= f(x) <= hi
    ensures lo * |xs| as real <= SumOf(xs, f) <= hi * |xs| as real
    decreases |xs|
  {
    if |xs| != 0 {
      assert xs[0] in xs;
      SumOfBounded(xs[1..], f, lo, hi);
      assert lo * |xs| as real == lo + lo * |xs[1..]| as real;
      assert hi * |xs| as real == hi + hi * |xs[1..]| as real;
    }
  }

  /**
   * Termwise `lo * w(x) <= s(x) <= hi * w(x)` with non-negative weights `w`
   * carries over to the sums, and the sum of the weights is non-negative.
   */
  lemma {:induction false} SumOfWeightedBetween<T>(xs: seq<T>, w: T -> real, s: T -> real, lo: real, hi: real)
    requires forall x :: x in xs ==> 0.0 <= w(x) && lo * w(x) <= s(x) <= hi * w(x)
    ensures 0.0 <= SumOf(xs, w)
    ensures lo * SumOf(xs, w) <= SumOf(xs, s) <= hi * SumOf(xs, w)
    decreases |xs|
  {
    if |xs| != 0 {
      var x := xs[0];
      assert x in xs;
      SumOfWeightedBetween(xs[1..], w, s, lo, hi);
      var w0, rest := w(x), SumOf(xs[1..], w);
      assert SumOf(xs, w) == w0 + rest;
      Distribute(lo, w0, rest);
      Distribute(hi, w0, rest);
    }
  }

  /** `c * (a + b) == c * a + c * b`. */
  lemma Distribute(c: real, a: real, b: real)
    ensures c * (a + b) == c * a + c * b
  {
  }

  /** `lo * t <= n <= hi * t` with `t > 0` gives `lo <= n / t <= hi`. */
  lemma QuotientBetween(n: real, t: real, lo: real, hi: real)
    requires t > 0.0 && lo * t <= n <= hi * t
    ensures lo <= n / t <= hi
  {
  }

  /** A product `d * w / m` with `0 <= d <= m` and `w` in [0, 1] lies in [0, 1]. */
  lemma NormalisedProductInUnitRange(d: real, w: real, m: real)
    requires 0.0 <= d <= m && 0.0 <= w <= 1.0 && m > 0.0
    ensures 0.0 <= d * w / m <= 1.0
  {
    assert 0.0 <= d * w <= d;
    assert d * w <= 1.0 * m;
    QuotientBetween(d * w, m, 0.0, 1.0);
  }

  /** A mean of `n` values that sum to a number in [0, n] lies in [0, 1]. */
  lemma MeanInUnitRange(total: real, n: nat)
    requires n > 0 && 0.0 <= total <= n as real
    ensures 0.0 <= total / n as real <= 1.0
  {
  }

  /** `lo * w <= d * w <= hi * w` for `d` in [lo, hi] and `w >= 0`. */
  lemma WeightedBetween(d: real, w: real, lo: real, hi: real)
    requires lo <= d <= hi && 0.0 <= w
    ensures lo * w <= d * w <= hi * w
  {
  }

  /** Dividing by `m` and then by `n` is dividing by `m * n`. */
  lemma DivisionTwice(q: real, s: real, m: real, n: real)
    requires m > 0.0 && n > 0.0 && q == s / m
    ensures q / n == s / (m * n)
  {
  }
}
