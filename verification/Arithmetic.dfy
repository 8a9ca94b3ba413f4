/** Facts about division and sums that several models need. */
module Arithmetic {

  lemma DivisionIsUnique(k: nat, n: nat, q: nat, r: nat)
    requires 0 <= r < n && k == q * n + r
    ensures k % n == r
  {
    var d := k / n - q;
    assert k == (k / n) * n + k % n;
    assert d * n == r - k % n;
    Multiple(d, n);
  }

  lemma Multiple(d: int, n: nat)
    requires n > 0
    ensures d >= 1 ==> d * n >= n
    ensures d >= 2 ==> d * n >= 2 * n
    ensures d <= -1 ==> d * n + n <= 0
    ensures d == 1 ==> d * n == n
    ensures d == 0 ==> d * n == 0
  {
  }

  lemma AtLeastTwice(x: nat, k: nat)
    requires k >= 2
    ensures x * k >= 2 * x
  {
    assert x * k == 2 * x + x * (k - 2);
  }

  /** The quotient of a number that is at least as large as the divisor. */
  lemma Quotient(x: nat, k: nat)
    requires k >= 2
    ensures x == (x / k) * k + x % k && 2 * (x / k) <= x
    ensures x >= k ==> x / k > 0
  {
    assert x == (x / k) * k + x % k;
    AtLeastTwice(x / k, k);
  }

  lemma SmallRemainder(x: nat, m: nat)
    requires m > 0
    ensures x < m ==> x % m == x
    ensures m <= x < 2 * m ==> x % m == x - m
  {
    if x < m {
      DivisionIsUnique(x, m, 0, x);
    } else if x < 2 * m {
      DivisionIsUnique(x, m, 1, x - m);
    }
  }

  lemma QuotientIsUnique(x: nat, k: nat, q: nat, r: nat)
    requires r < k && x == q * k + r
    ensures x / k == q && x % k == r
  {
    DivisionIsUnique(x, k, q, r);
    assert x == (x / k) * k + x % k;
    Multiple(x / k - q, k);
    assert (x / k - q) * k == (x / k) * k - q * k;
  }

  lemma QuotientIsMonotone(x: nat, y: nat, k: nat)
    requires k > 0 && x <= y
    ensures x / k <= y / k
  {
    assert x == (x / k) * k + x % k && y == (y / k) * k + y % k;
    Multiple(x / k - y / k, k);
    assert (x / k - y / k) * k == (x / k) * k - (y / k) * k;
  }

  lemma Remainder(x: int, m: nat)
    requires m > 0
    ensures 0 <= x < m ==> x % m == x
  {
    if 0 <= x < m {
      SmallRemainder(x, m);
    }
  }

  lemma ProductBound(k: nat, x: nat, y: nat)
    requires k > 0 && x <= y / k
    ensures k * x <= y
  {
    assert y == (y / k) * k + y % k;
    assert k * x + k * (y / k - x) == (y / k) * k;
  }

  // ----- Sums

  function Total(xs: seq<real>): real {
    if xs == [] then 0.0 else Total(xs[..|xs| - 1]) + xs[|xs| - 1]
  }

  lemma {:induction false} TotalOfBoth(xs: seq<real>, ys: seq<real>)
    ensures Total(xs + ys) == Total(xs) + Total(ys)
    decreases |ys|
  {
    if ys == [] {
      assert xs + ys == xs;
    } else {
      var n := |ys| - 1;
      assert (xs + ys)[..|xs| + n] == xs + ys[..n];
      TotalOfBoth(xs, ys[..n]);
    }
  }
}
