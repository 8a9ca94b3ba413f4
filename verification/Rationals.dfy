/** Fractions and the lowest terms the program keeps them in. */
module Rationals {
  import opened Arithmetic

  /** No number has denominator zero; in lowest terms it is positive. */
  datatype Number = Number(num: int, den: int)

  /** Equality as the program defines it. */
  predicate SameNumber(a: Number, b: Number) {
    a.num * b.den == a.den * b.num
  }

  function Abs(x: int): nat {
    if x < 0 then -x else x
  }

  /** Quotient, rounded down, and remainder. */
  function Divide(x: int, d: nat): (r: (int, nat))
    requires d > 0
    ensures x == r.0 * d + r.1 && r.1 < d
    ensures x >= 0 ==> r.0 >= 0
    decreases if x < 0 then d - x else x
  {
    if x < 0 then
      var rest := Divide(x + d, d);
      assert (rest.0 - 1) * d == rest.0 * d - d;
      (rest.0 - 1, rest.1)
    else if x < d then (0, x)
    else
      var rest := Divide(x - d, d);
      assert (rest.0 + 1) * d == rest.0 * d + d;
      (rest.0 + 1, rest.1)
  }

  lemma {:induction false} DivideIsUnique(x: int, d: nat, q: int, r: nat)
    requires r < d && x == q * d + r
    ensures Divide(x, d) == (q, r)
  {
    var (p, s) := Divide(x, d);
    assert (p - q) * d == p * d - q * d;
    Multiple(p - q, d);
  }

  lemma {:induction false} DivideIsDivision(x: nat, d: nat)
    requires d > 0
    ensures Divide(x, d) == (x / d, x % d)
  {
    QuotientIsUnique(x, d, Divide(x, d).0, Divide(x, d).1);
  }

  function Gcd(a: nat, b: nat): nat
    decreases b
  {
    if b == 0 then a else Gcd(b, Divide(a, b).1)
  }

  predicate IsSimple(n: Number) {
    n.den > 0 && Gcd(Abs(n.num), n.den) == 1
  }

  lemma TimesRight(q: int, y: nat, r: nat, v: nat)
    ensures (q * y + r) * v == q * (y * v) + r * v
  {
  }

  lemma {:induction false} GcdDivides(a: nat, b: nat) returns (i: nat, j: nat)
    requires a > 0 || b > 0
    ensures Gcd(a, b) > 0 && a == i * Gcd(a, b) && b == j * Gcd(a, b)
    decreases b
  {
    if b == 0 {
      i, j := 1, 0;
    } else {
      var (q, r) := Divide(a, b);
      var k, l := GcdDivides(b, r);
      i, j := q * k + l, k;
      TimesRight(q, k, l, Gcd(b, r));
    }
  }

  lemma TimesLeft(q: int, y: nat, r: nat, v: nat)
    ensures v * (q * y + r) == q * (v * y) + v * r
  {
  }

  lemma QuotientAtMost(q: int, p: int, d: nat, r: nat, s: nat)
    requires q * d + r == p * d + s && s < d
    ensures q <= p
  {
    if q > p {
      assert q * d == p * d + (q - p) * d;
      Multiple(q - p, d);
    }
  }

  lemma SmallerFactor(y: nat, s: nat, v: nat)
    requires y > 0 && s < v
    ensures y * s < y * v
  {
    assert y * v == y * s + y * (v - s);
    Multiple(v - s, y);
  }

  /** Equal fractions have equal quotients, and their remainders are equal fractions. */
  lemma {:induction false} SameQuotient(x: int, y: nat, u: int, v: nat)
    requires y > 0 && v > 0 && x * v == y * u
    ensures Divide(x, y).0 == Divide(u, v).0
    ensures Divide(x, y).1 * v == y * Divide(u, v).1
  {
    var (q, r) := Divide(x, y);
    var (p, s) := Divide(u, v);
    TimesRight(q, y, r, v);
    TimesLeft(p, v, s, y);
    SmallerFactor(y, s, v);
    SmallerFactor(v, r, y);
    QuotientAtMost(q, p, y * v, r * v, y * s);
    QuotientAtMost(p, q, y * v, y * s, r * v);
  }

  lemma ZeroProduct(x: int, y: int)
    requires x * y == 0
    ensures x == 0 || y == 0
  {
  }

  lemma Scale(x: nat, q: nat, y: nat, r: nat, h: nat, u: nat, v: nat, s: nat, g: nat)
    requires x == q * y + r && u == q * v + s && y * h == v * g && r * h == s * g
    ensures x * h == u * g
  {
    TimesRight(q, y, r, h);
    TimesRight(q, v, s, g);
  }

  /** Equal fractions, divided by their greatest common divisors, are the same. */
  lemma {:induction false} Proportional(x: nat, y: nat, u: nat, v: nat)
    requires (x > 0 || y > 0) && (u > 0 || v > 0) && x * v == y * u
    ensures x * Gcd(u, v) == u * Gcd(x, y) && y * Gcd(u, v) == v * Gcd(x, y)
    decreases y + v
  {
    if y == 0 {
      ZeroProduct(x, v);
    } else if v == 0 {
      ZeroProduct(y, u);
    } else {
      var (q, r) := Divide(x, y);
      var (p, s) := Divide(u, v);
      SameQuotient(x, y, u, v);
      Proportional(y, r, v, s);
      Scale(x, q, y, r, Gcd(v, s), u, v, s, Gcd(y, r));
    }
  }

  lemma PositiveProduct(x: int, y: nat)
    requires y > 0
    ensures x * y < 0 <==> x < 0
    ensures (-x) * y == -(x * y)
  {
    Multiple(x, y);
  }

  lemma SameSign(a: Number, b: Number)
    requires a.den > 0 && b.den > 0 && SameNumber(a, b)
    ensures Abs(a.num) * b.den == a.den * Abs(b.num)
    ensures a.num < 0 <==> b.num < 0
  {
    PositiveProduct(a.num, b.den);
    PositiveProduct(b.num, a.den);
  }

  lemma SimpleAreEqual(a: Number, b: Number)
    requires IsSimple(a) && IsSimple(b) && SameNumber(a, b)
    ensures a == b
  {
    SameSign(a, b);
    ProportionalToOne(Abs(a.num), a.den, Abs(b.num), b.den);
  }

  lemma {:induction false} ProportionalToOne(x: nat, y: nat, u: nat, v: nat)
    requires y > 0 && v > 0 && x * v == y * u && Gcd(x, y) == 1 && Gcd(u, v) == 1
    ensures x == u && y == v
  {
    Proportional(x, y, u, v);
  }

  /** Lowest terms are unique, so that a set of numbers in lowest terms may compare them field by
      field, or by a hash of the fields. */
  lemma LowestTermsAreUnique(a: Number, b: Number)
    requires IsSimple(a) && IsSimple(b)
    ensures SameNumber(a, b) <==> a == b
  {
    if SameNumber(a, b) {
      SimpleAreEqual(a, b);
    }
  }

  /** A whole number in lowest terms has denominator one. */
  lemma WholeIsOverOne(n: Number)
    requires IsSimple(n) && Divide(Abs(n.num), n.den).1 == 0
    ensures n.den == 1
  {
    assert Gcd(n.den, 0) == n.den;
  }

  lemma ExactQuotient(x: int, d: nat, i: int)
    requires d > 0 && x == i * d
    ensures x / d == i
  {
    assert x == (x / d) * d + x % d;
    assert (x / d - i) * d == (x / d) * d - i * d;
    Multiple(x / d - i, d);
  }

  /** Dividing both fields by `d > 1` keeps the value and makes the denominator smaller. */
  lemma DivideBoth(n: Number, d: nat, i: int, j: int)
    requires n.den != 0 && d > 1 && n.num == i * d && n.den == j * d
    ensures n.num / d == i && n.den / d == j && j != 0 && Abs(j) < Abs(n.den)
    ensures SameNumber(Number(i, j), n)
  {
    ExactQuotient(n.num, d, i);
    ExactQuotient(n.den, d, j);
    if j > 0 {
      AtLeastTwice(j, d);
    } else if j < 0 {
      AtLeastTwice(-j, d);
      assert (-j) * d == -(j * d);
    }
    assert i * (j * d) == j * (i * d);
  }

  lemma GcdOfFields(n: Number) returns (i: int, j: int)
    requires n.den != 0
    ensures Gcd(Abs(n.num), Abs(n.den)) > 0
    ensures n.num == i * Gcd(Abs(n.num), Abs(n.den)) && n.den == j * Gcd(Abs(n.num), Abs(n.den))
  {
    i, j := GcdDivides(Abs(n.num), Abs(n.den));
    var d := Gcd(Abs(n.num), Abs(n.den));
    PositiveProduct(i, d);
    PositiveProduct(j, d);
    if n.num < 0 {
      i := -i;
    }
    if n.den < 0 {
      j := -j;
    }
  }

  /** One division by the greatest common divisor. */
  lemma DividedOnce(n: Number, original: Number)
    requires n.den != 0 && SameNumber(n, original) && Gcd(Abs(n.num), Abs(n.den)) != 1
    ensures var d := Gcd(Abs(n.num), Abs(n.den));
            && d > 1 && n.den / d != 0 && Abs(n.den / d) < Abs(n.den)
            && SameNumber(Number(n.num / d, n.den / d), original)
  {
    var i, j := GcdOfFields(n);
    DivideBoth(n, Gcd(Abs(n.num), Abs(n.den)), i, j);
    Chained(Number(i, j), n, original);
  }

  lemma BothNegated(n: Number, original: Number)
    requires SameNumber(n, original)
    ensures SameNumber(Number(-n.num, -n.den), original)
  {
    assert (-n.num) * original.den == -(n.num * original.den);
    assert (-n.den) * original.num == -(n.den * original.num);
  }

  /** Divides by the greatest common divisor for as long as it is not one, and makes the
      denominator positive. */
  method Simplify(n: Number) returns (simple: Number)
    requires n.den != 0
    ensures IsSimple(simple) && SameNumber(simple, n)
  {
    simple := n;
    while Gcd(Abs(simple.num), Abs(simple.den)) != 1
      invariant simple.den != 0 && SameNumber(simple, n)
      decreases Abs(simple.den)
    {
      var d := Gcd(Abs(simple.num), Abs(simple.den));
      DividedOnce(simple, n);
      simple := Number(simple.num / d, simple.den / d);
    }
    if simple.den < 0 {
      BothNegated(simple, n);
      simple := Number(-simple.num, -simple.den);
    }
  }

  lemma Chained(a: Number, b: Number, c: Number)
    requires SameNumber(a, b) && SameNumber(b, c) && b.den != 0
    ensures SameNumber(a, c)
  {
    assert (a.num * c.den) * b.den == (a.num * b.den) * c.den;
    assert (a.den * b.num) * c.den == a.den * (b.num * c.den);
    assert a.den * (b.den * c.num) == (a.den * c.num) * b.den;
    SameMultiple(a.num * c.den, a.den * c.num, b.den);
  }

  lemma SameBothWays(a: Number, b: Number)
    requires SameNumber(a, b)
    ensures SameNumber(b, a)
  {
  }

  lemma SameMultiple(x: int, y: int, d: int)
    requires d != 0 && x * d == y * d
    ensures x == y
  {
    assert (x - y) * d == 0;
    if d > 0 {
      Multiple(x - y, d);
    } else {
      assert (x - y) * (-d) == -((x - y) * d);
      Multiple(x - y, -d);
    }
  }
}
