/** The digits of a rational number: its whole part, then its fraction up to the point where it
    ends or starts to repeat. */
module Digits {
  import opened Arithmetic
  import opened Rationals

  // ----- Whole numbers

  function Value(digits: seq<int>, base: nat): int {
    if digits == [] then 0 else Value(digits[..|digits| - 1], base) * base + digits[|digits| - 1]
  }

  lemma {:induction false} QuotientIsSmaller(n: nat, base: nat)
    requires base >= 2 && n > 0
    ensures Divide(n, base).0 < n
  {
    AtLeastTwice(Divide(n, base).0, base);
  }

  function WholeDigits(n: nat, base: nat): (digits: seq<int>)
    requires base >= 2
    ensures digits != []
    decreases n
  {
    var (q, r) := Divide(n, base);
    if n == 0 || q == 0 then [r] else QuotientIsSmaller(n, base); WholeDigits(q, base) + [r]
  }

  /** Digits below the base, without leading zeros. */
  predicate IsNumeral(digits: seq<int>, base: nat) {
    && digits != []
    && (forall i | 0 <= i < |digits| :: 0 <= digits[i] < base)
    && (digits[0] == 0 ==> |digits| == 1)
  }

  lemma {:induction false} WholeDigitsValue(n: nat, base: nat)
    requires base >= 2
    ensures IsNumeral(WholeDigits(n, base), base) && Value(WholeDigits(n, base), base) == n
    ensures WholeDigits(n, base)[0] == 0 ==> n == 0
  {
    var (q, r) := Divide(n, base);
    if n == 0 || q == 0 {
      assert Value([], base) * base == 0;
      assert [r][..0] == [];
    } else {
      QuotientIsSmaller(n, base);
      WholeDigitsValue(q, base);
      assert (WholeDigits(q, base) + [r])[..|WholeDigits(q, base)|] == WholeDigits(q, base);
    }
  }

  /** No other numeral has that value. */
  lemma {:induction false} NumeralIsUnique(digits: seq<int>, base: nat)
    requires base >= 2 && IsNumeral(digits, base)
    ensures Value(digits, base) >= 0 && digits == WholeDigits(Value(digits, base), base)
    ensures digits[0] != 0 ==> Value(digits, base) > 0
  {
    var front, last := digits[..|digits| - 1], digits[|digits| - 1];
    var n := Value(digits, base);
    if front == [] {
      assert Value(front, base) * base == 0;
    } else {
      NumeralIsUnique(front, base);
      Multiple(Value(front, base), base);
    }
    DivideIsUnique(n, base, Value(front, base), last);
  }

  // ----- Bytes and machine words

  /** The remainder modulo 256, as the conversion to an unsigned byte gives it. */
  function Byte(d: int): (b: nat)
    ensures b < 256
  {
    Divide(d, 256).1
  }

  /** Digits are kept in unsigned bytes. */
  function Bytes(digits: seq<int>): (r: seq<nat>)
    ensures |r| == |digits|
  {
    if digits == [] then [] else Bytes(digits[..|digits| - 1]) + [Byte(digits[|digits| - 1])]
  }

  lemma {:induction false} BytesOfBoth(a: seq<int>, b: seq<int>)
    ensures Bytes(a + b) == Bytes(a) + Bytes(b)
    decreases |b|
  {
    if b == [] {
      assert a + b == a;
    } else {
      var n := |b| - 1;
      assert (a + b)[..|a| + n] == a + b[..n];
      BytesOfBoth(a, b[..n]);
    }
  }

  lemma {:induction false} BytesAndOne(front: seq<nat>, digits: seq<int>, d: int)
    ensures front + Bytes(digits + [d]) == front + Bytes(digits) + [Byte(d)]
  {
    assert (digits + [d])[..|digits|] == digits;
  }

  lemma {:induction false} SmallBytes(digits: seq<int>)
    requires forall i | 0 <= i < |digits| :: 0 <= digits[i] < 256
    ensures Bytes(digits) == digits
  {
    if digits != [] {
      var n := |digits| - 1;
      SmallBytes(digits[..n]);
      DivideIsUnique(digits[n], 256, 0, digits[n]);
      assert digits == digits[..n] + [digits[n]];
    }
  }

  const WORD := 0x1_0000_0000_0000_0000

  /** The integers of the program's number type, but for the least, which has no opposite. */
  predicate IsSigned(x: int) {
    -WORD < 2 * x < WORD
  }

  /** A signed integer that meets an unsigned one becomes unsigned. */
  function Unsigned(x: int): (r: nat)
    requires IsSigned(x)
    ensures r < WORD
  {
    if x < 0 then WORD + x else x
  }

  /** Appends the digits of the integer, which is unsigned in every division by the base. */
  method AppendWhole(digits: seq<nat>, integer: int, base: nat) returns (r: seq<nat>)
    requires base >= 2 && IsSigned(integer)
    ensures r == digits + Bytes(WholeDigits(Unsigned(integer), base))
  {
    r := digits;
    var whole := integer;
    var more := true;
    ghost var all, done := WholeDigits(Unsigned(integer), base), [];
    while more
      invariant IsSigned(whole) && r == digits + Bytes(done)
      invariant if more then WholeDigits(Unsigned(whole), base) + Reversed(done) == all else Reversed(done) == all
      decreases more, if whole < 0 then WORD + whole else whole
    {
      var n := Unsigned(whole);
      DivideIsDivision(n, base);
      QuotientIsSmallerIfAny(n, base);
      AtLeastTwice(n / base, base);
      ghost var digit := n % base;
      r := r + [Byte(n % base)];
      BytesAndOne(digits, done, digit);
      ReversedLast(done, digit);
      done := done + [digit];
      whole := n / base;
      more := whole != 0;
    }
    r := r[..|digits|] + Reversed(r[|digits|..]);
    ReversedBytes(done);
  }

  lemma {:induction false} QuotientIsSmallerIfAny(n: nat, base: nat)
    requires base >= 2
    ensures Divide(n, base).0 < n || Divide(n, base).0 == 0
  {
    if n > 0 {
      QuotientIsSmaller(n, base);
    }
  }

  function Reversed<T>(s: seq<T>): seq<T> {
    if s == [] then [] else Reversed(s[1..]) + [s[0]]
  }

  lemma {:induction false} ReversedLast<T>(s: seq<T>, x: T)
    ensures Reversed(s + [x]) == [x] + Reversed(s)
  {
    if s != [] {
      assert (s + [x])[1..] == s[1..] + [x];
      ReversedLast(s[1..], x);
    }
  }

  lemma {:induction false} ReversedBytes(s: seq<int>)
    ensures Reversed(Bytes(s)) == Bytes(Reversed(s))
  {
    if s != [] {
      assert s == [s[0]] + s[1..];
      BytesOfBoth([s[0]], s[1..]);
      assert Bytes(s)[1..] == Bytes(s[1..]);
      ReversedBytes(s[1..]);
      BytesOfBoth(Reversed(s[1..]), [s[0]]);
    }
  }

  // ----- Fractions

  /** What is left to be written: `rest / den`, below one.  Only at the start it can be negative. */
  datatype Part = Part(rest: int, den: nat, base: nat) {
    predicate Proper() {
      0 < rest + den && rest < den && base >= 2
    }
  }

  /** The first digit, rounded down. */
  function FirstDigit(p: Part): (digit: int)
    requires p.Proper()
    ensures digit < p.base && (p.rest >= 0 ==> digit >= 0) && -(p.base as int) <= digit
  {
    var (q, r) := Divide(p.rest * p.base, p.den);
    DigitBelowBase(p.rest, p.den, p.base, q, r);
    q
  }

  lemma DigitBelowBase(rest: int, den: nat, base: nat, q: int, r: nat)
    requires 0 < rest + den && rest < den && base > 0 && rest * base == q * den + r && r < den
    ensures q < base && (rest >= 0 ==> q >= 0) && -(base as int) <= q
  {
    assert base * den - rest * base == (den - rest) * base;
    assert rest * base + base * den == (rest + den) * base;
    Multiple(den - rest, base);
    Multiple(rest + den, base);
    assert q * den == base * den + (q - base) * den;
    Multiple(q - base, den);
    assert (q + base) * den == q * den + base * den;
    Multiple(q + base, den);
    if rest >= 0 {
      Multiple(rest, base);
      Multiple(q, den);
    }
  }

  function Next(p: Part): (next: Part)
    requires p.Proper()
    ensures next.Proper() && next.den == p.den && next.base == p.base && next.rest >= 0
    ensures p.rest * p.base == FirstDigit(p) * p.den + next.rest
  {
    Part(Divide(p.rest * p.base, p.den).1, p.den, p.base)
  }

  /** What is left after `k` digits. */
  function After(p: Part, k: nat): (r: Part)
    requires p.Proper()
    ensures r.Proper() && r.den == p.den && r.base == p.base && (k > 0 || p.rest >= 0 ==> r.rest >= 0)
  {
    if k == 0 then p else Next(After(p, k - 1))
  }

  /** The digits of the infinite expansion. */
  function DigitAt(p: Part, k: nat): (digit: int)
    requires p.Proper()
    ensures digit < p.base && (k > 0 || p.rest >= 0 ==> digit >= 0)
  {
    FirstDigit(After(p, k))
  }

  lemma {:induction false} AfterBoth(p: Part, j: nat, k: nat)
    requires p.Proper()
    ensures After(After(p, j), k) == After(p, j + k)
  {
    if k > 0 {
      AfterBoth(p, j, k - 1);
    }
  }

  function DigitsUpTo(p: Part, k: nat): (digits: seq<int>)
    requires p.Proper()
    ensures |digits| == k
  {
    if k == 0 then [] else DigitsUpTo(p, k - 1) + [DigitAt(p, k - 1)]
  }

  lemma {:induction false} DigitUpTo(p: Part, k: nat, i: nat)
    requires p.Proper() && i < k
    ensures DigitsUpTo(p, k)[i] == DigitAt(p, i)
  {
    if i < k - 1 {
      DigitUpTo(p, k - 1, i);
    }
  }

  function Power(base: nat, k: nat): nat {
    if k == 0 then 1 else Power(base, k - 1) * base
  }

  /** The digits so far and what is left make up the whole fraction. */
  lemma {:induction false} PrefixValue(p: Part, k: nat)
    requires p.Proper()
    ensures p.rest * Power(p.base, k) == Value(DigitsUpTo(p, k), p.base) * p.den + After(p, k).rest
  {
    if k > 0 {
      PrefixValue(p, k - 1);
      ValueAppended(DigitsUpTo(p, k - 1), DigitAt(p, k - 1), p.base);
      AddDigit(p, k, Power(p.base, k - 1), Value(DigitsUpTo(p, k - 1), p.base),
               Power(p.base, k), Value(DigitsUpTo(p, k), p.base));
    }
  }

  lemma {:induction false} ValueAppended(digits: seq<int>, digit: int, base: nat)
    ensures Value(digits + [digit], base) == Value(digits, base) * base + digit
  {
    assert (digits + [digit])[..|digits|] == digits;
  }

  lemma AddDigit(p: Part, k: nat, power: nat, value: int, nextPower: nat, nextValue: int)
    requires p.Proper() && k > 0
    requires p.rest * power == value * p.den + After(p, k - 1).rest
    requires nextPower == power * p.base && nextValue == value * p.base + DigitAt(p, k - 1)
    ensures p.rest * nextPower == nextValue * p.den + After(p, k).rest
  {
    var before, next := After(p, k - 1), After(p, k);
    assert before.rest * p.base == DigitAt(p, k - 1) * p.den + next.rest;
    NextValue(p.rest, power, p.base, value, p.den, before.rest, DigitAt(p, k - 1), next.rest);
  }

  lemma NextValue(rest: int, power: nat, base: nat, value: int, den: nat, left: int, digit: int, next: int)
    requires rest * power == value * den + left && left * base == digit * den + next
    ensures rest * (power * base) == (value * base + digit) * den + next
  {
    assert rest * (power * base) == (rest * power) * base;
    assert (value * den + left) * base == (value * base) * den + left * base;
  }

  // ----- Where the expansion stops

  ghost predicate Recurs(p: Part, j: nat, k: nat)
    requires p.Proper()
  {
    j < k && After(p, j).rest == After(p, k).rest
  }

  /** Neither at the end nor anywhere seen before, for the first `k` digits. */
  ghost predicate IsFresh(p: Part, k: nat)
    requires p.Proper()
  {
    && (forall i | 0 <= i < k :: After(p, i).rest != 0)
    && (forall i: nat, j: nat | i < j < k :: !Recurs(p, i, j))
  }

  /** Nothing is left after `k` digits, or as much as before. */
  ghost predicate StopsAt(p: Part, k: nat)
    requires p.Proper()
  {
    After(p, k).rest == 0 || exists j: nat :: Recurs(p, j, k)
  }

  function Rests(p: Part, k: nat): set<int>
    requires p.Proper()
  {
    if k == 0 then {} else Rests(p, k - 1) + {After(p, k - 1).rest}
  }

  lemma {:induction false} RestsAreSeen(p: Part, k: nat, x: int) returns (i: nat)
    requires p.Proper() && x in Rests(p, k)
    ensures i < k && After(p, i).rest == x
  {
    if x in Rests(p, k - 1) {
      i := RestsAreSeen(p, k - 1, x);
    } else {
      i := k - 1;
    }
  }

  lemma {:induction false} FreshRestsCount(p: Part, k: nat)
    requires p.Proper() && p.rest >= 0 && IsFresh(p, k)
    ensures |Rests(p, k)| == k && forall x | x in Rests(p, k) :: 0 < x < p.den
  {
    if k > 0 {
      FreshRestsCount(p, k - 1);
      if After(p, k - 1).rest in Rests(p, k - 1) {
        var i := RestsAreSeen(p, k - 1, After(p, k - 1).rest);
        assert Recurs(p, i, k - 1);
      }
    }
  }

  lemma {:induction false} AtMost(seen: set<int>, n: nat)
    requires n > 0 && forall x | x in seen :: 0 < x < n
    ensures |seen| < n
  {
    if n == 1 {
      forall x ensures x !in seen {
      }
    } else {
      AtMost(seen - {n - 1}, n - 1);
    }
  }

  lemma FreshBehindFirst(p: Part, k: nat)
    requires p.Proper() && k > 0 && IsFresh(p, k)
    ensures IsFresh(Next(p), k - 1)
  {
    forall i: nat ensures After(Next(p), i) == After(p, i + 1) {
      AfterBoth(p, 1, i);
    }
    forall i: nat, j: nat | i < j < k - 1 ensures !Recurs(Next(p), i, j) {
      assert !Recurs(p, i + 1, j + 1);
    }
  }

  /** The expansion stops within `den` digits; a negative number can take one more. */
  lemma EndsWithinDenominator(p: Part, k: nat)
    requires p.Proper() && IsFresh(p, k)
    ensures k <= p.den && (p.rest >= 0 ==> k < p.den)
  {
    if p.rest >= 0 {
      FreshRestsCount(p, k);
      AtMost(Rests(p, k), p.den);
    } else if k > 0 {
      FreshBehindFirst(p, k);
      FreshRestsCount(Next(p), k - 1);
      AtMost(Rests(Next(p), k - 1), p.den);
    }
  }

  /** There is one place where it stops. */
  lemma StopIsUnique(p: Part, k: nat, l: nat)
    requires p.Proper()
    requires IsFresh(p, k) && StopsAt(p, k) && IsFresh(p, l) && StopsAt(p, l)
    ensures k == l
  {
  }

  lemma {:induction false} NothingFollows(p: Part, k: nat, m: nat)
    requires p.Proper() && k <= m && After(p, k).rest == 0
    ensures After(p, m).rest == 0 && DigitAt(p, m) == 0
    decreases m
  {
    if k < m {
      NothingFollows(p, k, m - 1);
    }
    DivideIsUnique(0, p.den, 0, 0);
  }

  lemma Repeats(p: Part, j: nat, k: nat, m: nat)
    requires p.Proper() && Recurs(p, j, k) && j <= m
    ensures DigitAt(p, m + (k - j)) == DigitAt(p, m)
  {
    AfterBoth(p, j, m - j);
    AfterBoth(p, k, m - j);
  }

  /** Digit `m` when the digits from `j` on are repeated for ever. */
  function Repeated(digits: seq<int>, j: nat, m: nat): int
    requires j < |digits|
    decreases m
  {
    if m < |digits| then digits[m] else Repeated(digits, j, m - (|digits| - j))
  }

  lemma {:induction false} RepeatedIsExpansion(p: Part, j: nat, k: nat, m: nat)
    requires p.Proper() && Recurs(p, j, k)
    ensures Repeated(DigitsUpTo(p, k), j, m) == DigitAt(p, m)
    decreases m
  {
    if m < k {
      DigitUpTo(p, k, m);
    } else {
      RepeatedIsExpansion(p, j, k, m - (k - j));
      Repeats(p, j, k, m - (k - j));
    }
  }

  /** Repeating the digits from `j` on gives the whole expansion. */
  ghost predicate RepeatsFrom(p: Part, j: nat, k: nat)
    requires p.Proper() && j < k
  {
    forall m: nat :: Repeated(DigitsUpTo(p, k), j, m) == DigitAt(p, m)
  }

  lemma RecurringRepeats(p: Part, j: nat, k: nat)
    requires p.Proper() && Recurs(p, j, k)
    ensures RepeatsFrom(p, j, k)
  {
    forall m: nat ensures Repeated(DigitsUpTo(p, k), j, m) == DigitAt(p, m) {
      RepeatedIsExpansion(p, j, k, m);
    }
  }

  /** The expansion is exact, or all of it is there: what comes after repeats the digits from some
      position on. */
  lemma {:induction false} ExactOrPeriodic(p: Part, k: nat)
    requires p.Proper() && StopsAt(p, k)
    ensures || p.rest * Power(p.base, k) == Value(DigitsUpTo(p, k), p.base) * p.den
            || exists j: nat :: j < k && RepeatsFrom(p, j, k)
  {
    if After(p, k).rest == 0 {
      PrefixValue(p, k);
    } else {
      var j: nat :| Recurs(p, j, k);
      RecurringRepeats(p, j, k);
    }
  }

  lemma Apart(a: int, b: int, base: nat, digit: int, den: nat, c: int, d: int)
    requires a < b && base >= 2 && a * base == digit * den + c && b * base == digit * den + d
    ensures d - c >= 2 * (b - a)
  {
    assert d - c == (b - a) * base;
    AtLeastTwice(b - a, base);
  }

  /** Different fractions differ in some digit. */
  lemma {:induction false} TailsDiffer(a: Part, b: Part) returns (m: nat)
    requires a.Proper() && b.Proper() && a.den == b.den && a.base == b.base && a.rest < b.rest
    ensures DigitAt(a, m) != DigitAt(b, m)
    decreases 2 * a.den - (b.rest - a.rest)
  {
    m := 0;
    if FirstDigit(a) == FirstDigit(b) {
      Apart(a.rest, b.rest, a.base, FirstDigit(a), a.den, Next(a).rest, Next(b).rest);
      m := TailsDiffer(Next(a), Next(b));
      AfterBoth(a, 1, m);
      AfterBoth(b, 1, m);
      m := m + 1;
    }
  }

  /** No shorter stretch of digits would do: neither is anything exact before, nor do the digits
      repeat with a shorter beginning and period. */
  lemma {:induction false} NothingShorter(p: Part, k: nat, j: nat, period: nat) returns (m: nat)
    requires p.Proper() && IsFresh(p, k) && period > 0 && j + period < k
    ensures m >= j && DigitAt(p, m) != DigitAt(p, m + period)
    ensures p.rest * Power(p.base, j) != Value(DigitsUpTo(p, j), p.base) * p.den
  {
    PrefixValue(p, j);
    var a, b := After(p, j), After(p, j + period);
    assert !Recurs(p, j, j + period);
    if a.rest < b.rest {
      m := TailsDiffer(a, b);
    } else {
      m := TailsDiffer(b, a);
    }
    AfterBoth(p, j, m);
    AfterBoth(p, j + period, m);
    m := j + m;
  }

  // ----- The loop

  /** The number in lowest terms that the program keeps for what is left. */
  predicate Stands(n: Number, p: Part) {
    IsSimple(n) && SameNumber(n, Number(p.rest, p.den))
  }

  lemma SameOverOne(x: int, y: int, d: int)
    requires d != 0 && x * d == d * y
    ensures x == y
  {
    SameMultiple(x, y, d);
  }

  lemma StandsForOne(x: Number, a: Part, y: Number, b: Part)
    requires Stands(x, a) && Stands(y, b) && a.Proper() && b.Proper() && a.den == b.den
    ensures x == y <==> a.rest == b.rest
  {
    var u, v := Number(a.rest, a.den), Number(b.rest, b.den);
    if a.rest == b.rest {
      SameBothWays(y, u);
      Chained(x, u, y);
      LowestTermsAreUnique(x, y);
    } else if x == y {
      SameBothWays(x, u);
      Chained(u, x, v);
      SameOverOne(a.rest, b.rest, a.den);
    }
  }

  lemma StandsForZero(n: Number, p: Part)
    requires Stands(n, p) && p.Proper()
    ensures n.num == 0 <==> p.rest == 0
  {
    if n.num == 0 {
      ZeroProduct(n.den, p.rest);
    } else if p.rest == 0 {
      ZeroProduct(n.num, p.den);
    }
  }

  lemma Stepped(n: Number, p: Part, simple: Number)
    requires Stands(n, p) && p.Proper() && IsSimple(simple)
    requires SameNumber(simple, Number(Divide(n.num * p.base, n.den).1, n.den))
    ensures Divide(n.num * p.base, n.den).0 == FirstDigit(p)
    ensures Stands(simple, Next(p))
  {
    TimesBase(n.num, n.den, p.rest, p.den, p.base);
    SameQuotient(n.num * p.base, n.den, p.rest * p.base, p.den);
    Chained(simple, Number(Divide(n.num * p.base, n.den).1, n.den), Number(Next(p).rest, p.den));
  }

  lemma TimesBase(num: int, den: nat, rest: int, d: nat, base: nat)
    requires num * d == den * rest
    ensures (num * base) * d == den * (rest * base)
  {
    assert (num * base) * d == (num * d) * base;
    assert den * (rest * base) == (den * rest) * base;
  }

  /** The set holds just the numbers that were seen. */
  ghost predicate Holds(repeats: set<Number>, seen: seq<Number>) {
    && (forall i | 0 <= i < |seen| :: seen[i] in repeats)
    && (forall x | x in repeats :: exists i :: 0 <= i < |seen| && seen[i] == x)
  }

  ghost predicate AllStand(seen: seq<Number>, p: Part)
    requires p.Proper()
  {
    forall i | 0 <= i < |seen| :: Stands(seen[i], After(p, i))
  }

  ghost predicate Tracks(repeats: set<Number>, seen: seq<Number>, p: Part)
    requires p.Proper()
  {
    Holds(repeats, seen) && AllStand(seen, p)
  }

  /** Looking a number up in the set tells whether it was left over before. */
  lemma {:induction false} SeenBefore(repeats: set<Number>, seen: seq<Number>, p: Part, n: Number)
    requires p.Proper() && Tracks(repeats, seen, p) && Stands(n, After(p, |seen|))
    ensures n in repeats <==> exists j: nat :: Recurs(p, j, |seen|)
  {
    var k := |seen|;
    if n in repeats {
      var j :| 0 <= j < k && seen[j] == n;
      StandsForOne(seen[j], After(p, j), n, After(p, k));
      assert Recurs(p, j, k);
    }
    if j: nat :| Recurs(p, j, k) {
      StandsForOne(seen[j], After(p, j), n, After(p, k));
    }
  }

  lemma {:induction false} TracksMore(repeats: set<Number>, seen: seq<Number>, p: Part, n: Number)
    requires p.Proper() && Tracks(repeats, seen, p) && Stands(n, After(p, |seen|))
    ensures Tracks(repeats + {n}, seen + [n], p)
  {
    var more := seen + [n];
    forall x | x in repeats + {n} ensures exists i :: 0 <= i < |more| && more[i] == x {
      if x == n {
        assert more[|seen|] == x;
      } else {
        var i :| 0 <= i < |seen| && seen[i] == x;
        assert more[i] == x;
      }
    }
  }

  /** The whole part, rounded towards zero, and what is left of the number. */
  function WholePart(n: Number): int
    requires n.den > 0
  {
    var q: int := Divide(Abs(n.num), n.den).0;
    if n.num < 0 then -q else q
  }

  function FractionOf(n: Number, base: nat): (p: Part)
    requires n.den > 0 && base >= 2
    ensures p.Proper() && p.den == n.den && p.base == base
    ensures n.num == WholePart(n) * n.den + p.rest && (n.num >= 0 ==> p.rest >= 0)
  {
    var (q, r) := Divide(Abs(n.num), n.den);
    assert (-q) * n.den == -(q * n.den);
    Part(if n.num < 0 then 0 - r else r, n.den, base)
  }

  /** The digits that are written for a number in lowest terms: all of its whole part, and of its
      fraction up to the place where that stops. */
  ghost predicate IsExpansion(digits: seq<int>, n: Number, base: nat)
    requires n.den > 0 && base >= 2 && IsSigned(WholePart(n))
  {
    var p := FractionOf(n, base);
    exists k: nat ::
      digits == WholeDigits(Unsigned(WholePart(n)), base) + DigitsUpTo(p, k) && IsFresh(p, k) && StopsAt(p, k)
  }

  /** Writes one digit and keeps what is left in lowest terms. */
  method WriteDigit(n: Number, base: nat, ghost p: Part) returns (digit: int, left: Number)
    requires p.Proper() && Stands(n, p) && p.base == base
    ensures digit == FirstDigit(p) && Stands(left, Next(p))
  {
    var num := n.num * base;
    digit := Floor(num, n.den);
    left := Simplify(Number(num - digit * n.den, n.den));
    Stepped(n, p, left);
  }

  /** Rounds down as the program does: away from zero for what does not divide evenly below it. */
  method Floor(num: int, den: nat) returns (q: int)
    requires den > 0
    ensures q == Divide(num, den).0
  {
    var n := Abs(num);
    if num < 0 && n % den != 0 {
      n := n + den;
    }
    q := if num < 0 then -(n / den) else n / den;
    FloorIsDivide(num, den, q);
  }

  lemma {:induction false} FloorIsDivide(num: int, den: nat, q: int)
    requires den > 0
    requires num >= 0 ==> q == num / den
    requires num < 0 ==> q == -((if -num % den != 0 then -num + den else -num) / den)
    ensures q == Divide(num, den).0
  {
    if num >= 0 {
      DivideIsDivision(num, den);
    } else {
      var x := -num;
      var d, m := x / den, x % den;
      assert x == d * den + m;
      if m == 0 {
        assert (-d) * den == -(d * den);
        DivideIsUnique(num, den, -d, 0);
      } else {
        assert x + den == (d + 1) * den + m;
        QuotientIsUnique(x + den, den, d + 1, m);
        assert (-(d + 1)) * den == -((d + 1) * den);
        DivideIsUnique(num, den, -(d + 1), den - m);
      }
    }
  }

  /** One round of the loop is over: either it goes on with something new or the digits stop. */
  lemma {:induction false} RoundOver(repeats: set<Number>, seen: seq<Number>, p: Part, n: Number)
    requires p.Proper() && Tracks(repeats, seen, p) && Stands(n, After(p, |seen|)) && IsFresh(p, |seen|)
    ensures if n.num != 0 && n !in repeats then IsFresh(p, |seen| + 1) else StopsAt(p, |seen|)
  {
    StandsForZero(n, After(p, |seen|));
    SeenBefore(repeats, seen, p, n);
  }

  method AppendFraction(digits: seq<nat>, n: Number, base: nat, ghost p: Part) returns (r: seq<nat>)
    requires p.Proper() && Stands(n, p) && p.base == base && n.num != 0
    ensures |r| >= |digits|
    ensures var k := |r| - |digits|; r == digits + Bytes(DigitsUpTo(p, k)) && IsFresh(p, k) && StopsAt(p, k)
  {
    r := digits;
    var number := n;
    var repeats: set<Number> := {};
    ghost var seen: seq<Number> := [];
    var more := true;
    StandsForZero(n, p);
    while more
      invariant Tracks(repeats, seen, p)
      invariant r == digits + Bytes(DigitsUpTo(p, |seen|)) && Stands(number, After(p, |seen|))
      invariant if more then IsFresh(p, |seen| + 1) else IsFresh(p, |seen|) && StopsAt(p, |seen|)
      decreases p.den - |seen|, more
    {
      ghost var k := |seen|;
      EndsWithinDenominator(p, k + 1);
      TracksMore(repeats, seen, p, number);
      repeats, seen := repeats + {number}, seen + [number];
      var digit;
      digit, number := WriteDigit(number, base, After(p, k));
      BytesAndOne(digits, DigitsUpTo(p, k), digit);
      r := r + [Byte(digit)];
      more := number.num != 0 && number !in repeats;
      RoundOver(repeats, seen, p, number);
    }
  }

  lemma ExpansionIsUnique(a: seq<int>, b: seq<int>, n: Number, base: nat)
    requires n.den > 0 && base >= 2 && IsSigned(WholePart(n)) && IsExpansion(a, n, base) && IsExpansion(b, n, base)
    ensures a == b
  {
    var whole, p := WholeDigits(Unsigned(WholePart(n)), base), FractionOf(n, base);
    var k: nat :| a == whole + DigitsUpTo(p, k) && IsFresh(p, k) && StopsAt(p, k);
    var l: nat :| b == whole + DigitsUpTo(p, l) && IsFresh(p, l) && StopsAt(p, l);
    StopIsUnique(p, k, l);
  }

  /** For a number that is not negative, and a base that fits a byte, the bytes are the digits. */
  lemma {:induction false} ExpansionFitsBytes(digits: seq<int>, n: Number, base: nat)
    requires n.den > 0 && n.num >= 0 && 2 <= base <= 256 && IsSigned(WholePart(n)) && IsExpansion(digits, n, base)
    ensures Bytes(digits) == digits && InRange(digits, base)
  {
    var whole, p := WholeDigits(Unsigned(WholePart(n)), base), FractionOf(n, base);
    var k: nat :| digits == whole + DigitsUpTo(p, k) && IsFresh(p, k) && StopsAt(p, k);
    WholeDigitsValue(Unsigned(WholePart(n)), base);
    DigitsInRange(p, k);
    BothInRange(whole, DigitsUpTo(p, k), base);
    SmallBytes(digits);
  }

  predicate InRange(digits: seq<int>, base: nat) {
    forall i | 0 <= i < |digits| :: 0 <= digits[i] < base
  }

  lemma {:induction false} DigitsInRange(p: Part, k: nat)
    requires p.Proper() && p.rest >= 0
    ensures InRange(DigitsUpTo(p, k), p.base)
  {
    forall i | 0 <= i < k ensures 0 <= DigitsUpTo(p, k)[i] < p.base {
      DigitUpTo(p, k, i);
    }
  }

  lemma BothInRange(a: seq<int>, b: seq<int>, base: nat)
    requires InRange(a, base) && InRange(b, base)
    ensures InRange(a + b, base)
  {
  }

  // ----- Negative numbers

  /** The number without its sign. */
  function Magnitude(n: Number): Number {
    Number(Abs(n.num), n.den)
  }

  lemma ByteBelowZero(d: int)
    requires -128 <= d < 0
    ensures Byte(d) == 256 + d
  {
    DivideIsUnique(d, 256, -1, 256 + d);
  }

  lemma FirstBelowZero(p: Part)
    requires p.Proper() && p.rest < 0
    ensures FirstDigit(p) < 0
  {
    Multiple(-p.rest, p.base);
    assert (-p.rest) * p.base == -(p.rest * p.base);
    if FirstDigit(p) >= 0 {
      Multiple(FirstDigit(p), p.den);
    }
  }

  lemma {:induction false} ByteAt(digits: seq<int>, i: nat)
    requires i < |digits|
    ensures Bytes(digits)[i] == Byte(digits[i])
  {
    if i < |digits| - 1 {
      ByteAt(digits[..|digits| - 1], i);
    }
  }

  /** The first digit of a fraction below zero is no digit as a byte. */
  lemma {:induction false} ByteOfFirst(whole: seq<int>, p: Part, k: nat)
    requires p.Proper() && p.rest < 0 && p.base <= 128 && k > 0
    ensures Bytes(whole + DigitsUpTo(p, k))[|whole|] >= 128
  {
    DigitUpTo(p, k, 0);
    FirstBelowZero(p);
    ByteBelowZero(FirstDigit(p));
    ByteAt(whole + DigitsUpTo(p, k), |whole|);
  }

  lemma {:induction false} WholeBytes(x: nat, base: nat)
    requires 2 <= base <= 256
    ensures Bytes(WholeDigits(x, base)) == WholeDigits(x, base) && InRange(WholeDigits(x, base), base)
  {
    WholeDigitsValue(x, base);
    SmallBytes(WholeDigits(x, base));
  }

  /** Without a fraction, only the whole part is written. */
  lemma {:induction false} WholeExpansion(digits: seq<int>, n: Number, base: nat)
    requires n.den > 0 && base >= 2 && IsSigned(WholePart(n)) && FractionOf(n, base).rest == 0
    requires IsExpansion(digits, n, base)
    ensures digits == WholeDigits(Unsigned(WholePart(n)), base)
  {
    var p := FractionOf(n, base);
    var whole := WholeDigits(Unsigned(WholePart(n)), base);
    var k: nat :| digits == whole + DigitsUpTo(p, k) && IsFresh(p, k) && StopsAt(p, k);
    assert After(p, 0).rest == 0;
  }

  lemma {:induction false} FractionBelowZero(digits: seq<int>, n: Number, base: nat)
    requires n.den > 0 && 2 <= base <= 128 && IsSigned(WholePart(n)) && FractionOf(n, base).rest < 0
    requires IsExpansion(digits, n, base)
    ensures !InRange(Bytes(digits), base)
  {
    var whole, p := WholeDigits(Unsigned(WholePart(n)), base), FractionOf(n, base);
    var k: nat :| digits == whole + DigitsUpTo(p, k) && IsFresh(p, k) && StopsAt(p, k);
    ByteOfFirst(whole, p, k);
  }

  lemma {:induction false} UnsignedDiffers(n: Number, base: nat)
    requires n.den > 0 && n.num < 0 && 2 <= base <= 256 && IsSigned(WholePart(n)) && WholePart(n) != 0
    ensures WholePart(Magnitude(n)) == -WholePart(n)
    ensures Bytes(WholeDigits(Unsigned(WholePart(n)), base)) != Bytes(WholeDigits(Unsigned(-WholePart(n)), base))
  {
    var x, y := Unsigned(WholePart(n)), Unsigned(-WholePart(n));
    WholeBytes(x, base);
    WholeBytes(y, base);
    WholeDigitsValue(x, base);
    WholeDigitsValue(y, base);
  }

  /** In the bases up to 128, a number is written like its magnitude if and only if it is not
      negative. */
  lemma {:induction false} WrittenLikeMagnitudeExactlyWhen(n: Number, base: nat, digits: seq<int>, others: seq<int>)
    requires n.den > 0 && 2 <= base <= 128 && IsSigned(WholePart(n)) && IsSigned(WholePart(Magnitude(n)))
    requires IsExpansion(digits, n, base) && IsExpansion(others, Magnitude(n), base)
    ensures Bytes(digits) == Bytes(others) <==> n.num >= 0
  {
    if n.num >= 0 {
      ExpansionIsUnique(digits, others, n, base);
    } else {
      ExpansionFitsBytes(others, Magnitude(n), base);
      if FractionOf(n, base).rest < 0 {
        FractionBelowZero(digits, n, base);
      } else {
        WholeExpansion(digits, n, base);
        WholeExpansion(others, Magnitude(n), base);
        UnsignedDiffers(n, base);
      }
    }
  }

  /** In those bases, all that is written are digits if and only if the number is whole or not
      negative. */
  lemma {:induction false} AllDigitsExactlyWhen(n: Number, base: nat, digits: seq<int>)
    requires IsSimple(n) && 2 <= base <= 128 && IsSigned(WholePart(n)) && IsExpansion(digits, n, base)
    ensures InRange(Bytes(digits), base) <==> n.num >= 0 || n.den == 1
  {
    FractionStands(n, base);
    if n.num >= 0 {
      ExpansionFitsBytes(digits, n, base);
    } else if FractionOf(n, base).rest < 0 {
      FractionBelowZero(digits, n, base);
    } else {
      WholeExpansion(digits, n, base);
      WholeBytes(Unsigned(WholePart(n)), base);
    }
  }

  lemma OneDigitExpansion(n: Number, base: nat, digit: int)
    requires n.den > 0 && base >= 2 && Abs(n.num) < n.den && n.num != 0 && n.num * base == digit * n.den
    ensures WholePart(n) == 0 && IsExpansion([0, digit], n, base)
  {
    DivideIsUnique(Abs(n.num), n.den, 0, Abs(n.num));
    var p := FractionOf(n, base);
    DivideIsUnique(n.num * base, n.den, digit, 0);
    DivideIsUnique(0, base, 0, 0);
    assert After(p, 0) == p && After(p, 1) == Next(p);
    assert DigitsUpTo(p, 1) == [] + [DigitAt(p, 0)];
    assert WholeDigits(0, base) + DigitsUpTo(p, 1) == [0, digit];
    assert IsFresh(p, 1) && StopsAt(p, 1);
  }

  lemma BytesOfTwo(digit: int)
    requires -128 <= digit <= 128
    ensures Bytes([0, digit]) == [0, if digit < 0 then 256 + digit else digit]
  {
    DivideIsUnique(0, 256, 0, 0);
    if digit < 0 {
      ByteBelowZero(digit);
    } else {
      DivideIsUnique(digit, 256, 0, digit);
    }
    assert [0, digit][..1] == [0] && [0][..0] == [];
  }

  /** One half is written 0 5, but its opposite 0 251. */
  lemma MinusOneHalf()
    ensures WholePart(Number(1, 2)) == WholePart(Number(-1, 2)) == 0
    ensures IsExpansion([0, 5], Number(1, 2), 10) && Bytes([0, 5]) == [0, 5]
    ensures IsExpansion([0, -5], Number(-1, 2), 10) && Bytes([0, -5]) == [0, 251]
  {
    OneDigitExpansion(Number(1, 2), 10, 5);
    OneDigitExpansion(Number(-1, 2), 10, -5);
    BytesOfTwo(5);
    BytesOfTwo(-5);
  }

  /** What is written for a negative whole number are the digits of its 64-bit complement: for -1 those
      of 18446744073709551615. */
  lemma {:induction false} ComplementOfWhole(n: Number, base: nat, digits: seq<int>)
    requires n.den > 0 && n.num < 0 && base >= 2 && IsSigned(WholePart(n)) && FractionOf(n, base).rest == 0
    requires IsExpansion(digits, n, base)
    ensures IsNumeral(digits, base) && Value(digits, base) == 18446744073709551616 + WholePart(n)
    ensures WholePart(n) * n.den == n.num
  {
    WholeExpansion(digits, n, base);
    WholeDigitsValue(Unsigned(WholePart(n)), base);
    if WholePart(n) >= 0 {
      Multiple(WholePart(n), n.den);
      assert false;
    }
  }

  /** In every larger base there is a negative number that is written like its magnitude:
      -128 divided by the base, in whatever terms. */
  lemma LargerBases(n: Number, base: nat)
    requires base > 128 && n.den > 0 && SameNumber(n, Number(-128, base))
    ensures n.num < 0 && IsSigned(WholePart(n)) && IsSigned(WholePart(Magnitude(n)))
    ensures IsExpansion([0, -128], n, base) && IsExpansion([0, 128], Magnitude(n), base)
    ensures Bytes([0, -128]) == Bytes([0, 128])
  {
    BelowOne(n.num, n.den, base);
    OneDigitExpansion(n, base, -128);
    OneDigitExpansion(Magnitude(n), base, 128);
    BytesOfTwo(-128);
    BytesOfTwo(128);
  }

  lemma BelowOne(num: int, den: nat, base: nat)
    requires base > 128 && den > 0 && num * base == den * -128
    ensures num + den > 0 && num < 0 && Abs(num) * base == 128 * den
  {
    Multiple(num, base);
    assert (-num) * base == -(num * base);
    if num + den <= 0 {
      assert (-num) * base == (-num - den) * base + den * base;
      Multiple(-num - den, base);
      assert den * base == den * 128 + den * (base - 128);
      Multiple(base - 128, den);
    }
  }

  /** A simple form of the number, and the bytes of its digits. */
  ghost predicate IsWritten(bytes: seq<nat>, number: Number, n: Number, digits: seq<int>, base: nat)
    requires base >= 2
  {
    && IsSimple(n) && SameNumber(n, number) && IsSigned(WholePart(n))
    && IsExpansion(digits, n, base) && bytes == Bytes(digits)
  }

  lemma WholePartIsSigned(n: Number, number: Number)
    requires IsSimple(n) && number.den != 0 && SameNumber(n, number) && IsSigned(number.num)
    ensures IsSigned(WholePart(n))
  {
    var whole, d := Divide(Abs(n.num), n.den).0, Abs(number.den);
    assert Abs(n.num) * d == n.den * Abs(number.num) by {
      AbsOfProduct(n.num, number.den);
      AbsOfProduct(n.den, number.num);
    }
    WholeAtMost(whole, Divide(Abs(n.num), n.den).1, n.den, Abs(n.num), d, Abs(number.num));
  }

  lemma AbsOfProduct(x: int, y: int)
    ensures Abs(x * y) == Abs(x) * Abs(y)
  {
    assert (-x) * y == -(x * y) && x * (-y) == -(x * y) && (-x) * (-y) == x * y;
    if (x < 0) == (y < 0) {
      Multiples(Abs(x), Abs(y));
    } else {
      Multiples(Abs(x), Abs(y));
    }
  }

  lemma Multiples(x: nat, y: nat)
    ensures x * y >= 0
  {
  }

  lemma WholeAtMost(whole: nat, r: nat, den: nat, num: nat, d: nat, bound: nat)
    requires den > 0 && d > 0 && num == whole * den + r && num * d == den * bound
    ensures whole <= bound
  {
    TimesRight(whole, den, r, d);
    assert whole * (den * d) == den * (whole * d);
    AtMostWithRest(den, whole * d, bound, r * d);
    OnceOrMore(whole, d);
  }

  lemma AtMostWithRest(den: nat, x: nat, bound: nat, rest: nat)
    requires den > 0 && den * bound == den * x + rest
    ensures x <= bound
  {
    assert den * (bound - x) == rest;
    Multiple(bound - x, den);
  }

  lemma OnceOrMore(x: nat, d: nat)
    requires d > 0
    ensures x <= x * d
  {
    assert x * d == x + x * (d - 1);
  }

  /** Division towards zero. */
  method Truncated(n: Number) returns (whole: int)
    requires n.den > 0
    ensures whole == WholePart(n)
  {
    DivideIsDivision(Abs(n.num), n.den);
    whole := if n.num < 0 then -(Abs(n.num) / n.den) else Abs(n.num) / n.den;
  }

  lemma {:induction false} GcdOfRest(x: nat, den: nat)
    requires den > 0
    ensures Gcd(Divide(x, den).1, den) == Gcd(x, den)
  {
    var r := Divide(x, den).1;
    DivideIsUnique(r, den, 0, r);
    assert Gcd(r, den) == Gcd(den, r);
  }

  lemma FractionStands(n: Number, base: nat)
    requires IsSimple(n) && base >= 2
    ensures Stands(Number(n.num - WholePart(n) * n.den, n.den), FractionOf(n, base))
    ensures n.den == 1 <==> FractionOf(n, base).rest == 0
  {
    var p := FractionOf(n, base);
    assert n.num - WholePart(n) * n.den == p.rest;
    assert Abs(p.rest) == Divide(Abs(n.num), n.den).1;
    GcdOfRest(Abs(n.num), n.den);
    if p.rest == 0 {
      WholeIsOverOne(n);
    }
  }

  lemma {:induction false} WrittenBytes(front: seq<nat>, whole: seq<int>, fraction: seq<int>)
    ensures (front + Bytes(whole) + Bytes(fraction))[|front|..] == Bytes(whole + fraction)
    ensures front <= front + Bytes(whole) + Bytes(fraction)
  {
    BytesOfBoth(whole, fraction);
  }

  method AppendDigits(digits: seq<nat>, base: nat, number: Number) returns (r: seq<nat>)
    requires base >= 2 && number.den != 0 && IsSigned(number.num)
    ensures digits <= r && exists n, ds :: IsWritten(r[|digits|..], number, n, ds, base)
  {
    var n := Simplify(number);
    var whole := Truncated(n);
    WholePartIsSigned(n, number);
    ghost var p, k := FractionOf(n, base), 0;
    FractionStands(n, base);
    r := AppendWhole(digits, whole, base);
    ghost var front := r;
    if n.den != 1 {
      r := AppendFraction(r, Number(n.num - whole * n.den, n.den), base, p);
      k := |r| - |front|;
    }
    ghost var ds := WholeDigits(Unsigned(whole), base);
    WrittenBytes(digits, ds, DigitsUpTo(p, k));
    assert r == digits + Bytes(ds) + Bytes(DigitsUpTo(p, k));
    assert IsWritten(r[|digits|..], number, n, ds + DigitsUpTo(p, k), base);
  }
}
