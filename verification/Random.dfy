/** Portable random numbers: a uniform integer from a range, and the shuffle built on it. */
module Random {
  import opened Arithmetic
  import opened Wrappers

  // ----- Machine integers

  /** The integers of one C++ type: `lo` is zero, or the type is two's complement. */
  datatype IntType = IntType(lo: int, hi: int) {
    predicate Valid() {
      0 < hi && (lo == 0 || lo == -hi - 1)
    }

    predicate Holds(x: int) {
      lo <= x <= hi
    }

    /** Conversion to the type: congruent modulo the number of its values. */
    function Cast(x: int): (r: int)
      requires Valid()
      ensures Holds(r)
      ensures Holds(x) ==> r == x
    {
      Remainder(x - lo, hi - lo + 1);
      (x - lo) % (hi - lo + 1) + lo
    }
  }

  /** A generator of words in `min..max`, computed with modulo `modulus`. */
  datatype Words = Words(min: nat, max: nat, modulus: nat) {
    predicate Valid() {
      min < max < modulus
    }

    function Range(): (r: nat)
      requires Valid()
      ensures 0 < r < modulus
    {
      max - min
    }

    predicate Makes(words: seq<nat>) {
      forall i | 0 <= i < |words| :: min <= words[i] <= max
    }
  }

  /** `unsigned(b) - unsigned(a)`: the distance, unless the unsigned type is too narrow for it. */
  function DistributionRange(w: Words, a: int, b: int): (d: nat)
    requires w.Valid() && a <= b
    ensures d < w.modulus && d <= b - a
    ensures d == b - a <==> b - a < w.modulus
  {
    RangeOfDifference(w.modulus, a, b);
    (b % w.modulus - a % w.modulus) % w.modulus
  }

  lemma RangeOfDifference(m: nat, a: int, b: int)
    requires m > 0 && a <= b
    ensures var d := (b % m - a % m) % m; d < m && d <= b - a && (d == b - a <==> b - a < m)
  {
    var d := (b % m - a % m) % m;
    var q := b / m - a / m + (b % m - a % m) / m;
    assert b - a == q * m + d by {
      assert b == (b / m) * m + b % m && a == (a / m) * m + a % m;
      assert b % m - a % m == ((b % m - a % m) / m) * m + d;
    }
    Multiple(q, m);
  }

  // ----- Drawing one integer

  /** The script of generator words is finite here; running out of it is an outcome. */
  /** Conversion adds or takes away a multiple of the number of values. */
  lemma CastIsCongruent(t: IntType, x: int)
    requires t.Valid()
    ensures (t.Cast(x) - x) % (t.hi - t.lo + 1) == 0
  {
    var n, y := t.hi - t.lo + 1, x - t.lo;
    assert y == (y / n) * n + y % n;
    assert t.Cast(x) - x == (-(y / n)) * n;
    MultipleHasNoRest(-(y / n), n);
  }

  lemma MultipleHasNoRest(k: int, n: nat)
    requires n > 0
    ensures (k * n) % n == 0
  {
    var x := k * n;
    assert x == (x / n) * n + x % n;
    assert (k - x / n) * n == x % n;
    Multiple(k - x / n, n);
  }

  datatype Draw = Drawn(value: int, rest: seq<nat>) | Exhausted

  /** A word is accepted by the downscaling branch, for a distribution range `d`. */
  predicate DownAccepts(range: nat, d: nat, offset: nat) {
    offset < (d + 1) * (range / (d + 1))
  }

  function Uniform(w: Words, t: IntType, a: int, b: int, words: seq<nat>): (r: Draw)
    requires w.Valid() && t.Valid() && a <= b && t.Holds(a) && t.Holds(b) && w.Makes(words)
    ensures r.Drawn? ==> |r.rest| < |words| && w.Makes(r.rest)
    decreases DistributionRange(w, a, b), |words|, 1
  {
    var d := DistributionRange(w, a, b);
    if w.Range() == d then
      if words == [] then Exhausted else Drawn(t.Cast(words[0] - w.min + a), words[1..])
    else if w.Range() < d then Upscale(w, t, a, b, words)
    else Downscale(w, t, a, d, words)
  }

  /** Rejects words until one falls into a whole chunk. */
  function Downscale(w: Words, t: IntType, a: int, d: nat, words: seq<nat>): (r: Draw)
    requires w.Valid() && t.Valid() && d < w.Range() && w.Makes(words)
    ensures r.Drawn? ==> |r.rest| < |words| && w.Makes(r.rest)
    decreases |words|
  {
    if words == [] then Exhausted
    else
      var offset := words[0] - w.min;
      if DownAccepts(w.Range(), d, offset) then
        ScalingPositive(w.Range(), d);
        Drawn(t.Cast(offset / (w.Range() / (d + 1)) + a), words[1..])
      else Downscale(w, t, a, d, words[1..])
  }

  lemma ScalingPositive(range: nat, d: nat)
    requires d < range
    ensures range / (d + 1) > 0
  {
    assert range == (range / (d + 1)) * (d + 1) + range % (d + 1);
    Multiple(range / (d + 1), d + 1);
  }

  /** Draws a split and a place inside it, until the sum lies in the range and did not wrap. */
  function Upscale(w: Words, t: IntType, a: int, b: int, words: seq<nat>): (r: Draw)
    requires w.Valid() && t.Valid() && a <= b && t.Holds(a) && t.Holds(b) && w.Makes(words)
    requires w.Range() < DistributionRange(w, a, b)
    ensures r.Drawn? ==> |r.rest| < |words| && w.Makes(r.rest)
    decreases DistributionRange(w, a, b), |words|, 0
  {
    var d := DistributionRange(w, a, b);
    SplitCountFits(w, t, a, b);
    var high := Uniform(w, t, 0, t.Cast(d / (w.Range() + 1)), words);
    if high.Exhausted? || high.rest == [] then Exhausted
    else
      match MachinePair(w, d, high.value, high.rest[0] - w.min)
      case None => Upscale(w, t, a, b, high.rest[1..])
      case Some(result) => Drawn(t.Cast(result + a), high.rest[1..])
  }

  /** The sum and the test on it, in unsigned arithmetic. */
  function MachinePair(w: Words, d: nat, high: int, low: nat): Option<nat>
    requires w.Valid()
  {
    var tmp := ((w.Range() + 1) * high) % w.modulus;
    var result := (tmp + low) % w.modulus;
    if result > d || result < tmp then None else Some(result)
  }

  /** The number of splits survives its conversion, and the inner draw has a smaller range. */
  lemma SplitCountFits(w: Words, t: IntType, a: int, b: int)
    requires w.Valid() && t.Valid() && a <= b && t.Holds(a) && t.Holds(b)
    requires w.Range() < DistributionRange(w, a, b)
    ensures var d := DistributionRange(w, a, b);
            var inner := d / (w.Range() + 1);
            && 0 < inner < d && t.Holds(0) && t.Holds(inner) && t.Cast(inner) == inner
            && DistributionRange(w, 0, inner) == inner
  {
    var d := DistributionRange(w, a, b);
    var inner := d / (w.Range() + 1);
    Quotient(d, w.Range() + 1);
    assert t.Holds(inner) by {
      assert d <= b - a <= t.hi - t.lo;
    }
    assert DistributionRange(w, 0, inner) == inner by {
      assert inner - 0 < w.modulus;
    }
  }

  // ----- One attempt without retries, in exact arithmetic

  /** What `offsets` (words less their minimum) yield for a distribution range `d`: the words of
      the inner draw come first. */
  function Attempt(range: nat, d: nat, offsets: seq<nat>): (r: Option<nat>)
    requires range > 0 && |offsets| == Depth(range, d)
    ensures r.Some? ==> r.value <= d
    decreases d
  {
    if range == d then
      if offsets[0] <= d then Some(offsets[0]) else None
    else if range < d then
      Quotient(d, range + 1);
      var n := |offsets| - 1;
      match Attempt(range, d / (range + 1), offsets[..n])
      case None => None
      case Some(high) => PairValue(range, d, high, offsets[n])
    else DownAttempt(range, d, offsets[0])
  }

  function DownAttempt(range: nat, d: nat, offset: nat): (r: Option<nat>)
    requires d < range
    ensures r.Some? ==> r.value <= d
  {
    if DownAccepts(range, d, offset) then
      ScalingPositive(range, d);
      DownValueInRange(range, d, offset);
      Some(offset / (range / (d + 1)))
    else None
  }

  /** The number of words in an attempt. */
  function Depth(range: nat, d: nat): (n: nat)
    requires range > 0
    ensures n > 0
    decreases d
  {
    if range < d then
      Quotient(d, range + 1);
      Depth(range, d / (range + 1)) + 1
    else 1
  }

  function PairValue(range: nat, d: nat, high: nat, low: nat): (r: Option<nat>)
    ensures r.Some? ==> r.value <= d
  {
    var x := (range + 1) * high + low;
    if x <= d then Some(x) else None
  }

  lemma DownValueInRange(range: nat, d: nat, offset: nat)
    requires d < range && range / (d + 1) > 0 && DownAccepts(range, d, offset)
    ensures offset / (range / (d + 1)) <= d
  {
    var s := range / (d + 1);
    assert offset == (offset / s) * s + offset % s;
    Multiple(offset / s - d, s);
    assert (offset / s - d) * s == (offset / s) * s - d * s;
    assert (d + 1) * s == d * s + s;
  }

  // ----- The loops compute accepted attempts

  /** Unsigned wrap-around never accepts or changes a value: the machine's test and sum are those
      of exact arithmetic. */
  lemma WrapAroundIsHarmless(w: Words, d: nat, high: nat, low: nat)
    requires w.Valid() && w.Range() < d < w.modulus && low <= w.Range()
    requires high <= d / (w.Range() + 1)
    ensures MachinePair(w, d, high, low) == PairValue(w.Range(), d, high, low)
  {
    var tmp := (w.Range() + 1) * high;
    ProductBound(w.Range() + 1, high, d);
    SmallRemainder(tmp, w.modulus);
    SmallRemainder(tmp + low, w.modulus);
  }

  ghost predicate InOffsets(w: Words, offsets: seq<nat>)
    requires w.Valid()
  {
    forall i | 0 <= i < |offsets| :: offsets[i] <= w.Range()
  }

  /** Every drawn integer is `a` plus the value of an accepted attempt, so it lies in the range. */
  lemma {:induction false} DrawnByAttempt(w: Words, t: IntType, a: int, b: int, words: seq<nat>)
    returns (offsets: seq<nat>)
    requires w.Valid() && t.Valid() && a <= b && t.Holds(a) && t.Holds(b) && w.Makes(words)
    requires Uniform(w, t, a, b, words).Drawn?
    ensures |offsets| == Depth(w.Range(), DistributionRange(w, a, b)) && InOffsets(w, offsets)
    ensures var v := Uniform(w, t, a, b, words).value;
            && a <= v <= a + DistributionRange(w, a, b)
            && Attempt(w.Range(), DistributionRange(w, a, b), offsets) == Some(v - a)
    decreases DistributionRange(w, a, b), |words|, 1
  {
    var d := DistributionRange(w, a, b);
    if w.Range() == d {
      offsets := [words[0] - w.min];
      assert t.Holds(words[0] - w.min + a);
    } else if w.Range() < d {
      offsets := UpscaledByAttempt(w, t, a, b, words);
    } else {
      offsets := DownscaledByAttempt(w, t, a, b, words);
    }
  }

  lemma {:induction false} AcceptedWord(range: nat, d: nat, offset: nat)
    requires d < range && DownAccepts(range, d, offset)
    ensures range / (d + 1) > 0
    ensures Attempt(range, d, [offset]) == Some(offset / (range / (d + 1)))
  {
    ScalingPositive(range, d);
    DownValueInRange(range, d, offset);
  }

  lemma {:induction false} DownscaledByAttempt(w: Words, t: IntType, a: int, b: int, words: seq<nat>)
    returns (offsets: seq<nat>)
    requires w.Valid() && t.Valid() && a <= b && t.Holds(a) && t.Holds(b) && w.Makes(words)
    requires DistributionRange(w, a, b) < w.Range()
    requires Downscale(w, t, a, DistributionRange(w, a, b), words).Drawn?
    ensures |offsets| == 1 && InOffsets(w, offsets)
    ensures var d := DistributionRange(w, a, b);
            var v := Downscale(w, t, a, d, words).value;
            && a <= v <= a + d
            && Attempt(w.Range(), d, offsets) == Some(v - a)
    decreases |words|
  {
    var d := DistributionRange(w, a, b);
    var offset := words[0] - w.min;
    if DownAccepts(w.Range(), d, offset) {
      offsets := [offset];
      AcceptedWord(w.Range(), d, offset);
      assert t.Holds(Attempt(w.Range(), d, [offset]).value + a);
    } else {
      offsets := DownscaledByAttempt(w, t, a, b, words[1..]);
    }
  }

  /** One more offset makes an attempt at the larger range. */
  lemma {:induction false} PairedAttempt(w: Words, d: nat, front: seq<nat>, high: nat, low: nat)
    requires w.Valid() && 0 < w.Range() < d && InOffsets(w, front) && low <= w.Range()
    requires |front| == Depth(w.Range(), d / (w.Range() + 1))
    requires Attempt(w.Range(), d / (w.Range() + 1), front) == Some(high)
    ensures |front| + 1 == Depth(w.Range(), d) && InOffsets(w, front + [low])
    ensures Attempt(w.Range(), d, front + [low]) == PairValue(w.Range(), d, high, low)
  {
    assert (front + [low])[..|front|] == front;
  }

  lemma {:induction false} UpscaledByAttempt(w: Words, t: IntType, a: int, b: int, words: seq<nat>)
    returns (offsets: seq<nat>)
    requires w.Valid() && t.Valid() && a <= b && t.Holds(a) && t.Holds(b) && w.Makes(words)
    requires w.Range() < DistributionRange(w, a, b)
    requires Upscale(w, t, a, b, words).Drawn?
    ensures |offsets| == Depth(w.Range(), DistributionRange(w, a, b)) && InOffsets(w, offsets)
    ensures var d := DistributionRange(w, a, b);
            var v := Upscale(w, t, a, b, words).value;
            && a <= v <= a + d
            && Attempt(w.Range(), d, offsets) == Some(v - a)
    decreases DistributionRange(w, a, b), |words|, 0
  {
    var d := DistributionRange(w, a, b);
    var inner := d / (w.Range() + 1);
    SplitCountFits(w, t, a, b);
    var high := Uniform(w, t, 0, inner, words);
    var front := DrawnByAttempt(w, t, 0, inner, words);
    var low := high.rest[0] - w.min;
    WrapAroundIsHarmless(w, d, high.value, low);
    var pair := PairValue(w.Range(), d, high.value, low);
    if pair.None? {
      offsets := UpscaledByAttempt(w, t, a, b, high.rest[1..]);
    } else {
      offsets := front + [low];
      PairedAttempt(w, d, front, high.value, low);
      assert t.Holds(pair.value + a);
    }
  }

  function Shifted(w: Words, offsets: seq<nat>): (words: seq<nat>)
    requires w.Valid()
    ensures |words| == |offsets|
  {
    seq(|offsets|, i requires 0 <= i < |offsets| => offsets[i] + w.min)
  }

  lemma {:induction false} UpscaleTakes(w: Words, t: IntType, a: int, b: int, words: seq<nat>,
                                        high: nat, more: seq<nat>)
    requires w.Valid() && t.Valid() && a <= b && t.Holds(a) && t.Holds(b)
    requires w.Makes(words) && w.Makes(more) && more != []
    requires var d := DistributionRange(w, a, b);
             && w.Range() < d && high <= d / (w.Range() + 1)
             && t.Holds(d / (w.Range() + 1)) && t.Holds(0)
             && Uniform(w, t, 0, d / (w.Range() + 1), words) == Drawn(high, more)
    requires PairValue(w.Range(), DistributionRange(w, a, b), high, more[0] - w.min).Some?
    ensures Upscale(w, t, a, b, words) ==
            Drawn(a + PairValue(w.Range(), DistributionRange(w, a, b), high, more[0] - w.min).value, more[1..])
  {
    var d := DistributionRange(w, a, b);
    WrapAroundIsHarmless(w, d, high, more[0] - w.min);
    var x := PairValue(w.Range(), d, high, more[0] - w.min).value;
    assert t.Holds(x + a);
    UpscaleStep(w, t, a, b, words, high, more, x);
  }

  lemma UpscaleStep(w: Words, t: IntType, a: int, b: int, words: seq<nat>, high: nat, more: seq<nat>, x: nat)
    requires w.Valid() && t.Valid() && a <= b && t.Holds(a) && t.Holds(b)
    requires w.Makes(words) && w.Makes(more) && more != []
    requires var d := DistributionRange(w, a, b);
             && w.Range() < d
             && t.Holds(d / (w.Range() + 1)) && t.Holds(0)
             && Uniform(w, t, 0, d / (w.Range() + 1), words) == Drawn(high, more)
             && MachinePair(w, d, high, more[0] - w.min) == Some(x)
    requires t.Holds(x + a)
    ensures Upscale(w, t, a, b, words) == Drawn(a + x, more[1..])
  {
  }

  /** Without upscaling a single word decides. */
  lemma DirectlyDrawn(w: Words, t: IntType, a: int, b: int, offsets: seq<nat>, rest: seq<nat>)
    requires w.Valid() && t.Valid() && a <= b && t.Holds(a) && t.Holds(b)
    requires InOffsets(w, offsets) && w.Makes(rest) && DistributionRange(w, a, b) <= w.Range()
    requires |offsets| == Depth(w.Range(), DistributionRange(w, a, b))
    requires Attempt(w.Range(), DistributionRange(w, a, b), offsets).Some?
    requires t.Holds(a + Attempt(w.Range(), DistributionRange(w, a, b), offsets).value)
    ensures w.Makes(Shifted(w, offsets) + rest)
    ensures Uniform(w, t, a, b, Shifted(w, offsets) + rest) ==
            Drawn(a + Attempt(w.Range(), DistributionRange(w, a, b), offsets).value, rest)
  {
    var words := Shifted(w, offsets) + rest;
    assert words[1..] == rest && words[0] - w.min == offsets[0];
  }

  lemma ShiftedLast(w: Words, offsets: seq<nat>, rest: seq<nat>)
    requires w.Valid() && offsets != []
    ensures var n := |offsets| - 1;
            Shifted(w, offsets) + rest == Shifted(w, offsets[..n]) + ([offsets[n] + w.min] + rest)
  {
  }

  lemma AttemptOfFront(w: Words, d: nat, offsets: seq<nat>)
    requires w.Valid() && w.Range() < d && InOffsets(w, offsets) && |offsets| == Depth(w.Range(), d)
    requires Attempt(w.Range(), d, offsets).Some?
    ensures var n, inner := |offsets| - 1, d / (w.Range() + 1);
            && n == Depth(w.Range(), inner) && InOffsets(w, offsets[..n])
            && Attempt(w.Range(), inner, offsets[..n]).Some?
            && PairValue(w.Range(), d, Attempt(w.Range(), inner, offsets[..n]).value, offsets[n]) ==
               Attempt(w.Range(), d, offsets)
  {
  }

  /** Conversely, an accepted attempt is drawn as soon as the generator makes its words. */
  lemma {:induction false} AttemptIsDrawn(w: Words, t: IntType, a: int, b: int, offsets: seq<nat>, rest: seq<nat>)
    requires w.Valid() && t.Valid() && a <= b && t.Holds(a) && t.Holds(b)
    requires InOffsets(w, offsets) && w.Makes(rest)
    requires |offsets| == Depth(w.Range(), DistributionRange(w, a, b))
    requires Attempt(w.Range(), DistributionRange(w, a, b), offsets).Some?
    ensures w.Makes(Shifted(w, offsets) + rest)
    ensures Uniform(w, t, a, b, Shifted(w, offsets) + rest) ==
            Drawn(a + Attempt(w.Range(), DistributionRange(w, a, b), offsets).value, rest)
    decreases DistributionRange(w, a, b), 1
  {
    if DistributionRange(w, a, b) <= w.Range() {
      DirectlyDrawn(w, t, a, b, offsets, rest);
    } else {
      AttemptIsUpscaled(w, t, a, b, offsets, rest);
    }
  }

  lemma {:induction false} AttemptIsUpscaled(w: Words, t: IntType, a: int, b: int, offsets: seq<nat>, rest: seq<nat>)
    requires w.Valid() && t.Valid() && a <= b && t.Holds(a) && t.Holds(b)
    requires InOffsets(w, offsets) && w.Makes(rest)
    requires w.Range() < DistributionRange(w, a, b) && |offsets| == Depth(w.Range(), DistributionRange(w, a, b))
    requires Attempt(w.Range(), DistributionRange(w, a, b), offsets).Some?
    ensures w.Makes(Shifted(w, offsets) + rest)
    ensures Upscale(w, t, a, b, Shifted(w, offsets) + rest) ==
            Drawn(a + Attempt(w.Range(), DistributionRange(w, a, b), offsets).value, rest)
    decreases DistributionRange(w, a, b), 0
  {
    var d, n := DistributionRange(w, a, b), |offsets| - 1;
    var inner := d / (w.Range() + 1);
    var more := [offsets[n] + w.min] + rest;
    SplitCountFits(w, t, a, b);
    AttemptOfFront(w, d, offsets);
    ShiftedLast(w, offsets, rest);
    AttemptIsDrawn(w, t, 0, inner, offsets[..n], more);
    UpscaleTakes(w, t, a, b, Shifted(w, offsets) + rest, Attempt(w.Range(), inner, offsets[..n]).value, more);
    assert more[1..] == rest;
  }

  // ----- Unbiasedness

  /** All sequences of `n` offsets. */
  ghost function Tuples(range: nat, n: nat): set<seq<nat>> {
    if n == 0 then {[]} else set s, x: nat | s in Tuples(range, n - 1) && x <= range :: s + [x]
  }

  lemma {:induction false} TuplesAre(range: nat, n: nat, s: seq<nat>)
    ensures s in Tuples(range, n) <==> |s| == n && forall i | 0 <= i < n :: s[i] <= range
    decreases n
  {
    if n > 0 && |s| == n {
      TuplesAre(range, n - 1, s[..n - 1]);
      assert s == s[..n - 1] + [s[n - 1]];
    } else if n > 0 {
      forall t, x: nat | t in Tuples(range, n - 1) && x <= range ensures s != t + [x] {
        TuplesAre(range, n - 1, t);
      }
    }
    if n > 0 && s in Tuples(range, n) {
      var t, x: nat :| t in Tuples(range, n - 1) && x <= range && s == t + [x];
      TuplesAre(range, n - 1, t);
      assert s[..n - 1] == t;
    }
  }

  /** The attempts that yield `v`. */
  ghost function Yielding(range: nat, d: nat, v: nat): set<seq<nat>>
    requires range > 0
  {
    set s | s in Tuples(range, Depth(range, d)) && |s| == Depth(range, d) && Attempt(range, d, s) == Some(v)
  }

  /** How many attempts yield each value. */
  function Weight(range: nat, d: nat): (n: nat)
    requires range > 0
    ensures n > 0
    decreases d
  {
    if range == d then 1
    else if range < d then
      Quotient(d, range + 1);
      Weight(range, d / (range + 1))
    else
      ScalingPositive(range, d);
      range / (d + 1)
  }

  /** Every value of the range is yielded by the same positive number of attempts. */
  lemma {:induction false} Unbiased(range: nat, d: nat, v: nat)
    requires range > 0 && v <= d
    ensures |Yielding(range, d, v)| == Weight(range, d)
    decreases d
  {
    if range == d {
      UnbiasedEqual(range, v);
    } else if range < d {
      UnbiasedUp(range, d, v);
    } else {
      UnbiasedDown(range, d, v);
    }
  }

  lemma UnbiasedEqual(range: nat, v: nat)
    requires range > 0 && v <= range
    ensures |Yielding(range, range, v)| == 1
  {
    forall s ensures s in Yielding(range, range, v) <==> s == [v] {
      TuplesAre(range, 1, s);
      if |s| == 1 {
        assert s == [s[0]];
      }
    }
    assert Yielding(range, range, v) == {[v]};
  }

  /** Downscaling: exactly `scaling` words are accepted for each value. */
  lemma UnbiasedDown(range: nat, d: nat, v: nat)
    requires d < range && v <= d
    ensures |Yielding(range, d, v)| == range / (d + 1)
  {
    var k := range / (d + 1);
    ScalingPositive(range, d);
    forall s ensures s in Yielding(range, d, v) <==> s in Singletons(v * k, k) {
      TuplesAre(range, 1, s);
      SingletonsAre(v * k, k, s);
      if |s| == 1 {
        ChunkOf(range, d, v, s[0]);
        assert s == [s[0]];
      }
    }
    assert Yielding(range, d, v) == Singletons(v * k, k);
    SingletonsCount(v * k, k);
  }

  lemma ChunkOf(range: nat, d: nat, v: nat, x: nat)
    requires d < range && v <= d && range / (d + 1) > 0
    ensures var k := range / (d + 1);
            DownAccepts(range, d, x) && x / k == v <==> v * k <= x < v * k + k
    ensures var k := range / (d + 1); x < v * k + k ==> x <= range
  {
    var k := range / (d + 1);
    assert range == k * (d + 1) + range % (d + 1);
    ChunkInside(d, v, k);
    if v * k <= x < v * k + k {
      QuotientIsUnique(x, k, v, x - v * k);
    }
    if x / k == v {
      assert x == (x / k) * k + x % k;
    }
  }

  lemma ChunkInside(d: nat, v: nat, k: nat)
    requires v <= d
    ensures v * k + k <= (d + 1) * k
  {
    assert (d + 1) * k == v * k + k + (d - v) * k;
  }

  ghost function Singletons(from: nat, n: nat): set<seq<nat>> {
    if n == 0 then {} else Singletons(from, n - 1) + {[from + n - 1]}
  }

  lemma {:induction false} SingletonsAre(from: nat, n: nat, s: seq<nat>)
    ensures s in Singletons(from, n) <==> |s| == 1 && from <= s[0] < from + n
    decreases n
  {
    if n > 0 {
      SingletonsAre(from, n - 1, s);
      if |s| == 1 {
        assert s == [s[0]];
      }
    }
  }

  lemma {:induction false} SingletonsCount(from: nat, n: nat)
    ensures |Singletons(from, n)| == n
    decreases n
  {
    if n > 0 {
      SingletonsCount(from, n - 1);
      SingletonsAre(from, n - 1, [from + n - 1]);
    }
  }

  /** Upscaling: exactly one pair of a split and a place yields each value. */
  lemma OnePairPerValue(range: nat, d: nat, v: nat, high: nat, low: nat)
    requires range < d && v <= d && low <= range
    ensures PairValue(range, d, high, low) == Some(v) <==> high == v / (range + 1) && low == v % (range + 1)
    ensures v / (range + 1) <= d / (range + 1)
  {
    var k := range + 1;
    QuotientIsMonotone(v, d, k);
    if k * high + low == v {
      QuotientIsUnique(v, k, high, low);
    }
    if high == v / k && low == v % k {
      assert v == (v / k) * k + v % k;
    }
  }

  lemma {:induction false} UnbiasedUp(range: nat, d: nat, v: nat)
    requires 0 < range < d && v <= d
    ensures |Yielding(range, d, v)| == Weight(range, d)
    decreases d, 0
  {
    var k := range + 1;
    Quotient(d, k);
    var high, low, inner := v / k, v % k, d / k;
    var n := Depth(range, inner);
    OnePairPerValue(range, d, v, high, low);
    Unbiased(range, inner, high);
    var front := Yielding(range, inner, high);
    forall s ensures s in Yielding(range, d, v) <==> s in Extended(front, low) {
      TuplesAre(range, n + 1, s);
      if |s| == n + 1 {
        TuplesAre(range, n, s[..n]);
        assert s == s[..n] + [s[n]];
        if s[n] <= range && Attempt(range, inner, s[..n]).Some? {
          OnePairPerValue(range, d, v, Attempt(range, inner, s[..n]).value, s[n]);
        }
      }
      forall t | t in front ensures |t| == n && (t + [low])[..n] == t {
        assert (t + [low])[..n] == t;
      }
    }
    assert Yielding(range, d, v) == Extended(front, low);
    ExtendedCount(front, low);
  }

  ghost function Extended(front: set<seq<nat>>, low: nat): set<seq<nat>> {
    set s | s in front :: s + [low]
  }

  lemma {:induction false} ExtendedCount(front: set<seq<nat>>, low: nat)
    ensures |Extended(front, low)| == |front|
    decreases |front|
  {
    if front == {} {
      assert Extended(front, low) == {};
    } else {
      var s :| s in front;
      ExtendedCount(front - {s}, low);
      forall t | t in front && t + [low] == s + [low] ensures t == s {
        assert (t + [low])[..|t|] == t && (s + [low])[..|s|] == s;
      }
      assert Extended(front, low) == Extended(front - {s}, low) + {s + [low]};
      assert s + [low] !in Extended(front - {s}, low);
    }
  }

  /** The end of the range can be drawn if and only if the range fits the generator's word: an
      integer type wider than the word loses the upper part of wide ranges. */
  lemma LargestIsDrawnExactlyWhen(w: Words, t: IntType, a: int, b: int)
    requires w.Valid() && t.Valid() && a <= b && t.Holds(a) && t.Holds(b)
    ensures (exists words :: w.Makes(words) && DrawsValue(w, t, a, b, words, b)) <==> b - a < w.modulus
  {
    var d := DistributionRange(w, a, b);
    if words :| w.Makes(words) && DrawsValue(w, t, a, b, words, b) {
      var _ := DrawnByAttempt(w, t, a, b, words);
    }
    if b - a < w.modulus {
      EveryValueIsDrawn(w, t, a, b, b);
    }
  }

  ghost predicate DrawsValue(w: Words, t: IntType, a: int, b: int, words: seq<nat>, v: int)
    requires w.Valid() && t.Valid() && a <= b && t.Holds(a) && t.Holds(b) && w.Makes(words)
  {
    Uniform(w, t, a, b, words) == Drawn(v, [])
  }

  lemma EveryValueIsDrawn(w: Words, t: IntType, a: int, b: int, v: int)
    requires w.Valid() && t.Valid() && a <= v <= b && t.Holds(a) && t.Holds(b)
    requires b - a < w.modulus
    ensures exists words :: w.Makes(words) && DrawsValue(w, t, a, b, words, v)
  {
    var words := WordsFor(w, t, a, b, v, []);
    assert DrawsValue(w, t, a, b, words + [], v);
  }

  /** Whatever words follow. */
  lemma WordsFor(w: Words, t: IntType, a: int, b: int, v: int, rest: seq<nat>) returns (words: seq<nat>)
    requires w.Valid() && t.Valid() && a <= v <= b && t.Holds(a) && t.Holds(b)
    requires b - a < w.modulus && w.Makes(rest)
    ensures w.Makes(words + rest) && Uniform(w, t, a, b, words + rest) == Drawn(v, rest)
  {
    var d := DistributionRange(w, a, b);
    Unbiased(w.Range(), d, v - a);
    var offsets :| offsets in Yielding(w.Range(), d, v - a);
    TuplesAre(w.Range(), Depth(w.Range(), d), offsets);
    AttemptIsDrawn(w, t, a, b, offsets, rest);
    words := Shifted(w, offsets);
  }

  // ----- The routine, drawing from a generator

  class Generator {
    const kind: Words
    var words: seq<nat>

    ghost predicate Valid()
      reads this
    {
      kind.Valid() && kind.Makes(words)
    }

    constructor (kind: Words, words: seq<nat>)
      requires kind.Valid() && kind.Makes(words)
      ensures Valid() && this.kind == kind && this.words == words
    {
      this.kind, this.words := kind, words;
    }

    method Next() returns (r: Option<nat>)
      requires Valid()
      modifies this
      ensures Valid()
      ensures old(words) == [] ==> r == None && words == []
      ensures old(words) != [] ==> r == Some(old(words)[0]) && words == old(words)[1..]
    {
      if words == [] {
        return None;
      }
      r := Some(words[0]);
      words := words[1..];
    }

    method DrawUniform(t: IntType, a: int, b: int) returns (r: Option<int>)
      requires Valid() && t.Valid() && a <= b && t.Holds(a) && t.Holds(b)
      modifies this
      ensures Valid()
      ensures match Uniform(kind, t, a, b, old(words))
              case Drawn(v, rest) => r == Some(v) && words == rest
              case Exhausted => r == None
      decreases DistributionRange(kind, a, b), 2
    {
      var range, d := kind.Range(), DistributionRange(kind, a, b);
      if range == d {
        var word := Next();
        if word == None {
          return None;
        }
        return Some(t.Cast(word.value - kind.min + a));
      } else if range < d {
        r := DrawUpscaled(t, a, b);
      } else {
        r := DrawDownscaled(t, a, d);
      }
    }

    method DrawUpscaled(t: IntType, a: int, b: int) returns (r: Option<int>)
      requires Valid() && t.Valid() && a <= b && t.Holds(a) && t.Holds(b)
      requires kind.Range() < DistributionRange(kind, a, b)
      modifies this
      ensures Valid()
      ensures match Upscale(kind, t, a, b, old(words))
              case Drawn(v, rest) => r == Some(v) && words == rest
              case Exhausted => r == None
      decreases DistributionRange(kind, a, b), 1
    {
      ghost var all := Upscale(kind, t, a, b, words);
      while true
        invariant Valid() && Upscale(kind, t, a, b, words) == all
        decreases |words|
      {
        var over;
        over, r := TryUpscaled(t, a, b);
        if over {
          return;
        }
      }
    }

    /** One round: a split and a place inside it, which may not do. */
    method TryUpscaled(t: IntType, a: int, b: int) returns (over: bool, r: Option<int>)
      requires Valid() && t.Valid() && a <= b && t.Holds(a) && t.Holds(b)
      requires kind.Range() < DistributionRange(kind, a, b)
      modifies this
      ensures Valid()
      ensures !over ==> |words| < |old(words)|
      ensures !over ==> Upscale(kind, t, a, b, old(words)) == Upscale(kind, t, a, b, words)
      ensures over ==> match Upscale(kind, t, a, b, old(words))
                       case Drawn(v, rest) => r == Some(v) && words == rest
                       case Exhausted => r == None
      decreases DistributionRange(kind, a, b), 0
    {
      var d, splits := DistributionRange(kind, a, b), kind.Range() + 1;
      SplitCountFits(kind, t, a, b);
      var high := DrawUniform(t, 0, t.Cast(d / splits));
      if high == None {
        return true, None;
      }
      var word := Next();
      if word == None {
        return true, None;
      }
      var result := MachinePair(kind, d, high.value, word.value - kind.min);
      if result == None {
        return false, None;
      }
      return true, Some(t.Cast(result.value + a));
    }

    method DrawDownscaled(t: IntType, a: int, d: nat) returns (r: Option<int>)
      requires Valid() && t.Valid() && d < kind.Range()
      modifies this
      ensures Valid()
      ensures match Downscale(kind, t, a, d, old(words))
              case Drawn(v, rest) => r == Some(v) && words == rest
              case Exhausted => r == None
    {
      var effectiveRange := d + 1;
      var scaling := kind.Range() / effectiveRange;
      ScalingPositive(kind.Range(), d);
      while true
        invariant Valid() && |words| <= |old(words)|
        invariant Downscale(kind, t, a, d, words) == Downscale(kind, t, a, d, old(words))
        decreases |words|
      {
        var word := Next();
        if word == None {
          return None;
        }
        var result := word.value - kind.min;
        if result < effectiveRange * scaling {
          return Some(t.Cast(result / scaling + a));
        }
      }
    }
  }
}
