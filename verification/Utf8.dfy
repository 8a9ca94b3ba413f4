/** Runes as bytes and back.  Whether a plain `char` is signed is left to the platform: `signed`
    stands for it, since one of the decoder's tests depends on it. */
module Utf8 {
  type Byte = bv8
  type Rune = bv32
  type Bytes = seq<Byte>

  const RUNE_ERROR: Rune := 0xfffd
  const PAYLOADS: Bytes := [0x7f, 0x1f, 0x0f, 0x07]
  const PATTERNS: Bytes := [0x00, 0xc0, 0xe0, 0xf0]

  // ----- What the bytes mean

  /** How many bytes a rune takes whose first byte is `b`; zero if no rune starts with `b`. */
  function LengthFrom(b: Byte): (n: nat)
    ensures n <= 4
  {
    if b < 0x80 then 1
    else if b < 0xc0 then 0
    else if b < 0xe0 then 2
    else if b < 0xf0 then 3
    else if b < 0xf8 then 4
    else 0
  }

  function Length(s: Bytes): (n: nat)
    ensures n <= 4 && (s == [] ==> n == 0)
  {
    if s == [] then 0 else LengthFrom(s[0])
  }

  function Payload(n: nat, b: Byte): Byte
    requires 1 <= n <= 4
  {
    b & PAYLOADS[n - 1]
  }

  /** A byte in an expression: a signed `char` keeps its sign. */
  function Widen(signed: bool, b: Byte): Rune {
    if signed && b >= 0x80 then 0xffff_ff00 | (b as Rune) else b as Rune
  }

  /** The decoder's test for a byte that cannot continue a rune. */
  predicate RefusedAsContinuation(signed: bool, b: Byte) {
    Widen(signed, b) & 0xffff_ffc0 == 0x80
  }

  predicate IsContinuation(b: Byte) {
    b & 0xc0 == 0x80
  }

  function Shift(result: Rune, b: Byte): Rune {
    (result << 6) | ((b & 0x3f) as Rune)
  }

  /** `left` more bytes belong to the rune behind `s[0]`. */
  function Continue(signed: bool, result: Rune, s: Bytes, left: nat): (r: (Rune, Bytes))
    requires left < |s|
    ensures |r.1| < |s|
    decreases left
  {
    if left == 0 then (result, s[1..])
    else if RefusedAsContinuation(signed, s[1]) then (RUNE_ERROR, s[1..])
    else Continue(signed, Shift(result, s[1]), s[1..], left - 1)
  }

  predicate IsCut(s: Bytes) {
    Length(s) == 0 || |s| < Length(s)
  }

  /** The first rune and what is left, or an error and what is left then. */
  function Decode(signed: bool, s: Bytes): (r: (Rune, Bytes))
    ensures IsCut(s) ==> r == (RUNE_ERROR, s)
    ensures !IsCut(s) ==> |r.1| < |s|
  {
    if IsCut(s) then (RUNE_ERROR, s)
    else Continue(signed, Payload(Length(s), s[0]) as Rune, s, Length(s) - 1)
  }

  // ----- Writing

  /** Six bits of a rune in a byte of their own. */
  function Chunk(r: Rune, shift: bv5): Byte {
    (((r >> shift) & 0x3f) | 0x80) as Byte
  }

  /** The first byte of a rune of two, three or four bytes. */
  function HeadTwo(r: Rune): Byte {
    (((r >> 6) & 0x1f) | 0xc0) as Byte
  }

  function HeadThree(r: Rune): Byte {
    (((r >> 12) & 0x0f) | 0xe0) as Byte
  }

  function HeadFour(r: Rune): Byte {
    (((r >> 18) & 0x07) | 0xf0) as Byte
  }

  function Encode(r: Rune): (s: Bytes)
    ensures 1 <= |s| <= 4
  {
    if r <= 0x7f then [r as Byte]
    else if r <= 0x7ff then [HeadTwo(r), Chunk(r, 0)]
    else if r <= 0xffff then [HeadThree(r), Chunk(r, 6), Chunk(r, 0)]
    else [HeadFour(r), Chunk(r, 12), Chunk(r, 6), Chunk(r, 0)]
  }

  /** The lengths of section 3 of RFC 3629.  Together with what the bytes mean they leave no choice. */
  lemma LengthByRange(r: Rune)
    ensures |Encode(r)| == 1 <==> r < 0x80
    ensures |Encode(r)| == 2 <==> 0x80 <= r < 0x800
    ensures |Encode(r)| == 3 <==> 0x800 <= r < 0x1_0000
    ensures |Encode(r)| == 4 <==> 0x1_0000 <= r
  {
  }

  /** Some runes written out: e with an acute, the euro sign, and the first emoticon. */
  lemma Samples()
    ensures Encode(0xe9) == [0xc3, 0xa9] && Encode(0x20ac) == [0xe2, 0x82, 0xac]
    ensures Encode(0x1_f600) == [0xf0, 0x9f, 0x98, 0x80]
    ensures Decode(true, []) == (0xfffd, []) && Decode(true, [0xc3]) == (0xfffd, [0xc3])
    ensures Decode(false, [0xc3, 0xa9]) == (0xfffd, [0xa9])
  {
    RefusedExactly(false, 0xa9);
    assert [0xc3 as Byte, 0xa9][1..] == [0xa9];
  }

  // ----- One rune there and back

  /** The decoder's test is the wrong way round: where `char` is unsigned it refuses exactly the
      continuation bytes, where it is signed it refuses nothing. */
  lemma RefusedExactly(signed: bool, b: Byte)
    ensures RefusedAsContinuation(signed, b) <==> !signed && IsContinuation(b)
  {
    if b < 0x80 {
      assert (b as Rune) & 0xffff_ffc0 == 0x80 <==> b & 0xc0 == 0x80;
    }
  }

  lemma ChunkContinues(r: Rune, shift: bv5)
    ensures IsContinuation(Chunk(r, shift))
  {
  }

  /** Where no byte is refused, all bytes of the rune are put together. */
  function Gathered(result: Rune, s: Bytes, left: nat): Rune
    requires left < |s|
    decreases left
  {
    if left == 0 then result else Gathered(Shift(result, s[1]), s[1..], left - 1)
  }

  lemma {:induction false} ContinueGathers(signed: bool, result: Rune, s: Bytes, left: nat)
    requires left < |s|
    requires forall i | 1 <= i <= left :: !RefusedAsContinuation(signed, s[i])
    ensures Continue(signed, result, s, left) == (Gathered(result, s, left), s[left + 1..])
    decreases left
  {
    if left > 0 {
      assert s[1..][left..] == s[left + 1..];
      ContinueGathers(signed, Shift(result, s[1]), s[1..], left - 1);
    }
  }

  /** Where `char` is signed every rune is read, whatever the bytes behind the first are. */
  lemma {:induction false} SignedReadsAll(s: Bytes)
    requires !IsCut(s)
    ensures var n := Length(s);
            Decode(true, s) == (Gathered(Payload(n, s[0]) as Rune, s, n - 1), s[n..])
  {
    var n := Length(s);
    forall i | 1 <= i <= n - 1 ensures !RefusedAsContinuation(true, s[i]) {
      RefusedExactly(true, s[i]);
    }
    ContinueGathers(true, Payload(n, s[0]) as Rune, s, n - 1);
  }

  lemma {:induction false} GatheredTwo(a: Rune, s: Bytes)
    requires |s| >= 2
    ensures Gathered(a, s, 1) == Shift(a, s[1])
  {
    assert Gathered(Shift(a, s[1]), s[1..], 0) == Shift(a, s[1]);
  }

  lemma {:induction false} GatheredThree(a: Rune, s: Bytes)
    requires |s| >= 3
    ensures Gathered(a, s, 2) == Shift(Shift(a, s[1]), s[2])
  {
    GatheredTwo(Shift(a, s[1]), s[1..]);
  }

  lemma {:induction false} GatheredFour(a: Rune, s: Bytes)
    requires |s| >= 4
    ensures Gathered(a, s, 3) == Shift(Shift(Shift(a, s[1]), s[2]), s[3])
  {
    GatheredThree(Shift(a, s[1]), s[1..]);
  }

  lemma ChunkZero(r: Rune)
    ensures Shift(r >> 6, Chunk(r, 0)) == r
  {
  }

  lemma ChunkSix(r: Rune)
    ensures Shift(r >> 12, Chunk(r, 6)) == r >> 6
  {
  }

  lemma ChunkTwelve(r: Rune)
    ensures Shift(r >> 18, Chunk(r, 12)) == r >> 12
  {
  }

  /** Only 21 bits of a rune are written. */
  lemma ChunksOfLowBits(r: Rune)
    ensures Chunk(r, 0) == Chunk(r & 0x1f_ffff, 0)
    ensures Chunk(r, 6) == Chunk(r & 0x1f_ffff, 6)
    ensures Chunk(r, 12) == Chunk(r & 0x1f_ffff, 12)
  {
  }

  lemma LowBits(r: Rune)
    requires r < 0x20_0000
    ensures r & 0x1f_ffff == r
  {
  }

  lemma HeadOfOne(r: Rune)
    requires r <= 0x7f
    ensures LengthFrom(r as Byte) == 1 && Payload(1, r as Byte) as Rune == r
  {
    assert PAYLOADS[0] == 0x7f;
  }

  lemma HeadOfTwo(r: Rune)
    requires 0x7f < r <= 0x7ff
    ensures LengthFrom(HeadTwo(r)) == 2 && Payload(2, HeadTwo(r)) as Rune == r >> 6
  {
    assert PAYLOADS[1] == 0x1f;
  }

  lemma HeadOfThree(r: Rune)
    requires 0x7ff < r <= 0xffff
    ensures LengthFrom(HeadThree(r)) == 3 && Payload(3, HeadThree(r)) as Rune == r >> 12
  {
    assert PAYLOADS[2] == 0x0f;
  }

  lemma HeadOfFour(r: Rune)
    ensures LengthFrom(HeadFour(r)) == 4 && Payload(4, HeadFour(r)) as Rune == (r & 0x1f_ffff) >> 18
  {
    assert PAYLOADS[3] == 0x07;
  }

  lemma {:induction false} GatherThree(r: Rune, s: Bytes)
    requires |s| >= 3 && s[1] == Chunk(r, 6) && s[2] == Chunk(r, 0)
    ensures Gathered(r >> 12, s, 2) == r
  {
    GatheredThree(r >> 12, s);
    ChunkSix(r);
    ChunkZero(r);
  }

  lemma {:induction false} GatherFour(r: Rune, s: Bytes)
    requires |s| >= 4 && s[1] == Chunk(r, 12) && s[2] == Chunk(r, 6) && s[3] == Chunk(r, 0)
    ensures Gathered((r & 0x1f_ffff) >> 18, s, 3) == r & 0x1f_ffff
  {
    var low := r & 0x1f_ffff;
    ChunksOfLowBits(r);
    GatheredFour(low >> 18, s);
    ChunkTwelve(low);
    ChunkSix(low);
    ChunkZero(low);
  }

  /** All bytes of the encoding of `r` are there and put together again. */
  ghost predicate ReadsBack(r: Rune, s: Bytes, n: nat) {
    && 1 <= n <= 4 && n <= |s| && Length(s) == n
    && Gathered(Payload(n, s[0]) as Rune, s, n - 1) == r & 0x1f_ffff
  }

  lemma ReadsBackOne(r: Rune, s: Bytes)
    requires r <= 0x7f && |s| >= 1 && s[0] == r as Byte
    ensures ReadsBack(r, s, 1)
  {
    LowBits(r);
    HeadOfOne(r);
  }

  lemma ReadsBackTwo(r: Rune, s: Bytes)
    requires 0x7f < r <= 0x7ff && |s| >= 2 && s[0] == HeadTwo(r) && s[1] == Chunk(r, 0)
    ensures ReadsBack(r, s, 2)
  {
    LowBits(r);
    HeadOfTwo(r);
    GatheredTwo(r >> 6, s);
    ChunkZero(r);
  }

  lemma ReadsBackThree(r: Rune, s: Bytes)
    requires 0x7ff < r <= 0xffff && |s| >= 3
    requires s[0] == HeadThree(r) && s[1] == Chunk(r, 6) && s[2] == Chunk(r, 0)
    ensures ReadsBack(r, s, 3)
  {
    LowBits(r);
    HeadOfThree(r);
    GatherThree(r, s);
  }

  lemma ReadsBackFour(r: Rune, s: Bytes)
    requires 0xffff < r && |s| >= 4
    requires s[0] == HeadFour(r) && s[1] == Chunk(r, 12) && s[2] == Chunk(r, 6) && s[3] == Chunk(r, 0)
    ensures ReadsBack(r, s, 4)
  {
    HeadOfFour(r);
    GatherFour(r, s);
  }

  lemma EncodingReadsBack(r: Rune, rest: Bytes)
    ensures ReadsBack(r, Encode(r) + rest, |Encode(r)|)
  {
    var s := Encode(r) + rest;
    if r <= 0x7f {
      ReadsBackOne(r, s);
    } else if r <= 0x7ff {
      ReadsBackTwo(r, s);
    } else if r <= 0xffff {
      ReadsBackThree(r, s);
    } else {
      ReadsBackFour(r, s);
    }
  }

  lemma SignedReads(r: Rune, rest: Bytes)
    ensures Decode(true, Encode(r) + rest) == (r & 0x1f_ffff, rest)
  {
    var s := Encode(r) + rest;
    EncodingReadsBack(r, rest);
    SignedReadsAll(s);
    assert s[|Encode(r)|..] == rest;
  }

  lemma UnsignedReads(r: Rune, rest: Bytes)
    requires r <= 0x7f
    ensures Decode(false, Encode(r) + rest) == (r, rest)
  {
    var s := Encode(r) + rest;
    EncodingReadsBack(r, rest);
    LowBits(r);
    assert s[1..] == rest;
  }

  /** Where `char` is unsigned the decoder stops at the second byte. */
  lemma UnsignedRefuses(r: Rune, rest: Bytes)
    requires r > 0x7f
    ensures Decode(false, Encode(r) + rest) == (RUNE_ERROR, Encode(r)[1..] + rest)
    ensures IsCut(Encode(r)[1..] + rest)
  {
    var s := Encode(r) + rest;
    EncodingReadsBack(r, rest);
    assert s[1..] == Encode(r)[1..] + rest;
    assert s[1] == Encode(r)[1];
    SecondContinues(r);
    RefusedExactly(false, s[1]);
    ContinuationStartsNothing(s[1]);
  }

  lemma SecondContinues(r: Rune)
    requires r > 0x7f
    ensures |Encode(r)| >= 2 && IsContinuation(Encode(r)[1])
  {
    ChunkContinues(r, 0);
    ChunkContinues(r, 6);
    ChunkContinues(r, 12);
  }

  lemma ContinuationStartsNothing(b: Byte)
    requires IsContinuation(b)
    ensures LengthFrom(b) == 0
  {
  }

  /** Decoding undoes encoding for one-byte runes, and for runes below 2^21 where `char` is
      signed; for no others. */
  predicate Survives(signed: bool, r: Rune) {
    r <= 0x7f || (signed && r < 0x20_0000)
  }

  lemma DecodeInvertsEncodeExactlyWhen(signed: bool, r: Rune, rest: Bytes)
    ensures Decode(signed, Encode(r) + rest) == (r, rest) <==> Survives(signed, r)
  {
    if signed {
      SignedReads(r, rest);
      LowBitsExactly(r);
    } else if r <= 0x7f {
      UnsignedReads(r, rest);
    } else {
      UnsignedRefuses(r, rest);
      SecondContinues(r);
    }
  }

  lemma LowBitsExactly(r: Rune)
    ensures r & 0x1f_ffff == r <==> r < 0x20_0000
  {
  }

  // ----- Strings of runes

  function EncodeAll(runes: seq<Rune>): Bytes {
    if runes == [] then [] else Encode(runes[0]) + EncodeAll(runes[1..])
  }

  /** `n` runes in a row, and what is left. */
  function DecodeMany(signed: bool, s: Bytes, n: nat): (r: (seq<Rune>, Bytes))
    ensures |r.0| == n
    decreases n
  {
    if n == 0 then ([], s)
    else
      var (rune, rest) := Decode(signed, s);
      var more := DecodeMany(signed, rest, n - 1);
      ([rune] + more.0, more.1)
  }

  lemma {:induction false} StuckWhereCut(signed: bool, s: Bytes, n: nat)
    requires IsCut(s)
    ensures DecodeMany(signed, s, n).1 == s
  {
    if n > 0 {
      StuckWhereCut(signed, s, n - 1);
    }
  }

  /** Decoding as many runes as were encoded gives them back with nothing left, if and only if
      each of them survives. */
  lemma {:induction false} StringsSurviveExactlyWhen(signed: bool, runes: seq<Rune>)
    ensures DecodeMany(signed, EncodeAll(runes), |runes|) == (runes, [])
       <==> forall i | 0 <= i < |runes| :: Survives(signed, runes[i])
  {
    if runes != [] {
      var rest := EncodeAll(runes[1..]);
      StringsSurviveExactlyWhen(signed, runes[1..]);
      DecodeInvertsEncodeExactlyWhen(signed, runes[0], rest);
      if Survives(signed, runes[0]) {
        FirstSurvives(signed, runes);
      } else {
        FirstIsLost(signed, runes);
      }
    }
  }

  lemma {:induction false} FirstSurvives(signed: bool, runes: seq<Rune>)
    requires runes != []
    requires Decode(signed, EncodeAll(runes)) == (runes[0], EncodeAll(runes[1..]))
    ensures DecodeMany(signed, EncodeAll(runes), |runes|) == (runes, [])
       <==> DecodeMany(signed, EncodeAll(runes[1..]), |runes| - 1) == (runes[1..], [])
  {
    var more := DecodeMany(signed, EncodeAll(runes[1..]), |runes| - 1);
    assert DecodeMany(signed, EncodeAll(runes), |runes|) == ([runes[0]] + more.0, more.1);
    assert ([runes[0]] + more.0)[1..] == more.0;
    assert [runes[0]] + runes[1..] == runes;
  }

  lemma {:induction false} FirstIsLost(signed: bool, runes: seq<Rune>)
    requires runes != [] && !Survives(signed, runes[0])
    ensures DecodeMany(signed, EncodeAll(runes), |runes|) != (runes, [])
  {
    var rest := EncodeAll(runes[1..]);
    var s := EncodeAll(runes);
    assert s == Encode(runes[0]) + rest;
    if signed {
      RuneIsLost(runes[0], rest);
      FirstDecoded(signed, s, |runes|);
    } else {
      RestIsLeft(runes[0], rest);
      RestStuck(signed, s, Decode(signed, s).1, |runes|);
    }
  }

  lemma RuneIsLost(r: Rune, rest: Bytes)
    requires !Survives(true, r)
    ensures Decode(true, Encode(r) + rest).0 != r
  {
    SignedReads(r, rest);
    LowBitsExactly(r);
  }

  lemma RestIsLeft(r: Rune, rest: Bytes)
    requires !Survives(false, r)
    ensures IsCut(Decode(false, Encode(r) + rest).1) && Decode(false, Encode(r) + rest).1 != []
  {
    SecondContinues(r);
    UnsignedRefuses(r, rest);
  }

  lemma {:induction false} FirstDecoded(signed: bool, s: Bytes, n: nat)
    requires n > 0
    ensures DecodeMany(signed, s, n).0[0] == Decode(signed, s).0
  {
  }

  lemma {:induction false} RestStuck(signed: bool, s: Bytes, rest: Bytes, n: nat)
    requires n > 0 && Decode(signed, s).1 == rest && IsCut(rest)
    ensures DecodeMany(signed, s, n).1 == rest
  {
    StuckWhereCut(signed, rest, n - 1);
  }

  // ----- Bytes there and back

  /** The bytes of the first rune are continued properly, and no shorter encoding has its value. */
  predicate StartsWellFormed(s: Bytes)
    requires !IsCut(s)
  {
    var n := Length(s);
    && (n >= 2 ==> IsContinuation(s[1]))
    && (n >= 3 ==> IsContinuation(s[2]))
    && (n == 4 ==> IsContinuation(s[3]))
    && (n == 2 ==> s[0] >= 0xc2)
    && (n == 3 ==> s[0] > 0xe0 || s[1] >= 0xa0)
    && (n == 4 ==> s[0] > 0xf0 || s[1] >= 0x90)
  }

  lemma OneByteBack(b: Byte)
    requires LengthFrom(b) == 1
    ensures (b as Rune) <= 0x7f && (b as Rune) as Byte == b
  {
  }

  lemma TwoBytesBack(r: Rune, a: Byte, b: Byte)
    requires r == Shift((a & 0x1f) as Rune, b) && LengthFrom(a) == 2
    ensures r <= 0x7ff && HeadTwo(r) == a
    ensures Chunk(r, 0) == b <==> IsContinuation(b)
    ensures r > 0x7f <==> a >= 0xc2
  {
  }

  lemma ThreeBytesBack(r: Rune, a: Byte, b: Byte, c: Byte)
    requires r == Shift(Shift((a & 0x0f) as Rune, b), c) && LengthFrom(a) == 3
    ensures r <= 0xffff && HeadThree(r) == a
    ensures Chunk(r, 0) == c <==> IsContinuation(c)
    ensures Chunk(r, 6) == b <==> IsContinuation(b)
    ensures IsContinuation(b) ==> (r > 0x7ff <==> a > 0xe0 || b >= 0xa0)
  {
  }

  lemma FourBytesBack(r: Rune, a: Byte, b: Byte, c: Byte, d: Byte)
    requires r == Shift(Shift(Shift((a & 0x07) as Rune, b), c), d) && LengthFrom(a) == 4
    ensures HeadFour(r) == a
    ensures Chunk(r, 0) == d <==> IsContinuation(d)
    ensures Chunk(r, 6) == c <==> IsContinuation(c)
    ensures Chunk(r, 12) == b <==> IsContinuation(b)
    ensures IsContinuation(b) ==> (r > 0xffff <==> a > 0xf0 || b >= 0x90)
  {
  }

  lemma EncodesTwo(s: Bytes, r: Rune)
    requires |s| >= 2 && Length(s) == 2 && r <= 0x7ff && HeadTwo(r) == s[0]
    requires Chunk(r, 0) == s[1] <==> IsContinuation(s[1])
    requires r > 0x7f <==> s[0] >= 0xc2
    ensures Encode(r) == s[..2] <==> StartsWellFormed(s)
  {
    assert s[..2] == [s[0], s[1]];
  }

  lemma EncodesThree(s: Bytes, r: Rune)
    requires |s| >= 3 && Length(s) == 3 && r == Shift(Shift((s[0] & 0x0f) as Rune, s[1]), s[2])
    ensures Encode(r) == s[..3] <==> StartsWellFormed(s)
  {
    ThreeBytesBack(r, s[0], s[1], s[2]);
    assert s[..3] == [s[0], s[1], s[2]];
  }

  lemma EncodesFour(s: Bytes, r: Rune)
    requires |s| >= 4 && Length(s) == 4
    requires r == Shift(Shift(Shift((s[0] & 0x07) as Rune, s[1]), s[2]), s[3])
    ensures Encode(r) == s[..4] <==> StartsWellFormed(s)
  {
    FourBytesBack(r, s[0], s[1], s[2], s[3]);
    assert s[..4] == [s[0], s[1], s[2], s[3]];
  }

  lemma {:induction false} EncodesFirst(s: Bytes)
    requires !IsCut(s)
    ensures var n := Length(s);
            Encode(Gathered(Payload(n, s[0]) as Rune, s, n - 1)) == s[..n] <==> StartsWellFormed(s)
  {
    var a := s[0];
    if Length(s) == 1 {
      assert PAYLOADS[0] == 0x7f;
      OneByteBack(a);
      assert a & 0x7f == a;
      assert s[..1] == [a];
    } else if Length(s) == 2 {
      assert PAYLOADS[1] == 0x1f;
      GatheredTwo((a & 0x1f) as Rune, s);
      TwoBytesBack(Shift((a & 0x1f) as Rune, s[1]), a, s[1]);
      EncodesTwo(s, Shift((a & 0x1f) as Rune, s[1]));
    } else if Length(s) == 3 {
      assert PAYLOADS[2] == 0x0f;
      GatheredThree((a & 0x0f) as Rune, s);
      EncodesThree(s, Shift(Shift((a & 0x0f) as Rune, s[1]), s[2]));
    } else {
      assert PAYLOADS[3] == 0x07;
      GatheredFour((a & 0x07) as Rune, s);
      EncodesFour(s, Shift(Shift(Shift((a & 0x07) as Rune, s[1]), s[2]), s[3]));
    }
  }

  /** Where `char` is signed, encoding what was decoded gives the bytes back exactly if they were
      well formed: the decoder itself also reads overlong and wrongly continued runes. */
  lemma SignedGivesBytesBack(s: Bytes)
    requires !IsCut(s)
    ensures var (r, rest) := Decode(true, s); Encode(r) + rest == s <==> StartsWellFormed(s)
  {
    var n := Length(s);
    SignedReadsAll(s);
    EncodesFirst(s);
    SameStart(Encode(Gathered(Payload(n, s[0]) as Rune, s, n - 1)), s, n);
  }

  lemma CutNeverComesBack(signed: bool, s: Bytes)
    requires IsCut(s)
    ensures var (r, rest) := Decode(signed, s); Encode(r) + rest != s
  {
    assert |Encode(RUNE_ERROR) + s| > |s|;
  }

  lemma OneByteComesBack(signed: bool, s: Bytes)
    requires !IsCut(s) && Length(s) == 1
    ensures var (r, rest) := Decode(signed, s); Encode(r) + rest == s
  {
    var a := s[0];
    assert PAYLOADS[0] == 0x7f;
    OneByteBack(a);
    assert a & 0x7f == a;
    assert [a] + s[1..] == s;
  }

  /** The first byte that the unsigned decoder refuses, if there is one. */
  function RefusedAt(s: Bytes, i: nat): (j: nat)
    requires !IsCut(s) && 1 <= i <= Length(s)
    ensures i <= j <= Length(s)
    ensures forall k | i <= k < j :: !IsContinuation(s[k])
    ensures j < Length(s) ==> IsContinuation(s[j])
    decreases Length(s) - i
  {
    if i == Length(s) || IsContinuation(s[i]) then i else RefusedAt(s, i + 1)
  }

  lemma {:induction false} ContinueRefuses(result: Rune, s: Bytes, left: nat, j: nat)
    requires 1 <= j <= left < |s| && IsContinuation(s[j]) && forall k | 1 <= k < j :: !IsContinuation(s[k])
    ensures Continue(false, result, s, left) == (RUNE_ERROR, s[j..])
    decreases left
  {
    RefusedExactly(false, s[1]);
    if j > 1 {
      assert s[1..][j - 1..] == s[j..];
      ContinueRefuses(Shift(result, s[1]), s[1..], left - 1, j - 1);
    }
  }

  lemma ErrorIsThreeBytes()
    ensures |Encode(RUNE_ERROR)| == 3 && LengthFrom(Encode(RUNE_ERROR)[0]) == 3
  {
    HeadOfThree(RUNE_ERROR);
  }

  lemma RefusedNeverComesBack(s: Bytes, j: nat)
    requires !IsCut(s) && 1 <= j < Length(s) && IsContinuation(s[j])
    requires forall k | 1 <= k < j :: !IsContinuation(s[k])
    ensures var (r, rest) := Decode(false, s); Encode(r) + rest != s
  {
    var n, e := Length(s), Encode(RUNE_ERROR);
    ContinueRefuses(Payload(n, s[0]) as Rune, s, n - 1, j);
    ErrorIsThreeBytes();
    assert |e + s[j..]| == 3 + |s| - j;
    assert (e + s[j..])[0] == e[0];
  }

  lemma UncontinuedNeverComesBack(s: Bytes)
    requires !IsCut(s) && Length(s) >= 2 && forall k | 1 <= k < Length(s) :: !IsContinuation(s[k])
    ensures var (r, rest) := Decode(false, s); Encode(r) + rest != s
  {
    var n := Length(s);
    var r := Gathered(Payload(n, s[0]) as Rune, s, n - 1);
    forall i | 1 <= i <= n - 1 ensures !RefusedAsContinuation(false, s[i]) {
      RefusedExactly(false, s[i]);
    }
    ContinueGathers(false, Payload(n, s[0]) as Rune, s, n - 1);
    SameStart(Encode(r), s, n);
    SecondByte(r);
    assert |Encode(r)| == n ==> Encode(r)[1] != s[1] && s[..n][1] == s[1];
  }

  lemma SecondByte(r: Rune)
    ensures |Encode(r)| >= 2 ==> IsContinuation(Encode(r)[1])
  {
    if r > 0x7f {
      SecondContinues(r);
    }
  }

  /** Encoding what was decoded gives the bytes back exactly for a rune of one byte, and for a well
      formed one where `char` is signed. */
  lemma EncodeInvertsDecodeExactlyWhen(signed: bool, s: Bytes)
    ensures var (r, rest) := Decode(signed, s);
            Encode(r) + rest == s <==> !IsCut(s) && (Length(s) == 1 || (signed && StartsWellFormed(s)))
  {
    if IsCut(s) {
      CutNeverComesBack(signed, s);
    } else if Length(s) == 1 {
      OneByteComesBack(signed, s);
    } else if signed {
      SignedGivesBytesBack(s);
    } else {
      var j := RefusedAt(s, 1);
      if j < Length(s) {
        RefusedNeverComesBack(s, j);
      } else {
        UncontinuedNeverComesBack(s);
      }
    }
  }

  lemma SameStart(start: Bytes, s: Bytes, n: nat)
    requires n <= |s|
    ensures start + s[n..] == s <==> start == s[..n]
  {
    assert s[..n] + s[n..] == s;
    if start + s[n..] == s {
      assert (start + s[n..])[..n] == start;
    }
  }

  // ----- The operations as the program runs them

  lemma PatternsMeanLength(b: Byte)
    ensures LengthFrom(b) == 1 <==> b & !PAYLOADS[0] == PATTERNS[0]
    ensures LengthFrom(b) == 2 <==> b & !PAYLOADS[1] == PATTERNS[1]
    ensures LengthFrom(b) == 3 <==> b & !PAYLOADS[2] == PATTERNS[2]
    ensures LengthFrom(b) == 4 <==> b & !PAYLOADS[3] == PATTERNS[3]
  {
    assert PAYLOADS[0] == 0x7f && PAYLOADS[1] == 0x1f && PAYLOADS[2] == 0x0f && PAYLOADS[3] == 0x07;
    assert PATTERNS[0] == 0x00 && PATTERNS[1] == 0xc0 && PATTERNS[2] == 0xe0 && PATTERNS[3] == 0xf0;
  }

  method RuneLength(s: Bytes) returns (n: nat)
    ensures n == Length(s)
  {
    if s != [] {
      PatternsMeanLength(s[0]);
      for i := 0 to |PAYLOADS|
        invariant forall j | 0 <= j < i :: s[0] & !PAYLOADS[j] != PATTERNS[j]
      {
        if s[0] & !PAYLOADS[i] == PATTERNS[i] {
          return i + 1;
        }
      }
    }
    return 0;
  }

  method DecodeRune(signed: bool, source: Bytes) returns (rune: Rune, rest: Bytes)
    ensures (rune, rest) == Decode(signed, source)
  {
    if source == [] {
      return RUNE_ERROR, source;
    }
    var length := RuneLength(source);
    if length == 0 || |source| < length {
      return RUNE_ERROR, source;
    }
    rune, rest := Payload(length, source[0]) as Rune, source;
    length := length - 1;
    ghost var all := Decode(signed, source);
    assert Continue(signed, rune, rest, length) == all;
    while length > 0
      invariant 0 <= length < |rest|
      invariant Continue(signed, rune, rest, length) == all
    {
      rest := rest[1..];
      if RefusedAsContinuation(signed, rest[0]) {
        return RUNE_ERROR, rest;
      }
      rune := Shift(rune, rest[0]);
      length := length - 1;
    }
    rest := rest[1..];
  }

  /** Fills as much of the buffer as the rune needs. */
  method EncodeInto(r: Rune) returns (buffer: array<Byte>, length: nat)
    ensures fresh(buffer) && buffer.Length == 4
    ensures length <= 4 && buffer[..length] == Encode(r)
  {
    buffer := new Byte[4];
    if r <= 0x7f {
      buffer[0] := r as Byte;
      length := 1;
    } else if r <= 0x7ff {
      buffer[0] := HeadTwo(r);
      buffer[1] := Chunk(r, 0);
      length := 2;
    } else if r <= 0xffff {
      buffer[0] := HeadThree(r);
      buffer[1] := Chunk(r, 6);
      buffer[2] := Chunk(r, 0);
      length := 3;
    } else {
      buffer[0] := HeadFour(r);
      buffer[1] := Chunk(r, 12);
      buffer[2] := Chunk(r, 6);
      buffer[3] := Chunk(r, 0);
      length := 4;
    }
  }
}
