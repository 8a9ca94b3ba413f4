/** How long lengths, chords and their notes take. */
module Durations {
  import opened Music
  import opened Sorting
  import opened Wrappers

  /** Seconds that a length takes. */
  function Duration(ctx: Context, length: real): real
    requires ctx.bpm > 0
  {
    length * 240.0 / (ctx.bpm as real)
  }

  /** The tempo counts quarter notes: as many as it says fill a minute. */
  lemma QuartersPerMinute(ctx: Context)
    requires ctx.bpm > 0
    ensures Duration(ctx, 0.25) * (ctx.bpm as real) == 60.0
  {
  }

  /** Twice the length takes twice the time. */
  lemma DurationIsLinear(ctx: Context, x: real, k: real)
    requires ctx.bpm > 0
    ensures Duration(ctx, k * x) == k * Duration(ctx, x)
  {
  }

  function NonNegative(x: real): real {
    if x < 0.0 then 0.0 else x
  }

  lemma DurationIsMonotone(ctx: Context, x: real, y: real)
    requires ctx.bpm > 0 && x <= y
    ensures Duration(ctx, x) <= Duration(ctx, y)
  {
    var b := ctx.bpm as real;
    assert (y * 240.0 - x * 240.0) / b >= 0.0;
    assert y * 240.0 / b - x * 240.0 / b == (y * 240.0 - x * 240.0) / b;
  }

  function Length(n: FullNote): real {
    n.length
  }

  /** The sleep while notes end in the given order, with `left` of the longest still to go. */
  function TimeToEnd(ctx: Context, notes: seq<FullNote>, left: real): real
    requires ctx.bpm > 0
  {
    if notes == [] then 0.0
    else TimeOfNote(ctx, notes[0], left) + TimeToEnd(ctx, notes[1..], AfterNote(notes[0], left))
  }

  function AfterNote(n: FullNote, left: real): real {
    if left != 0.0 then left - n.length else left
  }

  function TimeOfNote(ctx: Context, n: FullNote, left: real): real
    requires ctx.bpm > 0
  {
    if left != 0.0 then NonNegative(Duration(ctx, n.length)) else 0.0
  }

  lemma NextNoteEnds(ctx: Context, notes: seq<FullNote>, i: nat, left: real) returns (rest: real)
    requires ctx.bpm > 0 && i < |notes|
    ensures rest == TimeToEnd(ctx, notes[i + 1..], AfterNote(notes[i], left))
    ensures TimeToEnd(ctx, notes[i..], left) == TimeOfNote(ctx, notes[i], left) + rest
  {
    assert notes[i..][1..] == notes[i + 1..];
    rest := TimeToEnd(ctx, notes[i + 1..], AfterNote(notes[i], left));
  }

  /** The notes in an order in which they may be played. */
  ghost predicate PlayedAs(ctx: Context, chord: Chord, notes: seq<FullNote>) {
    SortedBy(notes, Length) && multiset(notes) == multiset(FillAll(ctx, chord)) && notes != []
  }

  /** A chord may take `time`: the default length if it has no notes, else the sleep while its
      notes end, shortest first. */
  ghost predicate ChordTime(ctx: Context, chord: Chord, time: real)
    requires ctx.bpm > 0
  {
    if chord == [] then time == NonNegative(Duration(ctx, ctx.length))
    else
      exists notes: seq<FullNote> | PlayedAs(ctx, chord, notes) ::
        time == TimeToEnd(ctx, notes, notes[|notes| - 1].length)
  }

  lemma {:induction false} TimeOfSorted(ctx: Context, chord: Chord, notes: seq<FullNote>)
    requires ctx.bpm > 0 && chord != [] && PlayedAs(ctx, chord, notes)
    ensures ChordTime(ctx, chord, TimeToEnd(ctx, notes, notes[|notes| - 1].length))
  {
  }

  lemma {:induction false} NoTimeLeft(ctx: Context, notes: seq<FullNote>)
    requires ctx.bpm > 0
    ensures TimeToEnd(ctx, notes, 0.0) == 0.0
    decreases |notes|
  {
    if notes != [] {
      NoTimeLeft(ctx, notes[1..]);
    }
  }

  // ----- How long a chord takes

  function Sum(notes: seq<FullNote>): real {
    if notes == [] then 0.0 else notes[0].length + Sum(notes[1..])
  }

  function SumOfWaits(notes: seq<FullNote>): real {
    if notes == [] then 0.0 else NonNegative(notes[0].length) + SumOfWaits(notes[1..])
  }

  /** How many notes are waited for: those before the point where nothing of `left` is left. */
  function WaitedFor(notes: seq<FullNote>, left: real): (k: nat)
    ensures k <= |notes|
  {
    if notes == [] || left == 0.0 then 0 else 1 + WaitedFor(notes[1..], left - notes[0].length)
  }

  lemma DurationOfSum(ctx: Context, x: real, y: real)
    requires ctx.bpm > 0
    ensures Duration(ctx, x + y) == Duration(ctx, x) + Duration(ctx, y)
    ensures NonNegative(Duration(ctx, x)) == Duration(ctx, NonNegative(x))
  {
    if x < 0.0 {
      DurationIsMonotone(ctx, x, 0.0);
    } else {
      DurationIsMonotone(ctx, 0.0, x);
    }
  }

  /** The time is that of all notes that are waited for, one after the other. */
  lemma {:induction false} TimeOfWaits(ctx: Context, notes: seq<FullNote>, left: real)
    requires ctx.bpm > 0
    ensures TimeToEnd(ctx, notes, left) == Duration(ctx, SumOfWaits(notes[..WaitedFor(notes, left)]))
    decreases |notes|
  {
    if left == 0.0 {
      NoTimeLeft(ctx, notes);
    } else if notes != [] {
      var k := WaitedFor(notes, left);
      TimeOfWaits(ctx, notes[1..], left - notes[0].length);
      assert notes[..k][1..] == notes[1..][..k - 1];
      DurationOfSum(ctx, notes[0].length, 0.0);
      DurationOfSum(ctx, NonNegative(notes[0].length), SumOfWaits(notes[1..][..k - 1]));
    }
  }

  /** The lengths of some beginning of the notes add up to `left`. */
  ghost predicate AddsUp(notes: seq<FullNote>, left: real) {
    exists k: nat | k <= |notes| :: Sum(notes[..k]) == left
  }

  predicate NoneNegative(notes: seq<FullNote>) {
    forall i | 0 <= i < |notes| :: notes[i].length >= 0.0
  }

  lemma SumFrom(notes: seq<FullNote>, k: nat)
    requires 0 < k <= |notes|
    ensures Sum(notes[..k]) == notes[0].length + Sum(notes[1..][..k - 1])
  {
    assert notes[..k][1..] == notes[1..][..k - 1];
  }

  lemma AddsUpFrom(notes: seq<FullNote>, left: real)
    requires notes != []
    ensures AddsUp(notes, left) <==> left == 0.0 || AddsUp(notes[1..], left - notes[0].length)
  {
    assert Sum(notes[..0]) == 0.0;
    if left != 0.0 && AddsUp(notes, left) {
      var k: nat :| k <= |notes| && Sum(notes[..k]) == left;
      SumFrom(notes, k);
      assert Sum(notes[1..][..k - 1]) == left - notes[0].length;
    }
    if AddsUp(notes[1..], left - notes[0].length) {
      var k: nat :| k <= |notes[1..]| && Sum(notes[1..][..k]) == left - notes[0].length;
      SumFrom(notes, k + 1);
    }
  }

  /** Notes are waited for one after the other.  That ends early if their lengths add up to the
      longest at some point; if they never do, all of them are waited for. */
  lemma {:induction false} TimeExactly(ctx: Context, notes: seq<FullNote>, left: real)
    requires ctx.bpm > 0 && NoneNegative(notes)
    ensures TimeToEnd(ctx, notes, left) == Duration(ctx, if AddsUp(notes, left) then left else Sum(notes))
    decreases |notes|
  {
    if notes == [] {
      assert notes[..0] == [];
    } else {
      AddsUpFrom(notes, left);
      if left == 0.0 {
        NoTimeLeft(ctx, notes);
      } else {
        var after := left - notes[0].length;
        TimeExactly(ctx, notes[1..], after);
        DurationOfSum(ctx, notes[0].length, if AddsUp(notes[1..], after) then after else Sum(notes[1..]));
      }
    }
  }

  /** A chord takes the time of its longest note if and only if the waits for the notes waited for
      add up to it.  Without negative lengths that is: if and only if the lengths of its shortest
      notes, up to some point, add up to the longest; else it takes the sum of all lengths. */
  lemma {:induction false} LongestExactlyWhen(ctx: Context, notes: seq<FullNote>)
    requires ctx.bpm > 0 && notes != []
    ensures var longest := notes[|notes| - 1].length;
            && (TimeToEnd(ctx, notes, longest) == NonNegative(Duration(ctx, longest)) <==>
                SumOfWaits(notes[..WaitedFor(notes, longest)]) == NonNegative(longest))
            && (NoneNegative(notes) ==>
                  && (TimeToEnd(ctx, notes, longest) == Duration(ctx, longest) <==> AddsUp(notes, longest))
                  && (!AddsUp(notes, longest) ==> TimeToEnd(ctx, notes, longest) == Duration(ctx, Sum(notes))))
  {
    var longest := notes[|notes| - 1].length;
    var waits := SumOfWaits(notes[..WaitedFor(notes, longest)]);
    TimeOfWaits(ctx, notes, longest);
    DurationOfSum(ctx, longest, 0.0);
    if waits != NonNegative(longest) {
      DurationIsInjective(ctx, waits, NonNegative(longest));
    }
    if NoneNegative(notes) {
      LongestWithoutNegatives(ctx, notes);
    }
  }

  lemma {:induction false} LongestWithoutNegatives(ctx: Context, notes: seq<FullNote>)
    requires ctx.bpm > 0 && notes != [] && NoneNegative(notes)
    ensures var longest := notes[|notes| - 1].length;
            && (TimeToEnd(ctx, notes, longest) == Duration(ctx, longest) <==> AddsUp(notes, longest))
            && (!AddsUp(notes, longest) ==> TimeToEnd(ctx, notes, longest) == Duration(ctx, Sum(notes)))
  {
    var longest := notes[|notes| - 1].length;
    TimeExactly(ctx, notes, longest);
    if !AddsUp(notes, longest) {
      assert notes[..|notes|] == notes;
      DurationIsInjective(ctx, Sum(notes), longest);
    }
  }

  /** With a negative length no beginning need add up to the longest, and yet a chord can take its
      time: the wait for the negative one is none. */
  lemma {:induction false} NegativeLengthIsNoWait(ctx: Context, a: FullNote, b: FullNote)
    requires ctx.bpm > 0 && a.length == -1.0 && b.length == 1.0
    ensures SortedBy([a, b], Length) && !AddsUp([a, b], 1.0)
    ensures TimeToEnd(ctx, [a, b], 1.0) == Duration(ctx, 1.0)
  {
    var notes := [a, b];
    assert notes[..0] == [] && notes[..1] == [a] && notes[..2] == [a, b];
    assert notes[1..] == [b] && [a][1..] == [] && [b][1..] == [];
    assert Sum([b]) == 1.0;
    assert WaitedFor([b], 2.0) == 1;
    assert SumOfWaits([b]) == 1.0;
    LongestExactlyWhen(ctx, notes);
    DurationOfSum(ctx, 1.0, 0.0);
  }

  lemma DurationIsInjective(ctx: Context, x: real, y: real)
    requires ctx.bpm > 0 && x != y
    ensures Duration(ctx, x) != Duration(ctx, y)
  {
    DurationOfSum(ctx, x - y, y);
    assert Duration(ctx, x - y) * (ctx.bpm as real) == (x - y) * 240.0;
  }

  /** Notes of one length end together after that length. */
  lemma {:induction false} EqualLengthsEndTogether(ctx: Context, notes: seq<FullNote>, length: real)
    requires ctx.bpm > 0 && notes != [] && forall i | 0 <= i < |notes| :: notes[i].length == length
    ensures TimeToEnd(ctx, notes, length) == NonNegative(Duration(ctx, length))
  {
    NoTimeLeft(ctx, notes[1..]);
    assert notes[0].length == length;
  }

  /** Two notes of different positive lengths take their sum; a third note can make it less again. */
  lemma {:induction false} DifferentLengthsAddUp(ctx: Context, a: FullNote, b: FullNote)
    requires ctx.bpm > 0 && 0.0 < a.length < b.length
    ensures TimeToEnd(ctx, [a, b], b.length) == Duration(ctx, a.length + b.length)
    ensures b.length == a.length + a.length ==> TimeToEnd(ctx, [a, a, b], b.length) == Duration(ctx, b.length)
  {
    assert [a, b][1..] == [b] && [b][1..] == [] && [a, a, b][1..] == [a, b];
    assert TimeToEnd(ctx, [b], b.length - a.length) == Duration(ctx, b.length) by {
      assert TimeToEnd(ctx, [], b.length - a.length - b.length) == 0.0;
      DurationOfSum(ctx, b.length, 0.0);
    }
    DurationOfSum(ctx, a.length, b.length);
    DurationOfSum(ctx, a.length, a.length);
    NoTimeLeft(ctx, [b]);
  }

  // ----- That time does not depend on the order of notes of equal length

  function Lengths(notes: seq<FullNote>): (r: seq<real>)
    ensures |r| == |notes| && forall i | 0 <= i < |r| :: r[i] == notes[i].length
  {
    if notes == [] then [] else [notes[0].length] + Lengths(notes[1..])
  }

  function LengthBag(n: FullNote): multiset<real> {
    multiset{n.length}
  }

  lemma {:induction false} LengthsAreTheBag(notes: seq<FullNote>)
    ensures multiset(Lengths(notes)) == Bag(notes, LengthBag)
  {
    if notes != [] {
      LengthsAreTheBag(notes[1..]);
    }
  }

  predicate Increasing(s: seq<real>) {
    forall i, j | 0 <= i < j < |s| :: s[i] <= s[j]
  }

  lemma LastIsLargest(s: seq<real>, x: real)
    requires s != [] && Increasing(s) && x in multiset(s)
    ensures x <= s[|s| - 1]
  {
    var i :| 0 <= i < |s| && s[i] == x;
  }

  lemma SameLast(s: seq<real>, t: seq<real>)
    requires s != [] && t != [] && Increasing(s) && Increasing(t) && multiset(s) == multiset(t)
    ensures s[|s| - 1] == t[|t| - 1]
  {
    assert s[|s| - 1] in multiset(s) && t[|t| - 1] in multiset(t);
    LastIsLargest(t, s[|s| - 1]);
    LastIsLargest(s, t[|t| - 1]);
  }

  lemma SameSize(s: seq<real>, t: seq<real>)
    requires multiset(s) == multiset(t)
    ensures |s| == |t|
  {
    assert |multiset(s)| == |multiset(t)|;
  }

  lemma {:induction false} IncreasingIsUnique(s: seq<real>, t: seq<real>)
    requires Increasing(s) && Increasing(t) && multiset(s) == multiset(t)
    ensures s == t
    decreases |s|
  {
    SameSize(s, t);
    if s != [] {
      SameLast(s, t);
      WithoutLast(s);
      WithoutLast(t);
      IncreasingIsUnique(s[..|s| - 1], t[..|t| - 1]);
    }
  }

  lemma WithoutLast(s: seq<real>)
    requires s != []
    ensures s == s[..|s| - 1] + [s[|s| - 1]]
    ensures multiset(s[..|s| - 1]) == multiset(s) - multiset{s[|s| - 1]}
  {
    assert s == s[..|s| - 1] + [s[|s| - 1]];
  }

  lemma {:induction false} TimeOfLengths(ctx: Context, a: seq<FullNote>, b: seq<FullNote>, left: real)
    requires ctx.bpm > 0 && Lengths(a) == Lengths(b)
    ensures TimeToEnd(ctx, a, left) == TimeToEnd(ctx, b, left)
    decreases |a|
  {
    assert |a| == |b|;
    if a != [] {
      assert a[0].length == Lengths(a)[0] && b[0].length == Lengths(b)[0];
      assert Lengths(a)[1..] == Lengths(a[1..]) && Lengths(b)[1..] == Lengths(b[1..]);
      TimeOfLengths(ctx, a[1..], b[1..], AfterNote(a[0], left));
    }
  }

  lemma {:induction false} SortedLengthsAgree(a: seq<FullNote>, b: seq<FullNote>)
    requires SortedBy(a, Length) && SortedBy(b, Length) && multiset(a) == multiset(b)
    ensures Lengths(a) == Lengths(b)
  {
    BagOfPermutation(a, b, LengthBag);
    LengthsAreTheBag(a);
    LengthsAreTheBag(b);
    SortedLengthsIncrease(a);
    SortedLengthsIncrease(b);
    IncreasingIsUnique(Lengths(a), Lengths(b));
  }

  lemma {:induction false} SortedLengthsIncrease(notes: seq<FullNote>)
    requires SortedBy(notes, Length)
    ensures Increasing(Lengths(notes))
  {
    forall i, j | 0 <= i < j < |notes| ensures Lengths(notes)[i] <= Lengths(notes)[j] {
      assert Length(notes[i]) <= Length(notes[j]);
    }
  }

  lemma {:induction false} SameTime(ctx: Context, a: seq<FullNote>, b: seq<FullNote>)
    requires ctx.bpm > 0 && a != [] && b != [] && Lengths(a) == Lengths(b)
    ensures TimeToEnd(ctx, a, a[|a| - 1].length) == TimeToEnd(ctx, b, b[|b| - 1].length)
  {
    assert |a| == |Lengths(a)| == |b|;
    assert a[|a| - 1].length == Lengths(a)[|a| - 1] == Lengths(b)[|a| - 1] == b[|b| - 1].length;
    TimeOfLengths(ctx, a, b, a[|a| - 1].length);
  }

  /** However notes of equal length are sorted, a chord takes one and the same time. */
  lemma ChordTimeIsUnique(ctx: Context, chord: Chord, x: real, y: real)
    requires ctx.bpm > 0 && ChordTime(ctx, chord, x) && ChordTime(ctx, chord, y)
    ensures x == y
  {
    if chord != [] {
      var a: seq<FullNote> :| PlayedAs(ctx, chord, a) && x == TimeToEnd(ctx, a, a[|a| - 1].length);
      var b: seq<FullNote> :| PlayedAs(ctx, chord, b) && y == TimeToEnd(ctx, b, b[|b| - 1].length);
      SortedLengthsAgree(a, b);
      SameTime(ctx, a, b);
    }
  }

  /** A chord without notes takes as long as one rest whose length is left open. */
  lemma EmptyChordIsRest(ctx: Context, time: real)
    requires ctx.bpm > 0
    ensures ChordTime(ctx, [], time) <==> ChordTime(ctx, [Note(None, None, None)], time)
  {
    var rest := Note(None, None, None);
    var notes := FillAll(ctx, [rest]);
    assert PlayedAs(ctx, [rest], notes);
    EqualLengthsEndTogether(ctx, notes, ctx.length);
    var taken := NonNegative(Duration(ctx, ctx.length));
    assert ChordTime(ctx, [rest], taken);
    if ChordTime(ctx, [rest], time) {
      ChordTimeIsUnique(ctx, [rest], time, taken);
    }
  }

  /** The same for a chord as it is played. */
  lemma {:induction false} ChordTakesLongestExactlyWhen(ctx: Context, chord: Chord, notes: seq<FullNote>, time: real)
    requires ctx.bpm > 0 && chord != [] && PlayedAs(ctx, chord, notes) && ChordTime(ctx, chord, time)
    ensures var longest := notes[|notes| - 1].length;
            && (time == NonNegative(Duration(ctx, longest)) <==>
                SumOfWaits(notes[..WaitedFor(notes, longest)]) == NonNegative(longest))
            && (NoneNegative(notes) ==>
                  && (time == Duration(ctx, longest) <==> AddsUp(notes, longest))
                  && (!AddsUp(notes, longest) ==> time == Duration(ctx, Sum(notes))))
  {
    TimeOfSorted(ctx, chord, notes);
    ChordTimeIsUnique(ctx, chord, time, TimeToEnd(ctx, notes, notes[|notes| - 1].length));
    LongestExactlyWhen(ctx, notes);
  }
}
