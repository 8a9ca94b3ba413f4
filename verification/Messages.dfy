/** The messages that `play` and `par` send for chords, and when. */
module Messages {
  import opened Durations
  import opened Music
  import opened Sorting
  import opened Timeline

  function Switch(n: FullNote, on: bool, at: real): seq<Event> {
    if n.base.Some? then [Event(at, on, KeyOf(n))] else []
  }

  /** All notes, switched at one moment. */
  function SwitchAll(notes: seq<FullNote>, on: bool, at: real): seq<Event> {
    if notes == [] then [] else SwitchAll(notes[..|notes| - 1], on, at) + Switch(notes[|notes| - 1], on, at)
  }

  /** The notes as they end, with `left` of the longest still to go. */
  function Endings(ctx: Context, notes: seq<FullNote>, left: real, at: real): seq<Event>
    requires ctx.bpm > 0
  {
    if notes == [] then []
    else
      var over := at + TimeOfNote(ctx, notes[0], left);
      Switch(notes[0], false, over) + Endings(ctx, notes[1..], AfterNote(notes[0], left), over)
  }

  /** A chord without notes is a rest of the default length. */
  function TimeOfChord(ctx: Context, notes: seq<FullNote>): real
    requires ctx.bpm > 0
  {
    if notes == [] then NonNegative(Duration(ctx, ctx.length))
    else TimeToEnd(ctx, notes, notes[|notes| - 1].length)
  }

  function MessagesOfChord(ctx: Context, notes: seq<FullNote>, at: real): seq<Event>
    requires ctx.bpm > 0
  {
    if notes == [] then []
    else SwitchAll(notes, true, at) + Endings(ctx, notes, notes[|notes| - 1].length, at)
  }

  // ----- Which chords are played

  /** The chords of a value, from left to right. */
  function ChordsOf(v: Value): seq<Chord>
    decreases v
  {
    match v
    case Sound(c) => [c]
    case Collected(es) => ChordsOfAll(es)
    case Code(_) => []
    case Other => []
  }

  function ChordsOfAll(vs: seq<Value>): seq<Chord>
    decreases vs
  {
    if vs == [] then [] else ChordsOfAll(vs[..|vs| - 1]) + ChordsOf(vs[|vs| - 1])
  }

  lemma {:induction false} ChordsOfBoth(vs: seq<Value>, ws: seq<Value>)
    ensures ChordsOfAll(vs + ws) == ChordsOfAll(vs) + ChordsOfAll(ws)
    decreases |ws|
  {
    if ws == [] {
      assert vs + ws == vs;
    } else {
      var n := |ws| - 1;
      assert (vs + ws)[..|vs| + n] == vs + ws[..n];
      ChordsOfBoth(vs, ws[..n]);
    }
  }

  /** What is sent for a chord, and from when until when it is played. */
  datatype Passage = Passage(messages: seq<Event>, at: real, until: real)

  /** For some order of the notes by length, their defaults filled in. */
  ghost predicate IsPassage(ctx: Context, chord: Chord, p: Passage)
    requires ctx.bpm > 0
  {
    if chord == [] then IsPlayed(ctx, [], p)
    else exists notes: seq<FullNote> | PlayedAs(ctx, chord, notes) :: IsPlayed(ctx, notes, p)
  }

  ghost predicate IsPlayed(ctx: Context, notes: seq<FullNote>, p: Passage)
    requires ctx.bpm > 0
  {
    p.messages == MessagesOfChord(ctx, notes, p.at) && p.until == p.at + TimeOfChord(ctx, notes)
  }

  // ----- One after the other

  function Sent(ps: seq<Passage>): seq<Event> {
    if ps == [] then [] else Sent(ps[..|ps| - 1]) + ps[|ps| - 1].messages
  }

  /** Each passage starts when the one before it is over. */
  predicate Linked(ps: seq<Passage>, start: real, end: real) {
    if ps == [] then start == end
    else
      && ps[0].at == start && ps[|ps| - 1].until == end
      && forall i | 0 < i < |ps| :: ps[i].at == ps[i - 1].until
  }

  ghost predicate ArePassages(ctx: Context, chords: seq<Chord>, ps: seq<Passage>)
    requires ctx.bpm > 0
  {
    |ps| == |chords| && forall i | 0 <= i < |chords| :: IsPassage(ctx, chords[i], ps[i])
  }

  /** The chords are played in order, without a gap, from `start` to `end`. */
  ghost predicate Plays(ctx: Context, chords: seq<Chord>, ps: seq<Passage>, start: real, end: real)
    requires ctx.bpm > 0
  {
    ArePassages(ctx, chords, ps) && Linked(ps, start, end)
  }

  lemma {:induction false} SentBoth(a: seq<Passage>, b: seq<Passage>)
    ensures Sent(a + b) == Sent(a) + Sent(b)
    decreases |b|
  {
    if b == [] {
      assert a + b == a;
    } else {
      var n := |b| - 1;
      assert (a + b)[..|a| + n] == a + b[..n];
      SentBoth(a, b[..n]);
    }
  }

  lemma LinkedBoth(a: seq<Passage>, start: real, mid: real, b: seq<Passage>, end: real)
    requires Linked(a, start, mid) && Linked(b, mid, end)
    ensures Linked(a + b, start, end)
  {
  }

  lemma PassagesOfBoth(ctx: Context, a: seq<Chord>, p: seq<Passage>, b: seq<Chord>, q: seq<Passage>)
    requires ctx.bpm > 0 && ArePassages(ctx, a, p) && ArePassages(ctx, b, q)
    ensures ArePassages(ctx, a + b, p + q)
  {
    forall i | 0 <= i < |a + b| ensures IsPassage(ctx, (a + b)[i], (p + q)[i]) {
      if i < |a| {
        assert IsPassage(ctx, a[i], p[i]);
      } else {
        assert IsPassage(ctx, b[i - |a|], q[i - |a|]);
      }
    }
  }

  lemma {:induction false} PlaysBoth(ctx: Context, a: seq<Chord>, p: seq<Passage>, start: real, mid: real,
                  b: seq<Chord>, q: seq<Passage>, end: real)
    requires ctx.bpm > 0 && Plays(ctx, a, p, start, mid) && Plays(ctx, b, q, mid, end)
    ensures Plays(ctx, a + b, p + q, start, end) && Sent(p + q) == Sent(p) + Sent(q)
  {
    PassagesOfBoth(ctx, a, p, b, q);
    LinkedBoth(p, start, mid, q, end);
    SentBoth(p, q);
  }

  lemma {:induction false} SentInTwo(log: seq<Event>, p: seq<Passage>, mid: seq<Event>,
                                     q: seq<Passage>, end: seq<Event>)
    requires mid == log + Sent(p) && end == mid + Sent(q)
    ensures end == log + Sent(p + q)
  {
    SentBoth(p, q);
    Grouped(log, Sent(p), Sent(q));
  }

  lemma {:induction false} SwitchedOneMore(log: seq<Event>, notes: seq<FullNote>, i: nat, on: bool,
                                           at: real, mid: seq<Event>, end: seq<Event>)
    requires i < |notes| && mid == log + SwitchAll(notes[..i], on, at) && end == mid + Switch(notes[i], on, at)
    ensures end == log + SwitchAll(notes[..i + 1], on, at)
  {
    OneMoreSwitch(notes, i, on, at);
    Grouped(log, SwitchAll(notes[..i], on, at), Switch(notes[i], on, at));
  }

  lemma PlaysOne(ctx: Context, chord: Chord, p: Passage)
    requires ctx.bpm > 0 && IsPassage(ctx, chord, p)
    ensures Plays(ctx, [chord], [p], p.at, p.until) && Sent([p]) == p.messages
  {
    assert [p][..0] == [];
  }

  lemma OneMoreValue(vs: seq<Value>, i: nat)
    requires i < |vs|
    ensures ChordsOfAll(vs[..i + 1]) == ChordsOfAll(vs[..i]) + ChordsOf(vs[i])
  {
    assert vs[..i + 1][..i] == vs[..i];
  }

  lemma {:induction false} OneMoreSwitch(notes: seq<FullNote>, i: nat, on: bool, at: real)
    requires i < |notes|
    ensures SwitchAll(notes[..i + 1], on, at) == SwitchAll(notes[..i], on, at) + Switch(notes[i], on, at)
  {
    assert notes[..i + 1][..i] == notes[..i];
  }

  // ----- When notes end

  predicate NoRests(notes: seq<FullNote>) {
    forall i | 0 <= i < |notes| :: notes[i].base.Some?
  }

  /** All notes of a chord start together, in the order in which they end. */
  lemma {:induction false} StartsTogether(notes: seq<FullNote>, on: bool, at: real, i: nat)
    requires NoRests(notes) && i < |notes|
    ensures |SwitchAll(notes, on, at)| == |notes| && SwitchAll(notes, on, at)[i] == Event(at, on, KeyOf(notes[i]))
    decreases |notes|
  {
    var n := |notes| - 1;
    if n > 0 {
      StartsTogether(notes[..n], on, at, if i < n then i else 0);
    }
  }

  function Least(a: nat, b: nat): nat {
    if a < b then a else b
  }

  /** Each note ends when the notes before it and itself have been waited for, as long as any are. */
  lemma {:induction false} EndsWhenWaited(ctx: Context, notes: seq<FullNote>, left: real, at: real, i: nat)
    requires ctx.bpm > 0 && NoRests(notes) && i < |notes|
    ensures |Endings(ctx, notes, left, at)| == |notes|
    ensures var waits := SumOfWaits(notes[..Least(i + 1, WaitedFor(notes, left))]);
            Endings(ctx, notes, left, at)[i] == Event(at + Duration(ctx, waits), false, KeyOf(notes[i]))
    decreases |notes|
  {
    var rest, after := notes[1..], AfterNote(notes[0], left);
    var over := at + TimeOfNote(ctx, notes[0], left);
    if rest != [] {
      EndsWhenWaited(ctx, rest, after, over, if i > 0 then i - 1 else 0);
    }
    WaitOfFirst(ctx, notes, left, i);
  }

  lemma {:induction false} WaitOfFirst(ctx: Context, notes: seq<FullNote>, left: real, i: nat)
    requires ctx.bpm > 0 && i < |notes|
    ensures var waits := SumOfWaits(notes[..Least(i + 1, WaitedFor(notes, left))]);
            var rest := notes[1..];
            Duration(ctx, waits) ==
            TimeOfNote(ctx, notes[0], left) +
            if i == 0 then 0.0
            else Duration(ctx, SumOfWaits(rest[..Least(i, WaitedFor(rest, AfterNote(notes[0], left)))]))
  {
    var rest := notes[1..];
    DurationOfSum(ctx, notes[0].length, 0.0);
    if left != 0.0 {
      var m := Least(i, WaitedFor(rest, left - notes[0].length));
      assert notes[..m + 1][1..] == rest[..m];
      assert Least(i + 1, WaitedFor(notes, left)) == m + 1;
      DurationOfSum(ctx, NonNegative(notes[0].length), SumOfWaits(rest[..m]));
      assert rest[..0] == [];
    }
  }

  /** A passage takes the time of its chord. */
  lemma PassageTakesChordTime(ctx: Context, chord: Chord, p: Passage)
    requires ctx.bpm > 0 && IsPassage(ctx, chord, p)
    ensures ChordTime(ctx, chord, p.until - p.at)
  {
    if chord != [] {
      var notes: seq<FullNote> :| PlayedAs(ctx, chord, notes) && IsPlayed(ctx, notes, p);
      TimeOfSorted(ctx, chord, notes);
    }
  }

  /** Two notes of different positive lengths: both start, then the shorter ends when it is over, and
      the longer as much later as it is long. */
  lemma TwoNotes(ctx: Context, a: FullNote, b: FullNote, at: real)
    requires ctx.bpm > 0 && a.base.Some? && b.base.Some? && 0.0 < a.length < b.length
    ensures var over := at + Duration(ctx, a.length);
            MessagesOfChord(ctx, [a, b], at) ==
            [Event(at, true, KeyOf(a)), Event(at, true, KeyOf(b)),
             Event(over, false, KeyOf(a)), Event(over + Duration(ctx, b.length), false, KeyOf(b))]
  {
    var notes := [a, b];
    StartsTogether(notes, true, at, 0);
    StartsTogether(notes, true, at, 1);
    EndsWhenWaited(ctx, notes, b.length, at, 0);
    EndsWhenWaited(ctx, notes, b.length, at, 1);
    assert notes[1..] == [b] && [b][1..] == [] && notes[..1] == [a] && notes[..2] == notes && [a][1..] == [];
    assert WaitedFor([b], b.length - a.length) == 1 && WaitedFor(notes, b.length) == 2;
    assert SumOfWaits([b]) == b.length;
    DurationOfSum(ctx, a.length, b.length);
  }

  // ----- What the device makes of messages

  /** What sounds after the messages. */
  function Replayed(log: seq<Event>): set<Key> {
    if log == [] then {}
    else
      var e, before := log[|log| - 1], Replayed(log[..|log| - 1]);
      if e.on then before + {e.key} else before - {e.key}
  }

  lemma {:induction false} ReplayedOneMore(log: seq<Event>, e: Event)
    ensures Replayed(log + [e]) == if e.on then Replayed(log) + {e.key} else Replayed(log) - {e.key}
  {
    assert (log + [e])[..|log|] == log;
  }

  /** An off for each key. */
  function Offs(keys: seq<Key>, at: real): seq<Event> {
    if keys == [] then [] else Offs(keys[..|keys| - 1], at) + [Event(at, false, keys[|keys| - 1])]
  }

  lemma {:induction false} OneMoreOff(log: seq<Event>, keys: seq<Key>, k: Key, at: real)
    ensures log + Offs(keys + [k], at) == log + Offs(keys, at) + [Event(at, false, k)]
  {
    assert (keys + [k])[..|keys|] == keys;
    Grouped(log, Offs(keys, at), [Event(at, false, k)]);
  }

  /** The keys of all messages of one kind, counted. */
  function KeysIn(log: seq<Event>, on: bool): multiset<Key> {
    if log == [] then multiset{}
    else KeysIn(log[..|log| - 1], on) + if log[|log| - 1].on == on then multiset{log[|log| - 1].key} else multiset{}
  }

  lemma {:induction false} KeysInBoth(a: seq<Event>, b: seq<Event>, on: bool)
    ensures KeysIn(a + b, on) == KeysIn(a, on) + KeysIn(b, on)
    decreases |b|
  {
    if b == [] {
      assert a + b == a;
    } else {
      var n := |b| - 1;
      assert (a + b)[..|a| + n] == a + b[..n];
      KeysInBoth(a, b[..n], on);
    }
  }

  lemma {:induction false} KeysInSwitch(n: FullNote, on: bool, at: real)
    ensures KeysIn(Switch(n, on, at), on) == KeysOfNote(n) && KeysIn(Switch(n, on, at), !on) == multiset{}
  {
    if n.base.Some? {
      assert Switch(n, on, at)[..0] == [];
    }
  }

  lemma {:induction false} KeysInSwitchAll(notes: seq<FullNote>, on: bool, at: real)
    ensures KeysIn(SwitchAll(notes, on, at), on) == KeysOf(notes)
    ensures KeysIn(SwitchAll(notes, on, at), !on) == multiset{}
    decreases |notes|
  {
    if notes != [] {
      var n := |notes| - 1;
      KeysInSwitchAll(notes[..n], on, at);
      KeysInSwitch(notes[n], on, at);
      KeysInBoth(SwitchAll(notes[..n], on, at), Switch(notes[n], on, at), on);
      KeysInBoth(SwitchAll(notes[..n], on, at), Switch(notes[n], on, at), !on);
      KeysOneMore(notes);
    }
  }

  lemma {:induction false} KeysInEndings(ctx: Context, notes: seq<FullNote>, left: real, at: real)
    requires ctx.bpm > 0
    ensures KeysIn(Endings(ctx, notes, left, at), false) == KeysOf(notes)
    ensures KeysIn(Endings(ctx, notes, left, at), true) == multiset{}
    decreases |notes|
  {
    if notes != [] {
      var over := at + TimeOfNote(ctx, notes[0], left);
      var rest := Endings(ctx, notes[1..], AfterNote(notes[0], left), over);
      KeysInEndings(ctx, notes[1..], AfterNote(notes[0], left), over);
      KeysInSwitch(notes[0], false, over);
      KeysInBoth(Switch(notes[0], false, over), rest, false);
      KeysInBoth(Switch(notes[0], false, over), rest, true);
    }
  }

  lemma PassageBalances(ctx: Context, chord: Chord, p: Passage)
    requires ctx.bpm > 0 && IsPassage(ctx, chord, p)
    ensures KeysIn(p.messages, true) == KeysIn(p.messages, false) == ChordKeys(ctx, chord)
  {
    var notes := NotesOfPassage(ctx, chord, p);
    NotesBalance(ctx, notes, p.at);
  }

  lemma NotesBalance(ctx: Context, notes: seq<FullNote>, at: real)
    requires ctx.bpm > 0
    ensures KeysIn(MessagesOfChord(ctx, notes, at), true) == KeysOf(notes)
    ensures KeysIn(MessagesOfChord(ctx, notes, at), false) == KeysOf(notes)
  {
    if notes != [] {
      var ons, left := SwitchAll(notes, true, at), notes[|notes| - 1].length;
      var offs := Endings(ctx, notes, left, at);
      KeysInSwitchAll(notes, true, at);
      KeysInEndings(ctx, notes, left, at);
      KeysInBoth(ons, offs, true);
      KeysInBoth(ons, offs, false);
    }
  }

  /** Everything that is struck, for all chords. */
  function KeysOfChords(ctx: Context, chords: seq<Chord>): multiset<Key> {
    if chords == [] then multiset{}
    else KeysOfChords(ctx, chords[..|chords| - 1]) + ChordKeys(ctx, chords[|chords| - 1])
  }

  /** Every note of every chord is switched on as often as off. */
  lemma {:induction false} PlaysBalance(ctx: Context, chords: seq<Chord>, ps: seq<Passage>)
    requires ctx.bpm > 0 && ArePassages(ctx, chords, ps)
    ensures KeysIn(Sent(ps), true) == KeysIn(Sent(ps), false) == KeysOfChords(ctx, chords)
    decreases |ps|
  {
    if ps != [] {
      var n := |ps| - 1;
      assert ArePassages(ctx, chords[..n], ps[..n]) by {
        assert forall i | 0 <= i < n :: IsPassage(ctx, chords[i], ps[i]);
      }
      PlaysBalance(ctx, chords[..n], ps[..n]);
      assert IsPassage(ctx, chords[n], ps[n]);
      PassageBalances(ctx, chords[n], ps[n]);
      KeysInBoth(Sent(ps[..n]), ps[n].messages, true);
      KeysInBoth(Sent(ps[..n]), ps[n].messages, false);
    }
  }

  /** What is still to be sent, and when that will be over. */
  ghost predicate IsAhead(ctx: Context, notes: seq<FullNote>, left: real, at: real, ahead: seq<Event>, end: real)
    requires ctx.bpm > 0
  {
    ahead == Endings(ctx, notes, left, at) && end == at + TimeToEnd(ctx, notes, left)
  }

  /** The first of the notes has ended, the others go on. */
  lemma LessAhead(ctx: Context, notes: seq<FullNote>, i: nat, left: real, at: real, ahead: seq<Event>, end: real,
                  over: real, before: seq<Event>, log: seq<Event>) returns (rest: seq<Event>)
    requires ctx.bpm > 0 && i < |notes| && IsAhead(ctx, notes[i..], left, at, ahead, end)
    requires over == at + TimeOfNote(ctx, notes[i], left) && log == before + Switch(notes[i], false, over)
    ensures IsAhead(ctx, notes[i + 1..], AfterNote(notes[i], left), over, rest, end) && log + rest == before + ahead
  {
    var after := NextNoteEnds(ctx, notes, i, left);
    rest := Endings(ctx, notes[i + 1..], AfterNote(notes[i], left), over);
    assert notes[i..][1..] == notes[i + 1..];
    Grouped(before, Switch(notes[i], false, over), rest);
  }

  lemma NothingAhead(ctx: Context, left: real, at: real, ahead: seq<Event>, end: real, log: seq<Event>)
    requires ctx.bpm > 0 && IsAhead(ctx, [], left, at, ahead, end)
    ensures end == at && log + ahead == log
  {
  }

  // ----- What is left sounding

  lemma {:induction false} ReplayedSwitch(log: seq<Event>, n: FullNote, on: bool, at: real)
    ensures Replayed(log + Switch(n, on, at)) ==
            if n.base.None? then Replayed(log)
            else if on then Replayed(log) + {KeyOf(n)} else Replayed(log) - {KeyOf(n)}
  {
    if n.base.Some? {
      ReplayedOneMore(log, Event(at, on, KeyOf(n)));
    } else {
      assert log + Switch(n, on, at) == log;
    }
  }

  lemma Grouped(a: seq<Event>, b: seq<Event>, c: seq<Event>)
    ensures a + b + c == a + (b + c)
  {
  }

  /** Nothing but the keys was added. */
  ghost predicate OnlyLouder(before: set<Key>, now: set<Key>, keys: multiset<Key>) {
    before <= now && forall k | k in now :: k in before || k in keys
  }

  lemma {:induction false} ReplayedStart(log: seq<Event>, notes: seq<FullNote>, at: real)
    ensures OnlyLouder(Replayed(log), Replayed(log + SwitchAll(notes, true, at)), KeysOf(notes))
    decreases |notes|
  {
    if notes == [] {
      assert log + SwitchAll(notes, true, at) == log;
    } else {
      var front, last := notes[..|notes| - 1], notes[|notes| - 1];
      ReplayedStart(log, front, at);
      ReplayedSwitch(log + SwitchAll(front, true, at), last, true, at);
      Grouped(log, SwitchAll(front, true, at), Switch(last, true, at));
      KeysOneMore(notes);
    }
  }

  lemma KeysOneMore(notes: seq<FullNote>)
    requires notes != []
    ensures KeysOf(notes) == KeysOf(notes[..|notes| - 1]) + KeysOfNote(notes[|notes| - 1])
  {
    assert notes == notes[..|notes| - 1] + [notes[|notes| - 1]];
    BagOfOneMore(notes[..|notes| - 1], notes[|notes| - 1], KeysOfNote);
  }

  /** Nothing but the keys is missing. */
  ghost predicate Silenced(before: set<Key>, now: set<Key>, keys: multiset<Key>) {
    forall k :: k in now <==> k in before && k !in keys
  }

  lemma {:induction false} ReplayedEnd(ctx: Context, log: seq<Event>, notes: seq<FullNote>, left: real, at: real)
    requires ctx.bpm > 0
    ensures Silenced(Replayed(log), Replayed(log + Endings(ctx, notes, left, at)), KeysOf(notes))
    decreases |notes|
  {
    if notes == [] {
      assert log + Endings(ctx, notes, left, at) == log;
    } else {
      var over := at + TimeOfNote(ctx, notes[0], left);
      var rest := Endings(ctx, notes[1..], AfterNote(notes[0], left), over);
      ReplayedSwitch(log, notes[0], false, over);
      ReplayedEnd(ctx, log + Switch(notes[0], false, over), notes[1..], AfterNote(notes[0], left), over);
      Grouped(log, Switch(notes[0], false, over), rest);
    }
  }

  lemma {:induction false} NotesAreOver(ctx: Context, log: seq<Event>, notes: seq<FullNote>, at: real)
    requires ctx.bpm > 0
    ensures Silenced(Replayed(log), Replayed(log + MessagesOfChord(ctx, notes, at)), KeysOf(notes))
  {
    if notes == [] {
      assert log + MessagesOfChord(ctx, notes, at) == log;
    } else {
      var ons, left := SwitchAll(notes, true, at), notes[|notes| - 1].length;
      ReplayedStart(log, notes, at);
      ReplayedEnd(ctx, log + ons, notes, left, at);
      Grouped(log, ons, Endings(ctx, notes, left, at));
      LouderThenSilenced(Replayed(log), Replayed(log + ons), Replayed(log + ons + Endings(ctx, notes, left, at)),
                         KeysOf(notes));
    }
  }

  lemma LouderThenSilenced(a: set<Key>, b: set<Key>, c: set<Key>, keys: multiset<Key>)
    requires OnlyLouder(a, b, keys) && Silenced(b, c, keys)
    ensures Silenced(a, c, keys)
  {
  }

  /** After a chord sounds what sounded before, but for its own keys. */
  lemma {:induction false} ChordIsOver(ctx: Context, log: seq<Event>, chord: Chord, p: Passage)
    requires ctx.bpm > 0 && IsPassage(ctx, chord, p)
    ensures Silenced(Replayed(log), Replayed(log + p.messages), ChordKeys(ctx, chord))
  {
    var notes := NotesOfPassage(ctx, chord, p);
    NotesAreOver(ctx, log, notes, p.at);
  }

  lemma NotesOfPassage(ctx: Context, chord: Chord, p: Passage) returns (notes: seq<FullNote>)
    requires ctx.bpm > 0 && IsPassage(ctx, chord, p)
    ensures p.messages == MessagesOfChord(ctx, notes, p.at) && KeysOf(notes) == ChordKeys(ctx, chord)
  {
    if chord == [] {
      notes := [];
      assert FillAll(ctx, chord) == [];
    } else {
      notes :| PlayedAs(ctx, chord, notes) && IsPlayed(ctx, notes, p);
      BagOfPermutation(notes, FillAll(ctx, chord), KeysOfNote);
    }
  }
}
