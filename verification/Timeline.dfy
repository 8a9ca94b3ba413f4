/** Simultaneous tracks as one timeline of on and off messages. */
module Timeline {
  import opened Arithmetic
  import opened Music
  import opened Sorting

  datatype Instruction = Instruction(when: real, on: bool, key: Key)

  /** A message as the device received it, with the time slept before it. */
  datatype Event = Event(at: real, on: bool, key: Key)

  function When(i: Instruction): real {
    i.when
  }

  // ----- The schedule

  /** The longest note, rests included; zero for a chord without notes. */
  function Longest(c: seq<FullNote>): (r: real)
    ensures r >= 0.0
    ensures forall i | 0 <= i < |c| :: c[i].length <= r
    ensures r == 0.0 || exists i | 0 <= i < |c| :: c[i].length == r
  {
    if c == [] then 0.0
    else
      var n := |c| - 1;
      var r := Longest(c[..n]);
      assert forall i | 0 <= i < n :: c[..n][i] == c[i];
      if c[n].length < r then r else c[n].length
  }

  /** When the chord after the first `k` of a track begins. */
  function Begin(track: seq<seq<FullNote>>, k: nat): (r: real)
    requires k <= |track|
    ensures r >= 0.0
  {
    if k == 0 then 0.0 else Begin(track, k - 1) + Longest(track[k - 1])
  }

  /** No note of the chord is longer, and it is the length of one of them, or zero. */
  ghost predicate IsLongest(c: seq<FullNote>, r: real) {
    && r >= 0.0
    && (forall i | 0 <= i < |c| :: c[i].length <= r)
    && (r == 0.0 || exists i | 0 <= i < |c| :: c[i].length == r)
  }

  ghost predicate AreLongest(track: seq<seq<FullNote>>, lengths: seq<real>) {
    |lengths| <= |track| && forall j | 0 <= j < |lengths| :: IsLongest(track[j], lengths[j])
  }

  /** Chord `k` of a track starts when the longest notes of all chords before it are over, one after
      the other. */
  ghost predicate StartsAt(track: seq<seq<FullNote>>, k: nat, at: real) {
    exists lengths :: |lengths| == k && AreLongest(track, lengths) && at == Total(lengths)
  }

  lemma {:induction false} BeginIsTotal(track: seq<seq<FullNote>>, lengths: seq<real>)
    requires AreLongest(track, lengths)
    ensures Begin(track, |lengths|) == Total(lengths)
    decreases |lengths|
  {
    if lengths != [] {
      var n := |lengths| - 1;
      BeginIsTotal(track, lengths[..n]);
      assert IsLongest(track[n], lengths[n]) && IsLongest(track[n], Longest(track[n]));
    }
  }

  lemma {:induction false} LongestOf(track: seq<seq<FullNote>>, k: nat) returns (lengths: seq<real>)
    requires k <= |track|
    ensures |lengths| == k && AreLongest(track, lengths)
  {
    lengths := [];
    if k > 0 {
      var before := LongestOf(track, k - 1);
      assert IsLongest(track[k - 1], Longest(track[k - 1]));
      lengths := before + [Longest(track[k - 1])];
    }
  }

  lemma {:induction false} BeginsWhereItStarts(track: seq<seq<FullNote>>, k: nat, at: real)
    requires k <= |track|
    ensures StartsAt(track, k, at) <==> at == Begin(track, k)
  {
    var lengths := LongestOf(track, k);
    BeginIsTotal(track, lengths);
    if StartsAt(track, k, at) {
      var ls :| |ls| == k && AreLongest(track, ls) && at == Total(ls);
      BeginIsTotal(track, ls);
    }
  }

  function NoteInstructions(n: FullNote, at: real): seq<Instruction> {
    if n.base.None? then []
    else [Instruction(at, true, KeyOf(n)), Instruction(at + n.length, false, KeyOf(n))]
  }

  function ChordInstructions(c: seq<FullNote>, at: real): seq<Instruction> {
    if c == [] then [] else ChordInstructions(c[..|c| - 1], at) + NoteInstructions(c[|c| - 1], at)
  }

  /** The first `k` chords of a track. */
  function TrackInstructions(track: seq<seq<FullNote>>, k: nat): seq<Instruction>
    requires k <= |track|
  {
    if k == 0 then [] else TrackInstructions(track, k - 1) + ChordInstructions(track[k - 1], Begin(track, k - 1))
  }

  /** The first `n` tracks. */
  function Schedule(tracks: seq<seq<seq<FullNote>>>, n: nat): seq<Instruction>
    requires n <= |tracks|
  {
    if n == 0 then []
    else Schedule(tracks, n - 1) + TrackInstructions(tracks[n - 1], |tracks[n - 1]|)
  }

  /** `x` switches note `i` of chord `k` of a track on or off, at the time the chord begins or
      when the note is over. */
  predicate Switches(x: Instruction, track: seq<seq<FullNote>>, k: nat, i: nat)
    requires k < |track| && i < |track[k]|
  {
    var n := track[k][i];
    && n.base.Some?
    && x.key == KeyOf(n)
    && x.when == Begin(track, k) + (if x.on then 0.0 else n.length)
  }

  ghost predicate InChord(x: Instruction, track: seq<seq<FullNote>>, k: nat)
    requires k < |track|
  {
    exists i: nat | i < |track[k]| :: Switches(x, track, k, i)
  }

  ghost predicate InTrack(x: Instruction, track: seq<seq<FullNote>>, upto: nat)
    requires upto <= |track|
  {
    exists k: nat | k < upto :: InChord(x, track, k)
  }

  lemma {:induction false} ChordContents(x: Instruction, track: seq<seq<FullNote>>, k: nat, n: nat)
    requires k < |track| && n <= |track[k]|
    ensures x in ChordInstructions(track[k][..n], Begin(track, k)) <==>
            exists i: nat | i < n :: Switches(x, track, k, i)
    decreases n
  {
    var at := Begin(track, k);
    if n > 0 {
      var c := track[k][..n];
      ChordContents(x, track, k, n - 1);
      assert c[..n - 1] == track[k][..n - 1];
      assert x in NoteInstructions(c[n - 1], at) <==> Switches(x, track, k, n - 1);
    }
  }

  lemma {:induction false} TrackContents(x: Instruction, track: seq<seq<FullNote>>, k: nat)
    requires k <= |track|
    ensures x in TrackInstructions(track, k) <==> InTrack(x, track, k)
    decreases k
  {
    if k > 0 {
      var c := track[k - 1];
      var before, last := TrackInstructions(track, k - 1), ChordInstructions(c, Begin(track, k - 1));
      TrackContents(x, track, k - 1);
      ChordContents(x, track, k - 1, |c|);
      assert c[..|c|] == c;
      assert x in last <==> InChord(x, track, k - 1);
      InTrackStep(x, track, k);
      assert TrackInstructions(track, k) == before + last;
    }
  }

  lemma InTrackStep(x: Instruction, track: seq<seq<FullNote>>, k: nat)
    requires 0 < k <= |track|
    ensures InTrack(x, track, k) <==> InTrack(x, track, k - 1) || InChord(x, track, k - 1)
  {
  }

  lemma {:induction false} ScheduleSwitches(x: Instruction, tracks: seq<seq<seq<FullNote>>>, n: nat)
    requires n <= |tracks|
    ensures x in Schedule(tracks, n) <==> InTracks(x, tracks, n)
    decreases n
  {
    if n > 0 {
      var before, last := Schedule(tracks, n - 1), TrackInstructions(tracks[n - 1], |tracks[n - 1]|);
      ScheduleSwitches(x, tracks, n - 1);
      TrackContents(x, tracks[n - 1], |tracks[n - 1]|);
      InTracksStep(x, tracks, n);
      assert Schedule(tracks, n) == before + last;
    }
  }

  lemma InTracksStep(x: Instruction, tracks: seq<seq<seq<FullNote>>>, n: nat)
    requires 0 < n <= |tracks|
    ensures InTracks(x, tracks, n) <==>
            InTracks(x, tracks, n - 1) || InTrack(x, tracks[n - 1], |tracks[n - 1]|)
  {
  }

  ghost predicate InTracks(x: Instruction, tracks: seq<seq<seq<FullNote>>>, upto: nat)
    requires upto <= |tracks|
  {
    exists t: nat | t < upto :: InTrack(x, tracks[t], |tracks[t]|)
  }

  /** `x` switches a note of chord `k`, which starts at `at`: on at once, off when it is over. */
  ghost predicate SwitchesAt(x: Instruction, track: seq<seq<FullNote>>, k: nat, i: nat, at: real) {
    && k < |track| && i < |track[k]| && StartsAt(track, k, at)
    && var n := track[k][i];
       n.base.Some? && x.key == KeyOf(n) && x.when == if x.on then at else at + n.length
  }

  ghost predicate InTimeline(x: Instruction, tracks: seq<seq<seq<FullNote>>>) {
    exists t: nat, k: nat, i: nat, at :: t < |tracks| && SwitchesAt(x, tracks[t], k, i, at)
  }

  /** The schedule holds exactly the switches of its notes: a note goes on when the longest notes
      of all earlier chords of its track are over, and off when it is over itself. */
  lemma {:induction false} ScheduleContents(x: Instruction, tracks: seq<seq<seq<FullNote>>>)
    ensures x in Schedule(tracks, |tracks|) <==> InTimeline(x, tracks)
  {
    ScheduleSwitches(x, tracks, |tracks|);
    if InTracks(x, tracks, |tracks|) {
      var t: nat :| t < |tracks| && InTrack(x, tracks[t], |tracks[t]|);
      var k: nat :| k < |tracks[t]| && InChord(x, tracks[t], k);
      var i: nat :| i < |tracks[t][k]| && Switches(x, tracks[t], k, i);
      BeginsWhereItStarts(tracks[t], k, Begin(tracks[t], k));
      assert SwitchesAt(x, tracks[t], k, i, Begin(tracks[t], k));
    }
    if InTimeline(x, tracks) {
      var t: nat, k: nat, i: nat, at :| t < |tracks| && SwitchesAt(x, tracks[t], k, i, at);
      BeginsWhereItStarts(tracks[t], k, at);
      assert Switches(x, tracks[t], k, i);
      assert InChord(x, tracks[t], k) && InTrack(x, tracks[t], |tracks[t]|);
    }
  }

  /** How many notes of a chord are no rests. */
  function NotesOf(c: seq<FullNote>): nat {
    if c == [] then 0 else NotesOf(c[..|c| - 1]) + if c[|c| - 1].base.Some? then 1 else 0
  }

  function NotesOfTrack(track: seq<seq<FullNote>>): nat {
    if track == [] then 0 else NotesOfTrack(track[..|track| - 1]) + NotesOf(track[|track| - 1])
  }

  function NotesOfAll(tracks: seq<seq<seq<FullNote>>>): nat {
    if tracks == [] then 0 else NotesOfAll(tracks[..|tracks| - 1]) + NotesOfTrack(tracks[|tracks| - 1])
  }

  lemma {:induction false} ChordIsComplete(c: seq<FullNote>, at: real)
    ensures |ChordInstructions(c, at)| == 2 * NotesOf(c)
  {
    if c != [] {
      ChordIsComplete(c[..|c| - 1], at);
    }
  }

  lemma {:induction false} TrackIsComplete(track: seq<seq<FullNote>>, k: nat)
    requires k <= |track|
    ensures |TrackInstructions(track, k)| == 2 * NotesOfTrack(track[..k])
  {
    if k > 0 {
      assert track[..k][..k - 1] == track[..k - 1];
      TrackIsComplete(track, k - 1);
      ChordIsComplete(track[k - 1], Begin(track, k - 1));
    }
  }

  /** No message is in the schedule twice for one note, and none is missing. */
  lemma {:induction false} ScheduleIsComplete(tracks: seq<seq<seq<FullNote>>>, n: nat)
    requires n <= |tracks|
    ensures |Schedule(tracks, n)| == 2 * NotesOfAll(tracks[..n])
  {
    if n > 0 {
      assert tracks[..n][..n - 1] == tracks[..n - 1];
      ScheduleIsComplete(tracks, n - 1);
      var last := tracks[n - 1];
      TrackIsComplete(last, |last|);
      assert last[..|last|] == last;
    }
  }

  // ----- What a sequence of messages leaves behind

  function SoundingAfter(sounding: set<Key>, s: seq<Instruction>): set<Key> {
    if s == [] then sounding
    else
      var n := |s| - 1;
      var before := SoundingAfter(sounding, s[..n]);
      if s[n].on then before + {s[n].key} else before - {s[n].key}
  }

  /** Switching a key off erases every copy of it. */
  function ActiveAfter(active: multiset<Key>, s: seq<Instruction>): multiset<Key> {
    if s == [] then active
    else
      var n := |s| - 1;
      var before := ActiveAfter(active, s[..n]);
      if s[n].on then before + multiset{s[n].key} else before[s[n].key := 0]
  }

  ghost predicate LastOf(s: seq<Instruction>, k: Key, j: nat) {
    && j < |s| && s[j].key == k
    && forall i | j < i < |s| :: s[i].key != k
  }

  lemma {:induction false} LastDecides(sounding: set<Key>, active: multiset<Key>, s: seq<Instruction>, k: Key, j: nat)
    requires LastOf(s, k, j)
    ensures k in SoundingAfter(sounding, s) <==> s[j].on
    ensures k in ActiveAfter(active, s) <==> s[j].on
    decreases |s|
  {
    var n := |s| - 1;
    if j < n {
      assert s[n].key != k;
      LastDecides(sounding, active, s[..n], k, j);
    }
  }

  lemma {:induction false} LastExists(s: seq<Instruction>, k: Key, i: nat) returns (j: nat)
    requires i < |s| && s[i].key == k
    ensures LastOf(s, k, j) && i <= j
    decreases |s| - i
  {
    if later :| i < later < |s| && s[later].key == k {
      j := LastExists(s, k, later);
    } else {
      j := i;
    }
  }

  // ----- When every order of the schedule ends silent

  ghost predicate Order(r: seq<Instruction>, s: seq<Instruction>) {
    SortedBy(r, When) && multiset(r) == multiset(s)
  }

  /** After playing `r`, no key of the schedule sounds or is noted as active. */
  ghost predicate EndsSilent(r: seq<Instruction>, sounding: set<Key>, active: multiset<Key>) {
    forall i | 0 <= i < |r| ::
      r[i].key !in SoundingAfter(sounding, r) && r[i].key !in ActiveAfter(active, r)
  }

  /** Every On has an Off of its key at a strictly later time. */
  ghost predicate Released(s: seq<Instruction>) {
    forall i | 0 <= i < |s| && s[i].on :: exists j :: ReleasedBy(s, i, j)
  }

  ghost predicate ReleasedBy(s: seq<Instruction>, i: nat, j: int) {
    0 <= j < |s| && i < |s| && !s[j].on && s[j].key == s[i].key && s[j].when > s[i].when
  }

  lemma InOrder(r: seq<Instruction>, s: seq<Instruction>, i: nat) returns (j: nat)
    requires multiset(r) == multiset(s) && i < |s|
    ensures j < |r| && r[j] == s[i]
  {
    assert s[i] in multiset(r);
    j :| j < |r| && r[j] == s[i];
  }

  lemma ReleasedInAnyOrder(r: seq<Instruction>, s: seq<Instruction>)
    requires multiset(r) == multiset(s) && Released(s)
    ensures Released(r)
  {
    forall i | 0 <= i < |r| && r[i].on ensures exists j :: ReleasedBy(r, i, j) {
      var i' := InOrder(s, r, i);
      var j' :| ReleasedBy(s, i', j');
      var j := InOrder(r, s, j');
      assert ReleasedBy(r, i, j);
    }
  }

  lemma ReleaseIsLater(r: seq<Instruction>, i: nat) returns (j: nat)
    requires SortedBy(r, When) && Released(r) && i < |r| && r[i].on
    ensures i < j < |r| && r[j].key == r[i].key
  {
    assert forall m | 0 <= m <= i :: When(r[m]) <= When(r[i]);
    j :| ReleasedBy(r, i, j);
  }

  lemma ReleasedEndsSilent(r: seq<Instruction>, sounding: set<Key>, active: multiset<Key>)
    requires SortedBy(r, When) && Released(r)
    ensures EndsSilent(r, sounding, active)
  {
    forall i | 0 <= i < |r|
      ensures r[i].key !in SoundingAfter(sounding, r) && r[i].key !in ActiveAfter(active, r)
    {
      var j := LastExists(r, r[i].key, i);
      if r[j].on {
        var _ := ReleaseIsLater(r, j);
        assert false;
      }
      LastDecides(sounding, active, r, r[i].key, j);
    }
  }

  lemma ExchangedOrder(r: seq<Instruction>, m: nat, j: nat) returns (q: seq<Instruction>)
    requires SortedBy(r, When) && m < j < |r| && r[m].when == r[j].when
    ensures q == r[m := r[j]][j := r[m]]
    ensures SortedBy(q, When) && multiset(q) == multiset(r)
  {
    q := r[m := r[j]][j := r[m]];
    assert forall i | 0 <= i < |r| :: When(q[i]) == When(r[i]);
  }

  /** An On without a later Off is the last message for its key in some order. */
  lemma UnreleasedCanHang(s: seq<Instruction>, i: nat, sounding: set<Key>, active: multiset<Key>)
    returns (r: seq<Instruction>)
    requires i < |s| && s[i].on && !exists j :: ReleasedBy(s, i, j)
    ensures Order(r, s) && !EndsSilent(r, sounding, active)
  {
    r := SortedPermutationExists(s, When);
    var m := InOrder(r, s, i);
    var k := s[i].key;
    var j := LastExists(r, k, m);
    if !r[j].on {
      var j' := InOrder(s, r, j);
      assert !ReleasedBy(s, i, j');
      assert When(r[m]) <= When(r[j]);
      r := ExchangedOrder(r, m, j);
      assert LastOf(r, k, j) && r[j].on;
    }
    LastDecides(sounding, active, r, k, j);
  }

  /** Whatever was sounding before, every time-sorted order of a schedule ends silent if and only
      if every On has an Off of its key at a strictly later time. */
  lemma SilentExactlyWhenReleased(s: seq<Instruction>, sounding: set<Key>, active: multiset<Key>)
    ensures (forall r | Order(r, s) :: EndsSilent(r, sounding, active)) <==> Released(s)
  {
    if Released(s) {
      forall r | Order(r, s) ensures EndsSilent(r, sounding, active) {
        ReleasedInAnyOrder(r, s);
        ReleasedEndsSilent(r, sounding, active);
      }
    } else {
      var i :| 0 <= i < |s| && s[i].on && !exists j :: ReleasedBy(s, i, j);
      var r := UnreleasedCanHang(s, i, sounding, active);
    }
  }

  lemma {:induction false} SilentInOrder(r: seq<Instruction>, s: seq<Instruction>,
                                         sounding: set<Key>, active: multiset<Key>)
    requires Order(r, s) && Released(s)
    ensures forall x | x in s :: x.key !in SoundingAfter(sounding, r) && x.key !in ActiveAfter(active, r)
  {
    SilentExactlyWhenReleased(s, sounding, active);
    assert EndsSilent(r, sounding, active);
    forall x | x in s ensures x.key !in SoundingAfter(sounding, r) && x.key !in ActiveAfter(active, r) {
      var i :| 0 <= i < |s| && s[i] == x;
      var j := InOrder(r, s, i);
    }
  }

  // ----- Tracks of positive length

  predicate PositiveNotes(c: seq<FullNote>) {
    forall i | 0 <= i < |c| && c[i].base.Some? :: c[i].length > 0.0
  }

  predicate PositiveTracks(tracks: seq<seq<seq<FullNote>>>) {
    forall t, i | 0 <= t < |tracks| && 0 <= i < |tracks[t]| :: PositiveNotes(tracks[t][i])
  }

  lemma ReleasedConcat(a: seq<Instruction>, b: seq<Instruction>)
    requires Released(a) && Released(b)
    ensures Released(a + b)
  {
    forall i | 0 <= i < |a + b| && (a + b)[i].on ensures exists j :: ReleasedBy(a + b, i, j) {
      if i < |a| {
        var j :| ReleasedBy(a, i, j);
        assert ReleasedBy(a + b, i, j);
      } else {
        var j :| ReleasedBy(b, i - |a|, j);
        assert ReleasedBy(a + b, i, j + |a|);
      }
    }
  }

  lemma {:induction false} ChordReleased(c: seq<FullNote>, at: real)
    requires PositiveNotes(c)
    ensures Released(ChordInstructions(c, at))
    decreases |c|
  {
    if c != [] {
      var n := |c| - 1;
      ChordReleased(c[..n], at);
      var last := NoteInstructions(c[n], at);
      if c[n].base.Some? {
        assert ReleasedBy(last, 0, 1);
      }
      ReleasedConcat(ChordInstructions(c[..n], at), last);
    }
  }

  lemma {:induction false} TrackReleased(track: seq<seq<FullNote>>, k: nat)
    requires k <= |track| && forall i | 0 <= i < |track| :: PositiveNotes(track[i])
    ensures Released(TrackInstructions(track, k))
    decreases k
  {
    if k > 0 {
      TrackReleased(track, k - 1);
      ChordReleased(track[k - 1], Begin(track, k - 1));
      ReleasedConcat(TrackInstructions(track, k - 1), ChordInstructions(track[k - 1], Begin(track, k - 1)));
    }
  }

  lemma {:induction false} PositiveScheduleReleased(tracks: seq<seq<seq<FullNote>>>, n: nat)
    requires n <= |tracks| && PositiveTracks(tracks)
    ensures Released(Schedule(tracks, n))
    decreases n
  {
    if n > 0 {
      PositiveScheduleReleased(tracks, n - 1);
      TrackReleased(tracks[n - 1], |tracks[n - 1]|);
      ReleasedConcat(Schedule(tracks, n - 1), TrackInstructions(tracks[n - 1], |tracks[n - 1]|));
    }
  }

  /** A note of length zero may be left sounding: its On can be sorted behind its Off. */
  lemma ZeroLengthCanHang(n: FullNote)
    requires n.base.Some? && n.length == 0.0
    ensures exists r :: Order(r, Schedule([[[n]]], 1)) && !EndsSilent(r, {}, multiset{})
  {
    var s := NoteInstructions(n, 0.0);
    assert [n][..0] == [];
    assert ChordInstructions([n], 0.0) == [] + s == s;
    assert TrackInstructions([[n]], 1) == [] + s == s;
    assert Schedule([[[n]]], 1) == [] + s == s;
    forall j ensures !ReleasedBy(s, 0, j) {
    }
    var r := UnreleasedCanHang(s, 0, {}, multiset{});
  }
}
