/** Playing notes on one output, with interrupts that may arrive at any point where the
    interpreter looks for them. */
module Player {
  import opened Durations
  import opened Messages
  import opened Music
  import opened Sorting
  import opened Timeline
  import opened Wrappers

  /** How a step ends.  `Crashed` is a failed `ensure` or the use of a missing port. */
  datatype Status = Done | Failed | Interrupted | Crashed

  /** What sounds and what is noted as active, at a point where an interrupt can be observed. */
  datatype Snapshot = Snapshot(sounding: set<Key>, active: multiset<Key>) {
    predicate Safe() {
      forall k | k in sounding :: k in active
    }
  }

  predicate NotBefore(a: Key, b: Key) {
    a.channel < b.channel || (a.channel == b.channel && a.pitch <= b.pitch)
  }

  /** `x` is what `lower_bound(k)` points to: the least element not before `k`. */
  predicate LowerBound(active: multiset<Key>, k: Key, x: Key) {
    x in active && NotBefore(k, x) && forall y | y in active && NotBefore(k, y) :: NotBefore(x, y)
  }

  lemma LowerBoundOfMember(active: multiset<Key>, k: Key, x: Key)
    requires k in active && LowerBound(active, k, x)
    ensures x == k
  {
  }

  lemma OneMoreTurnedOff(keys: seq<Key>, k: Key, rest: multiset<Key>, active: multiset<Key>)
    requires multiset(keys) + rest == active && k in rest
    ensures multiset(keys + [k]) + (rest - multiset{k}) == active && rest - multiset{k} <= active
  {
  }

  lemma OneLessActive(before: multiset<Key>, notes: seq<FullNote>, i: nat, active: multiset<Key>)
    requires i < |notes| && active == before + KeysOf(notes[i..])
    ensures KeysOfNote(notes[i]) <= active && before <= active
    ensures active - KeysOfNote(notes[i]) == before + KeysOf(notes[i + 1..])
  {
    OneLessNote(notes, i);
  }

  /** The messages of a schedule played from the moment `start`. */
  function Played(ctx: Context, s: seq<Instruction>, start: real): seq<Event>
    requires ctx.bpm > 0
  {
    seq(|s|, i requires 0 <= i < |s| => Event(start + NonNegative(Duration(ctx, s[i].when)), s[i].on, s[i].key))
  }

  /** The sleep that playing a sorted schedule takes: up to its last message. */
  function Span(ctx: Context, s: seq<Instruction>): real
    requires ctx.bpm > 0
  {
    if s == [] then 0.0 else NonNegative(Duration(ctx, s[|s| - 1].when))
  }

  /** Notes with all defaults filled in, shortest first. */
  method SortedNotes(ctx: Context, chord: Chord) returns (notes: seq<FullNote>)
    ensures |notes| == |chord| && KeysOf(notes) == ChordKeys(ctx, chord)
    ensures SortedBy(notes, Length) && multiset(notes) == multiset(FillAll(ctx, chord))
  {
    notes := Sort(FillAll(ctx, chord), Length);
    BagOfPermutation(notes, FillAll(ctx, chord), KeysOfNote);
  }

  class Interpreter {
    const ctx: Context
    const connected: bool
    const interrupts: nat -> bool
    var sounding: set<Key>
    var active: multiset<Key>
    var log: seq<Event>
    var slept: real
    var looks: nat
    var playsResults: bool
    ghost var observed: seq<Snapshot>

    ghost predicate Valid()
      reads this
    {
      && ctx.bpm > 0
      && Snapshot(sounding, active).Safe() && sounding == Replayed(log)
      && (!connected ==> sounding == {} && active == multiset{})
      && |observed| == looks
      && forall i | 0 <= i < |observed| :: observed[i].Safe()
    }

    ghost function Here(): Snapshot
      reads this
    {
      Snapshot(sounding, active)
    }

    /** What was observed stays on record.  Of the looks that were added none saw an interrupt, but
        for the last one if the step was interrupted. */
    ghost predicate Watched(before: seq<Snapshot>, now: seq<Snapshot>, st: Status) {
      && before <= now
      && (forall i | |before| <= i < |now| && interrupts(i) :: st == Interrupted && i == |now| - 1)
      && (st == Interrupted ==> |before| < |now| && interrupts(|now| - 1))
    }

    /** At every look that was added, the keys were active. */
    ghost predicate Held(before: seq<Snapshot>, now: seq<Snapshot>, keys: multiset<Key>) {
      forall i | |before| <= i < |now| :: keys <= now[i].active
    }

    lemma HeldMore(a: seq<Snapshot>, b: seq<Snapshot>, c: seq<Snapshot>, keys: multiset<Key>, more: multiset<Key>)
      requires a <= b <= c && Held(a, b, keys) && Held(b, c, more) && keys <= more
      ensures Held(a, c, keys)
    {
      forall i | |a| <= i < |c| ensures keys <= c[i].active {
        if i < |b| {
          assert c[i] == b[i];
        }
      }
    }

    /** Since then, the chords were played, one after the other. */
    ghost predicate HasPlayed(chords: seq<Chord>, ps: seq<Passage>, logBefore: seq<Event>, start: real)
      requires ctx.bpm > 0
      reads this
    {
      Plays(ctx, chords, ps, start, slept) && log == logBefore + Sent(ps)
    }

    /** The first look that was added was made `here`. */
    ghost predicate Entered(before: seq<Snapshot>, here: Snapshot, now: seq<Snapshot>, st: Status) {
      Watched(before, now, st) && |before| < |now| && now[|before|] == here
    }

    lemma WatchedMore(a: seq<Snapshot>, b: seq<Snapshot>, c: seq<Snapshot>, st: Status)
      requires Watched(a, b, Done) && Watched(b, c, st)
      ensures Watched(a, c, st)
    {
    }

    lemma EnteredMore(a: seq<Snapshot>, here: Snapshot, b: seq<Snapshot>, c: seq<Snapshot>, st: Status)
      requires Entered(a, here, b, Done) && Watched(b, c, st)
      ensures Entered(a, here, c, st)
    {
    }

    constructor (ctx: Context, connected: bool, interrupts: nat -> bool)
      requires ctx.bpm > 0
      ensures Valid() && sounding == {} && active == multiset{} && log == [] && !playsResults && observed == []
      ensures this.ctx == ctx && this.connected == connected && this.interrupts == interrupts
    {
      this.ctx, this.connected, this.interrupts := ctx, connected, interrupts;
      sounding, active, log, slept, looks := {}, multiset{}, [], 0.0, 0;
      playsResults, observed := false, [];
    }

    // ----- Points where an interrupt can be observed

    /** Nothing may sound here that is not noted as active. */
    method HandlePotentialInterrupt() returns (st: Status)
      requires Valid()
      modifies this`looks, this`observed
      ensures Valid() && looks == old(looks) + 1
      ensures st == if interrupts(old(looks)) then Interrupted else Done
      ensures observed == old(observed) + [Snapshot(sounding, active)]
    {
      observed := observed + [Snapshot(sounding, active)];
      st := if interrupts(looks) then Interrupted else Done;
      looks := looks + 1;
    }

    /** Waiting for no time, or less, is over at once, but may be interrupted all the same. */
    method Sleep(time: real) returns (st: Status)
      requires Valid()
      modifies this`looks, this`observed, this`slept
      ensures Valid() && looks == old(looks) + 1
      ensures st == if interrupts(old(looks)) then Interrupted else Done
      ensures st == Done ==> slept == old(slept) + NonNegative(time)
      ensures observed == old(observed) + [Snapshot(sounding, active)]
    {
      observed := observed + [Snapshot(sounding, active)];
      st := if interrupts(looks) then Interrupted else Done;
      looks := looks + 1;
      if st == Done {
        slept := slept + NonNegative(time);
      }
    }

    // ----- Messages and the record of active notes

    method SendNoteOn(k: Key)
      requires sounding == Replayed(log)
      modifies this`sounding, this`log
      ensures sounding == old(sounding) + {k} && log == old(log) + [Event(slept, true, k)]
      ensures sounding == Replayed(log)
    {
      ReplayedOneMore(log, Event(slept, true, k));
      sounding := sounding + {k};
      log := log + [Event(slept, true, k)];
    }

    method SendNoteOff(k: Key)
      requires sounding == Replayed(log)
      modifies this`sounding, this`log
      ensures sounding == old(sounding) - {k} && log == old(log) + [Event(slept, false, k)]
      ensures sounding == Replayed(log)
    {
      ReplayedOneMore(log, Event(slept, false, k));
      sounding := sounding - {k};
      log := log + [Event(slept, false, k)];
    }

    /** `erase(lower_bound(k))`, which would erase some later element if `k` were missing. */
    method EraseAtLowerBound(k: Key)
      requires k in active
      modifies this`active
      ensures active == old(active) - multiset{k}
    {
      assert LowerBound(active, k, k);
      var x :| x in active && NotBefore(k, x) && forall y | y in active && NotBefore(k, y) :: NotBefore(x, y);
      LowerBoundOfMember(active, k, x);
      active := active - multiset{x};
    }

    method StartNote(k: Key)
      requires Valid() && connected
      modifies this`sounding, this`log, this`active
      ensures Valid()
      ensures sounding == old(sounding) + {k} && active == old(active) + multiset{k}
      ensures log == old(log) + [Event(slept, true, k)]
    {
      SendNoteOn(k);
      active := active + multiset{k};
    }

    method EndNote(k: Key)
      requires Valid() && connected && k in active
      modifies this`sounding, this`log, this`active
      ensures Valid()
      ensures sounding == old(sounding) - {k} && active == old(active) - multiset{k}
      ensures log == old(log) + [Event(slept, false, k)]
    {
      SendNoteOff(k);
      EraseAtLowerBound(k);
    }

    /** As `par` and `sim` end a note: no copy of the key stays active. */
    method EndEveryCopy(k: Key)
      requires Valid() && connected
      modifies this`sounding, this`log, this`active
      ensures Valid()
      ensures sounding == old(sounding) - {k} && active == old(active)[k := 0]
      ensures log == old(log) + [Event(slept, false, k)]
    {
      SendNoteOff(k);
      active := active[k := 0];
    }

    /** Sends an off for every active note and forgets them. */
    method TurnOffAllActiveNotes() returns (ghost keys: seq<Key>)
      requires Valid()
      modifies this`sounding, this`log, this`active
      ensures Valid() && sounding == {} && active == multiset{}
      ensures multiset(keys) == old(active) && log == old(log) + Offs(keys, slept)
    {
      keys := [];
      if !connected {
        return;
      }
      keys := SendOffs();
      active := multiset{};
    }

    method SendOffs() returns (ghost keys: seq<Key>)
      requires sounding == Replayed(log) && forall k | k in sounding :: k in active
      modifies this`sounding, this`log
      ensures sounding == Replayed(log) == {}
      ensures multiset(keys) == active && log == old(log) + Offs(keys, slept)
    {
      var rest := active;
      keys := [];
      while rest != multiset{}
        invariant sounding == Replayed(log) && forall k | k in sounding :: k in rest
        invariant multiset(keys) + rest == active && log == old(log) + Offs(keys, slept)
        decreases |rest|
      {
        var k :| k in rest;
        OneMoreTurnedOff(keys, k, rest, active);
        OneMoreOff(old(log), keys, k, slept);
        SendNoteOff(k);
        keys, rest := keys + [k], rest - multiset{k};
      }
    }

    // ----- Chords

    method StartAll(notes: seq<FullNote>)
      requires Valid() && connected
      modifies this`sounding, this`log, this`active
      ensures Valid() && active == old(active) + KeysOf(notes)
      ensures log == old(log) + SwitchAll(notes, true, slept)
    {
      ghost var left := KeysOf(notes);
      assert notes[0..] == notes;
      for i := 0 to |notes|
        invariant Valid() && left == KeysOf(notes[i..]) && active + left == old(active) + KeysOf(notes)
        invariant log == old(log) + SwitchAll(notes[..i], true, slept)
      {
        OneLessNote(notes, i);
        ghost var before := log;
        Start(notes[i]);
        SwitchedOneMore(old(log), notes, i, true, slept, before, log);
        left := KeysOf(notes[i + 1..]);
      }
      assert notes[|notes|..] == [] && notes[..|notes|] == notes;
    }

    method Start(n: FullNote)
      requires Valid() && connected
      modifies this`sounding, this`log, this`active
      ensures Valid() && active == old(active) + KeysOfNote(n)
      ensures log == old(log) + Switch(n, true, slept)
    {
      if n.base.Some? {
        StartNote(KeyOf(n));
      }
    }

    /** Sleeps for the length of a note, unless no time is left, and ends it. */
    method EndAfterSleep(n: FullNote, maxTime: real) returns (st: Status, left: real)
      requires Valid() && connected && KeysOfNote(n) <= active
      modifies this`sounding, this`log, this`active, this`slept, this`looks, this`observed
      ensures Watched(old(observed), observed, st) && Held(old(observed), observed, old(active))
      ensures Valid() && (st == Done || st == Interrupted)
      ensures left == AfterNote(n, maxTime)
      ensures st == Done ==> active == old(active) - KeysOfNote(n)
      ensures st == Done ==> slept == old(slept) + TimeOfNote(ctx, n, maxTime)
      ensures st == Done ==> log == old(log) + Switch(n, false, slept)
    {
      left, st := maxTime, Done;
      if maxTime != 0.0 {
        left := left - n.length;
        st := Sleep(Duration(ctx, n.length));
        if st != Done {
          return;
        }
      }
      if n.base.Some? {
        EndNote(KeyOf(n));
      }
    }

    /** Ends the notes one by one, shortest first, as `play` does. */
    method EndInTime(notes: seq<FullNote>, ghost before: multiset<Key>) returns (st: Status)
      requires Valid() && connected && notes != []
      requires active == before + KeysOf(notes)
      modifies this`sounding, this`log, this`active, this`slept, this`looks, this`observed
      ensures Watched(old(observed), observed, st) && Held(old(observed), observed, before)
      ensures Valid()
      ensures st == Done || st == Interrupted
      ensures st == Done ==> active == before
      ensures st == Done ==> slept == old(slept) + TimeToEnd(ctx, notes, notes[|notes| - 1].length)
      ensures st == Done ==> log == old(log) + Endings(ctx, notes, notes[|notes| - 1].length, old(slept))
    {
      var maxTime := notes[|notes| - 1].length;
      ghost var ahead, end := Endings(ctx, notes, maxTime, slept), slept + TimeToEnd(ctx, notes, maxTime);
      ghost var goal := log + ahead;
      assert notes[0..] == notes;
      for i := 0 to |notes|
        invariant Watched(old(observed), observed, Done) && Held(old(observed), observed, before)
        invariant Valid() && active == before + KeysOf(notes[i..])
        invariant IsAhead(ctx, notes[i..], maxTime, slept, ahead, end) && log + ahead == goal
      {
        OneLessActive(before, notes, i, active);
        ghost var logBefore, sleptBefore, maxBefore, looked, held := log, slept, maxTime, observed, active;
        st, maxTime := EndAfterSleep(notes[i], maxTime);
        WatchedMore(old(observed), looked, observed, st);
        HeldMore(old(observed), looked, observed, before, held);
        if st != Done {
          return;
        }
        ahead := LessAhead(ctx, notes, i, maxBefore, sleptBefore, ahead, end, slept, logBefore, log);
      }
      assert notes[|notes|..] == [];
      NothingAhead(ctx, maxTime, slept, ahead, end, log);
      st := Done;
    }

    /** Uninterrupted, a chord leaves the active notes as they were, and sends an off for every on. */
    method PlayChord(chord: Chord) returns (st: Status, ghost p: Passage)
      requires Valid()
      modifies this`sounding, this`log, this`active, this`slept, this`looks, this`observed
      ensures Watched(old(observed), observed, st) && Held(old(observed), observed, old(active))
      ensures Valid()
      ensures st == Failed <==> !connected
      ensures st != Crashed
      ensures st == Done ==> active == old(active)
      ensures st == Done ==> IsPassage(ctx, chord, p) && log == old(log) + p.messages
      ensures st == Done ==> p.at == old(slept) && p.until == slept
    {
      p := Passage([], slept, slept);
      if !connected {
        return Failed, p;
      }
      st := HandlePotentialInterrupt();
      if st != Done {
        return;
      }
      if |chord| == 0 {
        st, p := PlayRest();
      } else {
        st, p := PlaySorted(chord);
      }
    }

    /** A chord without notes: a sleep of the default length. */
    method PlayRest() returns (st: Status, ghost p: Passage)
      requires Valid() && connected
      modifies this`slept, this`looks, this`observed
      ensures Watched(old(observed), observed, st) && Held(old(observed), observed, active)
      ensures Valid() && (st == Done || st == Interrupted)
      ensures st == Done ==> IsPassage(ctx, [], p) && p.messages == []
      ensures st == Done ==> p.at == old(slept) && p.until == slept
    {
      st := Sleep(Duration(ctx, ctx.length));
      p := Passage([], old(slept), slept);
    }

    /** Fills in the defaults, sorts the notes by length and plays them. */
    method PlaySorted(chord: Chord) returns (st: Status, ghost p: Passage)
      requires Valid() && connected && chord != []
      modifies this`sounding, this`log, this`active, this`slept, this`looks, this`observed
      ensures Watched(old(observed), observed, st) && Held(old(observed), observed, old(active))
      ensures Valid() && (st == Done || st == Interrupted)
      ensures st == Done ==> active == old(active)
      ensures st == Done ==> IsPassage(ctx, chord, p) && log == old(log) + p.messages
      ensures st == Done ==> p.at == old(slept) && p.until == slept
    {
      var notes := SortedNotes(ctx, chord);
      st := PlayNotes(notes);
      p := Passage(MessagesOfChord(ctx, notes, old(slept)), old(slept), slept);
      if st == Done {
        assert PlayedAs(ctx, chord, notes) && IsPlayed(ctx, notes, p);
      }
    }

    method PlayNotes(notes: seq<FullNote>) returns (st: Status)
      requires Valid() && connected && notes != []
      modifies this`sounding, this`log, this`active, this`slept, this`looks, this`observed
      ensures Watched(old(observed), observed, st) && Held(old(observed), observed, old(active))
      ensures Valid() && (st == Done || st == Interrupted)
      ensures st == Done ==> active == old(active)
      ensures st == Done ==> slept == old(slept) + TimeOfChord(ctx, notes)
      ensures st == Done ==> log == old(log) + MessagesOfChord(ctx, notes, old(slept))
    {
      ghost var before := active;
      StartAll(notes);
      st := EndInTime(notes, before);
      Grouped(old(log), SwitchAll(notes, true, old(slept)), Endings(ctx, notes, notes[|notes| - 1].length, old(slept)));
    }

    // ----- Values

    /** Walks into arrays and runs blocks, whose bodies are sequences.  A value without blocks leaves
        the active notes as they were, and its chords are played in order. */
    method SequentialPlay(v: Value) returns (st: Status, ghost ps: seq<Passage>)
      requires Valid()
      modifies this
      ensures Watched(old(observed), observed, st)
      ensures Valid()
      ensures st == Done || st == Failed ==> playsResults == old(playsResults)
      ensures Pure(v) ==> Held(old(observed), observed, old(active))
      ensures st == Done && Pure(v) ==> active == old(active)
      ensures connected && Pure(v) ==> st == Done || st == Interrupted
      ensures st == Done && Pure(v) ==> HasPlayed(ChordsOf(v), ps, old(log), old(slept))
      ensures v.Code? && PureConstants(v.body) && connected ==> st == Done || st == Interrupted
      ensures st == Done && v.Code? && PureConstants(v.body) && old(playsResults) ==>
                active == old(active) && HasPlayed(ChordsOfAll(Results(v.body)), ps, old(log), old(slept))
      ensures v == Other ==> st == Done && ps == [] && log == old(log) && slept == old(slept) && active == old(active)
      decreases Size(v), 1
    {
      ps := [];
      match v
      case Sound(chord) =>
        ghost var p;
        st, p := PlayChord(chord);
        if st == Done {
          PlaysOne(ctx, chord, p);
          ps := [p];
        }
      case Collected(es) =>
        st, ps := PlayEach(es);
      case Code(body) =>
        st, ps := PlayBlock(body);
      case Other =>
        st := Done;
    }

    /** Runs the block and plays its result; inside `play`, what comes ahead of it is played as well. */
    method PlayBlock(body: seq<Expr>) returns (st: Status, ghost ps: seq<Passage>)
      requires Valid()
      modifies this
      ensures Watched(old(observed), observed, st)
      ensures Valid()
      ensures st == Done || st == Failed ==> playsResults == old(playsResults)
      ensures PureConstants(body) && connected ==> st == Done || st == Interrupted
      ensures st == Done && PureConstants(body) && old(playsResults) ==>
                active == old(active) && HasPlayed(ChordsOfAll(Results(body)), ps, old(log), old(slept))
      decreases CodeSizes(body), 6
    {
      var result;
      st, result, ps := EvalSequence(body);
      if st != Done {
        return;
      }
      ghost var ahead, before, mid, logBefore := ps, observed, slept, log;
      st, ps := SequentialPlay(result);
      WatchedMore(old(observed), before, observed, st);
      if st == Done && PureConstants(body) && playsResults {
        AllAhead(body);
        PlaysBoth(ctx, ChordsAhead(true, body, |body|), ahead, old(slept), mid, ChordsOf(result), ps, slept);
        SentInTwo(old(log), ahead, logBefore, ps, log);
      }
      ps := ahead + ps;
    }

    method PlayEach(vs: seq<Value>) returns (st: Status, ghost ps: seq<Passage>)
      requires Valid()
      modifies this
      ensures Watched(old(observed), observed, st)
      ensures Valid()
      ensures st == Done || st == Failed ==> playsResults == old(playsResults)
      ensures AllPure(vs) ==> Held(old(observed), observed, old(active))
      ensures st == Done && AllPure(vs) ==> active == old(active)
      ensures connected && AllPure(vs) ==> st == Done || st == Interrupted
      ensures st == Done && AllPure(vs) ==> HasPlayed(ChordsOfAll(vs), ps, old(log), old(slept))
      decreases Sizes(vs), 2
    {
      st, ps := Done, [];
      for i := 0 to |vs|
        invariant Watched(old(observed), observed, Done)
        invariant Valid() && playsResults == old(playsResults)
        invariant AllPure(vs) ==> active == old(active) && Held(old(observed), observed, old(active))
        invariant AllPure(vs) ==> HasPlayed(ChordsOfAll(vs[..i]), ps, old(log), old(slept))
      {
        PartIsSmaller(vs, i);
        ghost var more, mid, logBefore, looked := [], slept, log, observed;
        st, more := SequentialPlay(vs[i]);
        WatchedMore(old(observed), looked, observed, st);
        if AllPure(vs) {
          HeldMore(old(observed), looked, observed, old(active), old(active));
        }
        if st != Done {
          return;
        }
        if AllPure(vs) {
          OneMoreValue(vs, i);
          PlaysBoth(ctx, ChordsOfAll(vs[..i]), ps, old(slept), mid, ChordsOf(vs[i]), more, slept);
          SentInTwo(old(log), ps, logBefore, more, log);
        }
        ps := ps + more;
      }
      assert vs[..|vs|] == vs;
      st := Done;
    }

    // ----- Code

    /** Looks for an interrupt on entry and evaluates expressions in turn; inside `play`, every result
        but the last is played first. */
    method EvalSequence(body: seq<Expr>) returns (st: Status, result: Value, ghost ps: seq<Passage>)
      requires Valid()
      modifies this
      ensures Entered(old(observed), old(Here()), observed, st)
      ensures Valid() && Size(result) <= CodeSizes(body)
      ensures st == Done || st == Failed ==> playsResults == old(playsResults)
      ensures PureConstants(body) && (connected || !old(playsResults)) ==> st == Done || st == Interrupted
      ensures st == Done && PureConstants(body) ==>
                && result == (if body == [] then Other else body[|body| - 1].value) && active == old(active)
                && HasPlayed(ChordsAhead(old(playsResults), body, |body|), ps, old(log), old(slept))
      decreases CodeSizes(body), 5
    {
      result, ps := Other, [];
      st := HandlePotentialInterrupt();
      if st != Done {
        return;
      }
      ghost var before := observed;
      st, result, ps := EvalInTurn(body);
      EnteredMore(old(observed), old(Here()), before, observed, st);
    }

    method EvalInTurn(body: seq<Expr>) returns (st: Status, result: Value, ghost ps: seq<Passage>)
      requires Valid()
      modifies this
      ensures Watched(old(observed), observed, st)
      ensures Valid() && Size(result) <= CodeSizes(body)
      ensures st == Done || st == Failed ==> playsResults == old(playsResults)
      ensures PureConstants(body) && (connected || !old(playsResults)) ==> st == Done || st == Interrupted
      ensures st == Done && PureConstants(body) ==>
                && result == (if body == [] then Other else body[|body| - 1].value) && active == old(active)
                && HasPlayed(ChordsAhead(old(playsResults), body, |body|), ps, old(log), old(slept))
      decreases CodeSizes(body), 4
    {
      st, result, ps := Done, Other, [];
      ghost var pure := PureConstants(body);
      for i := 0 to |body|
        invariant Watched(old(observed), observed, Done)
        invariant Valid() && st == Done && playsResults == old(playsResults)
        invariant Size(result) <= CodeSizes(body)
        invariant pure ==> result == if i == 0 then Other else body[i - 1].value
        invariant pure ==> active == old(active)
        invariant pure ==> HasPlayed(ChordsAhead(playsResults, body, i), ps, old(log), old(slept))
      {
        ghost var before, mid, logBefore, more := observed, slept, log, [];
        st, result, more := EvalNext(body, i, result);
        WatchedMore(old(observed), before, observed, st);
        if st != Done {
          return;
        }
        if pure {
          OneMoreAhead(playsResults, body, i);
          PlaysBoth(ctx, ChordsAhead(playsResults, body, i), ps, old(slept), mid,
                    ChordsBefore(playsResults, body, i), more, slept);
          SentInTwo(old(log), ps, logBefore, more, log);
        }
        ps := ps + more;
      }
    }

    /** Plays the result that came before, if there is one and results are played. */
    method EvalNext(body: seq<Expr>, i: nat, before: Value) returns (st: Status, result: Value, ghost ps: seq<Passage>)
      requires Valid() && i < |body| && Size(before) <= CodeSizes(body)
      modifies this
      ensures Watched(old(observed), observed, st)
      ensures Valid() && Size(result) <= CodeSizes(body)
      ensures st == Done || st == Failed ==> playsResults == old(playsResults)
      ensures PureConstants(body) && (i > 0 ==> before == body[i - 1].value) && (connected || !old(playsResults)) ==>
                st == Done || st == Interrupted
      ensures st == Done && PureConstants(body) && (i > 0 ==> before == body[i - 1].value) ==>
                && result == body[i].value && active == old(active)
                && HasPlayed(ChordsBefore(playsResults, body, i), ps, old(log), old(slept))
      decreases CodeSizes(body), 3
    {
      st, result, ps := Done, before, [];
      if i > 0 && playsResults {
        st, ps := SequentialPlay(before);
        if st != Done {
          return;
        }
      }
      CodePartIsSmaller(body, i);
      ghost var played := observed;
      st, result := Eval(body[i]);
      WatchedMore(old(observed), played, observed, st);
    }

    /** Looks for an interrupt on entry, and a second time at the name of what is called. */
    method Eval(e: Expr) returns (st: Status, result: Value)
      requires Valid()
      modifies this
      ensures Entered(old(observed), old(Here()), observed, st)
      ensures e.Call? && !interrupts(old(looks)) ==>
                old(looks) + 1 < |observed| && observed[old(looks) + 1] == old(Here())
      ensures e.Constant? ==> st == Done || st == Interrupted
      ensures e.Constant? ==> active == old(active) && log == old(log) && slept == old(slept)
      ensures e.Fails? ==> st == Failed || st == Interrupted
      ensures Valid() && Size(result) <= CodeSize(e)
      ensures st == Done || st == Failed ==> playsResults == old(playsResults)
      ensures st == Done ==> result == if e.Constant? then e.value else Other
      ensures st == Done && e.Call? && PureConstants(e.arguments) ==> exists ps, order ::
                Performed(e.builtin, Results(e.arguments), ps, order, old(log), old(slept))
      decreases CodeSize(e), 2
    {
      result := Other;
      st := HandlePotentialInterrupt();
      if st != Done {
        return;
      }
      match e
      case Constant(v) =>
        result := v;
      case Fails =>
        st := Failed;
      case Call(builtin, arguments) =>
        st := HandlePotentialInterrupt();  // for the name of the builtin
        if st != Done {
          return;
        }
        ghost var ps, order;
        st, ps, order := EvalCall(builtin, arguments);
    }

    method EvalCall(builtin: Builtin, arguments: seq<Expr>)
      returns (st: Status, ghost ps: seq<Passage>, ghost order: seq<Instruction>)
      requires Valid()
      modifies this
      ensures Watched(old(observed), observed, st)
      ensures Valid()
      ensures st == Done || st == Failed ==> playsResults == old(playsResults)
      ensures st == Done && PureConstants(arguments) ==>
                Performed(builtin, Results(arguments), ps, order, old(log), old(slept))
      decreases CodeSizes(arguments), 7
    {
      ps, order := [], [];
      var values;
      st, values := EvalAll(arguments);
      if st != Done {
        return;
      }
      ghost var before := observed;
      st, ps, order := Apply(builtin, values);
      WatchedMore(old(observed), before, observed, st);
    }

    method Apply(builtin: Builtin, values: seq<Value>)
      returns (st: Status, ghost ps: seq<Passage>, ghost order: seq<Instruction>)
      requires Valid()
      modifies this
      ensures Watched(old(observed), observed, st)
      ensures Valid()
      ensures st == Done || st == Failed ==> playsResults == old(playsResults)
      ensures st == Done && AllPure(values) ==> Performed(builtin, values, ps, order, old(log), old(slept))
      decreases Sizes(values), 6
    {
      ps, order := [], [];
      match builtin
      case Play =>
        st, ps := BuiltinPlay(values);
      case Par =>
        st, ps := BuiltinPar(values);
      case Sim =>
        st, order := BuiltinSim(values);
    }

    /** Since then, the builtin has played the values: in turn, beside the first, or by a schedule. */
    ghost predicate Performed(builtin: Builtin, values: seq<Value>, ps: seq<Passage>, order: seq<Instruction>,
                              logBefore: seq<Event>, start: real)
      requires ctx.bpm > 0
      reads this
    {
      match builtin
      case Play => HasPlayed(ChordsOfAll(values), ps, logBefore, start)
      case Par =>
        && values != [] && values[0].Sound?
        && if |values| == 1 then HasPlayed([values[0].chord], ps, logBefore, start)
           else Sustained(FillAll(ctx, values[0].chord), ChordsOfAll(values[1..]), ps, logBefore, start)
      case Sim =>
        && Order(order, Schedule(ArgumentTracks(ctx, values), |values|))
        && log == logBefore + Played(ctx, order, start)
        && slept == start + Span(ctx, order)
    }

    method EvalAll(es: seq<Expr>) returns (st: Status, values: seq<Value>)
      requires Valid()
      modifies this
      ensures Watched(old(observed), observed, st)
      ensures Valid() && Sizes(values) <= CodeSizes(es)
      ensures st == Done || st == Failed ==> playsResults == old(playsResults)
      ensures PureConstants(es) ==> active == old(active) && log == old(log) && slept == old(slept)
      ensures PureConstants(es) ==> (st == Done && values == Results(es)) || st == Interrupted
      decreases CodeSizes(es), 3
    {
      values := [];
      assert es[0..] == es;
      for i := 0 to |es|
        invariant Watched(old(observed), observed, Done)
        invariant Valid() && playsResults == old(playsResults)
        invariant Sizes(values) + CodeSizes(es[i..]) <= CodeSizes(es)
        invariant PureConstants(es) ==> active == old(active) && log == old(log) && slept == old(slept)
        invariant PureConstants(es) ==> values == Results(es)[..i]
      {
        CodePartIsSmaller(es, i);
        assert es[i..][1..] == es[i + 1..];
        var v;
        st, v := Eval(es[i]);
        if st != Done {
          return;
        }
        SizesAppend(values, v);
        if PureConstants(es) {
          assert Results(es)[..i + 1] == Results(es)[..i] + [es[i].value];
        }
        values := values + [v];
      }
      st := Done;
    }

    // ----- play, par and sim

    /** While it runs, results of sequences are played; that is undone unless the run is cut short. */
    method BuiltinPlay(values: seq<Value>) returns (st: Status, ghost ps: seq<Passage>)
      requires Valid()
      modifies this
      ensures Watched(old(observed), observed, st)
      ensures Valid()
      ensures st == Done || st == Failed ==> playsResults == old(playsResults)
      ensures !connected ==> st == Failed && log == old(log) && slept == old(slept) && observed == old(observed)
      ensures connected && AllPure(values) ==> st == Done || st == Interrupted
      ensures AllPure(values) ==> Held(old(observed), observed, old(active))
      ensures st == Done && AllPure(values) ==> active == old(active)
      ensures st == Done && AllPure(values) ==> HasPlayed(ChordsOfAll(values), ps, old(log), old(slept))
      decreases Sizes(values), 3
    {
      ps := [];
      if !connected {
        return Failed, ps;
      }
      var previousAction := playsResults;
      playsResults := true;
      st, ps := PlayEach(values);
      if st == Done || st == Failed {
        playsResults := previousAction;
      }
    }

    /** Plays a single chord, or sustains the first argument while the others play. */
    method BuiltinPar(values: seq<Value>) returns (st: Status, ghost ps: seq<Passage>)
      requires Valid()
      modifies this
      ensures Watched(old(observed), observed, st)
      ensures Valid()
      ensures st == Done || st == Failed ==> playsResults == old(playsResults)
      ensures connected && (values == [] || !values[0].Sound?) ==> st == Crashed
      ensures !connected ==> st == Failed && log == old(log) && slept == old(slept) && observed == old(observed)
      ensures connected && values != [] && values[0].Sound? && AllPure(values) ==> st == Done || st == Interrupted
      ensures st == Done ==> values != [] && values[0].Sound?
      ensures st == Done && |values| == 1 ==> active == old(active)
      ensures st == Done && |values| == 1 ==> HasPlayed([values[0].chord], ps, old(log), old(slept))
      ensures st == Done && |values| > 1 && AllPure(values) ==>
                && Erased(old(active), ChordKeys(ctx, values[0].chord), active)
                && (active == old(active) <==> forall k | k in ChordKeys(ctx, values[0].chord) :: k !in old(active))
      ensures st == Done && |values| > 1 && AllPure(values) ==>
                Sustained(FillAll(ctx, values[0].chord), ChordsOfAll(values[1..]), ps, old(log), old(slept))
      ensures connected && |values| > 1 && values[0].Sound? && AllPure(values) ==>
                Held(old(observed), observed, ChordKeys(ctx, values[0].chord))
      decreases Sizes(values), 5
    {
      ps := [];
      if !connected {
        return Failed, ps;
      }
      if values == [] || !values[0].Sound? {
        return Crashed, ps;
      }
      var chord := values[0].chord;
      if |values| == 1 {
        ghost var p;
        st, p := PlayChord(chord);
        if st == Done {
          PlaysOne(ctx, chord, p);
          ps := [p];
        }
        return;
      }
      st, ps := Sustain(FillAll(ctx, chord), values[1..]);
      if st == Done && AllPure(values) {
        ParRestoresExactlyWhen(old(active), ChordKeys(ctx, chord), active);
      }
    }

    /** Since then, all notes were switched on, the chords played, and the notes switched off. */
    ghost predicate Sustained(notes: seq<FullNote>, chords: seq<Chord>, ps: seq<Passage>, logBefore: seq<Event>,
                              start: real)
      requires ctx.bpm > 0
      reads this
    {
      && Plays(ctx, chords, ps, start, slept)
      && log == logBefore + SwitchAll(notes, true, start) + Sent(ps) + SwitchAll(notes, false, slept)
    }

    /** Afterwards no copy of a sustained key is active. */
    method Sustain(notes: seq<FullNote>, values: seq<Value>) returns (st: Status, ghost ps: seq<Passage>)
      requires Valid() && connected
      modifies this
      ensures Watched(old(observed), observed, st)
      ensures Valid()
      ensures st == Done || st == Failed ==> playsResults == old(playsResults)
      ensures AllPure(values) ==> st == Done || st == Interrupted
      ensures AllPure(values) ==> Held(old(observed), observed, KeysOf(notes))
      ensures st == Done && AllPure(values) ==> Erased(old(active), KeysOf(notes), active)
      ensures st == Done && AllPure(values) ==> Sustained(notes, ChordsOfAll(values), ps, old(log), old(slept))
      decreases Sizes(values), 4
    {
      StartAll(notes);
      st, ps := BuiltinPlay(values);
      if st == Interrupted || st == Crashed {
        return;
      }
      EndAll(notes);
      if AllPure(values) && st == Done {
        SustainedIsErased(old(active), KeysOf(notes), active);
      }
    }

    method EndAll(notes: seq<FullNote>)
      requires Valid() && connected
      modifies this`sounding, this`log, this`active
      ensures Valid() && Erased(old(active), KeysOf(notes), active)
      ensures log == old(log) + SwitchAll(notes, false, slept)
    {
      for i := 0 to |notes|
        invariant Valid() && Erased(old(active), KeysOf(notes[..i]), active)
        invariant log == old(log) + SwitchAll(notes[..i], false, slept)
      {
        ghost var before, logBefore := active, log;
        EndCopies(notes[i]);
        ErasedOneMore(old(active), notes, i, before, active);
        SwitchedOneMore(old(log), notes, i, false, slept, logBefore, log);
      }
      assert notes[..|notes|] == notes;
    }

    method EndCopies(n: FullNote)
      requires Valid() && connected
      modifies this`sounding, this`log, this`active
      ensures Valid() && Erased(old(active), KeysOfNote(n), active)
      ensures log == old(log) + Switch(n, false, slept)
    {
      if n.base.Some? {
        EndEveryCopy(KeyOf(n));
      }
    }

    /** The chords of an argument of `sim`; blocks are indexed, which runs their expressions. */
    method AppendTrack(v: Value) returns (st: Status, track: seq<seq<FullNote>>)
      requires Valid()
      modifies this
      ensures Watched(old(observed), observed, st)
      ensures Valid()
      ensures st == Done || st == Failed ==> playsResults == old(playsResults)
      ensures v == Other ==> st == Failed
      ensures st == Done && v.Code? && PureConstants(v.body) ==> track == Track(ctx, ChordsOfAll(Results(v.body)))
      ensures Pure(v) ==> st == Done && track == Track(ctx, ChordsOf(v))
      ensures Pure(v) ==> active == old(active) && sounding == old(sounding) && log == old(log) && slept == old(slept)
      decreases Size(v), 1
    {
      match v
      case Sound(chord) =>
        st, track := Done, [FillAll(ctx, chord)];
      case Collected(es) =>
        st, track := AppendArray(es);
      case Code(body) =>
        st, track := AppendBlock(body);
      case Other =>
        st, track := Failed, [];
    }

    method AppendArray(es: seq<Value>) returns (st: Status, track: seq<seq<FullNote>>)
      requires Valid()
      modifies this
      ensures Watched(old(observed), observed, st)
      ensures Valid()
      ensures st == Done || st == Failed ==> playsResults == old(playsResults)
      ensures AllPure(es) ==> st == Done && track == Track(ctx, ChordsOfAll(es))
      ensures AllPure(es) ==>
                active == old(active) && sounding == old(sounding) && log == old(log) && slept == old(slept)
      decreases Sizes(es), 2
    {
      track := [];
      for i := 0 to |es|
        invariant Watched(old(observed), observed, Done)
        invariant Valid() && playsResults == old(playsResults)
        invariant AllPure(es) ==> track == Track(ctx, ChordsOfAll(es[..i]))
        invariant AllPure(es) ==>
                    active == old(active) && sounding == old(sounding) && log == old(log) && slept == old(slept)
      {
        PartIsSmaller(es, i);
        var more;
        st, more := AppendTrack(es[i]);
        if st != Done {
          return;
        }
        OneMoreTrack(ctx, es, i);
        track := track + more;
      }
      assert es[..|es|] == es;
      st := Done;
    }

    method AppendBlock(body: seq<Expr>) returns (st: Status, track: seq<seq<FullNote>>)
      requires Valid()
      modifies this
      ensures Watched(old(observed), observed, st)
      ensures Valid()
      ensures st == Done || st == Failed ==> playsResults == old(playsResults)
      ensures PureConstants(body) ==> st == Done || st == Interrupted
      ensures PureConstants(body) ==> active == old(active) && log == old(log) && slept == old(slept)
      ensures st == Done && PureConstants(body) ==> track == Track(ctx, ChordsOfAll(Results(body)))
      decreases CodeSizes(body), 3
    {
      track := [];
      ghost var pure := PureConstants(body);
      for i := 0 to |body|
        invariant Watched(old(observed), observed, Done)
        invariant Valid() && playsResults == old(playsResults)
        invariant pure ==> active == old(active) && log == old(log) && slept == old(slept)
        invariant pure ==> track == Track(ctx, ChordsOfAll(Results(body)[..i]))
      {
        CodePartIsSmaller(body, i);
        var value, more;
        st, value := Eval(body[i]);
        if st != Done {
          return;
        }
        st, more := AppendTrack(value);
        if st != Done {
          return;
        }
        if pure {
          OneMoreTrack(ctx, Results(body), i);
        }
        track := track + more;
      }
      assert pure ==> Results(body)[..|body|] == Results(body);
      st := Done;
    }

    /** Plays all arguments at once: some time-sorted order of the schedule of their tracks. */
    method BuiltinSim(values: seq<Value>) returns (st: Status, ghost order: seq<Instruction>)
      requires Valid()
      modifies this
      ensures Watched(old(observed), observed, st)
      ensures Valid()
      ensures st == Done || st == Failed ==> playsResults == old(playsResults)
      ensures connected && AllPure(values) ==> st == Done || st == Interrupted
      ensures st == Done && AllPure(values) ==>
                && Order(order, Schedule(ArgumentTracks(ctx, values), |values|))
                && log == old(log) + Played(ctx, order, old(slept))
                && slept == old(slept) + Span(ctx, order)
                && sounding == SoundingAfter(old(sounding), order)
                && active == ActiveAfter(old(active), order)
      ensures st == Done && AllPure(values) && PositiveTracks(ArgumentTracks(ctx, values)) ==>
                forall x | x in Schedule(ArgumentTracks(ctx, values), |values|) ::
                  x.key !in sounding && x.key !in active
      decreases Sizes(values), 4
    {
      order := [];
      var tracks;
      st, tracks := CollectTracks(values);
      if st != Done {
        return;
      }
      var schedule := BuildSchedule(tracks);
      var sorted := Sort(schedule, When);
      order := sorted;
      st := PlaySchedule(sorted);
      if AllPure(values) && PositiveTracks(tracks) {
        PositiveScheduleReleased(tracks, |values|);
        SilentInOrder(order, schedule, old(sounding), old(active));
      }
    }

    method CollectTracks(values: seq<Value>) returns (st: Status, tracks: seq<seq<seq<FullNote>>>)
      requires Valid()
      modifies this
      ensures Watched(old(observed), observed, st)
      ensures Valid()
      ensures st == Done || st == Failed ==> playsResults == old(playsResults)
      ensures AllPure(values) ==> st == Done && tracks == ArgumentTracks(ctx, values)
      ensures AllPure(values) ==>
                active == old(active) && sounding == old(sounding) && log == old(log) && slept == old(slept)
      decreases Sizes(values), 3
    {
      tracks := [];
      for i := 0 to |values|
        invariant Watched(old(observed), observed, Done)
        invariant Valid() && playsResults == old(playsResults) && |tracks| == i
        invariant AllPure(values) ==> tracks == ArgumentTracks(ctx, values)[..i]
        invariant AllPure(values) ==>
                    active == old(active) && sounding == old(sounding) && log == old(log) && slept == old(slept)
      {
        PartIsSmaller(values, i);
        var track;
        st, track := AppendTrack(values[i]);
        if st != Done {
          return;
        }
        tracks := tracks + [track];
      }
      st := Done;
    }

    method PlaySchedule(schedule: seq<Instruction>) returns (st: Status)
      requires Valid() && SortedBy(schedule, When)
      modifies this`sounding, this`log, this`active, this`slept, this`looks, this`observed
      ensures Watched(old(observed), observed, st)
      ensures Valid()
      ensures connected ==> st == Done || st == Interrupted
      ensures !connected ==> log == old(log) && (st == Done <==> schedule == []) && st != Failed
      ensures st == Done ==> log == old(log) + Played(ctx, schedule, old(slept))
      ensures st == Done ==> slept == old(slept) + Span(ctx, schedule)
      ensures st == Done ==> sounding == SoundingAfter(old(sounding), schedule)
      ensures st == Done ==> active == ActiveAfter(old(active), schedule)
    {
      var startTime := 0.0;
      for i := 0 to |schedule|
        invariant Watched(old(observed), observed, Done)
        invariant Valid() && (connected || i == 0) && startTime == Span(ctx, schedule[..i])
        invariant slept == old(slept) + startTime
        invariant log == old(log) + Played(ctx, schedule[..i], old(slept))
        invariant sounding == SoundingAfter(old(sounding), schedule[..i])
        invariant active == ActiveAfter(old(active), schedule[..i])
      {
        ghost var was, logBefore := startTime, log;
        st, startTime := PlayInstruction(schedule[i], startTime);
        if st != Done {
          return;
        }
        OneMorePlayed(ctx, schedule, i, old(slept), was, startTime, old(log), logBefore, log);
      }
      assert schedule[..|schedule|] == schedule;
      st := Done;
    }

    /** Sleeps until the instruction is due, unless that time has passed, and sends its message. */
    method PlayInstruction(instruction: Instruction, startTime: real) returns (st: Status, now: real)
      requires Valid()
      modifies this`sounding, this`log, this`active, this`slept, this`looks, this`observed
      ensures Watched(old(observed), observed, st)
      ensures Valid()
      ensures connected ==> st == Done || st == Interrupted
      ensures !connected ==> log == old(log) && (st == Crashed || st == Interrupted)
      ensures st == Done ==>
                && now == Later(startTime, Duration(ctx, instruction.when))
                && slept == old(slept) + (now - startTime)
                && log == old(log) + [Event(slept, instruction.on, instruction.key)]
      ensures st == Done ==>
                sounding == if instruction.on then old(sounding) + {instruction.key}
                            else old(sounding) - {instruction.key}
      ensures st == Done ==>
                active == if instruction.on then old(active) + multiset{instruction.key}
                          else old(active)[instruction.key := 0]
    {
      var due := Duration(ctx, instruction.when);
      now := startTime;
      if startTime < due {
        st := Sleep(due - startTime);
        if st != Done {
          return;
        }
        now := due;
      }
      if !connected {
        return Crashed, now;
      }
      if instruction.on {
        StartNote(instruction.key);
      } else {
        EndEveryCopy(instruction.key);
      }
      st := Done;
    }

    // ----- A whole run

    /** Runs a program.  The first look that sees an interrupt cuts it short, and the handler leaves
        nothing sounding and no note recorded as active, however `play`, `par` and `sim` were nested. */
    method Run(program: seq<Expr>) returns (st: Status)
      requires Valid()
      modifies this
      ensures Entered(old(observed), old(Here()), observed, st)
      ensures Valid()
      ensures st == Interrupted ==> sounding == {} && active == multiset{}
      ensures forall i | 0 <= i < |observed| :: observed[i].Safe()
    {
      var result;
      ghost var ps;
      st, result, ps := EvalSequence(program);
      if st == Interrupted {
        ghost var keys := TurnOffAllActiveNotes();
      }
    }
  }

  predicate AllPure(vs: seq<Value>) {
    forall i | 0 <= i < |vs| :: Pure(vs[i])
  }

  ghost predicate PureConstants(body: seq<Expr>) {
    forall i | 0 <= i < |body| :: body[i].Constant? && Pure(body[i].value)
  }

  /** The chords of what was evaluated just before expression `i`, if results are played. */
  ghost function ChordsBefore(playsResults: bool, body: seq<Expr>, i: nat): seq<Chord>
    requires i < |body|
  {
    if i > 0 && playsResults && body[i - 1].Constant? then ChordsOf(body[i - 1].value) else []
  }

  ghost function Results(body: seq<Expr>): seq<Value>
    requires PureConstants(body)
  {
    seq(|body|, i requires 0 <= i < |body| => body[i].value)
  }

  /** The chords of all but the last of the first `n` constants, if results are played. */
  ghost function ChordsAhead(playsResults: bool, body: seq<Expr>, n: nat): seq<Chord>
    requires n <= |body| && PureConstants(body)
  {
    if n == 0 || !playsResults then [] else ChordsOfAll(Results(body)[..n - 1])
  }

  lemma OneMoreAhead(playsResults: bool, body: seq<Expr>, i: nat)
    requires i < |body| && PureConstants(body)
    ensures ChordsAhead(playsResults, body, i + 1) ==
            ChordsAhead(playsResults, body, i) + ChordsBefore(playsResults, body, i)
  {
    if i > 0 {
      OneMoreValue(Results(body), i - 1);
    }
  }

  lemma AllAhead(body: seq<Expr>)
    requires PureConstants(body)
    ensures ChordsOfAll(Results(body)) ==
            if body == [] then [] else ChordsAhead(true, body, |body|) + ChordsOf(body[|body| - 1].value)
  {
    if body != [] {
      OneMoreValue(Results(body), |body| - 1);
      assert Results(body)[..|body|] == Results(body);
    }
  }

  /** `now` is `before` without any copy of the keys in `gone`. */
  ghost predicate Erased(before: multiset<Key>, gone: multiset<Key>, now: multiset<Key>) {
    forall k :: now[k] == if k in gone then 0 else before[k]
  }

  lemma ErasedMore(a: multiset<Key>, m: multiset<Key>, b: multiset<Key>, n: multiset<Key>, c: multiset<Key>)
    requires Erased(a, m, b) && Erased(b, n, c)
    ensures Erased(a, m + n, c)
  {
  }

  lemma ErasedOneMore(start: multiset<Key>, notes: seq<FullNote>, i: nat, before: multiset<Key>, now: multiset<Key>)
    requires i < |notes| && Erased(start, KeysOf(notes[..i]), before) && Erased(before, KeysOfNote(notes[i]), now)
    ensures Erased(start, KeysOf(notes[..i + 1]), now)
  {
    KeysOneMore(notes[..i + 1]);
    assert notes[..i + 1][..i] == notes[..i];
    ErasedMore(start, KeysOf(notes[..i]), before, KeysOfNote(notes[i]), now);
  }

  lemma SustainedIsErased(before: multiset<Key>, sustained: multiset<Key>, now: multiset<Key>)
    requires Erased(before + sustained, sustained, now)
    ensures Erased(before, sustained, now)
  {
  }

  /** `par` leaves the record of active notes as it was if and only if no sustained key was
      active before. */
  lemma ParRestoresExactlyWhen(before: multiset<Key>, sustained: multiset<Key>, now: multiset<Key>)
    requires Erased(before, sustained, now)
    ensures now == before <==> forall k | k in sustained :: k !in before
  {
    if forall k | k in sustained :: k !in before {
      forall k ensures now[k] == before[k] {
      }
    }
  }

  /** An input where the record is lost: sustaining a note that is active already. */
  method SustainAgain(i: Interpreter, n: Note) returns (st: Status)
    requires i.Valid() && i.connected && n.base.Some? && KeyOf(Fill(i.ctx, n)) in i.active
    modifies i
    ensures i.Valid()
    ensures st == Done ==> KeyOf(Fill(i.ctx, n)) !in i.active && i.active != old(i.active)
  {
    ghost var ps;
    st, ps := i.BuiltinPar([Sound([n]), Sound([])]);
    assert KeyOf(Fill(i.ctx, n)) in ChordKeys(i.ctx, [n]) by {
      KeysOfOneNote(i.ctx, n);
    }
  }

  lemma KeysOfOneNote(ctx: Context, n: Note)
    requires n.base.Some?
    ensures ChordKeys(ctx, [n]) == multiset{KeyOf(Fill(ctx, n))}
  {
    assert FillAll(ctx, [n]) == [Fill(ctx, n)];
    var notes := [Fill(ctx, n)];
    assert notes[1..] == [];
    assert KeysOf(notes) == KeysOfNote(notes[0]) + KeysOf(notes[1..]);
  }

  /** Chords with all defaults filled in. */
  function Track(ctx: Context, chords: seq<Chord>): seq<seq<FullNote>> {
    seq(|chords|, i requires 0 <= i < |chords| => FillAll(ctx, chords[i]))
  }

  lemma OneMoreTrack(ctx: Context, vs: seq<Value>, i: nat)
    requires i < |vs|
    ensures Track(ctx, ChordsOfAll(vs[..i + 1])) == Track(ctx, ChordsOfAll(vs[..i])) + Track(ctx, ChordsOf(vs[i]))
  {
    OneMoreValue(vs, i);
  }

  /** One track for each argument. */
  function ArgumentTracks(ctx: Context, vs: seq<Value>): (r: seq<seq<seq<FullNote>>>)
    ensures |r| == |vs|
  {
    seq(|vs|, i requires 0 <= i < |vs| => Track(ctx, ChordsOf(vs[i])))
  }

  // ----- The schedule, built with running times

  method BuildSchedule(tracks: seq<seq<seq<FullNote>>>) returns (schedule: seq<Instruction>)
    ensures schedule == Schedule(tracks, |tracks|)
    ensures forall x :: x in schedule <==> InTimeline(x, tracks)
  {
    schedule := [];
    for t := 0 to |tracks|
      invariant schedule == Schedule(tracks, t)
    {
      var instructions := BuildTrack(tracks[t]);
      schedule := schedule + instructions;
    }
    forall x ensures x in schedule <==> InTimeline(x, tracks) {
      ScheduleContents(x, tracks);
    }
  }

  method BuildTrack(track: seq<seq<FullNote>>) returns (instructions: seq<Instruction>)
    ensures instructions == TrackInstructions(track, |track|)
  {
    var passedTime := 0.0;
    instructions := [];
    for k := 0 to |track|
      invariant passedTime == Begin(track, k)
      invariant instructions == TrackInstructions(track, k)
    {
      var more, chordLength := BuildChord(track[k], passedTime);
      instructions := instructions + more;
      passedTime := passedTime + chordLength;
    }
  }

  method BuildChord(c: seq<FullNote>, passedTime: real) returns (instructions: seq<Instruction>, chordLength: real)
    ensures instructions == ChordInstructions(c, passedTime)
    ensures chordLength == Longest(c)
  {
    instructions, chordLength := [], 0.0;
    for i := 0 to |c|
      invariant instructions == ChordInstructions(c[..i], passedTime)
      invariant chordLength == Longest(c[..i])
    {
      var n := c[i];
      assert c[..i + 1][..i] == c[..i];
      if n.base.Some? {
        instructions := instructions + [Instruction(passedTime, true, KeyOf(n))];
        instructions := instructions + [Instruction(passedTime + n.length, false, KeyOf(n))];
      }
      chordLength := if n.length < chordLength then chordLength else n.length;
    }
    assert c[..|c|] == c;
  }

  lemma NextIsDue(ctx: Context, s: seq<Instruction>, i: nat)
    requires ctx.bpm > 0 && SortedBy(s, When) && i < |s|
    ensures Span(ctx, s[..i]) <= Span(ctx, s[..i + 1]) == NonNegative(Duration(ctx, s[i].when))
  {
    if i > 0 {
      assert When(s[i - 1]) <= When(s[i]);
      DurationIsMonotone(ctx, s[i - 1].when, s[i].when);
      assert s[..i][i - 1] == s[i - 1];
    }
  }

  lemma OneMorePlayed(ctx: Context, s: seq<Instruction>, i: nat, start: real, was: real, now: real,
                      log: seq<Event>, before: seq<Event>, after: seq<Event>)
    requires ctx.bpm > 0 && SortedBy(s, When) && i < |s| && was == Span(ctx, s[..i])
    requires now == Later(was, Duration(ctx, s[i].when))
    requires before == log + Played(ctx, s[..i], start)
    requires after == before + [Event(start + now, s[i].on, s[i].key)]
    ensures now == Span(ctx, s[..i + 1]) && s[..i + 1][..i] == s[..i]
    ensures after == log + Played(ctx, s[..i + 1], start)
  {
    NextIsDue(ctx, s, i);
    assert Played(ctx, s[..i + 1], start) == Played(ctx, s[..i], start) + [Event(start + now, s[i].on, s[i].key)];
  }

  function Later(a: real, b: real): real {
    if a < b then b else a
  }

  lemma OneLessNote(notes: seq<FullNote>, i: nat)
    requires i < |notes|
    ensures KeysOf(notes[i..]) == KeysOfNote(notes[i]) + KeysOf(notes[i + 1..])
  {
    assert notes[i..][1..] == notes[i + 1..];
  }
}
