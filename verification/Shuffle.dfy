/** The shuffle: from the last position down, swap with a drawn position that is not later. */
module Shuffle {
  import opened Arithmetic
  import opened Random
  import opened Wrappers

  function Swapped<T>(s: seq<T>, i: nat, j: nat): (r: seq<T>)
    requires i < |s| && j < |s|
    ensures |r| == |s|
  {
    s[i := s[j]][j := s[i]]
  }

  /** One draw for each of the positions `i`, `i - 1`, ..., `1`; the first is for position `i`. */
  predicate Draws(i: nat, draws: seq<nat>) {
    SomeDraws(i, draws) && |draws| == i
  }

  /** The draws of the first rounds. */
  predicate SomeDraws(i: nat, draws: seq<nat>) {
    |draws| <= i && forall k | 0 <= k < |draws| :: draws[k] <= i - k
  }

  function Shuffled<T>(s: seq<T>, i: nat, draws: seq<nat>): (r: seq<T>)
    requires SomeDraws(i, draws) && (i < |s| || i == 0)
    ensures |r| == |s|
    decreases i
  {
    if draws == [] then s else Shuffled(Swapped(s, i, draws[0]), i - 1, draws[1..])
  }

  /** The whole shuffle of a sequence; an empty one takes no draws. */
  function LastIndex(n: nat): nat {
    if n == 0 then 0 else n - 1
  }

  // ----- Permutations

  lemma SwapPermutes<T>(s: seq<T>, i: nat, j: nat)
    requires i < |s| && j < |s|
    ensures multiset(Swapped(s, i, j)) == multiset(s)
  {
  }

  lemma {:induction false} ShuffledPermutes<T>(s: seq<T>, i: nat, draws: seq<nat>)
    requires SomeDraws(i, draws) && (i < |s| || i == 0)
    ensures multiset(Shuffled(s, i, draws)) == multiset(s)
    decreases i
  {
    if draws != [] {
      SwapPermutes(s, i, draws[0]);
      ShuffledPermutes(Swapped(s, i, draws[0]), i - 1, draws[1..]);
    }
  }

  lemma {:induction false} LaterPositionsStay<T>(s: seq<T>, i: nat, draws: seq<nat>, k: nat)
    requires Draws(i, draws) && (i < |s| || i == 0) && i < k < |s|
    ensures Shuffled(s, i, draws)[k] == s[k]
    decreases i
  {
    if i > 0 {
      LaterPositionsStay(Swapped(s, i, draws[0]), i - 1, draws[1..], k);
    }
  }

  lemma {:induction false} LastDrawShows<T>(s: seq<T>, i: nat, draws: seq<nat>)
    requires 0 < i < |s| && Draws(i, draws)
    ensures Shuffled(s, i, draws)[i] == s[draws[0]]
  {
    LaterPositionsStay(Swapped(s, i, draws[0]), i - 1, draws[1..], i);
  }

  lemma {:induction false} OneMoreDraw<T>(s: seq<T>, i: nat, draws: seq<nat>, d: nat)
    requires i < |s| && SomeDraws(i, draws) && |draws| < i && d <= i - |draws|
    ensures SomeDraws(i, draws + [d])
    ensures Shuffled(s, i, draws + [d]) == Swapped(Shuffled(s, i, draws), i - |draws|, d)
    decreases i
  {
    var all := draws + [d];
    if draws == [] {
      assert all[1..] == [];
    } else {
      assert all[1..] == draws[1..] + [d];
      OneMoreDraw(Swapped(s, i, draws[0]), i - 1, draws[1..], d);
    }
  }

  // ----- Different draws, different arrangements

  ghost predicate Distinct<T(!new)>(s: seq<T>) {
    forall x :: multiset(s)[x] <= 1
  }

  lemma TwiceCounted<T>(s: seq<T>, a: nat, b: nat)
    requires a < b < |s| && s[a] == s[b]
    ensures multiset(s)[s[a]] >= 2
  {
    assert s == s[..a] + [s[a]] + s[a + 1..b] + [s[b]] + s[b + 1..];
  }

  lemma DistinctPositions<T(!new)>(s: seq<T>, i: nat, j: nat)
    requires Distinct(s) && i < |s| && j < |s| && s[i] == s[j]
    ensures i == j
  {
    if i < j {
      TwiceCounted(s, i, j);
    } else if j < i {
      TwiceCounted(s, j, i);
    }
  }

  lemma {:induction false} DrawsAreDetermined<T(!new)>(s: seq<T>, i: nat, ds: seq<nat>, es: seq<nat>)
    requires Distinct(s) && (i < |s| || i == 0) && Draws(i, ds) && Draws(i, es)
    requires Shuffled(s, i, ds) == Shuffled(s, i, es)
    ensures ds == es
    decreases i
  {
    if i > 0 {
      LastDrawShows(s, i, ds);
      LastDrawShows(s, i, es);
      DistinctPositions(s, ds[0], es[0]);
      SwapPermutes(s, i, ds[0]);
      DrawsAreDetermined(Swapped(s, i, ds[0]), i - 1, ds[1..], es[1..]);
      assert ds == [ds[0]] + ds[1..] && es == [es[0]] + es[1..];
    }
  }

  // ----- Every arrangement is reached

  ghost predicate Arranges<T>(goal: seq<T>, s: seq<T>) {
    multiset(goal) == multiset(s)
  }

  lemma {:induction false} ArrangementIsReached<T(!new)>(s: seq<T>, i: nat, goal: seq<T>) returns (draws: seq<nat>)
    requires Distinct(s) && (i < |s| || i == 0) && multiset(goal) == multiset(s)
    requires |goal| == |s| && forall k | i < k < |s| :: goal[k] == s[k]
    ensures Draws(i, draws) && Shuffled(s, i, draws) == goal
    decreases i
  {
    if i == 0 {
      draws := [];
      OnlyOneLeft(s, goal);
    } else {
      var d := WhereItComesFrom(s, i, goal);
      var next := Swapped(s, i, d);
      SwapPermutes(s, i, d);
      var rest := ArrangementIsReached(next, i - 1, goal);
      draws := [d] + rest;
      assert draws[1..] == rest;
    }
  }

  /** The element that belongs at `i` is not behind it. */
  lemma WhereItComesFrom<T(!new)>(s: seq<T>, i: nat, goal: seq<T>) returns (d: nat)
    requires Distinct(s) && i < |s| && multiset(goal) == multiset(s)
    requires |goal| == |s| && forall k | i < k < |s| :: goal[k] == s[k]
    ensures d <= i && s[d] == goal[i]
  {
    assert goal[i] in multiset(goal);
    assert goal[i] in s;
    d :| d < |s| && s[d] == goal[i];
    if d > i {
      DistinctPositions(goal, d, i);
      assert false;
    }
  }

  lemma OnlyOneLeft<T>(s: seq<T>, goal: seq<T>)
    requires multiset(goal) == multiset(s) && |goal| == |s|
    requires forall k | 0 < k < |s| :: goal[k] == s[k]
    ensures goal == s
  {
    if s != [] {
      assert s == [s[0]] + s[1..] && goal == [goal[0]] + goal[1..] && s[1..] == goal[1..];
      var rest := multiset(s[1..]);
      assert multiset(s)[s[0]] == 1 + rest[s[0]];
      assert multiset(goal)[s[0]] == (if goal[0] == s[0] then 1 else 0) + rest[s[0]];
    }
  }

  /** For distinct elements, the draws and the arrangements correspond one to one. */
  lemma {:induction false} ShuffleIsABijection<T(!new)>(s: seq<T>)
    requires Distinct(s)
    ensures forall ds | Draws(LastIndex(|s|), ds) ::
              multiset(Shuffled(s, LastIndex(|s|), ds)) == multiset(s)
    ensures forall ds, es | Draws(LastIndex(|s|), ds) && Draws(LastIndex(|s|), es) ::
              Shuffled(s, LastIndex(|s|), ds) == Shuffled(s, LastIndex(|s|), es) ==> ds == es
    ensures forall goal: seq<T> | Arranges(goal, s) ::
              exists ds :: Draws(LastIndex(|s|), ds) && Shuffled(s, LastIndex(|s|), ds) == goal
  {
    var n := LastIndex(|s|);
    forall ds | Draws(n, ds) ensures multiset(Shuffled(s, n, ds)) == multiset(s) {
      ShuffledPermutes(s, n, ds);
    }
    forall ds, es | Draws(n, ds) && Draws(n, es)
      ensures Shuffled(s, n, ds) == Shuffled(s, n, es) ==> ds == es
    {
      if Shuffled(s, n, ds) == Shuffled(s, n, es) {
        DrawsAreDetermined(s, n, ds, es);
      }
    }
    forall goal: seq<T> | Arranges(goal, s)
      ensures exists ds :: Draws(n, ds) && Shuffled(s, n, ds) == goal
    {
      assert |goal| == |multiset(goal)| == |multiset(s)| == |s|;
      var ds := ArrangementIsReached(s, n, goal);
    }
  }

  // ----- The routine, in place

  method SwapInPlace<T>(a: array<T>, i: nat, j: nat)
    requires i < a.Length && j < a.Length
    modifies a
    ensures a[..] == Swapped(old(a[..]), i, j)
  {
    a[i], a[j] := a[j], a[i];
  }

  /** The draws that a generator's words give rise to. */
  datatype Positions = Positions(draws: seq<nat>, rest: seq<nat>) | ScriptEnds

  function PositionsFrom(w: Words, t: IntType, i: nat, words: seq<nat>): (r: Positions)
    requires w.Valid() && t.Valid() && t.Holds(0) && t.Holds(i) && w.Makes(words)
    ensures r.Positions? ==> Draws(i, r.draws) && w.Makes(r.rest)
    decreases i
  {
    if i == 0 then Positions([], words)
    else
      match Uniform(w, t, 0, i, words)
      case Exhausted => ScriptEnds
      case Drawn(v, rest) =>
        PositionInRange(w, t, i, words);
        match PositionsFrom(w, t, i - 1, rest)
        case ScriptEnds => ScriptEnds
        case Positions(draws, end) => Positions([v] + draws, end)
  }

  lemma {:induction false} PositionInRange(w: Words, t: IntType, i: nat, words: seq<nat>)
    requires w.Valid() && t.Valid() && t.Holds(0) && t.Holds(i) && w.Makes(words)
    requires Uniform(w, t, 0, i, words).Drawn?
    ensures 0 <= Uniform(w, t, 0, i, words).value <= i
  {
    var _ := DrawnByAttempt(w, t, 0, i, words);
  }

  /** Every list of draws is made, if the generator makes the right words. */
  lemma {:induction false} DrawsAreMade(w: Words, t: IntType, i: nat, draws: seq<nat>) returns (words: seq<nat>)
    requires w.Valid() && t.Valid() && t.Holds(0) && t.Holds(i) && i < w.modulus && Draws(i, draws)
    ensures w.Makes(words) && PositionsFrom(w, t, i, words) == Positions(draws, [])
    decreases i
  {
    if i == 0 {
      words := [];
      assert draws == [];
    } else {
      var rest := DrawsAreMade(w, t, i - 1, draws[1..]);
      var first := WordsFor(w, t, 0, i, draws[0], rest);
      words := first + rest;
      assert [draws[0]] + draws[1..] == draws;
    }
  }

  /** The generator's words shuffle `s` into `goal`. */
  ghost predicate ShufflesInto<T(!new)>(w: Words, t: IntType, words: seq<nat>, s: seq<T>, goal: seq<T>)
    requires w.Valid() && t.Valid() && t.Holds(0) && t.Holds(LastIndex(|s|)) && w.Makes(words)
  {
    var p := PositionsFrom(w, t, LastIndex(|s|), words);
    p.Positions? && Shuffled(s, LastIndex(|s|), p.draws) == goal
  }

  /** No arrangement is out of reach: for each there are words that shuffle into it. */
  lemma EveryArrangementIsShuffled<T(!new)>(w: Words, t: IntType, s: seq<T>, goal: seq<T>)
    requires w.Valid() && t.Valid() && t.Holds(0) && t.Holds(LastIndex(|s|)) && LastIndex(|s|) < w.modulus
    requires Distinct(s) && Arranges(goal, s)
    ensures exists words :: w.Makes(words) && ShufflesInto(w, t, words, s, goal)
  {
    var n := LastIndex(|s|);
    ShuffleIsABijection(s);
    var draws :| Draws(n, draws) && Shuffled(s, n, draws) == goal;
    var words := DrawsAreMade(w, t, n, draws);
    assert ShufflesInto(w, t, words, s, goal);
  }

  method DrawPosition(g: Generator, t: IntType, i: nat) returns (r: Option<nat>)
    requires g.Valid() && t.Valid() && t.Holds(0) && t.Holds(i) && i > 0
    modifies g
    ensures g.Valid()
    ensures r.Some? ==> r.value <= i
    ensures match r
            case None => PositionsFrom(g.kind, t, i, old(g.words)) == ScriptEnds
            case Some(v) =>
              PositionsFrom(g.kind, t, i, old(g.words)) ==
              Prepended(v, PositionsFrom(g.kind, t, i - 1, g.words))
  {
    ghost var words := g.words;
    var drawn := g.DrawUniform(t, 0, i);
    if drawn == None {
      return None;
    }
    PositionInRange(g.kind, t, i, words);
    r := Some(drawn.value);
  }

  /** One round: the element at `i` changes places with one at a drawn position. */
  method SwapWithDrawn<T>(a: array<T>, g: Generator, t: IntType, i: nat) returns (r: Option<nat>)
    requires g.Valid() && t.Valid() && t.Holds(0) && t.Holds(i) && 0 < i < a.Length
    modifies a, g
    ensures g.Valid()
    ensures r.Some? ==> r.value <= i && a[..] == Swapped(old(a[..]), i, r.value)
    ensures r == None ==> a[..] == old(a[..])
    ensures match r
            case None => PositionsFrom(g.kind, t, i, old(g.words)) == ScriptEnds
            case Some(v) =>
              PositionsFrom(g.kind, t, i, old(g.words)) ==
              Prepended(v, PositionsFrom(g.kind, t, i - 1, g.words))
  {
    r := DrawPosition(g, t, i);
    if r.Some? {
      SwapInPlace(a, i, r.value);
    }
  }

  function Prepended(v: nat, p: Positions): Positions {
    match p
    case ScriptEnds => ScriptEnds
    case Positions(draws, rest) => Positions([v] + draws, rest)
  }

  /** `draws` followed by the draws in `p`. */
  function After(draws: seq<nat>, p: Positions): Positions {
    match p
    case ScriptEnds => ScriptEnds
    case Positions(more, rest) => Positions(draws + more, rest)
  }

  lemma AfterNone(p: Positions)
    ensures After([], p) == p
  {
    if p.Positions? {
      assert [] + p.draws == p.draws;
    }
  }

  lemma AfterAll(draws: seq<nat>, rest: seq<nat>)
    ensures After(draws, Positions([], rest)) == Positions(draws, rest)
  {
    assert draws + [] == draws;
  }

  lemma AfterPrepended(draws: seq<nat>, v: nat, p: Positions)
    ensures After(draws, Prepended(v, p)) == After(draws + [v], p)
  {
    if p.Positions? {
      assert draws + ([v] + p.draws) == draws + [v] + p.draws;
    }
  }

  /** Shuffles by the draws that the generator's words determine; `done` is false when its script
      ends early, and even then no element is lost. */
  method ShuffleInPlace<T>(a: array<T>, g: Generator, t: IntType) returns (done: bool)
    requires g.Valid() && t.Valid() && t.Holds(0) && t.Holds(a.Length)
    modifies a, g
    ensures g.Valid()
    ensures multiset(a[..]) == multiset(old(a[..]))
    ensures match PositionsFrom(g.kind, t, LastIndex(a.Length), old(g.words))
            case ScriptEnds => !done
            case Positions(draws, rest) =>
              done && g.words == rest && a[..] == Shuffled(old(a[..]), LastIndex(a.Length), draws)
  {
    ghost var start, n := a[..], LastIndex(a.Length);
    ghost var draws;
    done, draws := SwapFromTheEnd(a, g, t);
    ShuffledPermutes(start, n, draws);
  }

  /** The loop, and the draws it has made when it ends. */
  method SwapFromTheEnd<T>(a: array<T>, g: Generator, t: IntType) returns (done: bool, ghost draws: seq<nat>)
    requires g.Valid() && t.Valid() && t.Holds(0) && t.Holds(a.Length)
    modifies a, g
    ensures g.Valid() && SomeDraws(LastIndex(a.Length), draws)
    ensures a[..] == Shuffled(old(a[..]), LastIndex(a.Length), draws)
    ensures PositionsFrom(g.kind, t, LastIndex(a.Length), old(g.words)) ==
            if done then Positions(draws, g.words) else ScriptEnds
  {
    var i := LastIndex(a.Length);  // -1 in the program when the range is empty: no round either
    draws := [];
    ghost var n, start := i, a[..];
    ghost var all := PositionsFrom(g.kind, t, n, g.words);
    AfterNone(all);
    while i > 0
      invariant i <= n && g.Valid()
      invariant SomeDraws(n, draws) && |draws| == n - i
      invariant a[..] == Shuffled(start, n, draws)
      invariant all == After(draws, PositionsFrom(g.kind, t, i, g.words))
    {
      var j := SwapWithDrawn(a, g, t, i);
      if j == None {
        return false, draws;
      }
      OneMoreDraw(start, n, draws, j.value);
      AfterPrepended(draws, j.value, PositionsFrom(g.kind, t, i - 1, g.words));
      draws := draws + [j.value];
      i := i - 1;
    }
    done := true;
    AfterAll(draws, g.words);
  }
}
