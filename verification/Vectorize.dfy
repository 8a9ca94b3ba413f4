/** Adding and subtracting numbers, chords and nested collections. */
module Vectorize {
  import opened Arithmetic
  import opened Music
  import opened Wrappers

  /** Program values as the operators see them.  A collection is what indexing it gives, position
      by position: an array its elements, a block whatever its code evaluates to, which may be a
      failure.  `Other` are values that no operator here supports. */
  datatype Value =
    | Num(n: real)
    | Notes(chord: Chord)
    | Collection(items: seq<Answer<Value>>)
    | Other

  /** `Failed` is an error from the code of a block; `Ended` ends the program itself. */
  datatype Answer<T> = Fine(value: T) | Unsupported | Failed | Ended

  /** The same failure where another type is wanted. */
  function Failure<T, U>(r: Answer<T>): (f: Answer<U>)
    requires !r.Fine?
    ensures !f.Fine?
  {
    match r
    case Unsupported => Unsupported
    case Failed => Failed
    case Ended => Ended
  }

  datatype Op = Plus | Minus

  function Compute(op: Op, a: real, b: real): real {
    if op == Plus then a + b else a - b
  }

  // ----- Moving notes

  /** Division and remainder as the program's integers have them: towards zero. */
  function Quotient12(n: int): int {
    if n >= 0 then n / 12 else -((-n) / 12)
  }

  function Remainder12(n: int): int {
    n - 12 * Quotient12(n)
  }

  function Clamp(n: int, low: int, high: int): int {
    if n < low then low else if n > high then high else n
  }

  function Simplified(n: Note): Note {
    if n.base.Some? && n.octave.Some? then
      var rest := Remainder12(n.base.value);
      n.(octave := Some(Clamp(n.octave.value + Quotient12(n.base.value), -1, 9)),
         base := Some(if rest < 0 then 12 + rest else rest))
    else n
  }

  /** The semitone a note stands for, where `octave` is used if it has none. */
  function Pitch(n: Note, octave: int): int
    requires n.base.Some?
  {
    ((if n.octave.Some? then n.octave.value else octave) + 1) * 12 + n.base.value
  }

  function MoveNote(op: Op, n: Note, k: int): (r: Note)
    ensures r.base.Some? <==> n.base.Some?
  {
    if n.base.None? then n
    else Simplified(n.(base := Some(if op == Plus then n.base.value + k else n.base.value - k)))
  }

  /** How far a note ought to move. */
  function Signed(op: Op, k: int): int {
    if op == Plus then k else -k
  }

  /** A note moves by exactly `k` semitones if it has no octave, or if its octave stays in range
      and the moved base is not negative, or is a whole number of octaves below.  Other notes that
      move down past their octave end up an octave too high, which is right only for those that
      start above the range. */
  lemma MovesExactlyWhen(op: Op, n: Note, k: int, octave: int)
    requires n.base.Some?
    ensures var base := n.base.value + Signed(op, k);
            Pitch(MoveNote(op, n, k), octave) == Pitch(n, octave) + Signed(op, k)
            <==>
            || n.octave.None?
            || (if base >= 0 || base % 12 == 0 then -1 <= n.octave.value + Quotient12(base) <= 9
                else n.octave.value + Quotient12(base) == 10)
  {
    var base := n.base.value + Signed(op, k);
    assert (-base) % 12 == 0 <==> base % 12 == 0;
  }

  /** Where the moved note stays in range but its base is below zero, and no whole number of octaves
      is, the note comes out one octave too high. */
  lemma OctaveTooHigh(op: Op, n: Note, k: int)
    requires n.base.Some? && n.octave.Some?
    ensures var base := n.base.value + Signed(op, k);
            base < 0 && base % 12 != 0 && -1 <= n.octave.value + Quotient12(base) <= 9 ==>
              Pitch(MoveNote(op, n, k), 0) == Pitch(n, 0) + Signed(op, k) + 12
  {
    var base := n.base.value + Signed(op, k);
    if base < 0 && base % 12 != 0 {
      BelowZero(base);
    }
  }

  lemma BelowZero(base: int)
    requires base < 0 && base % 12 != 0
    ensures -12 < Remainder12(base) < 0 && base == 12 * Quotient12(base) + Remainder12(base)
  {
  }

  /** Whatever the move, a note with an octave ends on one of twelve semitones of an octave in range. */
  lemma MovedIntoRange(op: Op, n: Note, k: int)
    requires n.base.Some? && n.octave.Some?
    ensures var m := MoveNote(op, n, k);
            0 <= m.base.value < 12 && m.octave.Some? && -1 <= m.octave.value <= 9 && m.length == n.length
    ensures var m := MoveNote(op, n, k);
            (m.base.value - n.base.value - Signed(op, k)) % 12 == 0
  {
  }

  /** One semitone below c4 is b4. */
  lemma DownFromC4()
    ensures MoveNote(Minus, Note(Some(0), Some(4), None), 1) == Note(Some(11), Some(4), None)
  {
  }

  predicate IsWhole(k: real) {
    k.Floor as real == k
  }

  predicate HasBase(c: Chord) {
    exists i :: 0 <= i < |c| && c[i].base.Some?
  }

  function MoveAll(op: Op, c: Chord, k: int): (r: Chord)
    ensures |r| == |c| && forall i | 0 <= i < |c| :: r[i] == MoveNote(op, c[i], k)
  {
    if c == [] then [] else MoveAll(op, c[..|c| - 1], k) + [MoveNote(op, c[|c| - 1], k)]
  }

  /** The program insists on a whole number of semitones, if there is a note to move. */
  function MoveChord(op: Op, c: Chord, k: real): Answer<Value> {
    if HasBase(c) && !IsWhole(k) then Ended else Fine(Notes(MoveAll(op, c, k.Floor)))
  }

  /** Note by note, in place. */
  method MoveNotes(op: Op, chord: Chord, k: real) returns (r: Answer<Value>)
    ensures r == MoveChord(op, chord, k)
  {
    var c := chord;
    for i := 0 to |c|
      invariant |c| == |chord|
      invariant forall j | 0 <= j < i :: c[j] == MoveNote(op, chord[j], k.Floor)
      invariant forall j | i <= j < |c| :: c[j] == chord[j]
      invariant IsWhole(k) || forall j | 0 <= j < i :: chord[j].base.None?
    {
      if c[i].base.Some? {
        if !IsWhole(k) {
          assert HasBase(chord);
          return Ended;
        }
        c := c[i := MoveNote(op, c[i], k.Floor)];
      }
    }
    assert c == MoveAll(op, chord, k.Floor);
    r := Fine(Notes(c));
  }

  // ----- Arrays

  function AllFine(vs: seq<Value>): (items: seq<Answer<Value>>)
    ensures |items| == |vs| && forall i | 0 <= i < |vs| :: items[i] == Fine(vs[i])
  {
    if vs == [] then [] else AllFine(Front(vs)) + [Fine(Last(vs))]
  }

  function ArrayOf(vs: seq<Value>): Value {
    Collection(AllFine(vs))
  }

  function Front<T>(s: seq<T>): (r: seq<T>)
    requires s != []
    ensures |r| < |s|
  {
    s[..|s| - 1]
  }

  function Last<T>(s: seq<T>): T
    requires s != []
  {
    s[|s| - 1]
  }

  lemma {:induction false} AllFineAppend(vs: seq<Value>, v: Value)
    ensures AllFine(vs + [v]) == AllFine(vs) + [Fine(v)]
  {
    assert Front(vs + [v]) == vs;
  }

  // ----- The operators

  /** Two operands, neither of which is a collection.  A chord and a number are taken in that
      order. */
  function Scalars(op: Op, a: Value, b: Value): (r: Answer<Value>)
    ensures r.Fine? ==> !r.value.Collection?
  {
    match (a, b)
    case (Num(x), Num(y)) => Fine(Num(Compute(op, x, y)))
    case (Notes(c), Num(k)) => MoveChord(op, c, k)
    case (Num(k), Notes(c)) => MoveChord(op, c, k)
    case _ => Unsupported
  }

  function Apply(op: Op, a: Value, b: Value): Answer<Value>
    decreases a, b, 0
  {
    if a.Collection? && !b.Collection? then Wrap(EachLeft(op, a.items, b))
    else if !a.Collection? && b.Collection? then Wrap(EachRight(op, a, b.items))
    else if a.Collection? then Unsupported
    else Scalars(op, a, b)
  }

  function Wrap(r: Answer<seq<Value>>): Answer<Value> {
    if r.Fine? then Fine(ArrayOf(r.value)) else Failure(r)
  }

  /** Every item with the other operand, up to the first that fails. */
  function EachLeft(op: Op, items: seq<Answer<Value>>, b: Value): (r: Answer<seq<Value>>)
    requires !b.Collection?
    ensures r.Fine? ==> |r.value| == |items|
    decreases items, b, 0
  {
    if items == [] then Fine([]) else Then(EachLeft(op, Front(items), b), ItemLeft(op, Last(items), b))
  }

  function ItemLeft(op: Op, item: Answer<Value>, b: Value): Answer<Value>
    requires !b.Collection?
    decreases item, b, 0
  {
    if item.Fine? then Apply(op, item.value, b) else item
  }

  function EachRight(op: Op, a: Value, items: seq<Answer<Value>>): (r: Answer<seq<Value>>)
    requires !a.Collection?
    ensures r.Fine? ==> |r.value| == |items|
    decreases a, items, 0
  {
    if items == [] then Fine([]) else Then(EachRight(op, a, Front(items)), ItemRight(op, a, Last(items)))
  }

  function ItemRight(op: Op, a: Value, item: Answer<Value>): Answer<Value>
    requires !a.Collection?
    decreases a, item, 0
  {
    if item.Fine? then Apply(op, a, item.value) else item
  }

  /** One more value, unless something failed. */
  function Then(front: Answer<seq<Value>>, item: Answer<Value>): (r: Answer<seq<Value>>)
    ensures r.Fine? <==> front.Fine? && item.Fine?
    ensures r.Fine? ==> r.value == front.value + [item.value]
  {
    if !front.Fine? then front
    else if !item.Fine? then Failure(item)
    else Fine(front.value + [item.value])
  }

  /** All arguments from the left; the first failure is the answer. */
  function Fold(op: Op, args: seq<Value>): Answer<Value> {
    if args == [] then Fine(Num(0.0))
    else if |args| == 1 then Fine(args[0])
    else
      var front := Fold(op, Front(args));
      if front.Fine? then Apply(op, front.value, Last(args)) else front
  }

  // ----- Flattening

  /** The leaves of nested collections, unless indexing fails somewhere. */
  function DeepFlat(items: seq<Answer<Value>>): (r: Answer<seq<Value>>)
    ensures r.Fine? ==> forall i | 0 <= i < |r.value| :: !r.value[i].Collection?
    decreases items, 0
  {
    if items == [] then Fine([]) else Joined(DeepFlat(Front(items)), Leaves(Last(items)))
  }

  function Leaves(item: Answer<Value>): (r: Answer<seq<Value>>)
    ensures r.Fine? ==> forall i | 0 <= i < |r.value| :: !r.value[i].Collection?
    decreases item, 1
  {
    if !item.Fine? then Failure(item)
    else if item.value.Collection? then DeepFlat(item.value.items)
    else Fine([item.value])
  }

  /** Two lists, one after the other. */
  function Joined(a: Answer<seq<Value>>, b: Answer<seq<Value>>): Answer<seq<Value>> {
    if !a.Fine? then a
    else if !b.Fine? then b
    else Fine(a.value + b.value)
  }

  /** A list without collections is as it was, lists are flattened one after the other, and of a
      collection is left what it holds. */
  lemma {:induction false} FlattenReadsInOrder(vs: seq<Value>, a: seq<Answer<Value>>, b: seq<Answer<Value>>)
    ensures (forall i | 0 <= i < |vs| :: !vs[i].Collection?) ==> DeepFlat(AllFine(vs)) == Fine(vs)
    ensures DeepFlat(a + b) == Joined(DeepFlat(a), DeepFlat(b))
    ensures DeepFlat([Fine(Collection(a))]) == DeepFlat(a)
  {
    FlatOfBoth(a, b);
    if forall i | 0 <= i < |vs| :: !vs[i].Collection? {
      FlatIsItself(vs);
    }
    var item: Answer<Value> := Fine(Collection(a));
    assert Front([item]) == [] && DeepFlat([item]) == Joined(DeepFlat(Front([item])), Leaves(item));
    if DeepFlat(a).Fine? {
      assert [] + DeepFlat(a).value == DeepFlat(a).value;
    }
  }

  lemma {:induction false} FlatIsItself(vs: seq<Value>)
    requires forall i | 0 <= i < |vs| :: !vs[i].Collection?
    ensures DeepFlat(AllFine(vs)) == Fine(vs)
  {
    if vs != [] {
      var n := |vs| - 1;
      FlatIsItself(vs[..n]);
      assert Front(AllFine(vs)) == AllFine(vs[..n]);
      assert vs[..n] + [vs[n]] == vs;
    }
  }

  lemma {:induction false} FlatOfBoth(a: seq<Answer<Value>>, b: seq<Answer<Value>>)
    ensures DeepFlat(a + b) == Joined(DeepFlat(a), DeepFlat(b))
    decreases |b|
  {
    if b == [] {
      JoinedNothing(DeepFlat(a));
      assert a + b == a;
    } else {
      FlatOfBoth(a, Front(b));
      assert Front(a + b) == a + Front(b);
      JoinedTwice(DeepFlat(a), DeepFlat(Front(b)), Leaves(Last(b)));
    }
  }

  lemma JoinedTwice(a: Answer<seq<Value>>, b: Answer<seq<Value>>, c: Answer<seq<Value>>)
    ensures Joined(Joined(a, b), c) == Joined(a, Joined(b, c))
  {
    if a.Fine? && b.Fine? && c.Fine? {
      assert a.value + b.value + c.value == a.value + (b.value + c.value);
    }
  }

  /** Flattening a list of results. */
  function Flat(r: Answer<seq<Value>>): Answer<seq<Value>> {
    if r.Fine? then DeepFlat(AllFine(r.value)) else r
  }

  lemma JoinedThen(a: Answer<seq<Value>>, b: Answer<seq<Value>>, item: Answer<Value>)
    ensures Then(Joined(a, b), item) == Joined(a, Then(b, item))
  {
    if a.Fine? && b.Fine? && item.Fine? {
      assert a.value + b.value + [item.value] == a.value + (b.value + [item.value]);
    }
  }

  lemma JoinedNothing(a: Answer<seq<Value>>)
    ensures Joined(a, Fine([])) == a
  {
    if a.Fine? {
      assert a.value + [] == a.value;
    }
  }

  lemma {:induction false} EachLeftOfBoth(op: Op, s: seq<Answer<Value>>, t: seq<Answer<Value>>, b: Value)
    requires !b.Collection?
    ensures EachLeft(op, s + t, b) == Joined(EachLeft(op, s, b), EachLeft(op, t, b))
    decreases |t|
  {
    if t == [] {
      assert s + t == s;
      JoinedNothing(EachLeft(op, s, b));
    } else {
      assert Front(s + t) == s + Front(t) && Last(s + t) == Last(t);
      EachLeftOfBoth(op, s, Front(t), b);
      JoinedThen(EachLeft(op, s, b), EachLeft(op, Front(t), b), ItemLeft(op, Last(t), b));
    }
  }

  lemma {:induction false} EachRightOfBoth(op: Op, a: Value, s: seq<Answer<Value>>, t: seq<Answer<Value>>)
    requires !a.Collection?
    ensures EachRight(op, a, s + t) == Joined(EachRight(op, a, s), EachRight(op, a, t))
    decreases |t|
  {
    if t == [] {
      assert s + t == s;
      JoinedNothing(EachRight(op, a, s));
    } else {
      assert Front(s + t) == s + Front(t) && Last(s + t) == Last(t);
      EachRightOfBoth(op, a, s, Front(t));
      JoinedThen(EachRight(op, a, s), EachRight(op, a, Front(t)), ItemRight(op, a, Last(t)));
    }
  }

  lemma {:induction false} FlatThen(front: Answer<seq<Value>>, item: Answer<Value>)
    requires front.Fine? ==> Flat(front).Fine?
    ensures Flat(Then(front, item)) == Joined(Flat(front), Leaves(item))
  {
    if front.Fine? && item.Fine? {
      AllFineAppend(front.value, item.value);
      var items := AllFine(front.value) + [Fine(item.value)];
      assert Front(items) == AllFine(front.value) && Last(items) == item;
    }
  }

  lemma {:induction false} AllFineOfBoth(s: seq<Value>, t: seq<Value>)
    ensures AllFine(s + t) == AllFine(s) + AllFine(t)
    decreases |t|
  {
    if t == [] {
      assert s + t == s;
    } else {
      assert Front(s + t) == s + Front(t);
      AllFineOfBoth(s, Front(t));
    }
  }

  /** Results can always be flattened: nothing in them is left to fail. */
  lemma {:induction false} ResultsFlatten(op: Op, items: seq<Answer<Value>>, other: Value)
    requires !other.Collection?
    ensures EachLeft(op, items, other).Fine? ==> Flat(EachLeft(op, items, other)).Fine?
    ensures EachRight(op, other, items).Fine? ==> Flat(EachRight(op, other, items)).Fine?
    decreases items, 0
  {
    if items != [] {
      var front, last := Front(items), Last(items);
      ResultsFlatten(op, front, other);
      ResultFlattens(op, last, other);
      FlatThen(EachLeft(op, front, other), ItemLeft(op, last, other));
      FlatThen(EachRight(op, other, front), ItemRight(op, other, last));
    }
  }

  lemma {:induction false} ResultFlattens(op: Op, item: Answer<Value>, other: Value)
    requires !other.Collection?
    ensures ItemLeft(op, item, other).Fine? ==> Leaves(ItemLeft(op, item, other)).Fine?
    ensures ItemRight(op, other, item).Fine? ==> Leaves(ItemRight(op, other, item)).Fine?
    decreases item, 1
  {
    if item.Fine? && item.value.Collection? {
      ResultsFlatten(op, item.value.items, other);
      LeavesOfWrapped(EachLeft(op, item.value.items, other));
      LeavesOfWrapped(EachRight(op, other, item.value.items));
    }
  }

  lemma LeavesOfWrapped(r: Answer<seq<Value>>)
    ensures Leaves(Wrap(r)) == Flat(r)
  {
  }

  lemma ThenAlone(item: Answer<Value>)
    ensures Then(Fine([]), item) == if item.Fine? then Fine([item.value]) else Failure(item)
  {
    if item.Fine? {
      assert [] + [item.value] == [item.value];
    }
  }

  lemma {:induction false} EachOfOne(op: Op, leaf: Value, other: Value)
    requires !other.Collection?
    ensures EachLeft(op, AllFine([leaf]), other) == Then(Fine([]), Apply(op, leaf, other))
    ensures EachRight(op, other, AllFine([leaf])) == Then(Fine([]), Apply(op, other, leaf))
  {
    assert [leaf] == [] + [leaf];
    AllFineAppend([], leaf);
    var items := AllFine([leaf]);
    assert items == [Fine(leaf)];
    assert Front(items) == [] && Last(items) == Fine(leaf);
  }

  lemma {:induction false} OneLeaf(op: Op, leaf: Value, other: Value)
    requires !leaf.Collection? && !other.Collection?
    ensures Leaves(Scalars(op, leaf, other)) == EachLeft(op, AllFine([leaf]), other)
    ensures Leaves(Scalars(op, other, leaf)) == EachRight(op, other, AllFine([leaf]))
  {
    EachOfOne(op, leaf, other);
    ThenAlone(Scalars(op, leaf, other));
    ThenAlone(Scalars(op, other, leaf));
  }

  /** Operating on a nested collection and flattening the results is the same as flattening it and
      operating on its leaves, also where an operation fails.  Where indexing fails, so does the
      operation. */
  lemma {:induction false} CommutesWithFlattening(op: Op, items: seq<Answer<Value>>, other: Value)
    requires !other.Collection?
    ensures var flat := DeepFlat(items);
            if flat.Fine? then
              && Flat(EachLeft(op, items, other)) == EachLeft(op, AllFine(flat.value), other)
              && Flat(EachRight(op, other, items)) == EachRight(op, other, AllFine(flat.value))
            else
              !EachLeft(op, items, other).Fine? && !EachRight(op, other, items).Fine?
    decreases items, 0
  {
    if items != [] {
      var front, last := Front(items), Last(items);
      CommutesWithFlattening(op, front, other);
      LeafCommutes(op, last, other);
      ResultsFlatten(op, front, other);
      FlatThen(EachLeft(op, front, other), ItemLeft(op, last, other));
      FlatThen(EachRight(op, other, front), ItemRight(op, other, last));
      if DeepFlat(items).Fine? {
        var f, l := DeepFlat(front).value, Leaves(last).value;
        AllFineOfBoth(f, l);
        EachLeftOfBoth(op, AllFine(f), AllFine(l), other);
        EachRightOfBoth(op, other, AllFine(f), AllFine(l));
      }
    }
  }

  lemma {:induction false} LeafCommutes(op: Op, item: Answer<Value>, other: Value)
    requires !other.Collection?
    ensures var flat := Leaves(item);
            if flat.Fine? then
              && Leaves(ItemLeft(op, item, other)) == EachLeft(op, AllFine(flat.value), other)
              && Leaves(ItemRight(op, other, item)) == EachRight(op, other, AllFine(flat.value))
            else
              !ItemLeft(op, item, other).Fine? && !ItemRight(op, other, item).Fine?
    decreases item, 1
  {
    if item.Fine? {
      if item.value.Collection? {
        CommutesWithFlattening(op, item.value.items, other);
        LeavesOfWrapped(EachLeft(op, item.value.items, other));
        LeavesOfWrapped(EachRight(op, other, item.value.items));
      } else {
        OneLeaf(op, item.value, other);
      }
    }
  }

  // ----- Shape

  predicate SameShape(a: Value, b: Value)
    decreases a
  {
    if a.Collection? then
      && b.Collection? && |a.items| == |b.items|
      && forall i | 0 <= i < |a.items| ::
           a.items[i].Fine? && b.items[i].Fine? && SameShape(a.items[i].value, b.items[i].value)
    else !b.Collection?
  }

  /** Item by item; what fails is the first item that does. */
  ghost predicate IsPointwise(items: seq<Answer<Value>>, f: Answer<Value> -> Answer<Value>, r: Answer<seq<Value>>) {
    if r.Fine? then
      |r.value| == |items| && forall i | 0 <= i < |items| :: f(items[i]) == Fine(r.value[i])
    else
      exists i :: 0 <= i < |items| && FailsFirst(items, f, i) && r == Failure(f(items[i]))
  }

  ghost predicate FailsFirst(items: seq<Answer<Value>>, f: Answer<Value> -> Answer<Value>, i: int)
    requires 0 <= i < |items|
  {
    !f(items[i]).Fine? && forall j | 0 <= j < i :: f(items[j]).Fine?
  }

  function WithRight(op: Op, b: Value): Answer<Value> -> Answer<Value> {
    (item: Answer<Value>) => if item.Fine? then Apply(op, item.value, b) else item
  }

  function WithLeft(op: Op, a: Value): Answer<Value> -> Answer<Value> {
    (item: Answer<Value>) => if item.Fine? then Apply(op, a, item.value) else item
  }

  lemma PointwiseThen(items: seq<Answer<Value>>, f: Answer<Value> -> Answer<Value>, front: Answer<seq<Value>>)
    requires items != [] && IsPointwise(Front(items), f, front)
    ensures IsPointwise(items, f, Then(front, f(Last(items))))
  {
    var n := |items| - 1;
    assert forall i | 0 <= i < n :: items[i] == Front(items)[i];
    if front.Fine? {
      if !f(items[n]).Fine? {
        assert FailsFirst(items, f, n);
      }
    } else {
      var i :| 0 <= i < n && FailsFirst(Front(items), f, i) && front == Failure(f(Front(items)[i]));
      assert FailsFirst(items, f, i);
    }
  }

  lemma {:induction false} EachLeftIsPointwise(op: Op, items: seq<Answer<Value>>, b: Value)
    requires !b.Collection?
    ensures IsPointwise(items, WithRight(op, b), EachLeft(op, items, b))
    decreases |items|
  {
    if items != [] {
      EachLeftIsPointwise(op, Front(items), b);
      assert WithRight(op, b)(Last(items)) == ItemLeft(op, Last(items), b);
      PointwiseThen(items, WithRight(op, b), EachLeft(op, Front(items), b));
    }
  }

  lemma {:induction false} EachRightIsPointwise(op: Op, a: Value, items: seq<Answer<Value>>)
    requires !a.Collection?
    ensures IsPointwise(items, WithLeft(op, a), EachRight(op, a, items))
    decreases |items|
  {
    if items != [] {
      EachRightIsPointwise(op, a, Front(items));
      assert WithLeft(op, a)(Last(items)) == ItemRight(op, a, Last(items));
      PointwiseThen(items, WithLeft(op, a), EachRight(op, a, Front(items)));
    }
  }

  lemma {:induction false} LeftPoint(op: Op, v: Value, other: Value, i: nat)
    requires v.Collection? && !other.Collection? && i < |v.items| && Apply(op, v, other).Fine?
    ensures var r := Apply(op, v, other).value;
            && r.Collection? && |r.items| == |v.items|
            && v.items[i].Fine? && r.items[i] == Apply(op, v.items[i].value, other) && r.items[i].Fine?
  {
    EachLeftIsPointwise(op, v.items, other);
    assert WithRight(op, other)(v.items[i]) == ItemLeft(op, v.items[i], other);
  }

  lemma {:induction false} RightPoint(op: Op, v: Value, other: Value, i: nat)
    requires v.Collection? && !other.Collection? && i < |v.items| && Apply(op, other, v).Fine?
    ensures var r := Apply(op, other, v).value;
            && r.Collection? && |r.items| == |v.items|
            && v.items[i].Fine? && r.items[i] == Apply(op, other, v.items[i].value) && r.items[i].Fine?
  {
    EachRightIsPointwise(op, other, v.items);
    assert WithLeft(op, other)(v.items[i]) == ItemRight(op, other, v.items[i]);
  }

  /** A collection operated on with anything else keeps its shape, whatever is in it. */
  lemma {:induction false} ShapeIsKept(op: Op, v: Value, other: Value)
    requires !other.Collection?
    ensures Apply(op, v, other).Fine? ==> SameShape(v, Apply(op, v, other).value)
    decreases v
  {
    if v.Collection? && Apply(op, v, other).Fine? {
      var r := Apply(op, v, other).value;
      forall i | 0 <= i < |v.items|
        ensures |r.items| == |v.items| && v.items[i].Fine? && r.items[i].Fine?
        ensures SameShape(v.items[i].value, r.items[i].value)
      {
        LeftPoint(op, v, other, i);
        ShapeIsKept(op, v.items[i].value, other);
      }
    }
  }

  lemma {:induction false} ShapeIsKeptOnTheRight(op: Op, v: Value, other: Value)
    requires !other.Collection?
    ensures Apply(op, other, v).Fine? ==> SameShape(v, Apply(op, other, v).value)
    decreases v
  {
    if v.Collection? && Apply(op, other, v).Fine? {
      var r := Apply(op, other, v).value;
      forall i | 0 <= i < |v.items|
        ensures |r.items| == |v.items| && v.items[i].Fine? && r.items[i].Fine?
        ensures SameShape(v.items[i].value, r.items[i].value)
      {
        RightPoint(op, v, other, i);
        ShapeIsKeptOnTheRight(op, v.items[i].value, other);
      }
    }
  }

  // ----- Collections of numbers

  predicate IsNumeric(v: Value) {
    v.Num? || (v.Collection? && forall i | 0 <= i < |v.items| :: v.items[i].Fine? && IsNumeric(v.items[i].value))
  }

  lemma {:induction false} NumericWorks(op: Op, v: Value, k: real)
    requires IsNumeric(v)
    ensures Apply(op, v, Num(k)).Fine? && Apply(op, Num(k), v).Fine?
    decreases v
  {
    if v.Collection? {
      EachLeftIsPointwise(op, v.items, Num(k));
      EachRightIsPointwise(op, Num(k), v.items);
      forall i | 0 <= i < |v.items|
        ensures WithRight(op, Num(k))(v.items[i]).Fine? && WithLeft(op, Num(k))(v.items[i]).Fine?
      {
        NumericWorks(op, v.items[i].value, k);
      }
    }
  }

  /** Subtracting what was added gives a collection of numbers back. */
  lemma {:induction false} AddThenSubtract(v: Value, k: real)
    requires IsNumeric(v)
    ensures Apply(Plus, v, Num(k)).Fine? && Apply(Minus, Apply(Plus, v, Num(k)).value, Num(k)) == Fine(v)
    decreases v
  {
    NumericWorks(Plus, v, k);
    if v.Collection? {
      var sum := Apply(Plus, v, Num(k)).value;
      forall i | 0 <= i < |v.items|
        ensures |sum.items| == |v.items| && WithRight(Minus, Num(k))(sum.items[i]) == v.items[i]
      {
        LeftPoint(Plus, v, Num(k), i);
        AddThenSubtract(v.items[i].value, k);
      }
      EachLeftIsPointwise(Minus, sum.items, Num(k));
      assert AllFine(EachLeft(Minus, sum.items, Num(k)).value) == v.items;
    }
  }

  // ----- What is computed

  function Numbers(xs: seq<real>): (r: seq<Value>)
    ensures |r| == |xs| && forall i | 0 <= i < |xs| :: r[i] == Num(xs[i])
  {
    if xs == [] then [] else Numbers(xs[..|xs| - 1]) + [Num(xs[|xs| - 1])]
  }

  /** Numbers are added up, or all others are taken from the first. */
  lemma {:induction false} FoldOfNumbers(xs: seq<real>)
    requires xs != []
    ensures Fold(Plus, Numbers(xs)) == Fine(Num(Total(xs)))
    ensures Fold(Minus, Numbers(xs)) == Fine(Num(xs[0] - Total(xs[1..])))
    decreases |xs|
  {
    var n := |xs| - 1;
    if n == 0 {
      assert Total(xs[..0]) == 0.0;
    } else {
      FoldOfNumbers(xs[..n]);
      assert Front(Numbers(xs)) == Numbers(xs[..n]) && Last(Numbers(xs)) == Num(xs[n]);
      assert xs[1..][..n - 1] == xs[..n][1..] && xs[1..][n - 1] == xs[n];
    }
  }

  /** Nothing is zero, one value is itself, and two collections cannot be combined. */
  lemma {:induction false} FoldOfFew(op: Op, v: Value, s: seq<Answer<Value>>, t: seq<Answer<Value>>)
    ensures Fold(op, []) == Fine(Num(0.0)) && Fold(op, [v]) == Fine(v)
    ensures Apply(op, Collection(s), Collection(t)) == Unsupported
    ensures Apply(op, Value.Other, v) == Unsupported || v.Collection?
  {
  }

  predicate AreNumbers(args: seq<Value>) {
    forall i | 0 <= i < |args| :: args[i].Num?
  }

  function Reals(args: seq<Value>): (r: seq<real>)
    requires AreNumbers(args)
    ensures |r| == |args| && forall i | 0 <= i < |args| :: r[i] == args[i].n
  {
    seq(|args|, i requires 0 <= i < |args| => args[i].n)
  }

  lemma {:induction false} FoldOfReals(op: Op, args: seq<Value>)
    ensures AreNumbers(args) && args != [] ==>
              Fold(op, args) ==
              Fine(Num(if op == Plus then Total(Reals(args)) else args[0].n - Total(Reals(args[1..]))))
  {
    if AreNumbers(args) && args != [] {
      var xs := Reals(args);
      assert Numbers(xs) == args && Reals(args[1..]) == xs[1..];
      FoldOfNumbers(xs);
    }
  }

  /** `r` is `v` with every number changed by `f`. */
  ghost predicate Changed(v: Value, f: real -> real, r: Value)
    requires IsNumeric(v)
    decreases v
  {
    if v.Num? then r == Num(f(v.n))
    else
      && r.Collection? && |r.items| == |v.items|
      && forall i | 0 <= i < |v.items| :: r.items[i].Fine? && Changed(v.items[i].value, f, r.items[i].value)
  }

  function Left(op: Op, k: real): real -> real {
    match op
    case Plus => (x: real) => x + k
    case Minus => (x: real) => x - k
  }

  function Right(op: Op, k: real): real -> real {
    match op
    case Plus => (x: real) => k + x
    case Minus => (x: real) => k - x
  }

  /** With a number, every number in a nested collection `x` becomes `x + k`, `x - k` or `k - x`. */
  lemma {:induction false} EachNumberChanges(op: Op, v: Value, k: real)
    requires IsNumeric(v)
    ensures Apply(op, v, Num(k)).Fine? && Changed(v, Left(op, k), Apply(op, v, Num(k)).value)
    ensures Apply(op, Num(k), v).Fine? && Changed(v, Right(op, k), Apply(op, Num(k), v).value)
    decreases v
  {
    NumericWorks(op, v, k);
    if v.Collection? {
      forall i | 0 <= i < |v.items|
        ensures var r := Apply(op, v, Num(k)).value;
                |r.items| == |v.items| && r.items[i].Fine? && Changed(v.items[i].value, Left(op, k), r.items[i].value)
        ensures var r := Apply(op, Num(k), v).value;
                |r.items| == |v.items| && r.items[i].Fine? && Changed(v.items[i].value, Right(op, k), r.items[i].value)
      {
        LeftPoint(op, v, Num(k), i);
        RightPoint(op, v, Num(k), i);
        EachNumberChanges(op, v.items[i].value, k);
      }
    }
  }

  /** A chord and a whole number, in either order: notes without octave are moved by it, rests stay,
      and lengths are kept. */
  lemma ChordMoves(op: Op, c: Chord, k: int, i: nat)
    requires i < |c|
    ensures var r := Apply(op, Notes(c), Num(k as real));
            && r == Apply(op, Num(k as real), Notes(c))
            && r.Fine? && r.value.Notes? && |r.value.chord| == |c|
            && var n, m := c[i], r.value.chord[i];
               && m.length == n.length
               && (n.base.None? ==> m == n)
               && (n.base.Some? && n.octave.None? ==>
                     m == n.(base := Some(if op == Plus then n.base.value + k else n.base.value - k)))
  {
    assert (k as real).Floor == k;
  }

  // ----- The operations as the program runs them

  method FlattenDeep(items: seq<Answer<Value>>) returns (r: Answer<seq<Value>>)
    ensures r == DeepFlat(items)
    decreases items, 0
  {
    var leaves: seq<Value> := [];
    for i := 0 to |items|
      invariant DeepFlat(items[..i]) == Fine(leaves)
    {
      assert Front(items[..i + 1]) == items[..i] && Last(items[..i + 1]) == items[i];
      var more := FlattenItem(items[i]);
      if !more.Fine? {
        FlatFailureStays(items, i + 1);
        return more;
      }
      leaves := leaves + more.value;
    }
    assert items[..|items|] == items;
    r := Fine(leaves);
  }

  method FlattenItem(item: Answer<Value>) returns (r: Answer<seq<Value>>)
    ensures r == Leaves(item)
    decreases item, 1
  {
    if !item.Fine? {
      return Failure(item);
    }
    if item.value.Collection? {
      r := FlattenDeep(item.value.items);
    } else {
      r := Fine([item.value]);
    }
  }

  lemma {:induction false} FlatFailureStays(items: seq<Answer<Value>>, i: nat)
    requires i <= |items| && !DeepFlat(items[..i]).Fine?
    ensures DeepFlat(items) == DeepFlat(items[..i])
    decreases |items| - i
  {
    if i == |items| {
      assert items[..i] == items;
    } else {
      assert Front(items[..i + 1]) == items[..i];
      FlatFailureStays(items, i + 1);
    }
  }

  /** The step of the fold, and what happens to each item of a collection. */
  method Operate(op: Op, a: Value, b: Value) returns (r: Answer<Value>)
    ensures r == Apply(op, a, b)
    decreases a, b, 1
  {
    if a.Num? && b.Num? {
      return Fine(Num(Compute(op, a.n, b.n)));
    }
    if a.Notes? && b.Num? {
      r := MoveNotes(op, a.chord, b.n);
      return;
    }
    if a.Num? && b.Notes? {
      r := MoveNotes(op, b.chord, a.n);
      return;
    }
    if a.Collection? != b.Collection? {
      r := Vectorized(op, a, b);
      return;
    }
    return Unsupported;
  }

  method Vectorized(op: Op, a: Value, b: Value) returns (r: Answer<Value>)
    requires a.Collection? != b.Collection?
    ensures r == Apply(op, a, b)
    decreases a, b, 0
  {
    var results;
    if a.Collection? {
      results := VectorizedLeft(op, a.items, b);
    } else {
      results := VectorizedRight(op, a, b.items);
    }
    return Wrap(results);
  }

  method VectorizedLeft(op: Op, items: seq<Answer<Value>>, b: Value) returns (r: Answer<seq<Value>>)
    requires !b.Collection?
    ensures r == EachLeft(op, items, b)
    decreases items, b, 0
  {
    var results: seq<Value> := [];
    for i := 0 to |items|
      invariant EachLeft(op, items[..i], b) == Fine(results)
    {
      assert Front(items[..i + 1]) == items[..i] && Last(items[..i + 1]) == items[i];
      var item := items[i];
      if item.Fine? {
        item := OperateLeft(op, item, b);
      }
      if !item.Fine? {
        FailureStays(op, items, b, i + 1);
        return Failure(item);
      }
      results := results + [item.value];
    }
    assert items[..|items|] == items;
    r := Fine(results);
  }

  method OperateLeft(op: Op, item: Answer<Value>, b: Value) returns (r: Answer<Value>)
    requires item.Fine? && !b.Collection?
    ensures r == ItemLeft(op, item, b)
    decreases item, b, 0
  {
    r := Operate(op, item.value, b);
  }

  method VectorizedRight(op: Op, a: Value, items: seq<Answer<Value>>) returns (r: Answer<seq<Value>>)
    requires !a.Collection?
    ensures r == EachRight(op, a, items)
    decreases a, items, 0
  {
    var results: seq<Value> := [];
    for i := 0 to |items|
      invariant EachRight(op, a, items[..i]) == Fine(results)
    {
      assert Front(items[..i + 1]) == items[..i] && Last(items[..i + 1]) == items[i];
      var item := items[i];
      if item.Fine? {
        item := OperateRight(op, a, item);
      }
      if !item.Fine? {
        FailureStaysOnTheRight(op, a, items, i + 1);
        return Failure(item);
      }
      results := results + [item.value];
    }
    assert items[..|items|] == items;
    r := Fine(results);
  }

  method OperateRight(op: Op, a: Value, item: Answer<Value>) returns (r: Answer<Value>)
    requires item.Fine? && !a.Collection?
    ensures r == ItemRight(op, a, item)
    decreases a, item, 0
  {
    r := Operate(op, a, item.value);
  }

  lemma {:induction false} FailureStays(op: Op, items: seq<Answer<Value>>, b: Value, i: nat)
    requires !b.Collection? && i <= |items| && !EachLeft(op, items[..i], b).Fine?
    ensures EachLeft(op, items, b) == EachLeft(op, items[..i], b)
  {
    assert items == items[..i] + items[i..];
    EachLeftOfBoth(op, items[..i], items[i..], b);
  }

  lemma {:induction false} FailureStaysOnTheRight(op: Op, a: Value, items: seq<Answer<Value>>, i: nat)
    requires !a.Collection? && i <= |items| && !EachRight(op, a, items[..i]).Fine?
    ensures EachRight(op, a, items) == EachRight(op, a, items[..i])
  {
    assert items == items[..i] + items[i..];
    EachRightOfBoth(op, a, items[..i], items[i..]);
  }

  lemma {:induction false} FailedFold(op: Op, args: seq<Value>, i: nat)
    requires i <= |args| && !Fold(op, args[..i]).Fine?
    ensures Fold(op, args) == Fold(op, args[..i])
    decreases |args| - i
  {
    if i == |args| {
      assert args[..i] == args;
    } else {
      assert Front(args[..i + 1]) == args[..i];
      FailedFold(op, args, i + 1);
    }
  }

  /** The operator itself, for any number of arguments. */
  method AddSubtract(op: Op, args: seq<Value>) returns (r: Answer<Value>)
    ensures r == Fold(op, args)
    ensures AreNumbers(args) && args != [] ==>
              r == Fine(Num(if op == Plus then Total(Reals(args)) else args[0].n - Total(Reals(args[1..]))))
  {
    FoldOfReals(op, args);
    if args == [] {
      return Fine(Num(0.0));
    }
    var value := args[0];
    for i := 1 to |args|
      invariant Fold(op, args[..i]) == Fine(value)
    {
      assert Front(args[..i + 1]) == args[..i] && Last(args[..i + 1]) == args[i];
      var next := Operate(op, value, args[i]);
      if !next.Fine? {
        FailedFold(op, args, i + 1);
        return next;
      }
      value := next.value;
    }
    assert args[..|args|] == args;
    r := Fine(value);
  }
}
