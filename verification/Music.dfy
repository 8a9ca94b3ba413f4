/** Notes, chords, defaults, and the program values that can be played. */
module Music {
  import opened Wrappers

  datatype Note = Note(base: Option<int>, octave: Option<int>, length: Option<real>)

  type Chord = seq<Note>

  /** Defaults for what notes leave open. */
  datatype Context = Context(octave: int, length: real, bpm: nat)

  /** A note that leaves nothing open; without a base it is a rest. */
  datatype FullNote = FullNote(base: Option<int>, octave: int, length: real)

  function Fill(ctx: Context, n: Note): FullNote {
    FullNote(n.base,
             if n.octave.Some? then n.octave.value else ctx.octave,
             if n.length.Some? then n.length.value else ctx.length)
  }

  /** What a note says stands, and what it leaves open is the default. */
  lemma FillsWhatIsOpen(ctx: Context, base: Option<int>, octave: int, length: real)
    ensures Fill(ctx, Note(base, Some(octave), Some(length))) == FullNote(base, octave, length)
    ensures Fill(ctx, Note(base, None, Some(length))) == FullNote(base, ctx.octave, length)
    ensures Fill(ctx, Note(base, Some(octave), None)) == FullNote(base, octave, ctx.length)
    ensures Fill(ctx, Note(base, None, None)) == FullNote(base, ctx.octave, ctx.length)
  {
  }

  function FillAll(ctx: Context, c: Chord): (r: seq<FullNote>)
    ensures |r| == |c|
  {
    seq(|c|, i requires 0 <= i < |c| => Fill(ctx, c[i]))
  }

  /** A channel and a note number. */
  datatype Key = Key(channel: nat, pitch: nat)

  /** The MIDI note number is an unsigned byte; notes are played on channel 0. */
  function KeyOf(n: FullNote): Key
    requires n.base.Some?
  {
    Key(0, ((n.octave + 1) * 12 + n.base.value) % 256)
  }

  /** The a above middle c is 69, each semitone counts one and each octave twelve.  Below zero the
      number starts over from 255. */
  lemma KeyNumbers(base: int, octave: int, length: real)
    requires 0 <= octave <= 9 && 0 <= base && 12 * octave + base <= 115
    ensures KeyOf(FullNote(Some(9), 4, length)) == Key(0, 69)
    ensures KeyOf(FullNote(Some(base), octave, length)).pitch - 69 == 12 * (octave - 4) + (base - 9)
    ensures KeyOf(FullNote(Some(-1), -1, length)) == Key(0, 255)
  {
  }

  function KeysOfNote(n: FullNote): multiset<Key> {
    if n.base.Some? then multiset{KeyOf(n)} else multiset{}
  }

  /** The keys of the notes that are not rests, counted. */
  function KeysOf(c: seq<FullNote>): multiset<Key> {
    Bag(c, KeysOfNote)
  }

  function Bag<T, K>(s: seq<T>, f: T -> multiset<K>): multiset<K> {
    if s == [] then multiset{} else f(s[0]) + Bag(s[1..], f)
  }

  lemma {:induction false} BagOfConcat<T, K>(a: seq<T>, b: seq<T>, f: T -> multiset<K>)
    ensures Bag(a + b, f) == Bag(a, f) + Bag(b, f)
    decreases |a|
  {
    if a == [] {
      assert a + b == b;
    } else {
      BagOfConcat(a[1..], b, f);
      assert (a + b)[1..] == a[1..] + b;
    }
  }

  lemma {:induction false} BagOfOneMore<T, K>(s: seq<T>, x: T, f: T -> multiset<K>)
    ensures Bag(s + [x], f) == Bag(s, f) + f(x)
  {
    BagOfConcat(s, [x], f);
    assert [x][1..] == [];
  }

  lemma {:induction false} BagOfMiddle<T, K>(p: seq<T>, x: T, q: seq<T>, f: T -> multiset<K>)
    ensures Bag(p + [x] + q, f) == f(x) + Bag(p + q, f)
  {
    BagOfOneMore(p, x, f);
    BagOfConcat(p + [x], q, f);
    BagOfConcat(p, q, f);
  }

  lemma {:induction false} BagOfPermutation<T, K>(a: seq<T>, b: seq<T>, f: T -> multiset<K>)
    requires multiset(a) == multiset(b)
    ensures Bag(a, f) == Bag(b, f)
    decreases |a|
  {
    if a == [] {
      assert |multiset(b)| == 0;
    } else {
      var p, q := TakeOut(a, b);
      BagOfMiddle(p, a[0], q, f);
      BagOfPermutation(a[1..], p + q, f);
    }
  }

  lemma TakeOut<T>(a: seq<T>, b: seq<T>) returns (p: seq<T>, q: seq<T>)
    requires multiset(a) == multiset(b) && a != []
    ensures b == p + [a[0]] + q && multiset(a[1..]) == multiset(p + q)
  {
    FirstOutOfBag(a);
    assert a[0] in multiset(a);
    var j :| 0 <= j < |b| && b[j] == a[0];
    p, q := b[..j], b[j + 1..];
    MiddleOutOfBag(p, a[0], q);
    assert b == p + [a[0]] + q;
  }

  lemma FirstOutOfBag<T>(a: seq<T>)
    requires a != []
    ensures multiset(a[1..]) == multiset(a) - multiset{a[0]}
  {
    assert a == [a[0]] + a[1..];
  }

  lemma MiddleOutOfBag<T>(p: seq<T>, x: T, q: seq<T>)
    ensures multiset(p + q) == multiset(p + [x] + q) - multiset{x}
  {
    assert multiset(p + [x] + q) == multiset(p) + multiset{x} + multiset(q);
  }

  // ----- Playable values and the code that evaluates to them

  /** A block is the code it runs; a run of a program is its code unrolled. */
  datatype Value = Sound(chord: Chord) | Collected(elements: seq<Value>) | Code(body: seq<Expr>) | Other

  datatype Builtin = Play | Par | Sim

  datatype Expr = Constant(value: Value) | Fails | Call(builtin: Builtin, arguments: seq<Expr>)

  function Size(v: Value): nat
    decreases v
  {
    match v
    case Sound(_) => 1
    case Collected(es) => 1 + Sizes(es)
    case Code(body) => 1 + CodeSizes(body)
    case Other => 0
  }

  function Sizes(vs: seq<Value>): nat
    decreases vs
  {
    if vs == [] then 0 else Size(vs[0]) + Sizes(vs[1..])
  }

  function CodeSize(e: Expr): nat
    decreases e
  {
    match e
    case Constant(v) => 1 + Size(v)
    case Fails => 1
    case Call(_, arguments) => 1 + CodeSizes(arguments)
  }

  function CodeSizes(es: seq<Expr>): nat
    decreases es
  {
    if es == [] then 0 else CodeSize(es[0]) + CodeSizes(es[1..])
  }

  lemma {:induction false} PartIsSmaller(vs: seq<Value>, i: nat)
    requires i < |vs|
    ensures Size(vs[i]) <= Sizes(vs)
    decreases |vs|
  {
    if i > 0 {
      PartIsSmaller(vs[1..], i - 1);
    }
  }

  lemma {:induction false} CodePartIsSmaller(es: seq<Expr>, i: nat)
    requires i < |es|
    ensures CodeSize(es[i]) <= CodeSizes(es)
    decreases |es|
  {
    if i > 0 {
      CodePartIsSmaller(es[1..], i - 1);
    }
  }

  lemma {:induction false} SizesAppend(vs: seq<Value>, v: Value)
    ensures Sizes(vs + [v]) == Sizes(vs) + Size(v)
    decreases |vs|
  {
    if vs == [] {
      assert vs + [v] == [v];
    } else {
      SizesAppend(vs[1..], v);
      assert (vs + [v])[1..] == vs[1..] + [v];
    }
  }

  /** Chords and nested arrays of chords. */
  predicate Pure(v: Value) {
    match v
    case Sound(_) => true
    case Collected(es) => forall i | 0 <= i < |es| :: Pure(es[i])
    case Code(_) => false
    case Other => false
  }

  function ChordKeys(ctx: Context, chord: Chord): multiset<Key> {
    KeysOf(FillAll(ctx, chord))
  }
}
