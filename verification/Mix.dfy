/** The builtin that takes turns through its arguments, starting short collections over until the
    longest one is through. */
module Mix {
  import opened Arithmetic
  import opened Wrappers

  /** A collection answers to a position.  An array always gives its element there; a block runs
      code, which may fail, and may give something else in another turn. */
  datatype Argument<T> = Scalar(value: T) | Collection(size: nat, index: (nat, nat) -> Option<T>)

  function ArrayOf<T>(items: seq<T>): Argument<T> {
    Collection(|items|, (turn: nat, position: nat) => if position < |items| then Some(items[position]) else None)
  }

  /** What comes of one turn of an argument; an empty collection makes the program divide by zero. */
  datatype Turn<T> = Gives(value: T) | Fails | DividesByZero

  datatype Mixed<T> = Values(values: seq<T>) | Failed | Crashed

  /** The position in `n` items that comes round after `r` turns. */
  function Position(r: nat, n: nat): (i: nat)
    requires n > 0
    ensures i < n
  {
    if r < n then r else Position(r - n, n)
  }

  lemma {:induction false} PositionIsRemainder(r: nat, n: nat)
    requires n > 0
    ensures Position(r, n) == r % n
  {
    if r < n {
      SmallRemainder(r, n);
    } else {
      PositionIsRemainder(r - n, n);
      assert r == ((r - n) / n + 1) * n + (r - n) % n;
      DivisionIsUnique(r, n, (r - n) / n + 1, (r - n) % n);
    }
  }

  /** The turn of an argument in round `r`. */
  function TurnOf<T>(a: Argument<T>, r: nat): Turn<T> {
    match a
    case Scalar(value) => Gives(value)
    case Collection(size, index) =>
      if size == 0 then DividesByZero
      else
        match index(r, Position(r, size))
        case Some(value) => Gives(value)
        case None => Fails
  }

  function Size<T>(a: Argument<T>): nat {
    if a.Collection? then a.size else 0
  }

  function Longest<T>(args: seq<Argument<T>>): (n: nat)
    ensures forall i | 0 <= i < |args| :: Size(args[i]) <= n
    ensures n > 0 ==> exists i :: 0 <= i < |args| && Size(args[i]) == n
  {
    if args == [] then 0
    else
      var last := Size(args[|args| - 1]);
      var n := Longest(args[..|args| - 1]);
      if last >= n then last else n
  }

  function Rounds<T>(args: seq<Argument<T>>): (n: nat)
    ensures n >= 1 && forall i | 0 <= i < |args| :: Size(args[i]) <= n
    ensures n == 1 || exists i :: 0 <= i < |args| && Size(args[i]) == n
  {
    if Longest(args) == 0 then 1 else Longest(args)
  }

  // ----- The result, turn by turn

  /** One more turn; the first that gives nothing ends it all. */
  function Then<T>(m: Mixed<T>, t: Turn<T>): Mixed<T> {
    if !m.Values? then m
    else
      match t
      case Gives(value) => Values(m.values + [value])
      case Fails => Failed
      case DividesByZero => Crashed
  }

  /** The first `n` arguments in round `r`, after `m`. */
  function Row<T>(args: seq<Argument<T>>, m: Mixed<T>, r: nat, n: nat): Mixed<T>
    requires n <= |args|
  {
    if n == 0 then m else Then(Row(args, m, r, n - 1), TurnOf(args[n - 1], r))
  }

  function Rows<T>(args: seq<Argument<T>>, rounds: nat): Mixed<T> {
    if rounds == 0 then Values([]) else Row(args, Rows(args, rounds - 1), rounds - 1, |args|)
  }

  lemma {:induction false} RowValues<T>(args: seq<Argument<T>>, m: Mixed<T>, r: nat, n: nat)
    requires n <= |args| && Row(args, m, r, n).Values?
    ensures m.Values? && |Row(args, m, r, n).values| == |m.values| + n
    ensures Row(args, m, r, n).values[..|m.values|] == m.values
    ensures forall i | 0 <= i < n :: TurnOf(args[i], r) == Gives(Row(args, m, r, n).values[|m.values| + i])
  {
    if n > 0 {
      RowValues(args, m, r, n - 1);
    }
  }

  /** Value `r * n + i` is what argument `i` gives in round `r`. */
  lemma {:induction false} RowsAt<T>(args: seq<Argument<T>>, rounds: nat, r: nat, i: nat)
    requires Rows(args, rounds).Values? && r < rounds && i < |args|
    ensures |Rows(args, rounds).values| == rounds * |args| && r * |args| + i < |Rows(args, rounds).values|
    ensures TurnOf(args[i], r) == Gives(Rows(args, rounds).values[r * |args| + i])
    decreases rounds
  {
    var before := Rows(args, rounds - 1);
    RowValues(args, before, rounds - 1, |args|);
    RowsLength(args, rounds - 1);
    assert rounds * |args| == (rounds - 1) * |args| + |args|;
    if r < rounds - 1 {
      RowsAt(args, rounds - 1, r, i);
      assert Rows(args, rounds).values[..|before.values|][r * |args| + i] == before.values[r * |args| + i];
    }
  }

  lemma {:induction false} RowsLength<T>(args: seq<Argument<T>>, rounds: nat)
    requires Rows(args, rounds).Values?
    ensures |Rows(args, rounds).values| == rounds * |args|
  {
    if rounds > 0 {
      RowValues(args, Rows(args, rounds - 1), rounds - 1, |args|);
      RowsLength(args, rounds - 1);
      assert rounds * |args| == (rounds - 1) * |args| + |args|;
    }
  }

  /** Arrays never fail. */
  lemma {:induction false} ArrayGives<T>(items: seq<T>, r: nat)
    requires items != []
    ensures TurnOf(ArrayOf(items), r) == Gives(items[Position(r, |items|)])
  {
  }

  lemma {:induction false} FailureStays<T>(args: seq<Argument<T>>, m: Mixed<T>, r: nat, n: nat)
    requires n <= |args| && !m.Values?
    ensures Row(args, m, r, n) == m
  {
    if n > 0 {
      FailureStays(args, m, r, n - 1);
    }
  }

  lemma {:induction false} FailedRow<T>(args: seq<Argument<T>>, m: Mixed<T>, r: nat, i: nat, n: nat)
    requires i <= n <= |args| && !Row(args, m, r, i).Values?
    ensures Row(args, m, r, n) == Row(args, m, r, i)
  {
    if i < n {
      FailedRow(args, m, r, i, n - 1);
    }
  }

  lemma {:induction false} FailedRows<T>(args: seq<Argument<T>>, r: nat, rounds: nat)
    requires r <= rounds && !Rows(args, r).Values?
    ensures Rows(args, rounds) == Rows(args, r)
  {
    if r < rounds {
      FailedRows(args, r, rounds - 1);
      FailureStays(args, Rows(args, rounds - 1), rounds - 1, |args|);
    }
  }

  predicate AllGive<T>(args: seq<Argument<T>>, rounds: nat) {
    forall r, i | 0 <= r < rounds && 0 <= i < |args| :: TurnOf(args[i], r).Gives?
  }

  lemma {:induction false} RowGives<T>(args: seq<Argument<T>>, m: Mixed<T>, r: nat, n: nat)
    requires n <= |args| && m.Values? && forall i | 0 <= i < n :: TurnOf(args[i], r).Gives?
    ensures Row(args, m, r, n).Values?
  {
    if n > 0 {
      RowGives(args, m, r, n - 1);
    }
  }

  /** There are values if and only if every turn of every round gives one. */
  lemma {:induction false} ValuesExactlyWhen<T>(args: seq<Argument<T>>, rounds: nat)
    ensures Rows(args, rounds).Values? <==> AllGive(args, rounds)
  {
    if rounds > 0 {
      var before := Rows(args, rounds - 1);
      ValuesExactlyWhen(args, rounds - 1);
      if AllGive(args, rounds) {
        RowGives(args, before, rounds - 1, |args|);
      } else if Rows(args, rounds).Values? {
        RowValues(args, before, rounds - 1, |args|);
      }
    }
  }

  /** With scalars and arrays only, there are values if and only if no array is empty. */
  lemma {:induction false} ArraysExactlyWhen<T>(args: seq<Argument<T>>, items: seq<seq<T>>)
    requires |items| == |args|
    requires forall i | 0 <= i < |args| :: args[i].Collection? ==> args[i] == ArrayOf(items[i])
    ensures Rows(args, Rounds(args)).Values? <==> forall i | 0 <= i < |args| :: args[i].Collection? ==> items[i] != []
  {
    ValuesExactlyWhen(args, Rounds(args));
    if forall i | 0 <= i < |args| :: args[i].Collection? ==> items[i] != [] {
      forall r, i | 0 <= r < Rounds(args) && 0 <= i < |args| ensures TurnOf(args[i], r).Gives? {
        if args[i].Collection? {
          ArrayGives(items[i], r);
        }
      }
    } else {
      var i :| 0 <= i < |args| && args[i].Collection? && items[i] == [];
      assert TurnOf(args[i], 0) == DividesByZero;
    }
  }

  /** Value `r * n + i` is the item of array `i` that comes round after `r` turns. */
  lemma {:induction false} ArraysTakeTurns<T>(items: seq<seq<T>>, args: seq<Argument<T>>, rounds: nat, r: nat, i: nat)
    requires |args| == |items| && forall j | 0 <= j < |items| :: items[j] != [] && args[j] == ArrayOf(items[j])
    requires r < rounds && i < |items|
    ensures Rows(args, rounds).Values? && r * |items| + i < |Rows(args, rounds).values|
    ensures Rows(args, rounds).values[r * |items| + i] == items[i][Position(r, |items[i]|)]
    ensures Position(r, |items[i]|) == r % |items[i]|
  {
    forall q, j | 0 <= q < rounds && 0 <= j < |args| ensures TurnOf(args[j], q).Gives? {
      ArrayGives(items[j], q);
    }
    ValuesExactlyWhen(args, rounds);
    RowsAt(args, rounds, r, i);
    ArrayGives(items[i], r);
    PositionIsRemainder(r, |items[i]|);
  }

  // ----- Counting what is awaited

  /** How many of the first `n` arguments are collections with more than `r` items. */
  function Waiting<T>(args: seq<Argument<T>>, r: int, n: nat): (count: nat)
    requires n <= |args|
    ensures count == 0 <==> forall i | 0 <= i < n :: args[i].Collection? ==> Size(args[i]) <= r
  {
    if n == 0 then 0
    else Waiting(args, r, n - 1) + (if args[n - 1].Collection? && Size(args[n - 1]) > r then 1 else 0)
  }

  lemma {:induction false} WaitingForLongest<T>(args: seq<Argument<T>>, r: nat)
    ensures Waiting(args, r, |args|) == 0 <==> Longest(args) <= r
  {
  }

  predicate NoneEmpty<T>(args: seq<Argument<T>>) {
    forall i | 0 <= i < |args| :: args[i].Collection? ==> args[i].size > 0
  }

  lemma {:induction false} AllWait<T>(args: seq<Argument<T>>, n: nat)
    requires n <= |args| && NoneEmpty(args)
    ensures Waiting(args, -1, n) == Waiting(args, 0, n)
  {
    if n > 0 {
      AllWait(args, n - 1);
    }
  }

  /** A counter that does not exist yet reads as zero. */
  function Counter(indices: map<nat, nat>, i: nat): nat {
    if i in indices then indices[i] else 0
  }

  /** The collections before `idx` have taken their turn in round `r`, the others have not. */
  ghost predicate InRound<T>(args: seq<Argument<T>>, indices: map<nat, nat>, r: nat, idx: nat)
    requires idx <= |args|
  {
    && (forall i | 0 <= i < idx :: args[i].Collection? ==> args[i].size > 0 && Counter(indices, i) == r + 1)
    && (forall i | idx <= i < |args| :: args[i].Collection? ==> Counter(indices, i) == r)
  }

  /** Collections that were not exhausted when `idx` arguments took their turn in round `r`. */
  ghost function Unfinished<T>(args: seq<Argument<T>>, r: nat, idx: nat): int
    requires idx <= |args|
  {
    Waiting(args, r + 1, idx) + Waiting(args, r, |args|) - Waiting(args, r, idx)
  }

  // ----- The loops

  /** The turn of one argument. */
  method TakeTurn<T>(arg: Argument<T>, idx: nat, indices: map<nat, nat>, awaiting: int)
    returns (turn: Turn<T>, newIndices: map<nat, nat>, newAwaiting: int)
    ensures turn == TurnOf(arg, Counter(indices, idx))
    ensures turn.Gives? ==>
              newAwaiting == awaiting - (if arg.Collection? && Counter(indices, idx) + 1 == arg.size then 1 else 0)
    ensures forall i | i != idx :: Counter(newIndices, i) == Counter(indices, i)
    ensures turn.Gives? && arg.Collection? ==> Counter(newIndices, idx) == Counter(indices, idx) + 1
  {
    newIndices, newAwaiting := indices, awaiting;
    match arg
    case Scalar(value) =>
      return Gives(value), newIndices, newAwaiting;
    case Collection(size, index) =>
      if size == 0 {
        return DividesByZero, newIndices, newAwaiting;
      }
      PositionIsRemainder(Counter(indices, idx), size);
      var item := index(Counter(indices, idx), Counter(indices, idx) % size);
      newIndices := indices[idx := Counter(indices, idx) + 1];
      if item.None? {
        return Fails, newIndices, newAwaiting;
      }
      if Counter(newIndices, idx) == size {
        newAwaiting := newAwaiting - 1;
      }
      return Gives(item.value), newIndices, newAwaiting;
  }

  /** After `r` rounds the awaited collections are those with more than `r` items. */
  ghost predicate Awaited<T>(args: seq<Argument<T>>, awaiting: int, r: nat) {
    NoneEmpty(args) ==> awaiting == Waiting(args, r, |args|)
  }

  /** One turn of every argument, up to the first that gives nothing. */
  method MixRound<T>(args: seq<Argument<T>>, values: seq<T>, indices: map<nat, nat>, awaiting: int, ghost r: nat)
    returns (m: Mixed<T>, newIndices: map<nat, nat>, newAwaiting: int)
    requires InRound(args, indices, r, 0) && Awaited(args, awaiting, r) && Rows(args, r) == Values(values)
    ensures m == Rows(args, r + 1)
    ensures m.Values? ==> NoneEmpty(args) && InRound(args, newIndices, r + 1, 0) && Awaited(args, newAwaiting, r + 1)
  {
    var newValues := values;
    newIndices, newAwaiting := indices, awaiting;
    for idx := 0 to |args|
      invariant InRound(args, newIndices, r, idx)
      invariant NoneEmpty(args) ==> newAwaiting == Unfinished(args, r, idx)
      invariant Row(args, Values(values), r, idx) == Values(newValues)
    {
      var turn;
      turn, newIndices, newAwaiting := TakeTurn(args[idx], idx, newIndices, newAwaiting);
      if !turn.Gives? {
        FailedRow(args, Values(values), r, idx + 1, |args|);
        return if turn.Fails? then Failed else Crashed, newIndices, newAwaiting;
      }
      newValues := newValues + [turn.value];
    }
    m := Values(newValues);
  }

  method CountCollections<T>(args: seq<Argument<T>>) returns (count: int)
    ensures Awaited(args, count, 0)
  {
    count := 0;
    for i := 0 to |args|
      invariant count == Waiting(args, -1, i)
    {
      if args[i].Collection? {
        count := count + 1;
      }
    }
    if NoneEmpty(args) {
      AllWait(args, |args|);
    }
  }

  /** Rounds go on while something is awaited. */
  method Mix<T>(args: seq<Argument<T>>) returns (m: Mixed<T>)
    ensures m == Rows(args, Rounds(args))
  {
    var indices: map<nat, nat> := map[];
    var awaiting := CountCollections(args);
    ghost var r := 0;
    m := Values([]);
    var more := true;
    while more
      invariant m.Values? && m == Rows(args, r)
      invariant InRound(args, indices, r, 0) && Awaited(args, awaiting, r)
      invariant r > 0 || more
      invariant if more then r < Rounds(args) else r == Rounds(args)
      decreases Rounds(args) - r, more
    {
      m, indices, awaiting := MixRound(args, m.values, indices, awaiting, r);
      r := r + 1;
      if !m.Values? {
        FailedRows(args, r, Rounds(args));
        return;
      }
      more := awaiting != 0;
      WaitingForLongest(args, r);
    }
  }
}
