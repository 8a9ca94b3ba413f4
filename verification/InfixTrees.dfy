/** Which trees the precedence routine builds for a chain of operands and operators. */
module InfixTrees {
  import opened Tokens
  import opened Grammar

  /** The infix part of a tree: operands are opaque, even when they are binaries themselves. */
  datatype InfixTree = Leaf(operand: Ast) | Node(op: Token, left: InfixTree, right: InfixTree)

  function ToAst(t: InfixTree): Ast {
    match t
    case Leaf(operand) => operand
    case Node(op, left, right) => BinaryAst(op, [ToAst(left), ToAst(right)])
  }

  function Operands(t: InfixTree): seq<Ast> {
    match t
    case Leaf(operand) => [operand]
    case Node(_, left, right) => Operands(left) + Operands(right)
  }

  function Operators(t: InfixTree): seq<Token> {
    match t
    case Leaf(_) => []
    case Node(op, left, right) => Operators(left) + [op] + Operators(right)
  }

  function Prec(op: Token): int {
    Precedence(op.source)
  }

  // ----- The tree the parser builds from a chain

  /** `left op xs[0] ops[0] xs[1] ...`, as the routine for right-hand sides groups it. */
  function Fold(left: InfixTree, op: Token, xs: seq<Ast>, ops: seq<Token>): InfixTree
    requires |xs| == |ops| + 1
    decreases |ops|
  {
    if ops == [] then Node(op, left, Leaf(xs[0]))
    else if Prec(op) >= Prec(ops[0]) then
      Fold(Node(op, left, Leaf(xs[0])), ops[0], xs[1..], ops[1..])
    else
      Node(op, left, Fold(Leaf(xs[0]), ops[0], xs[1..], ops[1..]))
  }

  function ParserTree(xs: seq<Ast>, ops: seq<Token>): InfixTree
    requires |xs| == |ops| + 1
  {
    if ops == [] then Leaf(xs[0]) else Fold(Leaf(xs[0]), ops[0], xs[1..], ops[1..])
  }

  datatype Chain = Chain(operands: seq<Ast>, operators: seq<Token>)

  /** Reads a chain and groups nothing; errors are those of reading. */
  function ScanRhs(ts: seq<Token>, p: nat, op: Token): (r: Parsed<Chain>)
    requires p <= |ts|
    ensures p <= r.next <= |ts|
    ensures r.outcome.Ok? ==> |r.outcome.value.operands| == |r.outcome.value.operators| + 1
    decreases |ts| - p
  {
    var m := ManyAtomics(ts, p, []);
    match m.outcome
    case Err(e) => Parsed(Err(e), m.next)
    case Abort => Parsed(Abort, m.next)
    case Ok(atomics) =>
      var x := WrapIfSeveral(atomics);
      if !NextIsOperator(ts, m.next) then Parsed(Ok(Chain([x], [])), m.next)
      else
        var next := ts[m.next];
        if !HasPrecedence(op.source) then Parsed(Err(UndefinedOperator(op.source)), m.next + 1)
        else if !HasPrecedence(next.source) then Parsed(Err(UndefinedOperator(next.source)), m.next + 1)
        else
          var r := ScanRhs(ts, m.next + 1, next);
          match r.outcome
          case Ok(c) => Parsed(Ok(Chain([x] + c.operands, [next] + c.operators)), r.next)
          case Err(_) => r
          case Abort => r
  }

  function ScanChain(ts: seq<Token>, p: nat): (r: Parsed<Chain>)
    requires p <= |ts|
    ensures r.outcome.Ok? ==> |r.outcome.value.operands| == |r.outcome.value.operators| + 1
  {
    var m := ManyAtomics(ts, p, []);
    match m.outcome
    case Err(e) => Parsed(Err(e), m.next)
    case Abort => Parsed(Abort, m.next)
    case Ok(atomics) =>
      var x := WrapIfSeveral(atomics);
      if !NextIsOperator(ts, m.next) then Parsed(Ok(Chain([x], [])), m.next)
      else
        var op := ts[m.next];
        var r := ScanRhs(ts, m.next + 1, op);
        match r.outcome
        case Ok(c) => Parsed(Ok(Chain([x] + c.operands, [op] + c.operators)), r.next)
        case Err(_) => r
        case Abort => r
  }

  /** The parser's routine gives what folding the chain gives. */
  ghost predicate Groups(ts: seq<Token>, p: nat, left: InfixTree, op: Token)
    requires p <= |ts|
  {
    var c := ScanRhs(ts, p, op);
    var r := InfixRhs(ts, p, BinaryAst(op, [ToAst(left)]));
    && r.next == c.next
    && (c.outcome.Ok? ==>
          r.outcome == Ok(ToAst(Fold(left, op, c.outcome.value.operands, c.outcome.value.operators))))
    && (c.outcome.Err? ==> r.outcome == Err(c.outcome.error))
    && (c.outcome.Abort? ==> r.outcome == Abort)
  }

  /** There is an operand, and another known operator behind it. */
  predicate GoesOn(ts: seq<Token>, p: nat, op: Token)
    requires p <= |ts|
  {
    var m := ManyAtomics(ts, p, []);
    m.outcome.Ok? && NextIsOperator(ts, m.next) && HasPrecedence(op.source) && HasPrecedence(ts[m.next].source)
  }

  lemma EndsHere(ts: seq<Token>, p: nat, left: InfixTree, op: Token)
    requires p <= |ts| && !GoesOn(ts, p, op)
    ensures Groups(ts, p, left, op)
  {
    var m := ManyAtomics(ts, p, []);
    if m.outcome.Ok? {
      var x := WrapIfSeveral(m.outcome.value);
      assert [ToAst(left)] + [x] == [ToAst(left), x];
    }
  }

  lemma {:induction false} FallsGroup(ts: seq<Token>, p: nat, left: InfixTree, op: Token, x: Ast, next: Token, q: nat)
    requires p < q <= |ts| && ManyAtomics(ts, p, []).outcome.Ok?
    requires x == WrapIfSeveral(ManyAtomics(ts, p, []).outcome.value)
    requires ManyAtomics(ts, p, []).next == q - 1 && NextIsOperator(ts, q - 1) && ts[q - 1] == next
    requires HasPrecedence(op.source) && HasPrecedence(next.source) && Prec(op) >= Prec(next)
    requires Groups(ts, q, Node(op, left, Leaf(x)), next)
    ensures Groups(ts, p, left, op)
  {
    var c := ScanRhs(ts, q, next);
    assert [ToAst(left)] + [x] == [ToAst(left), x];
    assert ToAst(Node(op, left, Leaf(x))) == AddArgument(BinaryAst(op, [ToAst(left)]), x);
    if c.outcome.Ok? {
      var xs, ops := [x] + c.outcome.value.operands, [next] + c.outcome.value.operators;
      assert xs[1..] == c.outcome.value.operands && ops[1..] == c.outcome.value.operators;
    }
  }

  lemma {:induction false} RisesGroup(ts: seq<Token>, p: nat, left: InfixTree, op: Token, x: Ast, next: Token, q: nat)
    requires p < q <= |ts| && ManyAtomics(ts, p, []).outcome.Ok?
    requires x == WrapIfSeveral(ManyAtomics(ts, p, []).outcome.value)
    requires ManyAtomics(ts, p, []).next == q - 1 && NextIsOperator(ts, q - 1) && ts[q - 1] == next
    requires HasPrecedence(op.source) && HasPrecedence(next.source) && Prec(op) < Prec(next)
    requires Groups(ts, q, Leaf(x), next)
    ensures Groups(ts, p, left, op)
  {
    var c, r := ScanRhs(ts, q, next), InfixRhs(ts, q, BinaryAst(next, [x]));
    if c.outcome.Ok? {
      var xs, ops := [x] + c.outcome.value.operands, [next] + c.outcome.value.operators;
      assert xs[1..] == c.outcome.value.operands && ops[1..] == c.outcome.value.operators;
      assert [ToAst(left)] + [r.outcome.value] == [ToAst(left), r.outcome.value];
    }
  }

  lemma {:induction false} RhsGroups(ts: seq<Token>, p: nat, left: InfixTree, op: Token)
    requires p <= |ts|
    ensures Groups(ts, p, left, op)
    decreases |ts| - p
  {
    if GoesOn(ts, p, op) {
      var m := ManyAtomics(ts, p, []);
      var x, next := WrapIfSeveral(m.outcome.value), ts[m.next];
      if Prec(op) >= Prec(next) {
        RhsGroups(ts, m.next + 1, Node(op, left, Leaf(x)), next);
        FallsGroup(ts, p, left, op, x, next, m.next + 1);
      } else {
        RhsGroups(ts, m.next + 1, Leaf(x), next);
        RisesGroup(ts, p, left, op, x, next, m.next + 1);
      }
    } else {
      EndsHere(ts, p, left, op);
    }
  }

  /** Parsing an infix expression is reading its chain and building the parser's tree, for any
      tokens: same cursor, same errors. */
  lemma {:induction false} InfixBuildsParserTree(ts: seq<Token>, p: nat)
    requires p <= |ts|
    ensures var c, r := ScanChain(ts, p), Infix(ts, p);
            && r.next == c.next
            && (c.outcome.Ok? ==>
                  r.outcome == Ok(ToAst(ParserTree(c.outcome.value.operands, c.outcome.value.operators))))
            && (c.outcome.Err? ==> r.outcome == Err(c.outcome.error))
            && (c.outcome.Abort? ==> r.outcome == Abort)
  {
    var m := ManyAtomics(ts, p, []);
    if m.outcome.Ok? && NextIsOperator(ts, m.next) {
      var x, op := WrapIfSeveral(m.outcome.value), ts[m.next];
      RhsGroups(ts, m.next + 1, Leaf(x), op);
      var c := ScanRhs(ts, m.next + 1, op);
      if c.outcome.Ok? {
        var xs, ops := [x] + c.outcome.value.operands, [op] + c.outcome.value.operators;
        assert xs[1..] == c.outcome.value.operands && ops[1..] == c.outcome.value.operators;
      }
    }
  }

  // ----- Nothing is lost or reordered, and no left child binds looser than its parent

  predicate LeftBindsTighter(t: InfixTree) {
    match t
    case Leaf(_) => true
    case Node(op, left, right) =>
      && (left.Node? ==> Prec(left.op) >= Prec(op))
      && LeftBindsTighter(left) && LeftBindsTighter(right)
  }

  lemma {:induction false} FoldConserves(left: InfixTree, op: Token, xs: seq<Ast>, ops: seq<Token>)
    requires |xs| == |ops| + 1
    requires LeftBindsTighter(left) && (left.Node? ==> Prec(left.op) >= Prec(op))
    ensures var t := Fold(left, op, xs, ops);
            && Operands(t) == Operands(left) + xs
            && Operators(t) == Operators(left) + [op] + ops
            && LeftBindsTighter(t)
    decreases |ops|
  {
    if ops == [] {
      assert xs == [xs[0]];
    } else {
      if Prec(op) >= Prec(ops[0]) {
        FoldConserves(Node(op, left, Leaf(xs[0])), ops[0], xs[1..], ops[1..]);
      } else {
        FoldConserves(Leaf(xs[0]), ops[0], xs[1..], ops[1..]);
      }
      Regroup(Operands(left), xs);
      Regroup(Operators(left) + [op], ops);
      assert Operators(left) + [op] + [] == Operators(left) + [op];
    }
  }

  lemma Regroup<T>(before: seq<T>, s: seq<T>)
    requires s != []
    ensures before + [s[0]] + s[1..] == before + s
    ensures before + ([s[0]] + s[1..]) == before + s
    ensures [] + [s[0]] + s[1..] == s
  {
    assert s == [s[0]] + s[1..];
  }

  /** The tree reads back in order to its operands and operators. */
  lemma ParserTreeConserves(xs: seq<Ast>, ops: seq<Token>)
    requires |xs| == |ops| + 1
    ensures var t := ParserTree(xs, ops);
            Operands(t) == xs && Operators(t) == ops && LeftBindsTighter(t)
  {
    if ops == [] {
      assert xs == [xs[0]];
    } else {
      FoldConserves(Leaf(xs[0]), ops[0], xs[1..], ops[1..]);
      assert xs == [xs[0]] + xs[1..] && ops == [ops[0]] + ops[1..];
    }
  }

  // ----- The shape of the parser's tree

  predicate RiseAt(ops: seq<Token>, i: nat) {
    i + 1 < |ops| && Prec(ops[i]) < Prec(ops[i + 1])
  }

  predicate NoRiseBefore(ops: seq<Token>, n: nat) {
    forall i: nat | i < n :: !RiseAt(ops, i)
  }

  /** Every operator takes all that was read so far as its left child. */
  function LeftFold(left: InfixTree, xs: seq<Ast>, ops: seq<Token>): InfixTree
    requires |xs| == |ops|
    decreases |ops|
  {
    if ops == [] then left else LeftFold(Node(ops[0], left, Leaf(xs[0])), xs[1..], ops[1..])
  }

  lemma {:induction false} FoldUntilRise(left: InfixTree, op: Token, xs: seq<Ast>, ops: seq<Token>, r: nat)
    requires |xs| == |ops| + 1
    requires r <= |ops| && NoRiseBefore([op] + ops, r)
    requires r < |ops| ==> RiseAt([op] + ops, r)
    ensures Fold(left, op, xs, ops) ==
            Node(([op] + ops)[r], LeftFold(left, xs[..r], ([op] + ops)[..r]),
                 if r == |ops| then Leaf(xs[r]) else ParserTree(xs[r..], ops[r..]))
    decreases |ops|
  {
    var all := [op] + ops;
    if ops == [] {
    } else if r == 0 {
      assert RiseAt(all, 0);
      assert xs[0..] == xs && ops[0..] == ops;
    } else {
      assert !RiseAt(all, 0);
      var next := [ops[0]] + ops[1..];
      RisesOfTail(op, ops, r);
      FoldUntilRise(Node(op, left, Leaf(xs[0])), ops[0], xs[1..], ops[1..], r - 1);
      Tails(xs, r);
      Tails(ops, r);
      assert all[..r][1..] == next[..r - 1];
    }
  }

  lemma RisesOfTail(op: Token, ops: seq<Token>, r: nat)
    requires 0 < r <= |ops| && NoRiseBefore([op] + ops, r)
    ensures [ops[0]] + ops[1..] == ops && NoRiseBefore(ops, r - 1)
    ensures RiseAt([op] + ops, r) <==> RiseAt(ops, r - 1)
  {
    forall i: nat | i < r - 1 ensures !RiseAt(ops, i) {
      assert !RiseAt([op] + ops, i + 1);
    }
  }

  lemma Tails<T>(s: seq<T>, r: nat)
    requires 0 < r <= |s|
    ensures s[..r][1..] == s[1..][..r - 1] && s[1..][r - 1..] == s[r..]
    ensures r < |s| ==> s[1..][r - 1] == s[r]
  {
  }

  /** The operators up to the first strict rise fold to the left; the last of them takes the
      parse of everything after it as its right child. */
  lemma ShapeOfParserTree(xs: seq<Ast>, ops: seq<Token>, r: nat)
    requires |xs| == |ops| + 1 && ops != []
    requires r < |ops| && NoRiseBefore(ops, r)
    requires r + 1 < |ops| ==> RiseAt(ops, r)
    ensures ParserTree(xs, ops) ==
            Node(ops[r], LeftFold(Leaf(xs[0]), xs[1..r + 1], ops[..r]), ParserTree(xs[r + 1..], ops[r + 1..]))
  {
    assert ops == [ops[0]] + ops[1..];
    FoldUntilRise(Leaf(xs[0]), ops[0], xs[1..], ops[1..], r);
    assert xs[1..][..r] == xs[1..r + 1] && xs[1..][r..] == xs[r + 1..] && ops[1..][r..] == ops[r + 1..];
  }

  // ----- The left-associative precedence tree

  /** The rightmost of the loosest operators. */
  function Loosest(ops: seq<Token>): (k: nat)
    requires ops != []
    ensures k < |ops|
    ensures forall i | 0 <= i < k :: Prec(ops[k]) <= Prec(ops[i])
    ensures forall i | k < i < |ops| :: Prec(ops[k]) < Prec(ops[i])
    decreases |ops|
  {
    if |ops| == 1 then 0
    else
      var n := |ops| - 1;
      var k := Loosest(ops[..n]);
      assert forall i | 0 <= i < n :: ops[..n][i] == ops[i];
      if Prec(ops[n]) <= Prec(ops[k]) then n else k
  }

  function PrecedenceTree(xs: seq<Ast>, ops: seq<Token>): InfixTree
    requires |xs| == |ops| + 1
    decreases |ops|
  {
    if ops == [] then Leaf(xs[0])
    else
      var k := Loosest(ops);
      Node(ops[k], PrecedenceTree(xs[..k + 1], ops[..k]), PrecedenceTree(xs[k + 1..], ops[k + 1..]))
  }

  /** At every rise, the operator before it binds strictly looser than all later operators. */
  predicate RisesAreLoosest(ops: seq<Token>) {
    forall i: nat | i < |ops| && RiseAt(ops, i) :: LooserThanLater(ops, i)
  }

  function Nodes(a: Ast): nat
    decreases a
  {
    1 + NodesOfAll(a.arguments)
  }

  function NodesOfAll(es: seq<Ast>): nat
    decreases es
  {
    if es == [] then 0 else Nodes(es[0]) + NodesOfAll(es[1..])
  }

  lemma {:induction false} NodesOfConcat(xs: seq<Ast>, ys: seq<Ast>)
    ensures NodesOfAll(xs + ys) == NodesOfAll(xs) + NodesOfAll(ys)
    decreases xs
  {
    if xs == [] {
      assert xs + ys == ys;
    } else {
      NodesOfConcat(xs[1..], ys);
      assert (xs + ys)[0] == xs[0] && (xs + ys)[1..] == xs[1..] + ys;
    }
  }

  lemma {:induction false} NodesOfTree(t: InfixTree)
    ensures Nodes(ToAst(t)) == NodesOfAll(Operands(t)) + |Operators(t)|
  {
    match t
    case Leaf(x) =>
      assert [x][1..] == [];
    case Node(op, left, right) =>
      NodesOfTree(left);
      NodesOfTree(right);
      NodesOfConcat(Operands(left), Operands(right));
      var args := [ToAst(left), ToAst(right)];
      assert args[1..] == [ToAst(right)] && args[1..][1..] == [];
      assert NodesOfAll(args[1..]) == Nodes(ToAst(right));
      assert Nodes(BinaryAst(op, args)) == 1 + NodesOfAll(args);
  }

  lemma {:induction false} LeftFoldConserves(left: InfixTree, xs: seq<Ast>, ops: seq<Token>)
    requires |xs| == |ops|
    ensures Operands(LeftFold(left, xs, ops)) == Operands(left) + xs
    ensures Operators(LeftFold(left, xs, ops)) == Operators(left) + ops
    decreases |ops|
  {
    if ops != [] {
      LeftFoldConserves(Node(ops[0], left, Leaf(xs[0])), xs[1..], ops[1..]);
      assert xs == [xs[0]] + xs[1..] && ops == [ops[0]] + ops[1..];
    }
  }

  lemma {:induction false} PrecedenceTreeConserves(xs: seq<Ast>, ops: seq<Token>)
    requires |xs| == |ops| + 1
    ensures Operands(PrecedenceTree(xs, ops)) == xs && Operators(PrecedenceTree(xs, ops)) == ops
    decreases |ops|
  {
    if ops == [] {
      assert xs == [xs[0]];
    } else {
      var k := Loosest(ops);
      PrecedenceTreeConserves(xs[..k + 1], ops[..k]);
      PrecedenceTreeConserves(xs[k + 1..], ops[k + 1..]);
      NodeConserves(PrecedenceTree(xs[..k + 1], ops[..k]), PrecedenceTree(xs[k + 1..], ops[k + 1..]), xs, ops, k);
    }
  }

  lemma {:induction false} NodeConserves(left: InfixTree, right: InfixTree, xs: seq<Ast>, ops: seq<Token>, k: nat)
    requires |xs| == |ops| + 1 && k < |ops|
    requires Operands(left) == xs[..k + 1] && Operands(right) == xs[k + 1..]
    requires Operators(left) == ops[..k] && Operators(right) == ops[k + 1..]
    ensures Operands(Node(ops[k], left, right)) == xs && Operators(Node(ops[k], left, right)) == ops
  {
  }

  /** Binaries split at different places of one chain are different trees. */
  lemma {:induction false} SplitsDiffer(s: InfixTree, t: InfixTree, xs: seq<Ast>, i: nat, k: nat)
    requires s.Node? && t.Node? && i < k < |xs|
    requires Operands(s.left) == xs[..i + 1] && |Operators(s.left)| == i
    requires Operands(t.left) == xs[..k + 1] && |Operators(t.left)| == k
    ensures ToAst(s) != ToAst(t)
  {
    NodesOfTree(s.left);
    NodesOfTree(t.left);
    assert xs[..k + 1] == xs[..i + 1] + xs[i + 1..k + 1];
    NodesOfConcat(xs[..i + 1], xs[i + 1..k + 1]);
    assert ToAst(s).arguments[0] == ToAst(s.left) && ToAst(t).arguments[0] == ToAst(t.left);
  }

  lemma FirstRise(ops: seq<Token>) returns (r: nat)
    requires ops != []
    ensures r < |ops| && NoRiseBefore(ops, r)
    ensures r + 1 < |ops| ==> RiseAt(ops, r)
  {
    r := 0;
    while r + 1 < |ops| && !RiseAt(ops, r)
      invariant r < |ops| && NoRiseBefore(ops, r)
    {
      r := r + 1;
    }
  }

  lemma {:induction false} FallingBefore(ops: seq<Token>, i: nat, r: nat)
    requires i <= r < |ops| && NoRiseBefore(ops, r)
    ensures Prec(ops[r]) <= Prec(ops[i])
    decreases r - i
  {
    if i < r {
      assert !RiseAt(ops, i);
      FallingBefore(ops, i + 1, r);
    }
  }

  /** Without a rise both trees are the left fold. */
  lemma {:induction false} FallingChain(xs: seq<Ast>, ops: seq<Token>)
    requires |xs| == |ops| + 1 && NoRiseBefore(ops, |ops|)
    ensures PrecedenceTree(xs, ops) == LeftFold(Leaf(xs[0]), xs[1..], ops)
    decreases |ops|
  {
    if ops != [] {
      var n := |ops| - 1;
      LastIsLoosest(ops);
      NoRiseInPrefix(ops, n);
      RootOf(xs, ops, n);
      FallingChain(xs[..n + 1], ops[..n]);
      LeftFoldLast(Leaf(xs[0]), xs[1..], ops);
      assert xs[..n + 1][1..] == xs[1..][..n];
      assert ops[n + 1..] == [] && xs[n + 1..][0] == xs[1..][n];
    }
  }

  lemma {:induction false} LastIsLoosest(ops: seq<Token>)
    requires ops != [] && NoRiseBefore(ops, |ops|)
    ensures Loosest(ops) == |ops| - 1
  {
    var n := |ops| - 1;
    assert NoRiseBefore(ops, n);
    forall i | 0 <= i < n ensures Prec(ops[n]) <= Prec(ops[i]) {
      FallingBefore(ops, i, n);
    }
  }

  lemma NoRiseInPrefix(ops: seq<Token>, r: nat)
    requires r <= |ops| && NoRiseBefore(ops, r)
    ensures NoRiseBefore(ops[..r], r)
  {
    forall i: nat | i < |ops[..r]| ensures !RiseAt(ops[..r], i) {
      assert !RiseAt(ops, i);
    }
  }

  lemma {:induction false} RootOf(xs: seq<Ast>, ops: seq<Token>, r: nat)
    requires |xs| == |ops| + 1 && r < |ops| && Loosest(ops) == r
    ensures PrecedenceTree(xs, ops) ==
            Node(ops[r], PrecedenceTree(xs[..r + 1], ops[..r]), PrecedenceTree(xs[r + 1..], ops[r + 1..]))
  {
  }

  lemma {:induction false} LeftFoldLast(left: InfixTree, xs: seq<Ast>, ops: seq<Token>)
    requires |xs| == |ops| && ops != []
    ensures var n := |ops| - 1;
            LeftFold(left, xs, ops) == Node(ops[n], LeftFold(left, xs[..n], ops[..n]), Leaf(xs[n]))
    decreases |ops|
  {
    var n := |ops| - 1;
    if n > 0 {
      LeftFoldLast(Node(ops[0], left, Leaf(xs[0])), xs[1..], ops[1..]);
      assert xs[..n][1..] == xs[1..][..n - 1] && ops[..n][1..] == ops[1..][..n - 1];
    }
  }

  predicate LooserThanLater(ops: seq<Token>, i: nat) {
    forall j | i < j < |ops| :: Prec(ops[i]) < Prec(ops[j])
  }

  lemma RisesSplit(ops: seq<Token>, r: nat)
    requires r + 1 < |ops| && NoRiseBefore(ops, r) && RiseAt(ops, r)
    ensures RisesAreLoosest(ops) <==> RisesAreLoosest(ops[r + 1..]) && LooserThanLater(ops, r)
  {
    var rest := ops[r + 1..];
    forall i: nat | i < |rest| ensures RiseAt(rest, i) <==> RiseAt(ops, i + r + 1)
      ensures LooserThanLater(rest, i) <==> LooserThanLater(ops, i + r + 1)
    {
      LaterInRest(ops, r + 1, i);
    }
    if RisesAreLoosest(rest) && LooserThanLater(ops, r) {
      forall i: nat | i < |ops| && RiseAt(ops, i) ensures LooserThanLater(ops, i) {
        if i > r {
          assert RiseAt(rest, i - r - 1) && LooserThanLater(rest, i - r - 1);
        }
      }
    }
  }

  lemma LaterInRest(ops: seq<Token>, n: nat, i: nat)
    requires n + i < |ops|
    ensures RiseAt(ops[n..], i) <==> RiseAt(ops, i + n)
    ensures LooserThanLater(ops[n..], i) <==> LooserThanLater(ops, i + n)
  {
    var rest := ops[n..];
    if LooserThanLater(rest, i) {
      forall j | i + n < j < |ops| ensures Prec(ops[i + n]) < Prec(ops[j]) {
        assert rest[j - n] == ops[j];
      }
    }
  }

  /** The parser's tree is the left-associative precedence tree if and only if, at every rise,
      the operator before it binds strictly looser than all later operators. */
  lemma {:induction false} PrecedenceExactlyWhen(xs: seq<Ast>, ops: seq<Token>)
    requires |xs| == |ops| + 1
    ensures ToAst(ParserTree(xs, ops)) == ToAst(PrecedenceTree(xs, ops)) <==> RisesAreLoosest(ops)
    ensures RisesAreLoosest(ops) ==> ParserTree(xs, ops) == PrecedenceTree(xs, ops)
    decreases |ops|
  {
    if ops == [] {
      return;
    }
    var r := FirstRise(ops);
    ShapeOfParserTree(xs, ops, r);
    var left := LeftFold(Leaf(xs[0]), xs[1..r + 1], ops[..r]);
    if r + 1 == |ops| {
      assert forall i: nat | i < |ops| :: !RiseAt(ops, i);
      FallingChain(xs, ops);
      LeftFoldLast(Leaf(xs[0]), xs[1..], ops);
      assert xs[1..][..r] == xs[1..r + 1] && ops[r + 1..] == [] && xs[r + 1..][0] == xs[1..][r];
      return;
    }
    RisesSplit(ops, r);
    PrecedenceExactlyWhen(xs[r + 1..], ops[r + 1..]);
    var k := Loosest(ops);
    if k == r {
      RootsAgree(xs, ops, r, left);
    } else {
      RootsDisagree(xs, ops, r, left);
    }
  }

  lemma {:induction false} RootsAgree(xs: seq<Ast>, ops: seq<Token>, r: nat, left: InfixTree)
    requires |xs| == |ops| + 1 && r + 1 < |ops| && NoRiseBefore(ops, r)
    requires Loosest(ops) == r && left == LeftFold(Leaf(xs[0]), xs[1..r + 1], ops[..r])
    ensures PrecedenceTree(xs, ops) == Node(ops[r], left, PrecedenceTree(xs[r + 1..], ops[r + 1..]))
  {
    FallingPrefix(xs[..r + 1], ops, r);
    RootOf(xs, ops, r);
    assert xs[..r + 1][1..] == xs[1..r + 1];
  }

  lemma {:induction false} FallingPrefix(xs: seq<Ast>, ops: seq<Token>, r: nat)
    requires r < |ops| && |xs| == r + 1 && NoRiseBefore(ops, r)
    ensures PrecedenceTree(xs, ops[..r]) == LeftFold(Leaf(xs[0]), xs[1..], ops[..r])
  {
    NoRiseInPrefix(ops, r);
    FallingChain(xs, ops[..r]);
  }

  lemma RootsDisagree(xs: seq<Ast>, ops: seq<Token>, r: nat, left: InfixTree)
    requires |xs| == |ops| + 1 && r + 1 < |ops| && NoRiseBefore(ops, r)
    requires Loosest(ops) != r && left == LeftFold(Leaf(xs[0]), xs[1..r + 1], ops[..r])
    ensures !LooserThanLater(ops, r)
    ensures forall right :: ToAst(Node(ops[r], left, right)) != ToAst(PrecedenceTree(xs, ops))
  {
    LaterLoosest(ops, r);
    LeftFoldConserves(Leaf(xs[0]), xs[1..r + 1], ops[..r]);
    assert [xs[0]] + xs[1..r + 1] == xs[..r + 1];
    PrecedenceTreeSplit(xs, ops);
    forall right ensures ToAst(Node(ops[r], left, right)) != ToAst(PrecedenceTree(xs, ops)) {
      SplitsDiffer(Node(ops[r], left, right), PrecedenceTree(xs, ops), xs, r, Loosest(ops));
    }
  }

  lemma {:induction false} PrecedenceTreeSplit(xs: seq<Ast>, ops: seq<Token>)
    requires |xs| == |ops| + 1 && ops != []
    ensures var t, k := PrecedenceTree(xs, ops), Loosest(ops);
            t.Node? && Operands(t.left) == xs[..k + 1] && |Operators(t.left)| == k
  {
    var k := Loosest(ops);
    PrecedenceTreeConserves(xs[..k + 1], ops[..k]);
  }

  lemma {:induction false} LaterLoosest(ops: seq<Token>, r: nat)
    requires r < |ops| && NoRiseBefore(ops, r) && Loosest(ops) != r
    ensures Loosest(ops) > r && !LooserThanLater(ops, r)
  {
    var k := Loosest(ops);
    if k < r {
      FallingBefore(ops, k, r);
      assert false;
    }
  }

  /** A chain where the two differ: `a - b * c - d` becomes `a - (b * c - d)`. */
  lemma SubtractionRegroups(a: Ast, b: Ast, c: Ast, d: Ast)
    ensures var minus, times := Token(Operator, "-"), Token(Operator, "*");
            && ParserTree([a, b, c, d], [minus, times, minus]) ==
               Node(minus, Leaf(a), Node(minus, Node(times, Leaf(b), Leaf(c)), Leaf(d)))
            && !RisesAreLoosest([minus, times, minus])
  {
    var minus, times := Token(Operator, "-"), Token(Operator, "*");
    var ops, xs := [minus, times, minus], [a, b, c, d];
    assert RiseAt(ops, 0) && !LooserThanLater(ops, 0) by {
      assert Prec(ops[0]) == Prec(ops[2]);
    }
    assert ops[1..] == [times, minus] && ops[1..][1..] == [minus] && ops[1..][1..][1..] == [];
    assert xs[1..] == [b, c, d] && xs[1..][1..] == [c, d] && xs[1..][1..][1..] == [d];
    assert Fold(Node(times, Leaf(b), Leaf(c)), minus, [d], []) ==
           Node(minus, Node(times, Leaf(b), Leaf(c)), Leaf(d));
    assert Fold(Leaf(b), times, [c, d], [minus]) == Node(minus, Node(times, Leaf(b), Leaf(c)), Leaf(d));
  }
}
