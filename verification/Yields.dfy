/** A tree read from left to right gives the tokens it was parsed from, in order. */
module Yields {
  import opened Tokens
  import opened Grammar
  import opened Printer
  import opened Wrappers

  // ----- Tokens that count

  const OPEN_INDEX := Token(OpenIndex, "[")
  const CLOSE_INDEX := Token(CloseIndex, "]")

  /** Round brackets and separators may be redundant; all other tokens count. */
  function Counted(t: Token): seq<Token> {
    match t.kind
    case OpenBlock => []
    case CloseBlock => []
    case ExpressionSeparator => []
    case ParameterSeparator => [BAR]
    case CloseIndex => [CLOSE_INDEX]
    case _ => [t]
  }

  function Kept(ts: seq<Token>): seq<Token> {
    if ts == [] then [] else Kept(ts[..|ts| - 1]) + Counted(ts[|ts| - 1])
  }

  function Between(ts: seq<Token>, p: nat, q: nat): seq<Token>
    requires p <= q <= |ts|
  {
    Kept(ts[p..q])
  }

  lemma {:induction false} KeptOfBoth(s: seq<Token>, t: seq<Token>)
    ensures Kept(s + t) == Kept(s) + Kept(t)
    decreases |t|
  {
    if t == [] {
      assert s + t == s;
    } else {
      var front := t[..|t| - 1];
      KeptOfBoth(s, front);
      KeptLonger(s, front, t[|t| - 1], t);
    }
  }

  lemma {:induction false} KeptLonger(s: seq<Token>, front: seq<Token>, x: Token, t: seq<Token>)
    requires t == front + [x] && Kept(s + front) == Kept(s) + Kept(front)
    ensures Kept(s + t) == Kept(s) + Kept(t)
  {
    KeptOneMore(s + front, x);
    KeptOneMore(front, x);
    Appended(s, front, x);
    Grouped(Kept(s), Kept(front), Counted(x));
  }

  lemma Appended(s: seq<Token>, t: seq<Token>, x: Token)
    ensures s + t + [x] == s + (t + [x])
  {
  }

  lemma {:induction false} KeptOneMore(ts: seq<Token>, t: Token)
    ensures Kept(ts + [t]) == Kept(ts) + Counted(t)
  {
    assert (ts + [t])[..|ts|] == ts;
  }

  lemma Grouped(a: seq<Token>, b: seq<Token>, c: seq<Token>)
    ensures a + b + c == a + (b + c)
  {
  }

  lemma InTwo(ts: seq<Token>, p: nat, q: nat, r: nat)
    requires p <= q <= r <= |ts|
    ensures Between(ts, p, r) == Between(ts, p, q) + Between(ts, q, r)
  {
    assert ts[p..r] == ts[p..q] + ts[q..r];
    KeptOfBoth(ts[p..q], ts[q..r]);
  }

  lemma OneCounts(ts: seq<Token>, p: nat)
    requires p < |ts|
    ensures Between(ts, p, p + 1) == Counted(ts[p])
  {
    assert ts[p..p + 1] == [] + [ts[p]];
    KeptOneMore([], ts[p]);
  }

  lemma {:induction false} SeparatorsCountNothing(ts: seq<Token>, p: nat)
    requires p <= |ts|
    ensures Between(ts, p, SkipSeparators(ts, p)) == []
    decreases |ts| - p
  {
    if Expect(ts, p, ExpressionSeparator) {
      SeparatorsCountNothing(ts, p + 1);
      InTwo(ts, p, p + 1, SkipSeparators(ts, p));
      OneCounts(ts, p);
    }
  }

  // ----- Trees, read from left to right

  /** An index node is read as what is indexed, its bracket, the index and a closing bracket. */
  function Yield(a: Ast): seq<Token>
    decreases a
  {
    match a.kind
    case Literal => [a.token]
    case Binary =>
      if |a.arguments| != 2 then []
      else
        Yield(a.arguments[0]) + [a.token] + Yield(a.arguments[1]) +
        (if a.token.kind == OpenIndex then [CLOSE_INDEX] else [])
    case VariableDeclaration =>
      if |a.arguments| != 2 then [] else Yield(a.arguments[0]) + [ASSIGN] + Yield(a.arguments[1])
    case Lambda =>
      if a.arguments == [] then []
      else var n := |a.arguments| - 1; YieldAll(a.arguments[..n]) + [BAR] + Yield(a.arguments[n])
    case _ => YieldAll(a.arguments)
  }

  function YieldAll(es: seq<Ast>): seq<Token>
    decreases es
  {
    if es == [] then [] else YieldAll(es[..|es| - 1]) + Yield(es[|es| - 1])
  }

  lemma {:induction false} YieldOneMore(es: seq<Ast>, a: Ast)
    ensures YieldAll(es + [a]) == YieldAll(es) + Yield(a)
  {
    assert (es + [a])[..|es|] == es;
  }

  lemma {:induction false} YieldOfOne(a: Ast)
    ensures YieldAll([a]) == Yield(a)
  {
    assert [a] == [] + [a];
    YieldOneMore([], a);
  }

  lemma {:induction false} YieldOfWrapped(trees: seq<Ast>)
    requires trees != []
    ensures Yield(WrapIfSeveral(trees)) == YieldAll(trees)
  {
    if |trees| == 1 {
      YieldOfOne(trees[0]);
      assert trees == [trees[0]];
    }
  }

  lemma {:induction false} YieldOfBinary(op: Token, left: Ast, right: Ast)
    ensures Yield(BinaryAst(op, [left, right])) ==
            Yield(left) + [op] + Yield(right) + (if op.kind == OpenIndex then [CLOSE_INDEX] else [])
    ensures AddArgument(BinaryAst(op, [left]), right) == BinaryAst(op, [left, right])
  {
  }

  lemma {:induction false} YieldOfLambda(body: Ast, parameters: seq<Ast>)
    ensures Yield(LambdaAst(body, parameters)) == YieldAll(parameters) + [BAR] + Yield(body)
  {
    assert (parameters + [body])[..|parameters|] == parameters;
  }

  lemma {:induction false} YieldOfBlock(body: Ast)
    ensures Yield(BlockAst(body)) == Yield(body)
    ensures body.kind == Sequence ==> Yield(body) == YieldAll(body.arguments)
    ensures |body.arguments| == 1 ==> YieldAll(body.arguments) == Yield(body.arguments[0])
  {
    YieldOfOne(body);
    if |body.arguments| == 1 {
      YieldOfOne(body.arguments[0]);
      assert body.arguments == [body.arguments[0]];
    }
  }

  // ----- Attempts that are given up
  //
  // A loop ends when an attempt fails.  The cursor stays where the attempt left it, and tokens it
  // had passed are in no tree.  These functions count them, for routines that succeed.

  function Passed(ts: seq<Token>, p: nat, q: nat): nat
    requires p <= q <= |ts|
  {
    |Between(ts, p, q)|
  }

  function LostInSequence(ts: seq<Token>, p: nat): nat
    requires p <= |ts|
    decreases |ts| - p, 10
  {
    var q := SkipSeparators(ts, p);
    if q >= |ts| then 0 else LostInExpressions(ts, q)
  }

  function LostInExpressions(ts: seq<Token>, p: nat): nat
    requires p <= |ts|
    decreases |ts| - p, 9
  {
    var e := Expression(ts, p);
    if !e.outcome.Ok? then Passed(ts, p, e.next)
    else if !Expect(ts, e.next, ExpressionSeparator) then LostInExpression(ts, p)
    else LostInExpression(ts, p) + LostInExpressions(ts, SkipSeparators(ts, e.next))
  }

  function LostInExpression(ts: seq<Token>, p: nat): nat
    requires p <= |ts|
    decreases |ts| - p, 8
  {
    if ExpectDeclaration(ts, p) then LostInExpression(ts, p + 2) else LostInOperands(ts, p)
  }

  /** An operand, and the operators and operands behind it. */
  function LostInOperands(ts: seq<Token>, p: nat): nat
    requires p <= |ts|
    decreases |ts| - p, 7
  {
    var m := ManyAtomics(ts, p, []);
    if m.outcome.Ok? && NextIsOperator(ts, m.next) then LostInAtomics(ts, p) + LostInOperands(ts, m.next + 1)
    else LostInAtomics(ts, p)
  }

  function LostInAtomics(ts: seq<Token>, p: nat): nat
    requires p <= |ts|
    decreases |ts| - p, 6
  {
    var e := IndexExpression(ts, p);
    if !e.outcome.Ok? then Passed(ts, p, e.next) else LostInIndexed(ts, p) + LostInAtomics(ts, e.next)
  }

  function LostInIndexed(ts: seq<Token>, p: nat): nat
    requires p <= |ts|
    decreases |ts| - p, 5
  {
    var a := Atomic(ts, p);
    if !a.outcome.Ok? then 0
    else (if ts[p].kind == OpenBlock then LostInBlock(ts, p + 1) else 0) + LostInIndices(ts, a.next)
  }

  function LostInIndices(ts: seq<Token>, p: nat): nat
    requires p <= |ts|
    decreases |ts| - p, 5
  {
    if !Expect(ts, p, OpenIndex) then 0
    else
      var i := SequenceInside(ts, p + 1, CloseIndex, false, [], None);
      LostInSequence(ts, p + 1) + if i.outcome.Ok? then LostInIndices(ts, i.next) else 0
  }

  function LostInBlock(ts: seq<Token>, start: nat): nat
    requires start <= |ts|
    decreases |ts| - start, 12
  {
    if Expect(ts, start, CloseBlock) then 0
    else if Expect(ts, start, ParameterSeparator) then LostInSequence(ts, start + 1)
    else
      var ps := ManyIdentifiers(ts, start, []);
      if ps.outcome.Ok? && Expect(ts, ps.next, ParameterSeparator) then LostInSequence(ts, ps.next + 1)
      else LostInSequence(ts, start)
  }

  // ----- Every token that counts is in the tree, or was lost

  /** From `known` and the tokens from `p` to `q`, but for the `lost` ones, comes `read`. */
  ghost predicate Accounts(ts: seq<Token>, p: nat, known: seq<Token>, lost: nat, read: seq<Token>, q: nat) {
    && p <= q <= |ts|
    && |read| + lost == |known| + |Between(ts, p, q)|
    && (lost == 0 ==> read == known + Between(ts, p, q))
  }

  lemma Joined(ts: seq<Token>, p: nat, a: seq<Token>, l: nat, b: seq<Token>, q: nat, m: nat, c: seq<Token>, r: nat)
    requires Accounts(ts, p, a, l, b, q) && Accounts(ts, q, b, m, c, r)
    ensures Accounts(ts, p, a, l + m, c, r)
  {
    InTwo(ts, p, q, r);
    Grouped(a, Between(ts, p, q), Between(ts, q, r));
  }

  lemma Behind(ts: seq<Token>, known: seq<Token>, p: nat, lost: nat, read: seq<Token>, q: nat)
    requires Accounts(ts, p, [], lost, read, q)
    ensures Accounts(ts, p, known, lost, known + read, q)
  {
    assert [] + Between(ts, p, q) == Between(ts, p, q);
  }

  lemma TokenAccounts(ts: seq<Token>, p: nat, known: seq<Token>)
    requires p < |ts|
    ensures Accounts(ts, p, known, 0, known + Counted(ts[p]), p + 1)
  {
    OneCounts(ts, p);
  }

  lemma {:induction false} SeparatorsAccount(ts: seq<Token>, p: nat, known: seq<Token>)
    requires p <= |ts|
    ensures Accounts(ts, p, known, 0, known, SkipSeparators(ts, p))
  {
    SeparatorsCountNothing(ts, p);
    assert known + [] == known;
  }

  lemma {:induction false} SequenceAccounts(ts: seq<Token>, p: nat)
    requires p <= |ts| && SequenceOf(ts, p).outcome.Ok?
    ensures var r := SequenceOf(ts, p);
            Accounts(ts, p, [], LostInSequence(ts, p), Yield(r.outcome.value), r.next)
    decreases |ts| - p, 10
  {
    var q := SkipSeparators(ts, p);
    SeparatorsAccount(ts, p, []);
    if q < |ts| {
      ExpressionsAccount(ts, q, []);
      var m := ManyExpressions(ts, q, []);
      Joined(ts, p, [], 0, [], q, LostInExpressions(ts, q), YieldAll(m.outcome.value), m.next);
    }
  }

  lemma {:induction false} ExpressionsAccount(ts: seq<Token>, p: nat, trees: seq<Ast>)
    requires p <= |ts| && ManyExpressions(ts, p, trees).outcome.Ok?
    ensures var r := ManyExpressions(ts, p, trees);
            Accounts(ts, p, YieldAll(trees), LostInExpressions(ts, p), YieldAll(r.outcome.value), r.next)
    decreases |ts| - p, 9
  {
    var e := Expression(ts, p);
    if e.outcome.Ok? {
      var a := e.outcome.value;
      ExpressionAccounts(ts, p);
      Behind(ts, YieldAll(trees), p, LostInExpression(ts, p), Yield(a), e.next);
      YieldOneMore(trees, a);
      if Expect(ts, e.next, ExpressionSeparator) {
        MoreExpressionsAccount(ts, p, trees, a, e.next);
      }
    }
  }

  lemma {:induction false} MoreExpressionsAccount(ts: seq<Token>, p: nat, trees: seq<Ast>, a: Ast, q: nat)
    requires p < q < |ts| && Expression(ts, p) == Parsed(Ok(a), q) && Expect(ts, q, ExpressionSeparator)
    requires Accounts(ts, p, YieldAll(trees), LostInExpression(ts, p), YieldAll(trees + [a]), q)
    requires ManyExpressions(ts, p, trees).outcome.Ok?
    ensures var r := ManyExpressions(ts, p, trees);
            Accounts(ts, p, YieldAll(trees), LostInExpressions(ts, p), YieldAll(r.outcome.value), r.next)
    decreases |ts| - p, 8
  {
    var r, next := ManyExpressions(ts, p, trees), SkipSeparators(ts, q);
    SeparatorsAccount(ts, q, YieldAll(trees + [a]));
    ExpressionsAccount(ts, next, trees + [a]);
    var read := YieldAll(r.outcome.value);
    Joined(ts, q, YieldAll(trees + [a]), 0, YieldAll(trees + [a]), next, LostInExpressions(ts, next), read, r.next);
    Joined(ts, p, YieldAll(trees), LostInExpression(ts, p), YieldAll(trees + [a]), q,
           LostInExpressions(ts, next), read, r.next);
  }

  lemma {:induction false} ExpressionAccounts(ts: seq<Token>, p: nat)
    requires p <= |ts| && Expression(ts, p).outcome.Ok?
    ensures var r := Expression(ts, p);
            Accounts(ts, p, [], LostInExpression(ts, p), Yield(r.outcome.value), r.next)
    decreases |ts| - p, 8
  {
    if ExpectDeclaration(ts, p) {
      DeclarationAccounts(ts, p);
    } else {
      InfixAccounts(ts, p);
    }
  }

  lemma {:induction false} DeclarationAccounts(ts: seq<Token>, p: nat)
    requires p <= |ts| && ExpectDeclaration(ts, p) && Declaration(ts, p).outcome.Ok?
    ensures var r := Declaration(ts, p);
            Accounts(ts, p, [], LostInExpression(ts, p + 2), Yield(r.outcome.value), r.next)
    decreases |ts| - p, 7
  {
    var value := Expression(ts, p + 2);
    var known, lost, read := [ts[p], ASSIGN], LostInExpression(ts, p + 2), Yield(value.outcome.value);
    NameAccounts(ts, p);
    ExpressionAccounts(ts, p + 2);
    Behind(ts, known, p + 2, lost, read, value.next);
    Joined(ts, p, [], 0, known, p + 2, lost, known + read, value.next);
    YieldOfDeclaration(ts[p], value.outcome.value);
  }

  lemma NameAccounts(ts: seq<Token>, p: nat)
    requires ExpectDeclaration(ts, p)
    ensures Accounts(ts, p, [], 0, [ts[p], ASSIGN], p + 2)
  {
    InTwo(ts, p, p + 1, p + 2);
    OneCounts(ts, p);
    OneCounts(ts, p + 1);
  }

  lemma {:induction false} YieldOfDeclaration(name: Token, value: Ast)
    ensures Yield(DeclarationAst(LiteralAst(name), value)) == [name, ASSIGN] + Yield(value)
  {
    assert Yield(LiteralAst(name)) == [name];
  }

  lemma {:induction false} InfixAccounts(ts: seq<Token>, p: nat)
    requires p <= |ts| && Infix(ts, p).outcome.Ok?
    ensures var r := Infix(ts, p);
            Accounts(ts, p, [], LostInOperands(ts, p), Yield(r.outcome.value), r.next)
    decreases |ts| - p, 7
  {
    InfixOfOperand(ts, p);
    var m := ManyAtomics(ts, p, []);
    OperandAccounts(ts, p);
    if NextIsOperator(ts, m.next) {
      OperandsAccount(ts, p, WrapIfSeveral(m.outcome.value), m.next, LostInAtomics(ts, p));
    }
  }

  lemma InfixOfOperand(ts: seq<Token>, p: nat)
    requires p <= |ts| && Infix(ts, p).outcome.Ok?
    ensures var m := ManyAtomics(ts, p, []);
            && m.outcome.Ok?
            && if NextIsOperator(ts, m.next) then
                 && Infix(ts, p) == InfixRhs(ts, m.next + 1, BinaryAst(ts[m.next], [WrapIfSeveral(m.outcome.value)]))
                 && LostInOperands(ts, p) == LostInAtomics(ts, p) + LostInOperands(ts, m.next + 1)
               else
                 && Infix(ts, p) == Parsed(Ok(WrapIfSeveral(m.outcome.value)), m.next)
                 && LostInOperands(ts, p) == LostInAtomics(ts, p)
  {
  }

  lemma {:induction false} OperandAccounts(ts: seq<Token>, p: nat)
    requires p <= |ts| && ManyAtomics(ts, p, []).outcome.Ok?
    ensures var m := ManyAtomics(ts, p, []);
            Accounts(ts, p, [], LostInAtomics(ts, p), Yield(WrapIfSeveral(m.outcome.value)), m.next)
    decreases |ts| - p, 6
  {
    AtomicsAccount(ts, p, []);
    YieldOfWrapped(ManyAtomics(ts, p, []).outcome.value);
  }

  lemma {:induction false} OperandsAccount(ts: seq<Token>, p: nat, left: Ast, q: nat, l: nat)
    requires p < q < |ts| && NextIsOperator(ts, q) && Accounts(ts, p, [], l, Yield(left), q)
    requires InfixRhs(ts, q + 1, BinaryAst(ts[q], [left])).outcome.Ok?
    ensures var r := InfixRhs(ts, q + 1, BinaryAst(ts[q], [left]));
            Accounts(ts, p, [], l + LostInOperands(ts, q + 1), Yield(r.outcome.value), r.next)
    decreases |ts| - p, 6
  {
    var r := InfixRhs(ts, q + 1, BinaryAst(ts[q], [left]));
    RhsAccounts(ts, q + 1, ts[q], left);
    AroundOperator(ts, p, [], l, Yield(left), q, LostInOperands(ts, q + 1), Yield(r.outcome.value), r.next);
  }

  /** What was read up to an operator, and what comes behind it. */
  lemma AroundOperator(ts: seq<Token>, p: nat, a: seq<Token>, l: nat, b: seq<Token>, q: nat, m: nat,
                       c: seq<Token>, r: nat)
    requires Accounts(ts, p, a, l, b, q) && NextIsOperator(ts, q) && Accounts(ts, q + 1, b + [ts[q]], m, c, r)
    ensures Accounts(ts, p, a, l + m, c, r)
  {
    TokenAccounts(ts, q, b);
    Joined(ts, p, a, l, b, q, 0, b + [ts[q]], q + 1);
    Joined(ts, p, a, l, b + [ts[q]], q + 1, m, c, r);
  }

  lemma {:induction false} RhsAccounts(ts: seq<Token>, p: nat, op: Token, left: Ast)
    requires p <= |ts| && op.kind != OpenIndex && InfixRhs(ts, p, BinaryAst(op, [left])).outcome.Ok?
    ensures var r := InfixRhs(ts, p, BinaryAst(op, [left]));
            Accounts(ts, p, Yield(left) + [op], LostInOperands(ts, p), Yield(r.outcome.value), r.next)
    decreases |ts| - p, 8
  {
    var m := ManyAtomics(ts, p, []);
    var rhs := WrapIfSeveral(m.outcome.value);
    OperandAccounts(ts, p);
    OperatorNode(op, left, rhs);
    if NextIsOperator(ts, m.next) {
      NextRhsAccounts(ts, p, op, left, rhs, m.next);
    } else {
      Behind(ts, Yield(left) + [op], p, LostInAtomics(ts, p), Yield(rhs), m.next);
    }
  }

  /** The right operand goes on with another operator. */
  lemma {:induction false} NextRhsAccounts(ts: seq<Token>, p: nat, op: Token, left: Ast, rhs: Ast, q: nat)
    requires p < q < |ts| && op.kind != OpenIndex && NextIsOperator(ts, q)
    requires ManyAtomics(ts, p, []).outcome.Ok? && ManyAtomics(ts, p, []).next == q
    requires rhs == WrapIfSeveral(ManyAtomics(ts, p, []).outcome.value)
    requires Accounts(ts, p, [], LostInAtomics(ts, p), Yield(rhs), q)
    requires InfixRhs(ts, p, BinaryAst(op, [left])).outcome.Ok?
    ensures var r := InfixRhs(ts, p, BinaryAst(op, [left]));
            Accounts(ts, p, Yield(left) + [op], LostInOperands(ts, p), Yield(r.outcome.value), r.next)
    decreases |ts| - p, 7
  {
    LostBehindOperand(ts, p, q);
    if Precedence(op.source) >= Precedence(ts[q].source) {
      RhsFalls(ts, p, op, left, rhs, q);
      RhsAccounts(ts, q + 1, ts[q], BinaryAst(op, [left, rhs]));
      FallAccounts(ts, p, op, left, rhs, q, LostInAtomics(ts, p), LostInOperands(ts, q + 1),
                   InfixRhs(ts, p, BinaryAst(op, [left])));
    } else {
      RhsRises(ts, p, op, left, rhs, q);
      RhsAccounts(ts, q + 1, ts[q], rhs);
      RiseAccounts(ts, p, op, left, rhs, q, LostInAtomics(ts, p), LostInOperands(ts, q + 1),
                   InfixRhs(ts, q + 1, BinaryAst(ts[q], [rhs])));
    }
  }

  lemma {:induction false} LostBehindOperand(ts: seq<Token>, p: nat, q: nat)
    requires p < q < |ts| && NextIsOperator(ts, q)
    requires ManyAtomics(ts, p, []).outcome.Ok? && ManyAtomics(ts, p, []).next == q
    ensures LostInOperands(ts, p) == LostInAtomics(ts, p) + LostInOperands(ts, q + 1)
  {
  }

  lemma {:induction false} RhsFalls(ts: seq<Token>, p: nat, op: Token, left: Ast, rhs: Ast, q: nat)
    requires p < q < |ts| && op.kind != OpenIndex && NextIsOperator(ts, q)
    requires ManyAtomics(ts, p, []).outcome.Ok? && ManyAtomics(ts, p, []).next == q
    requires rhs == WrapIfSeveral(ManyAtomics(ts, p, []).outcome.value)
    requires InfixRhs(ts, p, BinaryAst(op, [left])).outcome.Ok?
    requires Precedence(op.source) >= Precedence(ts[q].source)
    ensures InfixRhs(ts, p, BinaryAst(op, [left])) ==
            InfixRhs(ts, q + 1, BinaryAst(ts[q], [BinaryAst(op, [left, rhs])]))
  {
    OperatorNode(op, left, rhs);
  }

  lemma {:induction false} RhsRises(ts: seq<Token>, p: nat, op: Token, left: Ast, rhs: Ast, q: nat)
    requires p < q < |ts| && NextIsOperator(ts, q)
    requires ManyAtomics(ts, p, []).outcome.Ok? && ManyAtomics(ts, p, []).next == q
    requires rhs == WrapIfSeveral(ManyAtomics(ts, p, []).outcome.value)
    requires InfixRhs(ts, p, BinaryAst(op, [left])).outcome.Ok?
    requires Precedence(op.source) < Precedence(ts[q].source)
    ensures var r := InfixRhs(ts, q + 1, BinaryAst(ts[q], [rhs]));
            && r.outcome.Ok?
            && InfixRhs(ts, p, BinaryAst(op, [left])) ==
               Parsed(Ok(AddArgument(BinaryAst(op, [left]), r.outcome.value)), r.next)
  {
  }

  lemma {:induction false} FallAccounts(ts: seq<Token>, p: nat, op: Token, left: Ast, rhs: Ast,
                                        q: nat, l: nat, m: nat, r: Parsed<Ast>)
    requires p < q < |ts| && op.kind != OpenIndex && NextIsOperator(ts, q) && r.outcome.Ok?
    requires Accounts(ts, p, [], l, Yield(rhs), q)
    requires Accounts(ts, q + 1, Yield(BinaryAst(op, [left, rhs])) + [ts[q]], m, Yield(r.outcome.value), r.next)
    ensures Accounts(ts, p, Yield(left) + [op], l + m, Yield(r.outcome.value), r.next)
  {
    Behind(ts, Yield(left) + [op], p, l, Yield(rhs), q);
    OperatorNode(op, left, rhs);
    AroundOperator(ts, p, Yield(left) + [op], l, Yield(BinaryAst(op, [left, rhs])), q, m,
                   Yield(r.outcome.value), r.next);
  }

  lemma {:induction false} RiseAccounts(ts: seq<Token>, p: nat, op: Token, left: Ast, rhs: Ast,
                                        q: nat, l: nat, m: nat, r: Parsed<Ast>)
    requires p < q < |ts| && op.kind != OpenIndex && NextIsOperator(ts, q) && r.outcome.Ok?
    requires Accounts(ts, p, [], l, Yield(rhs), q)
    requires Accounts(ts, q + 1, Yield(rhs) + [ts[q]], m, Yield(r.outcome.value), r.next)
    ensures Accounts(ts, p, Yield(left) + [op], l + m, Yield(BinaryAst(op, [left, r.outcome.value])), r.next)
    ensures AddArgument(BinaryAst(op, [left]), r.outcome.value) == BinaryAst(op, [left, r.outcome.value])
  {
    AroundOperator(ts, p, [], l, Yield(rhs), q, m, Yield(r.outcome.value), r.next);
    Behind(ts, Yield(left) + [op], p, l + m, Yield(r.outcome.value), r.next);
    OperatorNode(op, left, r.outcome.value);
  }

  lemma {:induction false} OperatorNode(op: Token, left: Ast, right: Ast)
    requires op.kind != OpenIndex
    ensures Yield(BinaryAst(op, [left, right])) == Yield(left) + [op] + Yield(right)
    ensures AddArgument(BinaryAst(op, [left]), right) == BinaryAst(op, [left, right])
  {
    YieldOfBinary(op, left, right);
    assert Yield(left) + [op] + Yield(right) + [] == Yield(left) + [op] + Yield(right);
  }

  lemma {:induction false} AtomicsAccount(ts: seq<Token>, p: nat, trees: seq<Ast>)
    requires p <= |ts| && ManyAtomics(ts, p, trees).outcome.Ok?
    ensures var r := ManyAtomics(ts, p, trees);
            Accounts(ts, p, YieldAll(trees), LostInAtomics(ts, p), YieldAll(r.outcome.value), r.next)
    decreases |ts| - p, 5
  {
    var e := IndexExpression(ts, p);
    if e.outcome.Ok? {
      var a, r := e.outcome.value, ManyAtomics(ts, p, trees);
      IndexedAccounts(ts, p);
      Behind(ts, YieldAll(trees), p, LostInIndexed(ts, p), Yield(a), e.next);
      YieldOneMore(trees, a);
      AtomicsAccount(ts, e.next, trees + [a]);
      Joined(ts, p, YieldAll(trees), LostInIndexed(ts, p), YieldAll(trees + [a]), e.next,
             LostInAtomics(ts, e.next), YieldAll(r.outcome.value), r.next);
    }
  }

  lemma {:induction false} IndexedAccounts(ts: seq<Token>, p: nat)
    requires p <= |ts| && IndexExpression(ts, p).outcome.Ok?
    ensures var r := IndexExpression(ts, p);
            Accounts(ts, p, [], LostInIndexed(ts, p), Yield(r.outcome.value), r.next)
    decreases |ts| - p, 4
  {
    var a, r := Atomic(ts, p), IndexExpression(ts, p);
    var lost := if ts[p].kind == OpenBlock then LostInBlock(ts, p + 1) else 0;
    AtomicAccounts(ts, p);
    IndicesAccount(ts, a.next, a.outcome.value);
    Joined(ts, p, [], lost, Yield(a.outcome.value), a.next, LostInIndices(ts, a.next), Yield(r.outcome.value), r.next);
  }

  lemma {:induction false} AtomicAccounts(ts: seq<Token>, p: nat)
    requires p <= |ts| && Atomic(ts, p).outcome.Ok?
    ensures var a := Atomic(ts, p);
            var lost := if ts[p].kind == OpenBlock then LostInBlock(ts, p + 1) else 0;
            Accounts(ts, p, [], lost, Yield(a.outcome.value), a.next)
    decreases |ts| - p, 3
  {
    if ts[p].kind == OpenBlock {
      var a := Atomic(ts, p);
      OneCounts(ts, p);
      BlockAccounts(ts, p + 1);
      Joined(ts, p, [], 0, [], p + 1, LostInBlock(ts, p + 1), Yield(a.outcome.value), a.next);
    } else {
      LiteralAccounts(ts, p);
    }
  }

  lemma LiteralAccounts(ts: seq<Token>, p: nat)
    requires p < |ts| && Counted(ts[p]) == [ts[p]]
    ensures Accounts(ts, p, [], 0, Yield(LiteralAst(ts[p])), p + 1)
  {
    OneCounts(ts, p);
  }

  lemma {:induction false} IndicesAccount(ts: seq<Token>, p: nat, indexed: Ast)
    requires p <= |ts| && Indices(ts, p, indexed).outcome.Ok?
    ensures var r := Indices(ts, p, indexed);
            Accounts(ts, p, Yield(indexed), LostInIndices(ts, p), Yield(r.outcome.value), r.next)
    decreases |ts| - p, 5
  {
    if Expect(ts, p, OpenIndex) {
      var i, r := SequenceInside(ts, p + 1, CloseIndex, false, [], None), Indices(ts, p, indexed);
      var next := BinaryAst(ts[p], [indexed, i.outcome.value]);
      OneIndexAccounts(ts, p, indexed);
      IndicesAccount(ts, i.next, next);
      Joined(ts, p, Yield(indexed), LostInSequence(ts, p + 1), Yield(next), i.next,
             LostInIndices(ts, i.next), Yield(r.outcome.value), r.next);
    } else {
      assert Between(ts, p, p) == [];
    }
  }

  lemma {:induction false} OneIndexAccounts(ts: seq<Token>, p: nat, indexed: Ast)
    requires p < |ts| && ts[p].kind == OpenIndex
    requires SequenceInside(ts, p + 1, CloseIndex, false, [], None).outcome.Ok?
    ensures var i := SequenceInside(ts, p + 1, CloseIndex, false, [], None);
            Accounts(ts, p, Yield(indexed), LostInSequence(ts, p + 1),
                     Yield(BinaryAst(ts[p], [indexed, i.outcome.value])), i.next)
    decreases |ts| - p, 4
  {
    var i := SequenceInside(ts, p + 1, CloseIndex, false, [], None);
    var known, lost, index := Yield(indexed) + [ts[p]], LostInSequence(ts, p + 1), Yield(i.outcome.value);
    TokenAccounts(ts, p, Yield(indexed));
    InsideIndexAccounts(ts, p + 1);
    Behind(ts, known, p + 1, lost, index + [CLOSE_INDEX], i.next);
    Joined(ts, p, Yield(indexed), 0, known, p + 1, lost, known + (index + [CLOSE_INDEX]), i.next);
    YieldOfBinary(ts[p], indexed, i.outcome.value);
    Grouped(known, index, [CLOSE_INDEX]);
  }

  lemma {:induction false} BlockAccounts(ts: seq<Token>, start: nat)
    requires start <= |ts| && BlockOrLambda(ts, start).outcome.Ok?
    ensures var r := BlockOrLambda(ts, start);
            Accounts(ts, start, [], LostInBlock(ts, start), Yield(r.outcome.value), r.next)
    decreases |ts| - start, 13
  {
    if Expect(ts, start, CloseBlock) {
      TokenAccounts(ts, start, []);
      YieldOfBlock(SequenceAst([]));
    } else if Expect(ts, start, ParameterSeparator) {
      LambdaAccounts(ts, start, [], start);
    } else {
      ParametersAccount(ts, start);
    }
  }

  lemma {:induction false} ParametersAccount(ts: seq<Token>, start: nat)
    requires start <= |ts| && !Expect(ts, start, CloseBlock) && !Expect(ts, start, ParameterSeparator)
    requires BlockOrLambda(ts, start).outcome.Ok?
    ensures var r := BlockOrLambda(ts, start);
            Accounts(ts, start, [], LostInBlock(ts, start), Yield(r.outcome.value), r.next)
    decreases |ts| - start, 12
  {
    var ps := ManyIdentifiers(ts, start, []);
    if ps.outcome.Ok? && Expect(ts, ps.next, ParameterSeparator) {
      IdentifiersAccount(ts, start, []);
      LambdaAccounts(ts, start, ps.outcome.value, ps.next);
    } else {
      InsideAccounts(ts, start, false, [], Some(start));
    }
  }

  lemma {:induction false} LambdaAccounts(ts: seq<Token>, start: nat, parameters: seq<Ast>, bar: nat)
    requires start <= bar < |ts| && ts[bar].kind == ParameterSeparator
    requires Accounts(ts, start, [], 0, YieldAll(parameters), bar)
    requires SequenceInside(ts, bar + 1, CloseBlock, true, parameters, Some(start)).outcome.Ok?
    ensures var r := SequenceInside(ts, bar + 1, CloseBlock, true, parameters, Some(start));
            Accounts(ts, start, [], LostInSequence(ts, bar + 1), Yield(r.outcome.value), r.next)
    decreases |ts| - bar, 11
  {
    var r := SequenceInside(ts, bar + 1, CloseBlock, true, parameters, Some(start));
    InsideAccounts(ts, bar + 1, true, parameters, Some(start));
    BehindBar(ts, start, YieldAll(parameters), bar, LostInSequence(ts, bar + 1), Yield(r.outcome.value), r.next);
  }

  lemma BehindBar(ts: seq<Token>, start: nat, names: seq<Token>, bar: nat, lost: nat, read: seq<Token>, q: nat)
    requires start <= bar < |ts| && ts[bar].kind == ParameterSeparator
    requires Accounts(ts, start, [], 0, names, bar) && Accounts(ts, bar + 1, names + [BAR], lost, read, q)
    ensures Accounts(ts, start, [], lost, read, q)
  {
    TokenAccounts(ts, bar, names);
    Joined(ts, start, [], 0, names, bar, 0, names + [BAR], bar + 1);
    Joined(ts, start, [], 0, names + [BAR], bar + 1, lost, read, q);
  }

  /** What was read of a lambda ahead of its body. */
  function Head(isLambda: bool, parameters: seq<Ast>): seq<Token> {
    if isLambda then YieldAll(parameters) + [BAR] else []
  }

  lemma {:induction false} InsideReads(ts: seq<Token>, p: nat, closing: TokenType, isLambda: bool,
                                       parameters: seq<Ast>, start: Option<nat>)
    requires p <= |ts| && (start.Some? ==> start.value <= p)
    requires SequenceInside(ts, p, closing, isLambda, parameters, start).outcome.Ok?
    ensures var r, s := SequenceInside(ts, p, closing, isLambda, parameters, start), SequenceOf(ts, p);
            && s.outcome.Ok? && Expect(ts, s.next, closing) && r.next == s.next + 1
            && Yield(r.outcome.value) == Head(isLambda, parameters) + Yield(s.outcome.value)
  {
    var body := SequenceOf(ts, p).outcome.value;
    YieldOfBlock(body);
    YieldOfLambda(body, parameters);
    assert [] + Yield(body) == Yield(body);
  }

  /** The content of a block and its closing bracket, behind what was read before a lambda's body. */
  lemma {:induction false} InsideAccounts(ts: seq<Token>, p: nat, isLambda: bool, parameters: seq<Ast>,
                                          start: Option<nat>)
    requires p <= |ts| && (start.Some? ==> start.value <= p)
    requires SequenceInside(ts, p, CloseBlock, isLambda, parameters, start).outcome.Ok?
    ensures var r := SequenceInside(ts, p, CloseBlock, isLambda, parameters, start);
            Accounts(ts, p, Head(isLambda, parameters), LostInSequence(ts, p), Yield(r.outcome.value), r.next)
    decreases |ts| - p, 11
  {
    var s, head := SequenceOf(ts, p), Head(isLambda, parameters);
    InsideReads(ts, p, CloseBlock, isLambda, parameters, start);
    SequenceAccounts(ts, p);
    Behind(ts, head, p, LostInSequence(ts, p), Yield(s.outcome.value), s.next);
    ClosingAccounts(ts, p, head, LostInSequence(ts, p), head + Yield(s.outcome.value), s.next);
  }

  lemma {:induction false} InsideIndexAccounts(ts: seq<Token>, p: nat)
    requires p <= |ts| && SequenceInside(ts, p, CloseIndex, false, [], None).outcome.Ok?
    ensures var r := SequenceInside(ts, p, CloseIndex, false, [], None);
            Accounts(ts, p, [], LostInSequence(ts, p), Yield(r.outcome.value) + [CLOSE_INDEX], r.next)
    decreases |ts| - p, 11
  {
    var s := SequenceOf(ts, p);
    InsideReads(ts, p, CloseIndex, false, [], None);
    SequenceAccounts(ts, p);
    assert [] + Yield(s.outcome.value) == Yield(s.outcome.value);
    ClosingAccounts(ts, p, [], LostInSequence(ts, p), Yield(s.outcome.value), s.next);
  }

  lemma ClosingAccounts(ts: seq<Token>, p: nat, known: seq<Token>, lost: nat, read: seq<Token>, q: nat)
    requires Accounts(ts, p, known, lost, read, q)
    ensures Expect(ts, q, CloseBlock) ==> Accounts(ts, p, known, lost, read, q + 1)
    ensures Expect(ts, q, CloseIndex) ==> Accounts(ts, p, known, lost, read + [CLOSE_INDEX], q + 1)
  {
    if Expect(ts, q, CloseBlock) || Expect(ts, q, CloseIndex) {
      TokenAccounts(ts, q, read);
      Joined(ts, p, known, lost, read, q, 0, read + Counted(ts[q]), q + 1);
      assert read + [] == read;
    }
  }

  lemma {:induction false} IdentifiersAccount(ts: seq<Token>, p: nat, trees: seq<Ast>)
    requires p <= |ts| && ManyIdentifiers(ts, p, trees).outcome.Ok?
    ensures var r := ManyIdentifiers(ts, p, trees);
            Accounts(ts, p, YieldAll(trees), 0, YieldAll(r.outcome.value), r.next)
    decreases |ts| - p
  {
    if Expect(ts, p, Symbol) {
      var q, r := SkipSeparators(ts, p + 1), ManyIdentifiers(ts, p, trees);
      var more := trees + [LiteralAst(ts[p])];
      YieldOneMore(trees, LiteralAst(ts[p]));
      TokenAccounts(ts, p, YieldAll(trees));
      SeparatorsAccount(ts, p + 1, YieldAll(more));
      Joined(ts, p, YieldAll(trees), 0, YieldAll(more), p + 1, 0, YieldAll(more), q);
      IdentifiersAccount(ts, q, more);
      Joined(ts, p, YieldAll(trees), 0, YieldAll(more), q, 0, YieldAll(r.outcome.value), r.next);
    } else {
      assert Between(ts, p, p) == [];
    }
  }

  /** Read from left to right, the tree of an accepted program gives the program's tokens, if and
      only if no attempt that was given up had passed a token that counts.  If some had, just as
      many tokens are missing from the tree. */
  lemma {:induction false} ProgramReadsBackExactlyWhen(ts: seq<Token>)
    requires Program(ts).Ok?
    ensures var a := Program(ts).value;
            && (Yield(a) == Kept(ts) <==> LostInSequence(ts, 0) == 0)
            && |Yield(a)| + LostInSequence(ts, 0) == |Kept(ts)|
  {
    SequenceAccounts(ts, 0);
    assert ts[0..|ts|] == ts;
    assert [] + Kept(ts) == Kept(ts);
  }

  // ----- Index expressions, and an attempt that is given up

  /** The atomic expression in front of the brackets is the first child, their content the second. */
  lemma IndexIsRead(ts: seq<Token>, p: nat, a: Ast, q: nat, content: Ast, r: nat)
    requires p <= |ts| && Atomic(ts, p) == Parsed(Ok(a), q) && Expect(ts, q, OpenIndex)
    requires SequenceOf(ts, q + 1) == Parsed(Ok(content), r) && Expect(ts, r, CloseIndex)
    ensures var index := if |content.arguments| == 1 then content.arguments[0] else BlockAst(content);
            var node := BinaryAst(ts[q], [a, index]);
            && IndexExpression(ts, p) == Indices(ts, r + 1, node)
            && (!Expect(ts, r + 1, OpenIndex) ==> IndexExpression(ts, p) == Parsed(Ok(node), r + 1))
  {
    var index := if |content.arguments| == 1 then content.arguments[0] else BlockAst(content);
    assert SequenceInside(ts, q + 1, CloseIndex, false, [], None) == Parsed(Ok(index), r + 1);
    assert IndexExpression(ts, p) == Indices(ts, r + 1, BinaryAst(ts[q], [a, index]));
  }

  lemma OneNumber(ts: seq<Token>, p: nat)
    requires p < |ts| && ts[p].kind == Numeric
    requires p + 1 < |ts| ==> ts[p + 1].kind in {CloseIndex, ExpressionSeparator, Operator}
    ensures ManyAtomics(ts, p, []) == Parsed(Ok([LiteralAst(ts[p])]), p + 1)
    ensures !NextIsOperator(ts, p + 1) ==> Expression(ts, p) == Parsed(Ok(LiteralAst(ts[p])), p + 1)
  {
    var a := LiteralAst(ts[p]);
    assert Atomic(ts, p + 1).outcome.Err? && IndexExpression(ts, p + 1).next == p + 1;
    assert IndexExpression(ts, p) == Parsed(Ok(a), p + 1);
    assert [] + [a] == [a];
    assert ManyAtomics(ts, p + 1, [a]) == Parsed(Ok([a]), p + 1);
  }

  lemma OneNumberInside(ts: seq<Token>, p: nat)
    requires p + 1 < |ts| && ts[p].kind == Numeric && ts[p + 1].kind == CloseIndex
    ensures SequenceInside(ts, p, CloseIndex, false, [], None) == Parsed(Ok(LiteralAst(ts[p])), p + 2)
  {
    OneNumber(ts, p);
    assert [] + [LiteralAst(ts[p])] == [LiteralAst(ts[p])];
    assert SequenceOf(ts, p) == Parsed(Ok(SequenceAst([LiteralAst(ts[p])])), p + 1);
  }

  /** `x[0][1]` indexes `x[0]`. */
  lemma IndexOfIndex(x: Token, i: Token, j: Token)
    requires x.kind == Symbol && i.kind == Numeric && j.kind == Numeric
    ensures var ts := [x, OPEN_INDEX, i, CLOSE_INDEX, OPEN_INDEX, j, CLOSE_INDEX];
            var first := BinaryAst(OPEN_INDEX, [LiteralAst(x), LiteralAst(i)]);
            IndexExpression(ts, 0) == Parsed(Ok(BinaryAst(OPEN_INDEX, [first, LiteralAst(j)])), 7)
  {
    var ts := [x, OPEN_INDEX, i, CLOSE_INDEX, OPEN_INDEX, j, CLOSE_INDEX];
    var first := BinaryAst(OPEN_INDEX, [LiteralAst(x), LiteralAst(i)]);
    OneNumberInside(ts, 2);
    OneNumberInside(ts, 5);
    assert Indices(ts, 4, first) == Indices(ts, 7, BinaryAst(OPEN_INDEX, [first, LiteralAst(j)]));
    assert Atomic(ts, 0) == Parsed(Ok(LiteralAst(x)), 1);
  }

  /** An operator behind the last operand. */
  lemma {:induction false} OperandIsMissing(ts: seq<Token>, y: Token, op: Token)
    requires |ts| == 4 && ts[2..] == [y, op] && y.kind == Numeric && op.kind == Operator && op.source != ":="
    ensures Expression(ts, 2) == Parsed(Err(UnexpectedEmptySource), 4)
  {
    assert ts[2] == ts[2..][0] && ts[3] == ts[2..][1];
    OneNumber(ts, 2);
    assert IndexExpression(ts, 4) == Parsed(Err(UnexpectedEmptySource), 4);
    assert ManyAtomics(ts, 4, []) == Parsed(Err(UnexpectedEmptySource), 4);
    assert InfixRhs(ts, 4, BinaryAst(op, [LiteralAst(y)])) == Parsed(Err(UnexpectedEmptySource), 4);
  }

  /** If the last expression misses its last operand, all of it is dropped. */
  lemma LastExpressionIsDropped(x: Token, y: Token, op: Token)
    requires x.kind == Numeric && y.kind == Numeric && op.kind == Operator && op.source != ":="
    ensures var ts := [x, COMMA, y, op];
            Program(ts) == Ok(SequenceAst([LiteralAst(x)])) && LostInSequence(ts, 0) == 2
  {
    var ts, a := [x, COMMA, y, op], LiteralAst(x);
    OperandIsMissing(ts, y, op);
    OnlyTheFirst(ts, a);
    ProgramReadsBackExactlyWhen(ts);
    KeptOfFour(ts);
    YieldOfOne(a);
  }

  lemma {:induction false} OnlyTheFirst(ts: seq<Token>, a: Ast)
    requires |ts| == 4 && a == LiteralAst(ts[0]) && ts[0].kind == Numeric && ts[1].kind == ExpressionSeparator
    requires ts[2].kind == Numeric && Expression(ts, 2).outcome.Err? && Expression(ts, 2).next == 4
    ensures Program(ts) == Ok(SequenceAst([a]))
  {
    OneNumber(ts, 0);
    assert [] + [a] == [a];
    assert SkipSeparators(ts, 0) == 0 && SkipSeparators(ts, 1) == 2;
    assert ManyExpressions(ts, 2, [a]) == Parsed(Ok([a]), 4);
    assert ManyExpressions(ts, 0, []) == Parsed(Ok([a]), 4);
  }

  lemma {:induction false} KeptOfFour(ts: seq<Token>)
    requires |ts| == 4 && ts[1].kind == ExpressionSeparator
    requires ts[0].kind == Numeric && ts[2].kind == Numeric && ts[3].kind == Operator
    ensures |Kept(ts)| == 3
  {
    forall p | 0 <= p < 4 ensures Between(ts, p, p + 1) == Counted(ts[p]) {
      OneCounts(ts, p);
    }
    InTwo(ts, 0, 1, 4);
    InTwo(ts, 1, 2, 4);
    InTwo(ts, 2, 3, 4);
    assert ts[0..4] == ts;
  }
}
