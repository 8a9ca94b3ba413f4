/** How small programs are read, and which errors the parser reports for programs that it rejects. */
module Complaints {
  import opened Tokens
  import opened Grammar
  import opened Printer
  import opened RoundTrip
  import opened Trees
  import opened Wrappers

  /** A closing bracket behind a program that was read whole. */
  lemma {:induction false} ClosingWithoutOpening(es: seq<Ast>, rest: seq<Token>)
    requires AllPlain(es) && es != []
    ensures Program(PrintEach(es) + [CLOSE] + rest) == Err(ClosingTokenWithoutOpening)
  {
    var ts := PrintEach(es) + [CLOSE] + rest;
    assert At(ts, 0, PrintEach(es));
    assert ts[|PrintEach(es)|] == CLOSE;
    SequenceRead(ts, 0, es);
  }

  /** An atomic expression that cannot be read in front of everything else. */
  lemma {:induction false} NothingReadAt(ts: seq<Token>, p: nat, e: ParseError)
    requires p < |ts| && Atomic(ts, p) == Parsed(Err(e), p) && ts[p].kind != ExpressionSeparator
    requires !ExpectDeclaration(ts, p)
    ensures SequenceOf(ts, p) == Parsed(Err(e), p)
  {
    assert IndexExpression(ts, p) == Parsed(Err(e), p);
    assert ManyAtomics(ts, p, []) == Parsed(Err(e), p);
    assert Expression(ts, p) == Parsed(Err(e), p);
  }

  /** What a program cannot start with. */
  lemma BadStart(ts: seq<Token>)
    requires ts != []
    ensures ts[0].kind == Operator ==> Program(ts) == Err(OperatorWithoutOperands(ts[0].source))
    ensures ts[0].kind == Keyword && ts[0].source != "false" && ts[0].source != "nil" && ts[0].source != "true" ==>
              Program(ts) == Err(UnexpectedKeyword(ts[0].source))
    ensures ts[0].kind in {CloseBlock, OpenIndex, CloseIndex, ParameterSeparator} ==>
              Program(ts) == Err(UnexpectedToken(ts[0].kind, ts[0].source))
  {
    var a := Atomic(ts, 0);
    if a.outcome.Err? && ts[0].kind != ExpressionSeparator && ts[0].kind != OpenBlock {
      NothingReadAt(ts, 0, a.outcome.error);
    }
  }

  /** One number and the end of the tokens, or a bar. */
  lemma NumberAtEnd(ts: seq<Token>, p: nat)
    requires p < |ts| && ts[p].kind == Numeric && (p + 1 < |ts| ==> ts[p + 1].kind == ParameterSeparator)
    ensures SequenceOf(ts, p) == Parsed(Ok(SequenceAst([LiteralAst(ts[p])])), p + 1)
  {
    var a := LiteralAst(ts[p]);
    OneAtomic(ts, p, a, p + 1);
    assert Expression(ts, p) == Parsed(Ok(a), p + 1);
    assert [] + [a] == [a];
  }

  /** The error in a block at the start is that of the program. */
  lemma {:induction false} BlockFails(ts: seq<Token>, e: ParseError, next: nat)
    requires ts != [] && ts[0].kind == OpenBlock && BlockOrLambda(ts, 1) == Parsed(Err(e), next)
    ensures Program(ts) == Err(e)
  {
    assert IndexExpression(ts, 0) == Parsed(Err(e), next);
    assert ManyAtomics(ts, 0, []) == Parsed(Err(e), next);
    assert Expression(ts, 0) == Parsed(Err(e), next);
    assert SkipSeparators(ts, 0) == 0;
    assert ManyExpressions(ts, 0, []) == Parsed(Err(e), next);
  }

  /** A number, a name, a chord or one of three keywords. */
  predicate StandsForItself(x: Token) {
    || x.kind == Numeric || x.kind == Symbol || x.kind == Chord
    || (x.kind == Keyword && (x.source == "false" || x.source == "nil" || x.source == "true"))
  }

  /** A literal alone is a program. */
  lemma OneLiteralParses(x: Token)
    requires StandsForItself(x)
    ensures Program([x]) == Ok(SequenceAst([LiteralAst(x)]))
  {
    var ts, a := [x], LiteralAst(x);
    OneAtomic(ts, 0, a, 1);
    OnlyExpression(ts, a);
  }

  lemma {:induction false} OnlyExpression(ts: seq<Token>, a: Ast)
    requires ts != [] && ts[0].kind != ExpressionSeparator && Expression(ts, 0) == Parsed(Ok(a), |ts|)
    ensures Program(ts) == Ok(SequenceAst([a]))
  {
    assert [] + [a] == [a];
    assert SkipSeparators(ts, 0) == 0;
    assert ManyExpressions(ts, 0, []) == Parsed(Ok([a]), |ts|);
  }

  /** Several of them side by side are one call. */
  lemma LiteralsAreCall(ts: seq<Token>)
    requires |ts| >= 2 && forall i | 0 <= i < |ts| :: StandsForItself(ts[i])
    ensures Program(ts) == Ok(SequenceAst([CallAst(seq(|ts|, i requires 0 <= i < |ts| => LiteralAst(ts[i])))]))
  {
    var trees := seq(|ts|, i requires 0 <= i < |ts| => LiteralAst(ts[i]));
    LiteralsRead(ts, 0, trees);
    assert trees[..0] == [];
    assert StandsForItself(ts[0]) && StandsForItself(ts[1]);
    assert Infix(ts, 0) == Parsed(Ok(CallAst(trees)), |ts|);
    OnlyExpression(ts, CallAst(trees));
  }

  lemma {:induction false} LiteralsRead(ts: seq<Token>, p: nat, trees: seq<Ast>)
    requires p <= |ts| == |trees| && ts != []
    requires forall i | 0 <= i < |ts| :: StandsForItself(ts[i]) && trees[i] == LiteralAst(ts[i])
    ensures ManyAtomics(ts, p, trees[..p]) == Parsed(Ok(trees), |ts|)
    decreases |ts| - p
  {
    if p < |ts| {
      assert StandsForItself(ts[p]);
      assert p + 1 < |ts| ==> StandsForItself(ts[p + 1]);
      assert Atomic(ts, p) == Parsed(Ok(trees[p]), p + 1);
      assert IndexExpression(ts, p) == Parsed(Ok(trees[p]), p + 1);
      assert trees[..p] + [trees[p]] == trees[..p + 1];
      LiteralsRead(ts, p + 1, trees);
    } else {
      assert trees[..p] == trees;
      assert IndexExpression(ts, p).outcome.Err? && IndexExpression(ts, p).next == p;
    }
  }

  /** A name, the sign and an expression declare the name. */
  lemma DeclarationParses(name: Token, x: Token)
    requires name.kind == Symbol && StandsForItself(x)
    ensures Program([name, Token(Operator, ":="), x]) ==
            Ok(SequenceAst([Ast(VariableDeclaration, NO_TOKEN, [LiteralAst(name), LiteralAst(x)])]))
  {
    var ts, a := [name, Token(Operator, ":="), x], LiteralAst(x);
    OneAtomic(ts, 2, a, 3);
    assert Expression(ts, 2) == Parsed(Ok(a), 3);
    assert Identifier(ts, 0) == Parsed(Ok(LiteralAst(name)), 1);
    assert Expression(ts, 0) == Parsed(Ok(DeclarationAst(LiteralAst(name), a)), 3);
    OnlyExpression(ts, DeclarationAst(LiteralAst(name), a));
  }

  /** Operators, and the words `and` and `or`, make a binary node of what stands left and right. */
  lemma TwoOperandsParse(x: Token, op: Token, y: Token)
    requires x.kind == Numeric && y.kind == Numeric
    requires op.kind == Operator || (op.kind == Keyword && (op.source == "and" || op.source == "or"))
    ensures Program([x, op, y]) == Ok(SequenceAst([BinaryAst(op, [LiteralAst(x), LiteralAst(y)])]))
  {
    var ts, a, b := [x, op, y], LiteralAst(x), LiteralAst(y);
    OneAtomic(ts, 0, a, 1);
    OneAtomic(ts, 2, b, 3);
    InfixOfTwo(ts, 0, a, 1, b, 3);
    OnlyExpression(ts, BinaryAst(op, [a, b]));
  }

  /** A bar that ends no parameters is left over, and the program gives up. */
  lemma StrayBar(x: Token)
    requires x.kind == Numeric
    ensures Program([x, BAR]) == Abort
  {
    NumberAtEnd([x, BAR], 0);
  }

  /** A bracket that is never closed. */
  lemma NotClosedAtEnd(x: Token)
    requires x.kind == Numeric
    ensures Program([OPEN, x]) == Err(BlockWithoutClosingBracket)
  {
    var ts := [OPEN, x];
    NumberAtEnd(ts, 1);
    assert BlockOrLambda(ts, 1) == Parsed(Err(BlockWithoutClosingBracket), 2);
    BlockFails(ts, BlockWithoutClosingBracket, 2);
  }

  /** A chord among what looks like parameters is reported as such. */
  lemma ChordAsParameter(x: Token)
    requires x.kind == Chord
    ensures Program([OPEN, x, BAR]) == Err(LiteralAsIdentifier(Chord, x.source))
  {
    var ts := [OPEN, x, BAR];
    var a := LiteralAst(x);
    OneAtomic(ts, 1, a, 2);
    assert Expression(ts, 1) == Parsed(Ok(a), 2);
    assert [] + [a] == [a];
    assert SequenceOf(ts, 1) == Parsed(Ok(SequenceAst([a])), 2);
    assert FirstNonSymbol(ts, 1, 2) == LiteralAsIdentifier(Chord, x.source);
    assert ts[1].kind != Symbol && IsIdentifierLooking(ts[1].kind);
    assert BlockOrLambda(ts, 1).outcome == Err(LiteralAsIdentifier(Chord, x.source));
    BlockFails(ts, LiteralAsIdentifier(Chord, x.source), BlockOrLambda(ts, 1).next);
  }
}
