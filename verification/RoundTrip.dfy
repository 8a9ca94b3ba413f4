/** Printing a tree and parsing the printed tokens gives the tree back. */
module RoundTrip {
  import opened Tokens
  import opened Grammar
  import opened Trees
  import opened Printer
  import opened Wrappers

  ghost predicate Plain(a: Ast) {
    WellFormed(a, false)
  }

  ghost predicate AllPlain(es: seq<Ast>) {
    forall i | 0 <= i < |es| :: Plain(es[i])
  }

  // ----- Where printed tokens stand in the source

  ghost predicate At(ts: seq<Token>, p: nat, s: seq<Token>) {
    p + |s| <= |ts| && forall i | 0 <= i < |s| :: s[i] == ts[p + i]
  }

  lemma Split(ts: seq<Token>, p: nat, s: seq<Token>, t: seq<Token>)
    requires At(ts, p, s + t)
    ensures At(ts, p, s) && At(ts, p + |s|, t)
  {
    forall i | 0 <= i < |s| ensures s[i] == ts[p + i] {
      assert s[i] == (s + t)[i];
    }
    forall i | 0 <= i < |t| ensures t[i] == ts[p + |s| + i] {
      assert t[i] == (s + t)[|s| + i];
    }
  }

  lemma AtOne(ts: seq<Token>, p: nat, t: Token)
    requires At(ts, p, [t])
    ensures p < |ts| && ts[p] == t
  {
    assert [t][0] == ts[p + 0];
  }

  /** `s` between two single tokens. */
  lemma Enclosed(ts: seq<Token>, p: nat, before: Token, s: seq<Token>, after: Token)
    requires At(ts, p, [before] + s + [after])
    ensures p < |ts| && ts[p] == before
    ensures At(ts, p + 1, s)
    ensures p + 1 + |s| < |ts| && ts[p + 1 + |s|] == after
  {
    Split(ts, p, [before] + s, [after]);
    Split(ts, p, [before], s);
    AtOne(ts, p, before);
    AtOne(ts, p + 1 + |s|, after);
  }

  lemma {:induction false} FirstToken(ts: seq<Token>, p: nat, a: Ast)
    requires Plain(a) && At(ts, p, Print(a))
    ensures |Print(a)| > 0 && p < |ts|
    ensures a.kind == Literal ==> |Print(a)| == 1 && ts[p] == a.token
    ensures a.kind == VariableDeclaration ==>
              |Print(a)| > 2 && p + 2 < |ts| && ts[p] == a.arguments[0].token && ts[p + 1] == ASSIGN
    ensures a.kind != Literal && a.kind != VariableDeclaration ==> ts[p] == OPEN
    decreases a
  {
    if a.kind == Literal {
      AtOne(ts, p, a.token);
    } else if a.kind == VariableDeclaration {
      var names := [a.arguments[0].token, ASSIGN];
      Split(ts, p, names, Print(a.arguments[1]));
      assert names[0] == ts[p + 0] && names[1] == ts[p + 1];
      FirstToken(ts, p + 2, a.arguments[1]);
    } else {
      StartsWithOpen(a);
      assert Print(a)[0] == ts[p + 0];
    }
  }

  lemma {:induction false} StartsWithOpen(a: Ast)
    requires Plain(a) && a.kind != Literal && a.kind != VariableDeclaration
    ensures Print(a) != [] && Print(a)[0] == OPEN
  {
    match a.kind
    case Block => BracketedStartsOpen(a.arguments[0]);
    case Binary =>
      BracketedStartsOpen(a.arguments[0]);
      assert Print(a) == Bracketed(a.arguments[0]) + ([a.token] + Bracketed(a.arguments[1]));
    case Call =>
    case Lambda => LambdaStartsOpen(a);
  }

  lemma {:induction false} BracketedStartsOpen(a: Ast)
    ensures Bracketed(a) != [] && Bracketed(a)[0] == OPEN
  {
  }

  lemma {:induction false} LambdaStartsOpen(a: Ast)
    requires a.kind == Lambda && a.arguments != []
    ensures Print(a) != [] && Print(a)[0] == OPEN
  {
    var n := |a.arguments| - 1;
    assert Print(a) == [OPEN] + (Sources(a.arguments[..n]) + [BAR] + Print(a.arguments[n]) + [CLOSE]);
  }

  // ----- Where the routines stop

  predicate Stop(ts: seq<Token>, p: nat) {
    p < |ts| ==>
      || ts[p].kind == CloseBlock || ts[p].kind == ExpressionSeparator
      || ts[p].kind == ParameterSeparator || ts[p].kind == Operator
      || (ts[p].kind == Keyword && !IsLiteralKeyword(ts[p].source))
  }

  lemma {:induction false} AtomicsStop(ts: seq<Token>, p: nat, trees: seq<Ast>)
    requires p <= |ts| && Stop(ts, p)
    ensures ManyAtomics(ts, p, trees).next == p
    ensures trees != [] ==> ManyAtomics(ts, p, trees).outcome == Ok(trees)
    ensures trees == [] ==> ManyAtomics(ts, p, trees).outcome.Err?
  {
    assert IndexExpression(ts, p).outcome.Err? && IndexExpression(ts, p).next == p;
  }

  lemma {:induction false} ExpressionsStop(ts: seq<Token>, p: nat, trees: seq<Ast>)
    requires p <= |ts| && (p == |ts| || ts[p].kind == CloseBlock) && trees != []
    ensures ManyExpressions(ts, p, trees) == Parsed(Ok(trees), p)
  {
    AtomicsStop(ts, p, []);
    assert Expression(ts, p).outcome.Err? && Expression(ts, p).next == p;
  }

  // ----- Steps of the grammar, whatever the tokens came from

  lemma {:induction false} OneAtomic(ts: seq<Token>, p: nat, a: Ast, q: nat)
    requires p <= |ts| && Atomic(ts, p) == Parsed(Ok(a), q)
    requires Stop(ts, q)
    ensures ManyAtomics(ts, p, []) == Parsed(Ok([a]), q)
  {
    assert IndexExpression(ts, p) == Parsed(Ok(a), q);
    AtomicsStop(ts, q, [] + [a]);
    assert [] + [a] == [a];
  }

  lemma {:induction false} OneMoreAtomic(ts: seq<Token>, p: nat, a: Ast, q: nat, trees: seq<Ast>)
    requires p <= |ts| && Atomic(ts, p) == Parsed(Ok(a), q) && !Expect(ts, q, OpenIndex)
    ensures q <= |ts| && ManyAtomics(ts, p, trees) == ManyAtomics(ts, q, trees + [a])
  {
    assert IndexExpression(ts, p) == Parsed(Ok(a), q);
  }

  lemma {:induction false} InfixOfOne(ts: seq<Token>, p: nat, a: Ast, q: nat)
    requires p <= |ts| && Atomic(ts, p) == Parsed(Ok(a), q)
    requires Expect(ts, q, CloseBlock) || Expect(ts, q, ExpressionSeparator)
    ensures Infix(ts, p) == Parsed(Ok(a), q)
  {
    OneAtomic(ts, p, a, q);
  }

  lemma InfixOfTwo(ts: seq<Token>, p: nat, left: Ast, q: nat, right: Ast, r: nat)
    requires p <= |ts| && ManyAtomics(ts, p, []) == Parsed(Ok([left]), q)
    requires NextIsOperator(ts, q)
    requires ManyAtomics(ts, q + 1, []) == Parsed(Ok([right]), r)
    requires !NextIsOperator(ts, r)
    ensures Infix(ts, p) == Parsed(Ok(BinaryAst(ts[q], [left, right])), r)
  {
    assert [left] + [right] == [left, right];
  }

  lemma {:induction false} OneExpression(ts: seq<Token>, p: nat, a: Ast, q: nat)
    requires p < |ts| && ts[p].kind != ExpressionSeparator
    requires Expression(ts, p) == Parsed(Ok(a), q)
    requires Expect(ts, q, CloseBlock)
    ensures SequenceOf(ts, p) == Parsed(Ok(SequenceAst([a])), q)
  {
    assert [] + [a] == [a];
  }

  lemma ExpressionsStep(ts: seq<Token>, p: nat, a: Ast, q: nat, trees: seq<Ast>)
    requires p <= |ts| && Expression(ts, p) == Parsed(Ok(a), q)
    requires Expect(ts, q, ExpressionSeparator) && !Expect(ts, q + 1, ExpressionSeparator)
    ensures ManyExpressions(ts, p, trees) == ManyExpressions(ts, q + 1, trees + [a])
  {
    assert SkipSeparators(ts, q) == q + 1;
  }

  /** The attempt to read parameters stops at or before the first token that is neither a name
      nor a separator. */
  lemma {:induction false} ScanStops(ts: seq<Token>, p: nat, trees: seq<Ast>, barrier: nat)
    requires p <= barrier < |ts|
    requires ts[barrier].kind != Symbol && ts[barrier].kind != ExpressionSeparator
    ensures ManyIdentifiers(ts, p, trees).next <= barrier
    decreases |ts| - p
  {
    if Expect(ts, p, Symbol) {
      SkipStops(ts, p + 1, barrier);
      ScanStops(ts, SkipSeparators(ts, p + 1), trees + [LiteralAst(ts[p])], barrier);
    }
  }

  lemma {:induction false} SkipStops(ts: seq<Token>, p: nat, barrier: nat)
    requires p <= barrier < |ts| && ts[barrier].kind != ExpressionSeparator
    ensures SkipSeparators(ts, p) <= barrier
    decreases |ts| - p
  {
    if Expect(ts, p, ExpressionSeparator) {
      SkipStops(ts, p + 1, barrier);
    }
  }

  ghost predicate NoBarUpTo(ts: seq<Token>, p: nat, barrier: nat) {
    && p <= barrier < |ts|
    && ts[barrier].kind != Symbol && ts[barrier].kind != ExpressionSeparator
    && forall i | p <= i <= barrier :: ts[i].kind != ParameterSeparator
  }

  /** Brackets around a sequence that cannot be taken for parameters. */
  lemma {:induction false} BlockOf(ts: seq<Token>, p: nat, es: seq<Ast>, q: nat, barrier: nat)
    requires Expect(ts, p, OpenBlock) && !Expect(ts, p + 1, CloseBlock)
    requires NoBarUpTo(ts, p + 1, barrier)
    requires SequenceOf(ts, p + 1) == Parsed(Ok(SequenceAst(es)), q)
    requires Expect(ts, q, CloseBlock)
    ensures Atomic(ts, p) == Parsed(Ok(if |es| == 1 then es[0] else BlockAst(SequenceAst(es))), q + 1)
  {
    ScanStops(ts, p + 1, [], barrier);
    assert BlockOrLambda(ts, p + 1) == SequenceInside(ts, p + 1, CloseBlock, false, [], Some(p + 1));
  }

  lemma {:induction false} ParametersThenBody(ts: seq<Token>, start: nat, ps: seq<Ast>, bar: nat)
    requires start <= bar && Expect(ts, bar, ParameterSeparator)
    requires ps == [] ==> bar == start
    requires ps != [] ==> Expect(ts, start, Symbol) && ManyIdentifiers(ts, start, []) == Parsed(Ok(ps), bar)
    ensures BlockOrLambda(ts, start) == SequenceInside(ts, bar + 1, CloseBlock, true, ps, Some(start))
  {
  }

  lemma {:induction false} LambdaOf(ts: seq<Token>, p: nat, ps: seq<Ast>, bar: nat, es: seq<Ast>, q: nat)
    requires Expect(ts, p, OpenBlock) && p < bar
    requires Expect(ts, bar, ParameterSeparator)
    requires ps == [] ==> bar == p + 1
    requires ps != [] ==> Expect(ts, p + 1, Symbol) && ManyIdentifiers(ts, p + 1, []) == Parsed(Ok(ps), bar)
    requires SequenceOf(ts, bar + 1) == Parsed(Ok(SequenceAst(es)), q)
    requires Expect(ts, q, CloseBlock)
    ensures Atomic(ts, p) == Parsed(Ok(LambdaAst(SequenceAst(es), ps)), q + 1)
  {
    ParametersThenBody(ts, p + 1, ps, bar);
    assert SequenceInside(ts, bar + 1, CloseBlock, true, ps, Some(p + 1)).next == q + 1;
  }

  // ----- What printed tokens start with

  /** A printed expression and what closes it are never taken for parameters. */
  lemma ExpressionBarrier(ts: seq<Token>, p: nat, a: Ast, closing: nat) returns (barrier: nat)
    requires Plain(a) && At(ts, p, Print(a))
    requires closing == p + |Print(a)|
    requires Expect(ts, closing, CloseBlock)
    ensures NoBarUpTo(ts, p, barrier)
  {
    if IsName(a) {
      FirstToken(ts, p, a);
      barrier := p + 1;
    } else {
      barrier := BarrierInside(ts, p, a);
    }
  }

  predicate IsName(a: Ast) {
    a.kind == Literal && a.token.kind == Symbol
  }

  lemma BarrierInside(ts: seq<Token>, p: nat, a: Ast) returns (barrier: nat)
    requires Plain(a) && At(ts, p, Print(a)) && !IsName(a)
    ensures NoBarUpTo(ts, p, barrier)
  {
    StartsWith(ts, p, a);
    barrier := if a.kind == VariableDeclaration then p + 1 else p;
  }

  lemma {:induction false} SequenceBarrier(ts: seq<Token>, p: nat, es: seq<Ast>) returns (barrier: nat)
    requires AllPlain(es) && At(ts, p, PrintEach(es))
    requires Expect(ts, p + |PrintEach(es)|, CloseBlock)
    ensures NoBarUpTo(ts, p, barrier)
    decreases es
  {
    if es == [] {
      barrier := p;
    } else {
      var n := HeadOfEach(ts, p, es);
      if IsName(es[0]) {
        StartsWith(ts, p, es[0]);
        barrier := SequenceBarrier(ts, p + n + 1, es[1..]);
        BarrierBehindTwo(ts, p, barrier);
      } else {
        barrier := BarrierInside(ts, p, es[0]);
      }
    }
  }

  lemma BarrierBehindTwo(ts: seq<Token>, p: nat, barrier: nat)
    requires p + 2 <= |ts| && NoBarUpTo(ts, p + 2, barrier)
    requires ts[p].kind != ParameterSeparator && ts[p + 1].kind != ParameterSeparator
    ensures NoBarUpTo(ts, p, barrier)
  {
  }

  /** The first of a printed sequence of expressions, its separator, and the others. */
  lemma HeadOfEach(ts: seq<Token>, p: nat, es: seq<Ast>) returns (n: nat)
    requires AllPlain(es) && es != [] && At(ts, p, PrintEach(es))
    ensures n == |Print(es[0])| && At(ts, p, Print(es[0]))
    ensures Expect(ts, p + n, ExpressionSeparator)
    ensures AllPlain(es[1..])
    ensures At(ts, p + n + 1, PrintEach(es[1..]))
    ensures |PrintEach(es)| == n + 1 + |PrintEach(es[1..])|
  {
    n := |Print(es[0])|;
    Split(ts, p, Print(es[0]) + [COMMA], PrintEach(es[1..]));
    Split(ts, p, Print(es[0]), [COMMA]);
    AtOne(ts, p + n, COMMA);
  }

  /** What a printed expression starts with. */
  lemma {:induction false} StartsWith(ts: seq<Token>, p: nat, a: Ast)
    requires Plain(a) && At(ts, p, Print(a))
    ensures p < |ts| && (ts[p].kind == OpenBlock || IsLiteralToken(ts[p]))
    ensures a.kind == Literal ==> |Print(a)| == 1 && ts[p] == a.token
    ensures a.kind == VariableDeclaration ==> |Print(a)| > 1 && ts[p + 1] == ASSIGN
    ensures a.kind != Literal && a.kind != VariableDeclaration ==> ts[p] == OPEN
  {
    FirstToken(ts, p, a);
    assert a.kind == VariableDeclaration ==> IsParameter(a.arguments[0]);
  }

  lemma Regrouped(before: seq<Ast>, es: seq<Ast>)
    requires es != []
    ensures before + [es[0]] + es[1..] == before + es
  {
  }

  lemma {:induction false} ParametersRead(ts: seq<Token>, p: nat, ps: seq<Ast>, trees: seq<Ast>)
    requires Parameters(ps) && At(ts, p, Sources(ps)) && Expect(ts, p + |ps|, ParameterSeparator)
    requires trees + ps != []
    ensures ManyIdentifiers(ts, p, trees) == Parsed(Ok(trees + ps), p + |ps|)
    decreases |ps|
  {
    if ps == [] {
      assert trees + ps == trees;
    } else {
      FirstParameter(ts, p, ps);
      if |ps| > 1 {
        FirstParameter(ts, p + 1, ps[1..]);
      }
      ParametersRead(ts, p + 1, ps[1..], trees + [ps[0]]);
      Regrouped(trees, ps);
    }
  }

  // ----- The inverse, routine by routine

  lemma {:induction false} BracketedRead(ts: seq<Token>, p: nat, a: Ast)
    requires Plain(a) && At(ts, p, Bracketed(a))
    ensures Atomic(ts, p) == Parsed(Ok(a), p + |Bracketed(a)|)
    decreases a, 4
  {
    var q := p + 1 + |Print(a)|;
    Enclosed(ts, p, OPEN, Print(a), CLOSE);
    FirstToken(ts, p + 1, a);
    var barrier := ExpressionBarrier(ts, p + 1, a, q);
    ExpressionRead(ts, p + 1, a);
    OneExpression(ts, p + 1, a, q);
    BlockOf(ts, p, [a], q, barrier);
  }

  lemma {:induction false} PiecesStartOpen(ts: seq<Token>, p: nat, es: seq<Ast>)
    requires es != [] && At(ts, p, PrintPieces(es))
    ensures p < |ts| && ts[p] == OPEN
  {
    Split(ts, p, Bracketed(es[0]), PrintPieces(es[1..]));
    Enclosed(ts, p, OPEN, Print(es[0]), CLOSE);
  }

  /** The first of the pieces of a call, and the others. */
  lemma HeadOfPieces(ts: seq<Token>, p: nat, es: seq<Ast>) returns (n: nat)
    requires es != [] && At(ts, p, PrintPieces(es))
    ensures n == |Bracketed(es[0])| && At(ts, p, Bracketed(es[0]))
    ensures At(ts, p + n, PrintPieces(es[1..]))
    ensures |PrintPieces(es)| == n + |PrintPieces(es[1..])|
  {
    n := |Bracketed(es[0])|;
    Split(ts, p, Bracketed(es[0]), PrintPieces(es[1..]));
  }

  lemma {:induction false} NoIndexFollows(ts: seq<Token>, p: nat, es: seq<Ast>)
    requires At(ts, p, PrintPieces(es)) && Stop(ts, p + |PrintPieces(es)|)
    ensures !Expect(ts, p, OpenIndex)
  {
    if es != [] {
      PiecesStartOpen(ts, p, es);
    }
  }

  /** The first of the pieces is read, and the others come next. */
  lemma PieceRead(ts: seq<Token>, p: nat, es: seq<Ast>, trees: seq<Ast>) returns (q: nat)
    requires AllPlain(es) && es != [] && At(ts, p, PrintPieces(es))
    requires Stop(ts, p + |PrintPieces(es)|)
    ensures p <= q <= |ts| && AllPlain(es[1..]) && At(ts, q, PrintPieces(es[1..]))
    ensures p + |PrintPieces(es)| == q + |PrintPieces(es[1..])|
    ensures ManyAtomics(ts, p, trees) == ManyAtomics(ts, q, trees + [es[0]])
    decreases es, 0
  {
    var n := HeadOfPieces(ts, p, es);
    q := p + n;
    NoIndexFollows(ts, q, es[1..]);
    BracketedRead(ts, p, es[0]);
    OneMoreAtomic(ts, p, es[0], q, trees);
  }

  lemma {:induction false} PiecesRead(ts: seq<Token>, p: nat, es: seq<Ast>, trees: seq<Ast>)
    requires AllPlain(es) && trees + es != [] && At(ts, p, PrintPieces(es))
    requires Stop(ts, p + |PrintPieces(es)|)
    ensures ManyAtomics(ts, p, trees) == Parsed(Ok(trees + es), p + |PrintPieces(es)|)
    decreases es, 1
  {
    if es == [] {
      AtomicsStop(ts, p, trees);
      assert trees + es == trees;
    } else {
      var q := PieceRead(ts, p, es, trees);
      PiecesRead(ts, q, es[1..], trees + [es[0]]);
      Regrouped(trees, es);
    }
  }

  lemma {:induction false} SeveralPieces(ts: seq<Token>, p: nat, es: seq<Ast>, q: nat)
    requires p < |ts| && ts[p] == OPEN && |es| >= 2
    requires ManyAtomics(ts, p, []) == Parsed(Ok(es), q) && Expect(ts, q, CloseBlock)
    ensures Expression(ts, p) == Parsed(Ok(CallAst(es)), q)
  {
    assert Infix(ts, p) == Parsed(Ok(CallAst(es)), q);
  }

  lemma {:induction false} CallRead(ts: seq<Token>, p: nat, a: Ast)
    requires Plain(a) && a.kind == Call && At(ts, p, Print(a))
    ensures Atomic(ts, p) == Parsed(Ok(a), p + |Print(a)|)
    decreases a, 0
  {
    var q := p + 1 + |PrintPieces(a.arguments)|;
    Enclosed(ts, p, OPEN, PrintPieces(a.arguments), CLOSE);
    PiecesStartOpen(ts, p + 1, a.arguments);
    PiecesRead(ts, p + 1, a.arguments, []);
    assert [] + a.arguments == a.arguments;
    SeveralPieces(ts, p + 1, a.arguments, q);
    assert a == CallAst(a.arguments);
    OneExpression(ts, p + 1, a, q);
    BlockOf(ts, p, [a], q, p + 1);
  }

  lemma {:induction false} SequenceRead(ts: seq<Token>, p: nat, es: seq<Ast>)
    requires AllPlain(es) && es != [] && At(ts, p, PrintEach(es))
    requires var q := p + |PrintEach(es)|; q == |ts| || ts[q].kind == CloseBlock
    ensures SequenceOf(ts, p) == Parsed(Ok(SequenceAst(es)), p + |PrintEach(es)|)
    decreases es, 2
  {
    StartsOpen(ts, p, es);
    ExpressionsRead(ts, p, es, []);
    assert [] + es == es;
    SequenceOfCollected(ts, p, es, p + |PrintEach(es)|);
  }

  lemma {:induction false} SequenceOfCollected(ts: seq<Token>, p: nat, es: seq<Ast>, q: nat)
    requires p < |ts| && !Expect(ts, p, ExpressionSeparator) && Collects(ts, p, [], es, q)
    ensures SequenceOf(ts, p) == Parsed(Ok(SequenceAst(es)), q)
  {
    assert SkipSeparators(ts, p) == p;
  }

  ghost predicate Collects(ts: seq<Token>, p: nat, trees: seq<Ast>, all: seq<Ast>, q: nat) {
    p <= |ts| && ManyExpressions(ts, p, trees) == Parsed(Ok(all), q)
  }

  ghost predicate ContinuesAt(ts: seq<Token>, p: nat, trees: seq<Ast>, next: nat, more: seq<Ast>) {
    p <= |ts| && next <= |ts| && ManyExpressions(ts, p, trees) == ManyExpressions(ts, next, more)
  }

  lemma {:induction false} ExpressionsRead(ts: seq<Token>, p: nat, es: seq<Ast>, trees: seq<Ast>)
    requires AllPlain(es) && trees + es != [] && At(ts, p, PrintEach(es))
    requires var q := p + |PrintEach(es)|; q == |ts| || ts[q].kind == CloseBlock
    ensures Collects(ts, p, trees, trees + es, p + |PrintEach(es)|)
    decreases es, 1
  {
    if es == [] {
      ExpressionsStop(ts, p, trees);
      assert trees + es == trees;
    } else {
      var next := HeadRead(ts, p, es, trees);
      ExpressionsRead(ts, next, es[1..], trees + [es[0]]);
      Regrouped(trees, es);
    }
  }

  /** A printed expression that a single separator follows is read as one more. */
  lemma {:induction false} ElementRead(ts: seq<Token>, p: nat, a: Ast, trees: seq<Ast>)
    requires Plain(a) && At(ts, p, Print(a))
    requires var q := p + |Print(a)|; Expect(ts, q, ExpressionSeparator) && !Expect(ts, q + 1, ExpressionSeparator)
    ensures ContinuesAt(ts, p, trees, p + |Print(a)| + 1, trees + [a])
    decreases a, 4
  {
    ExpressionRead(ts, p, a);
    ExpressionsStep(ts, p, a, p + |Print(a)|, trees);
  }

  /** Behind one printed expression and its separator there is no other separator. */
  lemma {:induction false} OneSeparator(ts: seq<Token>, p: nat, es: seq<Ast>)
    requires AllPlain(es) && At(ts, p, PrintEach(es))
    requires var q := p + |PrintEach(es)|; q == |ts| || ts[q].kind == CloseBlock
    ensures !Expect(ts, p, ExpressionSeparator)
  {
    if es != [] {
      StartsOpen(ts, p, es);
    }
  }

  lemma {:induction false} HeadRead(ts: seq<Token>, p: nat, es: seq<Ast>, trees: seq<Ast>) returns (next: nat)
    requires AllPlain(es) && es != [] && At(ts, p, PrintEach(es))
    requires var q := p + |PrintEach(es)|; q == |ts| || ts[q].kind == CloseBlock
    ensures AllPlain(es[1..]) && At(ts, next, PrintEach(es[1..]))
    ensures p + |PrintEach(es)| == next + |PrintEach(es[1..])|
    ensures ContinuesAt(ts, p, trees, next, trees + [es[0]])
    decreases es, 0
  {
    var n := HeadOfEach(ts, p, es);
    next := p + n + 1;
    OneSeparator(ts, next, es[1..]);
    ElementRead(ts, p, es[0], trees);
  }

  lemma {:induction false} BlockRead(ts: seq<Token>, p: nat, a: Ast)
    requires Plain(a) && a.kind == Block && At(ts, p, Print(a))
    ensures Atomic(ts, p) == Parsed(Ok(a), p + |Print(a)|)
    decreases a, 0
  {
    var es := BlockParts(a);
    Enclosed(ts, p, OPEN, PrintEach(es), CLOSE);
    if es == [] {
      assert Atomic(ts, p) == BlockOrLambda(ts, p + 1);
    } else {
      ContentsRead(ts, p, es);
    }
  }

  lemma {:induction false} StartsOpen(ts: seq<Token>, p: nat, es: seq<Ast>)
    requires AllPlain(es) && es != [] && At(ts, p, PrintEach(es))
    ensures p < |ts| && ts[p].kind != CloseBlock && ts[p].kind != ExpressionSeparator
  {
    var _ := HeadOfEach(ts, p, es);
    StartsWith(ts, p, es[0]);
  }

  lemma {:induction false} ContentsRead(ts: seq<Token>, p: nat, es: seq<Ast>)
    requires AllPlain(es) && |es| > 1 && At(ts, p + 1, PrintEach(es))
    requires Expect(ts, p, OpenBlock) && Expect(ts, p + 1 + |PrintEach(es)|, CloseBlock)
    ensures Atomic(ts, p) == Parsed(Ok(BlockAst(SequenceAst(es))), p + 2 + |PrintEach(es)|)
    decreases es, 3
  {
    StartsOpen(ts, p + 1, es);
    var barrier := SequenceBarrier(ts, p + 1, es);
    SequenceRead(ts, p + 1, es);
    BlockOf(ts, p, es, p + 1 + |PrintEach(es)|, barrier);
  }

  lemma BlockParts(a: Ast) returns (es: seq<Ast>)
    requires Plain(a) && a.kind == Block
    ensures a == BlockAst(SequenceAst(es)) && |es| != 1
    ensures |a.arguments| == 1 && es == a.arguments[0].arguments
    ensures AllPlain(es)
    ensures Print(a) == [OPEN] + PrintEach(es) + [CLOSE]
  {
    es := a.arguments[0].arguments;
    assert a.arguments == [SequenceAst(es)];
    assert Print(SequenceAst(es)) == PrintEach(es);
  }

  lemma {:induction false} LambdaRead(ts: seq<Token>, p: nat, a: Ast)
    requires Plain(a) && a.kind == Lambda && At(ts, p, Print(a))
    ensures Atomic(ts, p) == Parsed(Ok(a), p + |Print(a)|)
    decreases a, 0
  {
    var ps, es := LambdaParts(a);
    LambdaTokensRead(ts, p, ps, es);
  }

  lemma {:induction false} LambdaTokensRead(ts: seq<Token>, p: nat, ps: seq<Ast>, es: seq<Ast>)
    requires Parameters(ps) && AllPlain(es) && es != []
    requires At(ts, p, [OPEN] + Sources(ps) + [BAR] + PrintEach(es) + [CLOSE])
    ensures Atomic(ts, p) == Parsed(Ok(LambdaAst(SequenceAst(es), ps)), p + |ps| + |PrintEach(es)| + 3)
    decreases es, 4
  {
    LambdaLayout(ts, p, ps, es);
    LambdaContentRead(ts, p, ps, es, p + 1 + |ps|, p + 2 + |ps| + |PrintEach(es)|);
  }

  lemma {:induction false} LambdaContentRead(ts: seq<Token>, p: nat, ps: seq<Ast>, es: seq<Ast>, bar: nat, end: nat)
    requires Parameters(ps) && AllPlain(es) && es != [] && Expect(ts, p, OpenBlock)
    requires bar == p + 1 + |ps| && At(ts, p + 1, Sources(ps)) && Expect(ts, bar, ParameterSeparator)
    requires end == bar + 1 + |PrintEach(es)| && At(ts, bar + 1, PrintEach(es)) && Expect(ts, end, CloseBlock)
    ensures Atomic(ts, p) == Parsed(Ok(LambdaAst(SequenceAst(es), ps)), end + 1)
    decreases es, 3
  {
    ParameterListRead(ts, p + 1, ps);
    SequenceRead(ts, bar + 1, es);
    LambdaOf(ts, p, ps, bar, es, end);
  }

  lemma {:induction false} ParameterListRead(ts: seq<Token>, p: nat, ps: seq<Ast>)
    requires Parameters(ps) && At(ts, p, Sources(ps)) && Expect(ts, p + |ps|, ParameterSeparator)
    ensures p <= |ts|
    ensures ps != [] ==> Expect(ts, p, Symbol) && ManyIdentifiers(ts, p, []) == Parsed(Ok(ps), p + |ps|)
  {
    if ps != [] {
      FirstParameter(ts, p, ps);
      ParametersRead(ts, p, ps, []);
      assert [] + ps == ps;
    }
  }

  lemma LambdaParts(a: Ast) returns (ps: seq<Ast>, es: seq<Ast>)
    requires Plain(a) && a.kind == Lambda
    ensures a == LambdaAst(SequenceAst(es), ps) && es != []
    ensures a.arguments != [] && es == a.arguments[|a.arguments| - 1].arguments
    ensures Parameters(ps) && AllPlain(es)
    ensures Print(a) == [OPEN] + Sources(ps) + [BAR] + PrintEach(es) + [CLOSE]
  {
    var n := |a.arguments| - 1;
    ps, es := a.arguments[..n], a.arguments[n].arguments;
    assert a.arguments == ps + [SequenceAst(es)];
    LambdaPrinted(a, n, es);
  }

  lemma {:induction false} LambdaPrinted(a: Ast, n: nat, es: seq<Ast>)
    requires a.kind == Lambda && |a.arguments| == n + 1 && a.arguments[n] == SequenceAst(es)
    ensures Print(a) == [OPEN] + Sources(a.arguments[..n]) + [BAR] + PrintEach(es) + [CLOSE]
  {
    assert Print(SequenceAst(es)) == PrintEach(es);
  }

  lemma {:induction false} LambdaLayout(ts: seq<Token>, p: nat, ps: seq<Ast>, es: seq<Ast>)
    requires Parameters(ps)
    requires At(ts, p, [OPEN] + Sources(ps) + [BAR] + PrintEach(es) + [CLOSE])
    ensures p < |ts| && ts[p] == OPEN
    ensures At(ts, p + 1, Sources(ps)) && Expect(ts, p + 1 + |ps|, ParameterSeparator)
    ensures At(ts, p + 2 + |ps|, PrintEach(es))
    ensures Expect(ts, p + 2 + |ps| + |PrintEach(es)|, CloseBlock)
  {
    var head := Sources(ps) + [BAR];
    assert [OPEN] + Sources(ps) + [BAR] + PrintEach(es) + [CLOSE] == [OPEN] + (head + PrintEach(es)) + [CLOSE];
    Enclosed(ts, p, OPEN, head + PrintEach(es), CLOSE);
    Split(ts, p + 1, head, PrintEach(es));
    Split(ts, p + 1, Sources(ps), [BAR]);
    AtOne(ts, p + 1 + |ps|, BAR);
  }

  lemma FirstParameter(ts: seq<Token>, p: nat, ps: seq<Ast>)
    requires Parameters(ps) && ps != [] && At(ts, p, Sources(ps))
    ensures Expect(ts, p, Symbol) && LiteralAst(ts[p]) == ps[0]
    ensures At(ts, p + 1, Sources(ps[1..]))
  {
    assert Sources(ps) == [ps[0].token] + Sources(ps[1..]);
    Split(ts, p, [ps[0].token], Sources(ps[1..]));
    AtOne(ts, p, ps[0].token);
    assert IsParameter(ps[0]);
  }

  /** One of the two sides of an operator. */
  lemma {:induction false} SideRead(ts: seq<Token>, p: nat, a: Ast)
    requires Plain(a) && At(ts, p, Bracketed(a)) && Stop(ts, p + |Bracketed(a)|)
    ensures ManyAtomics(ts, p, []) == Parsed(Ok([a]), p + |Bracketed(a)|)
    decreases a, 5
  {
    BracketedRead(ts, p, a);
    OneAtomic(ts, p, a, p + |Bracketed(a)|);
  }

  lemma BinaryParts(a: Ast) returns (left: Ast, right: Ast)
    requires Plain(a) && a.kind == Binary
    ensures |a.arguments| == 2 && left == a.arguments[0] && right == a.arguments[1]
    ensures a == BinaryAst(a.token, [left, right]) && IsOperatorToken(a.token)
    ensures Plain(left) && Plain(right)
    ensures Print(a) == Bracketed(left) + [a.token] + Bracketed(right)
  {
    left, right := a.arguments[0], a.arguments[1];
    assert a.arguments == [left, right];
  }

  lemma {:induction false} BinaryLayout(ts: seq<Token>, p: nat, left: Ast, op: Token, right: Ast)
    requires At(ts, p, Bracketed(left) + [op] + Bracketed(right))
    ensures At(ts, p, Bracketed(left)) && At(ts, p + |Bracketed(left)| + 1, Bracketed(right))
    ensures p + |Bracketed(left)| < |ts| && ts[p + |Bracketed(left)|] == op
  {
    Split(ts, p, Bracketed(left) + [op], Bracketed(right));
    Split(ts, p, Bracketed(left), [op]);
    AtOne(ts, p + |Bracketed(left)|, op);
  }

  lemma {:induction false} BinaryRead(ts: seq<Token>, p: nat, a: Ast)
    requires Plain(a) && a.kind == Binary && At(ts, p, Print(a))
    requires Stop(ts, p + |Print(a)|) && !NextIsOperator(ts, p + |Print(a)|)
    ensures Infix(ts, p) == Parsed(Ok(a), p + |Print(a)|)
    decreases a, 0
  {
    var left, right := BinaryParts(a);
    var q := p + |Bracketed(left)|;
    BinaryLayout(ts, p, left, a.token, right);
    SideRead(ts, p, left);
    SideRead(ts, q + 1, right);
    InfixOfTwo(ts, p, left, q, right, q + 1 + |Bracketed(right)|);
  }

  lemma {:induction false} ExpressionRead(ts: seq<Token>, p: nat, a: Ast)
    requires Plain(a) && At(ts, p, Print(a))
    requires var q := p + |Print(a)|; Expect(ts, q, CloseBlock) || Expect(ts, q, ExpressionSeparator)
    ensures Expression(ts, p) == Parsed(Ok(a), p + |Print(a)|)
    decreases a, 3
  {
    if a.kind == VariableDeclaration {
      DeclarationRead(ts, p, a);
    } else {
      NoDeclaration(ts, p, a);
      InfixRead(ts, p, a);
    }
  }

  lemma {:induction false} InfixRead(ts: seq<Token>, p: nat, a: Ast)
    requires Plain(a) && a.kind != VariableDeclaration && At(ts, p, Print(a))
    requires var q := p + |Print(a)|; Expect(ts, q, CloseBlock) || Expect(ts, q, ExpressionSeparator)
    ensures Infix(ts, p) == Parsed(Ok(a), p + |Print(a)|)
    decreases a, 2
  {
    if a.kind == Binary {
      BinaryRead(ts, p, a);
    } else {
      AtomicRead(ts, p, a);
      InfixOfOne(ts, p, a, p + |Print(a)|);
    }
  }

  lemma {:induction false} AtomicRead(ts: seq<Token>, p: nat, a: Ast)
    requires Plain(a) && a.kind != VariableDeclaration && a.kind != Binary && At(ts, p, Print(a))
    ensures Atomic(ts, p) == Parsed(Ok(a), p + |Print(a)|)
    decreases a, 1
  {
    match a.kind
    case Literal =>
      FirstToken(ts, p, a);
      AtOne(ts, p, a.token);
    case Block => BlockRead(ts, p, a);
    case Lambda => LambdaRead(ts, p, a);
    case Call => CallRead(ts, p, a);
  }

  lemma {:induction false} NoDeclaration(ts: seq<Token>, p: nat, a: Ast)
    requires Plain(a) && a.kind != VariableDeclaration && At(ts, p, Print(a))
    requires var q := p + |Print(a)|; Expect(ts, q, CloseBlock) || Expect(ts, q, ExpressionSeparator)
    ensures !ExpectDeclaration(ts, p)
  {
    FirstToken(ts, p, a);
  }

  lemma {:induction false} DeclarationRead(ts: seq<Token>, p: nat, a: Ast)
    requires Plain(a) && a.kind == VariableDeclaration && At(ts, p, Print(a))
    requires var q := p + |Print(a)|; Expect(ts, q, CloseBlock) || Expect(ts, q, ExpressionSeparator)
    ensures Expression(ts, p) == Parsed(Ok(a), p + |Print(a)|)
    decreases a, 0
  {
    var name, value := a.arguments[0], a.arguments[1];
    FirstToken(ts, p, a);
    Split(ts, p, [name.token, ASSIGN], Print(value));
    ExpressionRead(ts, p + 2, value);
    assert IsParameter(name);
    assert a.arguments == [name, value];
  }

  // ----- Programs

  /** Parsing what the printer wrote for a program consumes every token and gives the program. */
  lemma {:induction false} ParseInvertsPrint(a: Ast)
    requires WellFormedSequence(a, true) && NoIndex(a)
    ensures Printable(a)
    ensures SequenceOf(Print(a), 0) == Parsed(Ok(a), |Print(a)|)
    ensures Program(Print(a)).Ok? && SameAst(Program(Print(a)).value, a)
  {
    WellFormedIsPrintable(a);
    WithoutIndex(a);
    var es := a.arguments;
    var ts := Print(a);
    assert At(ts, 0, PrintEach(es));
    assert a == SequenceAst(es);
    if es != [] {
      SequenceRead(ts, 0, es);
    }
    SameAstReflexive(a);
  }

  /** Whatever an accepted program without index expressions looked like, printing the tree and
      parsing again changes nothing, and the printed tokens are a fixed point. */
  lemma PrintingNormalises(ts: seq<Token>)
    requires Program(ts).Ok? && NoIndex(Program(ts).value)
    ensures Printable(Program(ts).value)
    ensures Program(Print(Program(ts).value)) == Program(ts)
  {
    ProgramBuilds(ts);
    ParseInvertsPrint(Program(ts).value);
  }

  /** The well-formed index-free sequences are exactly the index-free programs that parse. */
  lemma {:induction false} ExactlyTheParsedPrograms(a: Ast)
    requires NoIndex(a)
    ensures WellFormedSequence(a, true) <==> exists ts :: Program(ts) == Ok(a)
  {
    if WellFormedSequence(a, true) {
      ParseInvertsPrint(a);
      assert Program(Print(a)) == Ok(a);
    }
    if ts :| Program(ts) == Ok(a) {
      ProgramBuilds(ts);
    }
  }
}
