/** Printed text in which a bar is lost does not parse to the tree it was printed for: every lambda
    takes a bar of its own, and the text holds too few. */
module LostBars {
  import opened Tokens
  import opened Grammar
  import opened Lexing
  import opened PrintedText
  import opened Printer
  import opened Relexing
  import opened RoundTrip
  import opened Trees
  import opened Wrappers

  // ----- Bars and lambdas

  function One(t: Token): nat {
    if t.kind == ParameterSeparator then 1 else 0
  }

  function Bars(ts: seq<Token>): nat {
    if ts == [] then 0 else Bars(ts[..|ts| - 1]) + One(ts[|ts| - 1])
  }

  lemma {:induction false} BarsOfBoth(s: seq<Token>, t: seq<Token>)
    ensures Bars(s + t) == Bars(s) + Bars(t)
    decreases |t|
  {
    if t == [] {
      assert s + t == s;
    } else {
      var n := |t| - 1;
      assert (s + t)[..|s| + n] == s + t[..n];
      BarsOfBoth(s, t[..n]);
    }
  }

  lemma BarsOfOne(t: Token)
    ensures Bars([t]) == One(t)
  {
    assert [t][..0] == [];
  }

  /** Bars ahead of the cursor. */
  function BarsTo(ts: seq<Token>, p: nat): nat
    requires p <= |ts|
  {
    Bars(ts[..p])
  }

  lemma NextBar(ts: seq<Token>, p: nat)
    requires p < |ts|
    ensures BarsTo(ts, p + 1) == BarsTo(ts, p) + One(ts[p])
  {
    assert ts[..p + 1][..p] == ts[..p];
  }

  lemma {:induction false} NoFewerBars(ts: seq<Token>, p: nat, q: nat)
    requires p <= q <= |ts|
    ensures BarsTo(ts, p) <= BarsTo(ts, q)
    decreases q
  {
    if p < q {
      NoFewerBars(ts, p, q - 1);
      NextBar(ts, q - 1);
    }
  }

  function Lambdas(a: Ast): nat
    decreases a
  {
    (if a.kind == Lambda then 1 else 0) + LambdasIn(a.arguments)
  }

  function LambdasIn(es: seq<Ast>): nat
    decreases es
  {
    if es == [] then 0 else Lambdas(es[0]) + LambdasIn(es[1..])
  }

  lemma {:induction false} LambdasInBoth(a: seq<Ast>, b: seq<Ast>)
    ensures LambdasIn(a + b) == LambdasIn(a) + LambdasIn(b)
    decreases |a|
  {
    if a == [] {
      assert a + b == b;
    } else {
      assert (a + b)[1..] == a[1..] + b;
      LambdasInBoth(a[1..], b);
    }
  }

  lemma {:induction false} LambdasInOne(a: Ast)
    ensures LambdasIn([a]) == Lambdas(a)
  {
    assert [a][1..] == [];
  }

  lemma {:induction false} LambdasOfBinary(op: Token, left: Ast, right: Ast)
    ensures Lambdas(BinaryAst(op, [left])) == Lambdas(left)
    ensures Lambdas(BinaryAst(op, [left, right])) == Lambdas(left) + Lambdas(right)
    ensures AddArgument(BinaryAst(op, [left]), right) == BinaryAst(op, [left, right])
  {
    LambdasInOne(left);
    LambdasInOne(right);
    assert [left, right][1..] == [right];
  }

  lemma {:induction false} LambdasOfDeclaration(name: Token, value: Ast)
    ensures Lambdas(DeclarationAst(LiteralAst(name), value)) == Lambdas(value)
  {
    LambdasInBoth([LiteralAst(name)], [value]);
    LambdasInOne(LiteralAst(name));
    LambdasInOne(value);
    assert DeclarationAst(LiteralAst(name), value).arguments == [LiteralAst(name)] + [value];
  }

  lemma {:induction false} LambdasOfBody(body: Ast, parameters: seq<Ast>)
    ensures Lambdas(LambdaAst(body, parameters)) == 1 + LambdasIn(parameters) + Lambdas(body)
    ensures Lambdas(BlockAst(body)) == Lambdas(body)
    ensures body.kind == Sequence && |body.arguments| == 1 ==> Lambdas(body.arguments[0]) == Lambdas(body)
  {
    LambdasInBoth(parameters, [body]);
    LambdasInOne(body);
    if |body.arguments| == 1 {
      LambdasInOne(body.arguments[0]);
      assert body.arguments == [body.arguments[0]];
    }
  }

  // ----- Every lambda is parsed from a bar of its own

  /** The lambdas that were built, beyond the `known` ones, are no more than the bars passed. */
  ghost predicate Paid(ts: seq<Token>, p: nat, known: nat, r: Parsed<Ast>) {
    r.outcome.Ok? ==>
      p <= |ts| && r.next <= |ts| && Lambdas(r.outcome.value) + BarsTo(ts, p) <= known + BarsTo(ts, r.next)
  }

  ghost predicate AllPaid(ts: seq<Token>, p: nat, known: nat, r: Parsed<seq<Ast>>) {
    r.outcome.Ok? ==>
      p <= |ts| && r.next <= |ts| && LambdasIn(r.outcome.value) + BarsTo(ts, p) <= known + BarsTo(ts, r.next)
  }

  lemma {:induction false} OneMorePaid(trees: seq<Ast>, a: Ast)
    ensures LambdasIn(trees + [a]) == LambdasIn(trees) + Lambdas(a)
  {
    LambdasInBoth(trees, [a]);
    LambdasInOne(a);
  }

  lemma {:induction false} SequencePays(ts: seq<Token>, p: nat)
    requires p <= |ts|
    ensures Paid(ts, p, 0, SequenceOf(ts, p))
    decreases |ts| - p, 10
  {
    var q := SkipSeparators(ts, p);
    NoFewerBars(ts, p, q);
    if q < |ts| {
      ExpressionsPay(ts, q, []);
    }
  }

  lemma {:induction false} ExpressionsPay(ts: seq<Token>, p: nat, trees: seq<Ast>)
    requires p <= |ts|
    ensures AllPaid(ts, p, LambdasIn(trees), ManyExpressions(ts, p, trees))
    decreases |ts| - p, 9
  {
    var e := Expression(ts, p);
    NoFewerBars(ts, p, e.next);
    if e.outcome.Ok? {
      ExpressionPays(ts, p);
      OneMorePaid(trees, e.outcome.value);
      if Expect(ts, e.next, ExpressionSeparator) {
        NoFewerBars(ts, e.next, SkipSeparators(ts, e.next));
        ExpressionsPay(ts, SkipSeparators(ts, e.next), trees + [e.outcome.value]);
      }
    }
  }

  lemma {:induction false} ExpressionPays(ts: seq<Token>, p: nat)
    requires p <= |ts|
    ensures Paid(ts, p, 0, Expression(ts, p))
    decreases |ts| - p, 8
  {
    if ExpectDeclaration(ts, p) {
      var value := Expression(ts, p + 2);
      NoFewerBars(ts, p, p + 2);
      ExpressionPays(ts, p + 2);
      if value.outcome.Ok? {
        LambdasOfDeclaration(ts[p], value.outcome.value);
      }
    } else {
      InfixPays(ts, p);
    }
  }

  lemma {:induction false} InfixPays(ts: seq<Token>, p: nat)
    requires p <= |ts|
    ensures Paid(ts, p, 0, Infix(ts, p))
    decreases |ts| - p, 7
  {
    var m := ManyAtomics(ts, p, []);
    AtomicsPay(ts, p, []);
    if m.outcome.Ok? {
      WrappedPays(m.outcome.value);
      if NextIsOperator(ts, m.next) {
        NoFewerBars(ts, m.next, m.next + 1);
        RhsPays(ts, m.next + 1, ts[m.next], WrapIfSeveral(m.outcome.value));
      }
    }
  }

  lemma {:induction false} WrappedPays(trees: seq<Ast>)
    requires trees != []
    ensures Lambdas(WrapIfSeveral(trees)) == LambdasIn(trees)
  {
    if |trees| == 1 {
      LambdasInOne(trees[0]);
      assert trees == [trees[0]];
    }
  }

  lemma {:induction false} RhsPays(ts: seq<Token>, p: nat, op: Token, left: Ast)
    requires p <= |ts|
    ensures Paid(ts, p, Lambdas(left), InfixRhs(ts, p, BinaryAst(op, [left])))
    decreases |ts| - p, 7
  {
    var m := ManyAtomics(ts, p, []);
    AtomicsPay(ts, p, []);
    if m.outcome.Ok? {
      var rhs := WrapIfSeveral(m.outcome.value);
      WrappedPays(m.outcome.value);
      LambdasOfBinary(op, left, rhs);
      if NextIsOperator(ts, m.next) {
        NoFewerBars(ts, m.next, m.next + 1);
        NextRhsPays(ts, m.next + 1, op, left, rhs, ts[m.next]);
      }
    }
  }

  /** Both ways in which an operator can go on. */
  lemma {:induction false} NextRhsPays(ts: seq<Token>, p: nat, op: Token, left: Ast, rhs: Ast, next: Token)
    requires p <= |ts|
    ensures Paid(ts, p, Lambdas(left) + Lambdas(rhs), InfixRhs(ts, p, BinaryAst(next, [BinaryAst(op, [left, rhs])])))
    ensures var r := InfixRhs(ts, p, BinaryAst(next, [rhs]));
            r.outcome.Ok? ==>
              Paid(ts, p, Lambdas(left) + Lambdas(rhs),
                   Parsed(Ok(AddArgument(BinaryAst(op, [left]), r.outcome.value)), r.next))
    decreases |ts| - p, 8
  {
    LambdasOfBinary(op, left, rhs);
    RhsPays(ts, p, next, BinaryAst(op, [left, rhs]));
    RhsPays(ts, p, next, rhs);
    var r := InfixRhs(ts, p, BinaryAst(next, [rhs]));
    if r.outcome.Ok? {
      LambdasOfBinary(op, left, r.outcome.value);
    }
  }

  lemma {:induction false} AtomicsPay(ts: seq<Token>, p: nat, trees: seq<Ast>)
    requires p <= |ts|
    ensures AllPaid(ts, p, LambdasIn(trees), ManyAtomics(ts, p, trees))
    decreases |ts| - p, 6
  {
    var e := IndexExpression(ts, p);
    NoFewerBars(ts, p, e.next);
    IndexPays(ts, p);
    if e.outcome.Ok? {
      OneMorePaid(trees, e.outcome.value);
      AtomicsPay(ts, e.next, trees + [e.outcome.value]);
    }
  }

  lemma {:induction false} IndexPays(ts: seq<Token>, p: nat)
    requires p <= |ts|
    ensures Paid(ts, p, 0, IndexExpression(ts, p))
    decreases |ts| - p, 5
  {
    var a := Atomic(ts, p);
    AtomicPays(ts, p);
    if a.outcome.Ok? {
      IndicesPay(ts, a.next, a.outcome.value);
    }
  }

  lemma {:induction false} AtomicPays(ts: seq<Token>, p: nat)
    requires p <= |ts|
    ensures Paid(ts, p, 0, Atomic(ts, p))
    decreases |ts| - p, 4
  {
    if p < |ts| {
      NoFewerBars(ts, p, p + 1);
      if ts[p].kind == OpenBlock {
        BlockPays(ts, p + 1);
      } else {
        assert Lambdas(LiteralAst(ts[p])) == 0;
      }
    }
  }

  lemma {:induction false} IndicesPay(ts: seq<Token>, p: nat, indexed: Ast)
    requires p <= |ts|
    ensures Paid(ts, p, Lambdas(indexed), Indices(ts, p, indexed))
    decreases |ts| - p, 5
  {
    if Expect(ts, p, OpenIndex) {
      var i := SequenceInside(ts, p + 1, CloseIndex, false, [], None);
      NoFewerBars(ts, p, p + 1);
      InsidePays(ts, p + 1, CloseIndex, false, [], None);
      if i.outcome.Ok? {
        LambdasOfBinary(ts[p], indexed, i.outcome.value);
        IndicesPay(ts, i.next, BinaryAst(ts[p], [indexed, i.outcome.value]));
      }
    }
  }

  lemma {:induction false} BlockPays(ts: seq<Token>, start: nat)
    requires start <= |ts|
    ensures Paid(ts, start, 0, BlockOrLambda(ts, start))
    decreases |ts| - start, 13
  {
    if Expect(ts, start, CloseBlock) {
      NoFewerBars(ts, start, start + 1);
      LambdasOfBody(SequenceAst([]), []);
    } else if Expect(ts, start, ParameterSeparator) {
      NextBar(ts, start);
      InsidePays(ts, start + 1, CloseBlock, true, [], Some(start));
    } else {
      ParametersPay(ts, start);
    }
  }

  lemma {:induction false} ParametersPay(ts: seq<Token>, start: nat)
    requires start <= |ts| && !Expect(ts, start, CloseBlock) && !Expect(ts, start, ParameterSeparator)
    ensures Paid(ts, start, 0, BlockOrLambda(ts, start))
    decreases |ts| - start, 12
  {
    var ps := ManyIdentifiers(ts, start, []);
    if ps.outcome.Ok? && Expect(ts, ps.next, ParameterSeparator) {
      IdentifiersPay(ts, start, []);
      NoFewerBars(ts, start, ps.next);
      NextBar(ts, ps.next);
      InsidePays(ts, ps.next + 1, CloseBlock, true, ps.outcome.value, Some(start));
    } else {
      InsidePays(ts, start, CloseBlock, false, [], Some(start));
    }
  }

  lemma {:induction false} InsidePays(ts: seq<Token>, p: nat, closing: TokenType, isLambda: bool,
                                      parameters: seq<Ast>, start: Option<nat>)
    requires p <= |ts|
    requires start.Some? ==> start.value <= p
    ensures var known := if isLambda then 1 + LambdasIn(parameters) else 0;
            Paid(ts, p, known, SequenceInside(ts, p, closing, isLambda, parameters, start))
    decreases |ts| - p, 11
  {
    SequencePays(ts, p);
    var s := SequenceOf(ts, p);
    if s.outcome.Ok? && Expect(ts, s.next, closing) {
      NoFewerBars(ts, s.next, s.next + 1);
      LambdasOfBody(s.outcome.value, parameters);
    }
  }

  lemma {:induction false} IdentifiersPay(ts: seq<Token>, p: nat, trees: seq<Ast>)
    requires p <= |ts| && LambdasIn(trees) == 0
    ensures var o := ManyIdentifiers(ts, p, trees).outcome; o.Ok? ==> LambdasIn(o.value) == 0
    decreases |ts| - p
  {
    var e := SeparatedIdentifier(ts, p);
    if e.outcome.Ok? {
      OneMorePaid(trees, e.outcome.value);
      IdentifiersPay(ts, e.next, trees + [e.outcome.value]);
    }
  }

  /** A program has no more lambdas than bars. */
  lemma {:induction false} LambdasTakeBars(ts: seq<Token>)
    requires Program(ts).Ok?
    ensures Lambdas(Program(ts).value) <= Bars(ts)
  {
    SequencePays(ts, 0);
    assert ts[..|ts|] == ts;
  }

  // ----- A lambda is printed with one bar

  lemma {:induction false} NoBars(ts: seq<Token>)
    requires forall i | 0 <= i < |ts| :: ts[i].kind != ParameterSeparator
    ensures Bars(ts) == 0
  {
    if ts != [] {
      NoBars(ts[..|ts| - 1]);
    }
  }

  lemma {:induction false} BarsOfEnclosed(before: Token, s: seq<Token>, after: Token)
    requires before.kind != ParameterSeparator && after.kind != ParameterSeparator
    ensures Bars([before] + s + [after]) == Bars(s)
  {
    BarsOfBoth([before] + s, [after]);
    BarsOfBoth([before], s);
    BarsOfOne(before);
    BarsOfOne(after);
  }

  lemma {:induction false} BracketedBars(a: Ast)
    requires Plain(a)
    ensures Bars(Bracketed(a)) == Lambdas(a)
    decreases a, 2
  {
    PrintedBars(a);
    BarsOfEnclosed(OPEN, Print(a), CLOSE);
  }

  lemma {:induction false} EachBars(es: seq<Ast>)
    requires AllPlain(es)
    ensures Bars(PrintEach(es)) == LambdasIn(es)
    decreases es, 0
  {
    if es != [] {
      PrintedBars(es[0]);
      EachBars(es[1..]);
      BarsOfBoth(Print(es[0]) + [COMMA], PrintEach(es[1..]));
      BarsOfBoth(Print(es[0]), [COMMA]);
      BarsOfOne(COMMA);
    }
  }

  lemma {:induction false} PiecesBars(es: seq<Ast>)
    requires AllPlain(es)
    ensures Bars(PrintPieces(es)) == LambdasIn(es)
    decreases es, 0
  {
    if es != [] {
      BracketedBars(es[0]);
      PiecesBars(es[1..]);
      BarsOfBoth(Bracketed(es[0]), PrintPieces(es[1..]));
    }
  }

  lemma {:induction false} PrintedBars(a: Ast)
    requires Plain(a)
    ensures Bars(Print(a)) == Lambdas(a)
    decreases a, 1
  {
    match a.kind
    case Literal => BarsOfOne(a.token);
    case Binary => BinaryBars(a);
    case Call =>
      PiecesBars(a.arguments);
      BarsOfEnclosed(OPEN, PrintPieces(a.arguments), CLOSE);
    case Block =>
      var es := RoundTrip.BlockParts(a);
      EachBars(es);
      BarsOfEnclosed(OPEN, PrintEach(es), CLOSE);
      LambdasOfBody(SequenceAst(es), []);
    case Lambda => LambdaBars(a);
    case VariableDeclaration => DeclarationBars(a);
  }

  lemma {:induction false} BinaryBars(a: Ast)
    requires Plain(a) && a.kind == Binary
    ensures Bars(Print(a)) == Lambdas(a)
    decreases a, 0
  {
    var left, right := RoundTrip.BinaryParts(a);
    BracketedBars(left);
    BracketedBars(right);
    BarsOfBoth(Bracketed(left) + [a.token], Bracketed(right));
    BarsOfBoth(Bracketed(left), [a.token]);
    BarsOfOne(a.token);
    LambdasOfBinary(a.token, left, right);
  }

  lemma {:induction false} DeclarationBars(a: Ast)
    requires Plain(a) && a.kind == VariableDeclaration
    ensures Bars(Print(a)) == Lambdas(a)
    decreases a, 0
  {
    var name, value := a.arguments[0], a.arguments[1];
    assert IsParameter(name) && name == LiteralAst(name.token);
    assert a.arguments == [name, value];
    PrintedBars(value);
    BarsOfBoth([name.token, ASSIGN], Print(value));
    NoBars([name.token, ASSIGN]);
    LambdasOfDeclaration(name.token, value);
  }

  lemma {:induction false} LambdaBars(a: Ast)
    requires Plain(a) && a.kind == Lambda
    ensures Bars(Print(a)) == Lambdas(a)
    decreases a, 0
  {
    var ps, es := LambdaParts(a);
    EachBars(es);
    BarsOfLambda(ps, es);
    LambdasOfBody(SequenceAst(es), ps);
    NamesHoldNoLambdas(ps);
  }

  lemma {:induction false} BarsOfLambda(ps: seq<Ast>, es: seq<Ast>)
    requires Parameters(ps)
    ensures Bars([OPEN] + Sources(ps) + [BAR] + PrintEach(es) + [CLOSE]) == 1 + Bars(PrintEach(es))
  {
    NamesHoldNoBars(ps);
    FourPieces([OPEN] + Sources(ps), [BAR], PrintEach(es), [CLOSE]);
    BarsOfBoth([OPEN], Sources(ps));
    BarsOfOne(OPEN);
    BarsOfOne(BAR);
    BarsOfOne(CLOSE);
  }

  lemma {:induction false} FourPieces(a: seq<Token>, b: seq<Token>, c: seq<Token>, d: seq<Token>)
    ensures Bars(a + b + c + d) == Bars(a) + Bars(b) + Bars(c) + Bars(d)
  {
    BarsOfBoth(a + b + c, d);
    BarsOfBoth(a + b, c);
    BarsOfBoth(a, b);
  }

  lemma NamesHoldNoBars(ps: seq<Ast>)
    requires Parameters(ps)
    ensures Bars(Sources(ps)) == 0
  {
    forall i | 0 <= i < |ps| ensures Sources(ps)[i].kind != ParameterSeparator {
      assert IsParameter(ps[i]);
    }
    NoBars(Sources(ps));
  }

  lemma {:induction false} NamesHoldNoLambdas(ps: seq<Ast>)
    requires Parameters(ps)
    ensures LambdasIn(ps) == 0
    decreases |ps|
  {
    if ps != [] {
      assert IsParameter(ps[0]);
      NamesHoldNoLambdas(ps[1..]);
    }
  }

  // ----- A bar that is lost is read together with the token behind it

  /** The letters of Unicode are no operator characters either. */
  ghost predicate OrdinaryLetters(letter: char -> bool) {
    PlainLetters(letter) && forall c | IsOperatorChar(c) :: !letter(c)
  }

  function BarsFrom(text: string, p: nat, start: Location, letter: char -> bool): nat
    requires p <= |text|
  {
    Bars(TokensOf(AllFrom(text, p, start, letter).list))
  }

  lemma {:induction false} OneTokenRead(text: string, p: nat, kind: TokenType, end: nat,
                                        start: Location, letter: char -> bool)
    requires p < end <= |text| && SkipBlanks(text, p) == Some(p) && TokenAt(text, p, letter) == Lexed(kind, end)
    ensures BarsFrom(text, p, start, letter) == One(Token(kind, "")) + BarsFrom(text, end, start, letter)
  {
    var r, rest := AllFrom(text, p, start, letter), AllFrom(text, end, start, letter);
    assert r.list[1..] == rest.list;
    BarsOfBoth([r.list[0].token], TokensOf(rest.list));
    BarsOfOne(r.list[0].token);
  }

  /** Where a token starts does not change where it ends. */
  lemma SameEnd(text: string, s: nat, from: nat, p: nat, letter: char -> bool)
    requires s <= p <= |text| && from <= p
    ensures var t, u := LongTokenAt(text, s, p, letter), LongTokenAt(text, from, p, letter);
            t.Lexed? == u.Lexed? && (t.Lexed? ==> t.end == u.end && t.kind != ParameterSeparator)
  {
  }

  lemma LowByteOfSmall(c: char)
    requires c as int < 256
    ensures LowByteIsOperator(c) <==> IsOperatorChar(c)
  {
    assert (c as int % 256) as char == c;
  }

  /** Brackets, blanks and digits are no operator characters, nor is the hash. */
  lemma NeverOperators(c: char)
    requires SingleCharToken(c).Some? || IsSpace(c) || IsDigit(c) || c == '#' || c == '\''
    ensures !LowByteIsOperator(c) && !IsOperatorChar(c)
  {
    LowByteOfSmall(c);
    InNone(c, OPERATOR_CHARS);
  }

  lemma OperatorsStartNoWord(c: char, letter: char -> bool)
    requires OrdinaryLetters(letter) && IsOperatorChar(c)
    ensures !IsIdentifierStart(letter, c) && !IsNoteLetter(c) && !IsQuote(c)
  {
    if IsNoteLetter(c) || c in IDENTIFIER_MARKS[0] || c as int >= 256 {
      InNone(c, OPERATOR_CHARS);
      assert false;
    }
    InNone(c, IDENTIFIER_MARKS);
  }

  /** The token at `from` is a long one and the bar in front of it is lost. */
  ghost predicate Loses(text: string, s: nat, end: nat, t: Token, letter: char -> bool) {
    && Is(text, s, '|') && !IsSeparatorBar(text, s)
    && IsLexed(t, letter) && t.kind != ParameterSeparator
    && Delimited(text, s + 1, end) && text[s + 1..end] == t.source
  }

  lemma LongBehindBar(text: string, s: nat, end: nat, t: Token, letter: char -> bool)
    requires Loses(text, s, end, t, letter) && PlainLetters(letter)
    ensures var p := Matching(text, s + 1); p < end && LongTokenAt(text, s + 1, p, letter) == Lexed(t.kind, end)
    ensures Matching(text, s + 1) == s + 2 ==> LowByteIsOperator(text[s + 2])
  {
    assert t.source[0] == text[s + 1];
    assert |t.source| > 1 ==> t.source[1] == text[s + 2];
    if SingleCharToken(text[s + 1]).Some? {
      NeverOperators(text[s + 1]);
      assert false;
    }
    LongTokenOutside(text, s + 1, end, Matching(text, s + 1), t.kind, letter);
  }

  lemma {:induction false} TokenWithBar(text: string, s: nat, letter: char -> bool)
    requires Is(text, s, '|') && !IsSeparatorBar(text, s)
    ensures s + 1 < |text| && SkipBlanks(text, s) == Some(s)
    ensures TokenAt(text, s, letter) == LongTokenAt(text, s, s + 1, letter)
  {
    BarAnywhere(text, s, letter);
  }

  lemma LostAhead(text: string, s: nat, end: nat, start: Location, letter: char -> bool)
    requires Is(text, s, '|') && !IsSeparatorBar(text, s) && s + 1 < end <= |text|
    requires LongTokenAt(text, s + 1, s + 1, letter).Lexed? && LongTokenAt(text, s + 1, s + 1, letter).end == end
    ensures BarsFrom(text, s, start, letter) == BarsFrom(text, end, start, letter)
  {
    TokenWithBar(text, s, letter);
    SameEnd(text, s, s + 1, s + 1, letter);
    OneTokenRead(text, s, LongTokenAt(text, s, s + 1, letter).kind, end, start, letter);
  }

  /** A token that starts with a bar itself: both bars and what follows are read as an operator. */
  lemma BarsAreOperator(text: string, s: nat, letter: char -> bool)
    requires Is(text, s, '|') && Is(text, s + 1, '|') && OrdinaryLetters(letter)
    ensures SkipBlanks(text, s) == Some(s)
    ensures TokenAt(text, s, letter) == Lexed(Operator, Run(text, s + 2, IsOperatorChar))
  {
    BarIsOperator();
    OperatorsStartNoWord('|', letter);
  }

  lemma BarIsOperator()
    ensures IsOperatorChar('|') && LowByteIsOperator('|')
  {
    assert '|' in OPERATOR_CHARS[1];
    assert IsInAny('|', OPERATOR_CHARS[1..]);
    LowByteOfSmall('|');
  }

  /** What follows the two bars is more of the operator, or a token of its own. */
  lemma {:induction false} BehindBars(text: string, s: nat, end: nat, t: Token, start: Location, letter: char -> bool)
    requires Loses(text, s, end, t, letter) && OrdinaryLetters(letter) && text[s + 1] == '|'
    ensures var q := Run(text, s + 2, IsOperatorChar);
            BarsFrom(text, q, start, letter) == BarsFrom(text, end, start, letter)
  {
    LongBehindBar(text, s, end, t, letter);
    var c := text[s + 2];
    if StartsNumber(text, s + 2) {
      NumberBehindBars(text, s, end, start, letter);
    } else if IsOperatorChar(c) {
      OperatorsStartNoWord(c, letter);
    } else {
      WordBehindBars(text, s, end, start, letter);
    }
  }

  lemma NumberBehindBars(text: string, s: nat, end: nat, start: Location, letter: char -> bool)
    requires s + 2 < end <= |text| && StartsNumber(text, s + 2) && NumberEnd(text, s + 2) == end
    requires LowByteIsOperator(text[s + 2])
    ensures var q := Run(text, s + 2, IsOperatorChar);
            BarsFrom(text, q, start, letter) == BarsFrom(text, end, start, letter)
  {
    if IsDigit(text[s + 2]) {
      NeverOperators(text[s + 2]);
      assert false;
    }
    DashIsOperator();
    NeverOperators(text[s + 3]);
    assert Run(text, s + 2, IsOperatorChar) == s + 3;
    OneTokenRead(text, s + 3, Numeric, end, start, letter);
  }

  lemma WordBehindBars(text: string, s: nat, end: nat, start: Location, letter: char -> bool)
    requires s + 2 < end <= |text| && LowByteIsOperator(text[s + 2]) && !IsOperatorChar(text[s + 2])
    requires LongTokenAt(text, s + 1, s + 2, letter).Lexed? && LongTokenAt(text, s + 1, s + 2, letter).end == end
    ensures var q := Run(text, s + 2, IsOperatorChar);
            BarsFrom(text, q, start, letter) == BarsFrom(text, end, start, letter)
  {
    WordStarts(text, s + 2);
    LongFrom(text, s + 1, s + 2, end, letter);
    NoBarRead(text, s + 2, end, start, letter);
  }

  lemma {:induction false} NoBarRead(text: string, p: nat, end: nat, start: Location, letter: char -> bool)
    requires p < end <= |text| && SkipBlanks(text, p) == Some(p)
    requires var t := TokenAt(text, p, letter); t.Lexed? && t.end == end && t.kind != ParameterSeparator
    ensures BarsFrom(text, p, start, letter) == BarsFrom(text, end, start, letter)
  {
    OneTokenRead(text, p, TokenAt(text, p, letter).kind, end, start, letter);
  }

  /** No operator starts here, and nothing that is skipped. */
  lemma {:induction false} WordStarts(text: string, p: nat)
    requires p < |text| && LowByteIsOperator(text[p]) && !IsOperatorChar(text[p])
    ensures SkipBlanks(text, p) == Some(p) && Run(text, p, IsOperatorChar) == p
    ensures SingleCharToken(text[p]).None? && text[p] != '|'
  {
    var c := text[p];
    if SingleCharToken(c).Some? || IsSpace(c) || c == '#' {
      NeverOperators(c);
      assert false;
    }
    DashIsOperator();
    BarIsOperator();
  }

  lemma LongFrom(text: string, from: nat, p: nat, end: nat, letter: char -> bool)
    requires from <= p < |text| && SingleCharToken(text[p]).None? && text[p] != '|'
    requires LongTokenAt(text, from, p, letter).Lexed? && LongTokenAt(text, from, p, letter).end == end
    ensures var t := TokenAt(text, p, letter); t.Lexed? && t.end == end && t.kind != ParameterSeparator
  {
    SameEnd(text, p, from, p, letter);
  }

  /** In any case no bar is read up to the end of the token. */
  lemma LostBar(text: string, s: nat, end: nat, t: Token, start: Location, letter: char -> bool)
    requires Loses(text, s, end, t, letter) && OrdinaryLetters(letter)
    ensures BarsFrom(text, s, start, letter) == BarsFrom(text, end, start, letter)
  {
    if text[s + 1] == '|' {
      BarsAreOperator(text, s, letter);
      OneTokenRead(text, s, Operator, Run(text, s + 2, IsOperatorChar), start, letter);
      BehindBars(text, s, end, t, start, letter);
    } else {
      LongBehindBar(text, s, end, t, letter);
      LostAhead(text, s, end, start, letter);
    }
  }

  // ----- Pieces in a row

  lemma {:induction false} BarsOfPieces(ps: seq<Piece>)
    requires ps != []
    ensures Bars(TokensOfPieces(ps)) == One(ps[0].token) + Bars(TokensOfPieces(ps[1..]))
  {
    BarsOfBoth([ps[0].token], TokensOfPieces(ps[1..]));
    BarsOfOne(ps[0].token);
  }

  /** The first piece is read as it is. */
  lemma FirstCounts(text: string, p: nat, ps: seq<Piece>, start: Location, letter: char -> bool)
    returns (next: nat)
    requires Holds(text, p, ps) && ps != [] && AllPlaced(ps, letter) && PlainLetters(letter) && FirstStands(ps)
    ensures Holds(text, next, ps[1..])
    ensures BarsFrom(text, p, start, letter) == One(ps[0].token) + BarsFrom(text, next, start, letter)
  {
    var end := p + |ps[0].token.source|;
    PlacedSources(ps, letter);
    FirstPiece(text, p, ps);
    FirstIsRead(text, p, ps, letter);
    next := if ps[0].spaced then end + 1 else end;
    OneTokenRead(text, p, ps[0].token.kind, end, start, letter);
    RestIsRead(text, end, next, ps[1..], start, letter);
  }

  /** A bar that does not stand, and the token behind it. */
  lemma LosesFirst(text: string, p: nat, ps: seq<Piece>, letter: char -> bool) returns (end: nat, next: nat)
    requires Holds(text, p, ps) && ps != [] && AllPlaced(ps, letter) && PlainLetters(letter) && !FirstStands(ps)
    ensures |ps| > 1 && Loses(text, p, end, ps[1].token, letter)
    ensures AllPlaced(ps[2..], letter) && Holds(text, next, ps[2..])
    ensures end == next || (end + 1 == next && text[end] == ' ')
  {
    var rest := ps[1..];
    var t := rest[0].token;
    PlacedSources(ps, letter);
    FirstPiece(text, p, ps);
    PlacedSources(rest, letter);
    FirstPiece(text, p + 1, rest);
    end := p + 1 + |t.source|;
    next := if rest[0].spaced then end + 1 else end;
    assert text[p] == text[p..p + 1][0] && text[p + 1] == t.source[0];
    NotSingle(t);
    assert rest[1..] == ps[2..];
  }

  lemma NotSingle(t: Token)
    requires t.source != "" && !BarStands(t.source[0])
    ensures !IsSingle(t)
  {
    if IsSingle(t) {
      NeverOperators(t.source[0]);
    }
  }

  /** Neither of the two is read as a bar. */
  lemma FirstIsLost(text: string, p: nat, ps: seq<Piece>, start: Location, letter: char -> bool)
    returns (next: nat)
    requires Holds(text, p, ps) && ps != [] && AllPlaced(ps, letter) && OrdinaryLetters(letter) && !FirstStands(ps)
    ensures |ps| > 1 && Holds(text, next, ps[2..]) && AllPlaced(ps[2..], letter)
    ensures BarsFrom(text, p, start, letter) == BarsFrom(text, next, start, letter)
  {
    var end;
    end, next := LosesFirst(text, p, ps, letter);
    LostBar(text, p, end, ps[1].token, start, letter);
    RestIsRead(text, end, next, ps[2..], start, letter);
  }

  /** Reading never gives more bars than were written, and fewer if one is lost. */
  lemma {:induction false} FewerBarsRead(text: string, p: nat, ps: seq<Piece>, start: Location, letter: char -> bool)
    requires Holds(text, p, ps) && AllPlaced(ps, letter) && OrdinaryLetters(letter)
    ensures BarsFrom(text, p, start, letter) <= Bars(TokensOfPieces(ps))
    ensures !BarsStand(ps) ==> BarsFrom(text, p, start, letter) < Bars(TokensOfPieces(ps))
    decreases |ps|
  {
    if ps == [] {
      assert |text| == p;
    } else {
      BarsOfPieces(ps);
      if FirstStands(ps) {
        var next := FirstCounts(text, p, ps, start, letter);
        FewerBarsRead(text, next, ps[1..], start, letter);
      } else {
        var next := FirstIsLost(text, p, ps, start, letter);
        BarsOfPieces(ps[1..]);
        assert ps[1..][1..] == ps[2..];
        FewerBarsRead(text, next, ps[2..], start, letter);
      }
    }
  }

  // ----- Whole programs

  /** The printed text of a program parses to the same program if and only if no lambda's body starts
      with a rune that looks like the rest of an operator. */
  lemma {:induction false} PrintedTreeReadsExactlyWhen(a: Ast, start: Location, letter: char -> bool)
    requires WellFormedSequence(a, true) && NoIndex(a) && AllLexed(a, letter) && OrdinaryLetters(letter)
    ensures Program(TokensOf(AllFrom(Characters(a), 0, start, letter).list)) == Ok(a) <==> BarsStandIn(a)
  {
    var text, ps := Characters(a), Layout(a);
    PrintedTextReadsExactlyWhen(a, start, letter);
    if !BarsStandIn(a) {
      WithoutIndex(a);
      EachFits(a.arguments, [], letter);
      SequenceStands(a.arguments);
      assert ps + [] == ps && text[0..] == text;
      FewerBarsRead(text, 0, ps, start, letter);
      LayoutIsPrint(a);
      EachBars(a.arguments);
      var ts := TokensOf(AllFrom(text, 0, start, letter).list);
      if Program(ts) == Ok(a) {
        LambdasTakeBars(ts);
      }
    }
  }

  /** From text to text: whatever text a program without index expressions was read from, its printed
      text is read as the same program if and only if every bar stands. */
  lemma {:induction false} TreeReadsBackExactlyWhen(text: string, a: Ast, start: Location, letter: char -> bool)
    requires OrdinaryLetters(letter) && NoIndex(a)
    requires Program(TokensOf(AllFrom(text, 0, start, letter).list)) == Ok(a)
    ensures Program(TokensOf(AllFrom(Characters(a), 0, start, letter).list)) == Ok(a) <==> BarsStandIn(a)
  {
    TreeOfText(text, a, start, letter);
    PrintedTreeReadsExactlyWhen(a, start, letter);
  }

  /** A lambda around any such token does not come back. */
  lemma {:induction false} LambdaIsLost(t: Token, start: Location, letter: char -> bool)
    requires IsLiteralToken(t) && IsLexed(t, letter) && OrdinaryLetters(letter) && !BarStands(t.source[0])
    ensures var a := SequenceAst([LambdaAst(SequenceAst([LiteralAst(t)]), [])]);
            && Characters(a) == "(|" + t.source + ", ), "
            && Program(TokensOf(AllFrom(Characters(a), 0, start, letter).list)) != Ok(a)
  {
    OneLiteral(t, letter);
    OneLambda(SequenceAst([LiteralAst(t)]), letter);
    BarIsLost(t, start, letter);
    var a := SequenceAst([LambdaAst(SequenceAst([LiteralAst(t)]), [])]);
    PrintedTextReadsExactlyWhen(a, start, letter);
    PrintedTreeReadsExactlyWhen(a, start, letter);
  }
}
