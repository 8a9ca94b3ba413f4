/** Lexing what the printer wrote, spaces included. */
module PrintedText {
  import opened Tokens
  import opened Grammar
  import opened Lexing
  import opened Printer
  import opened Provenance
  import opened Relexing
  import opened RoundTrip
  import opened Trees
  import opened Wrappers

  // ----- Pieces in a row

  predicate IsSingle(t: Token) {
    |t.source| == 1 && SingleCharToken(t.source[0]) == Some(t.kind)
  }

  /** The rune behind the first of some pieces. */
  function NextRune(ps: seq<Piece>): Option<char>
    requires ps != []
  {
    if ps[0].spaced then Some(' ')
    else if |ps| == 1 || ps[1].token.source == "" then None
    else Some(ps[1].token.source[0])
  }

  /** Brackets and commas may stand anywhere, other tokens before a delimiter, a bar before
      something that is not another bar. */
  predicate WellPlaced(ps: seq<Piece>, letter: char -> bool)
    requires ps != []
  {
    var t := ps[0].token;
    || IsSingle(t)
    || (t == BAR && !ps[0].spaced && NextRune(ps).Some? && ps[1].token != BAR)
    || (IsLexed(t, letter) && t.kind != ParameterSeparator &&
        (NextRune(ps).Some? ==> IsDelimiter(NextRune(ps).value)))
  }

  predicate AllPlaced(ps: seq<Piece>, letter: char -> bool) {
    ps != [] ==> WellPlaced(ps, letter) && AllPlaced(ps[1..], letter)
  }

  /** The rune behind a bar must not look like the rest of an operator. */
  predicate BarStands(next: char) {
    !LowByteIsOperator(next) || next == '='
  }

  predicate BarsStand(ps: seq<Piece>) {
    ps != [] ==>
      && (ps[0].token == BAR && NextRune(ps).Some? ==> BarStands(NextRune(ps).value))
      && BarsStand(ps[1..])
  }

  /** From `p` on the text consists of the pieces. */
  ghost predicate Holds(text: string, p: nat, ps: seq<Piece>) {
    p <= |text| && text[p..] == Written(ps)
  }

  predicate SourcesNotEmpty(ps: seq<Piece>) {
    ps != [] && ps[0].token.source != "" && (|ps| > 1 ==> ps[1].token.source != "")
  }

  lemma {:induction false} PlacedSources(ps: seq<Piece>, letter: char -> bool)
    requires ps != [] && AllPlaced(ps, letter)
    ensures SourcesNotEmpty(ps)
  {
    if |ps| > 1 {
      assert WellPlaced(ps[1..], letter);
    }
  }

  /** Where the source of the first piece and the other pieces stand. */
  lemma FirstPiece(text: string, p: nat, ps: seq<Piece>)
    requires Holds(text, p, ps) && SourcesNotEmpty(ps)
    ensures var end := p + |ps[0].token.source|;
            var next := end + (if ps[0].spaced then 1 else 0);
            && p < end <= next <= |text| && text[p..end] == ps[0].token.source
            && Holds(text, next, ps[1..]) && (ps[0].spaced ==> text[end] == ' ')
            && (NextRune(ps).Some? <==> end < |text|)
            && (end < |text| ==> text[end] == NextRune(ps).value)
  {
    var source, space, rest := ps[0].token.source, if ps[0].spaced then " " else "", Written(ps[1..]);
    SliceOfParts(text, p, source, space, rest);
    if |ps| > 1 {
      FirstRuneOf(ps[1..]);
    }
  }

  lemma {:induction false} FirstRuneOf(ps: seq<Piece>)
    requires ps != [] && ps[0].token.source != ""
    ensures Written(ps) != "" && Written(ps)[0] == ps[0].token.source[0]
  {
  }

  lemma SliceOfParts(text: string, p: nat, a: string, b: string, c: string)
    requires p <= |text| && text[p..] == a + b + c
    ensures p + |a| + |b| + |c| == |text|
    ensures text[p..p + |a|] == a && text[p + |a|..p + |a| + |b|] == b && text[p + |a| + |b|..] == c
  {
    var rest := text[p..];
    assert rest[..|a|] == a && rest[|a|..|a| + |b|] == b && rest[|a| + |b|..] == c;
    assert text[p..p + |a|] == rest[..|a|];
    assert text[p + |a|..p + |a| + |b|] == rest[|a|..|a| + |b|];
    assert text[p + |a| + |b|..] == rest[|a| + |b|..];
  }

  /** How the first piece is read. */
  lemma {:induction false} FirstIsRead(text: string, p: nat, ps: seq<Piece>, letter: char -> bool)
    requires Holds(text, p, ps) && ps != [] && AllPlaced(ps, letter) && PlainLetters(letter)
    ensures p < |text| && SkipBlanks(text, p) == Some(p)
    ensures var t := ps[0].token;
            TokenAt(text, p, letter) == Lexed(t.kind, p + |t.source|) <==>
            (t == BAR && NextRune(ps).Some? ==> BarStands(NextRune(ps).value))
  {
    var t := ps[0].token;
    PlacedSources(ps, letter);
    FirstPiece(text, p, ps);
    assert text[p] == text[p..p + |t.source|][0];
    if IsSingle(t) {
      BracketAnywhere(text, p, letter);
    } else if t == BAR {
      BarAnywhere(text, p, letter);
    } else {
      TokenBeforeDelimiter(text, p, t, letter);
    }
  }

  /** A single space before a token, or at the end, makes no difference. */
  lemma SpaceIsSkipped(text: string, q: nat)
    requires q < |text| && text[q] == ' ' && SkipBlanks(text, q + 1) == Some(q + 1)
    ensures SkipBlanks(text, q) == Some(q + 1)
  {
    assert SkipOne(text, q + 1).NothingToSkip?;
    assert Run(text, q, IsSpace) == q + 1;
  }

  lemma {:induction false} StartOfPieces(text: string, p: nat, ps: seq<Piece>, letter: char -> bool)
    requires Holds(text, p, ps) && AllPlaced(ps, letter) && PlainLetters(letter)
    ensures SkipBlanks(text, p) == Some(p)
  {
    if ps != [] {
      FirstIsRead(text, p, ps, letter);
    }
  }

  /** All tokens of the text from `p` on are those of the pieces. */
  ghost predicate ReadsAs(text: string, p: nat, ps: seq<Piece>, start: Location, letter: char -> bool)
    requires p <= |text|
  {
    TokensOf(AllFrom(text, p, start, letter).list) == TokensOfPieces(ps)
  }

  function EndingFrom(text: string, p: nat, start: Location, letter: char -> bool): Ending
    requires p <= |text|
  {
    AllFrom(text, p, start, letter).ending
  }

  lemma {:induction false} SameFrom(text: string, p: nat, q: nat, start: Location, letter: char -> bool)
    requires p <= |text| && q <= |text| && SkipBlanks(text, p) == SkipBlanks(text, q)
    ensures AllFrom(text, p, start, letter) == AllFrom(text, q, start, letter)
  {
  }

  lemma {:induction false} ReadsOneMore(text: string, p: nat, end: nat, ps: seq<Piece>,
                                        start: Location, letter: char -> bool)
    requires p < end <= |text| && ps != [] && SkipBlanks(text, p) == Some(p)
    requires text[p..end] == ps[0].token.source && TokenAt(text, p, letter) == Lexed(ps[0].token.kind, end)
    ensures ReadsAs(text, p, ps, start, letter) <==> ReadsAs(text, end, ps[1..], start, letter)
    ensures EndingFrom(text, p, start, letter) == EndingFrom(text, end, start, letter)
  {
    var r, rest := AllFrom(text, p, start, letter), AllFrom(text, end, start, letter);
    assert r.list[1..] == rest.list;
    var t := ps[0].token;
    assert TokensOf(r.list) == [t] + TokensOf(rest.list);
    assert ([t] + TokensOf(rest.list))[1..] == TokensOf(rest.list);
    assert ([t] + TokensOfPieces(ps[1..]))[1..] == TokensOfPieces(ps[1..]);
  }

  lemma {:induction false} ReadsOtherwise(text: string, p: nat, end: nat, ps: seq<Piece>,
                                          start: Location, letter: char -> bool)
    requires p < end <= |text| && ps != [] && SkipBlanks(text, p) == Some(p)
    requires end == p + |ps[0].token.source|
    requires TokenAt(text, p, letter) != Lexed(ps[0].token.kind, end)
    ensures !ReadsAs(text, p, ps, start, letter)
  {
    var r, t := AllFrom(text, p, start, letter), TokenAt(text, p, letter);
    if t.Lexed? {
      assert TokensOf(r.list)[0] == Token(t.kind, text[p..t.end]);
      assert TokensOfPieces(ps)[0] == ps[0].token;
    }
  }

  /** The bar, if the first piece is one, is read as a bar. */
  predicate FirstStands(ps: seq<Piece>)
    requires ps != []
  {
    ps[0].token == BAR && NextRune(ps).Some? ==> BarStands(NextRune(ps).value)
  }

  /** Reading the first piece leaves the others to be read, or something else was read. */
  lemma FirstThenRest(text: string, p: nat, ps: seq<Piece>, start: Location, letter: char -> bool)
    returns (next: nat)
    requires Holds(text, p, ps) && ps != [] && AllPlaced(ps, letter) && PlainLetters(letter)
    ensures Holds(text, next, ps[1..])
    ensures ReadsAs(text, p, ps, start, letter) <==> FirstStands(ps) && ReadsAs(text, next, ps[1..], start, letter)
    ensures FirstStands(ps) ==> EndingFrom(text, p, start, letter) == EndingFrom(text, next, start, letter)
  {
    var end := p + |ps[0].token.source|;
    PlacedSources(ps, letter);
    FirstPiece(text, p, ps);
    FirstIsRead(text, p, ps, letter);
    next := if ps[0].spaced then end + 1 else end;
    if FirstStands(ps) {
      ReadsOneMore(text, p, end, ps, start, letter);
      RestIsRead(text, end, next, ps[1..], start, letter);
    } else {
      ReadsOtherwise(text, p, end, ps, start, letter);
    }
  }

  lemma {:induction false} RestIsRead(text: string, end: nat, next: nat, ps: seq<Piece>,
                                      start: Location, letter: char -> bool)
    requires AllPlaced(ps, letter) && PlainLetters(letter) && Holds(text, next, ps)
    requires end == next || (end + 1 == next && text[end] == ' ')
    ensures AllFrom(text, end, start, letter) == AllFrom(text, next, start, letter)
  {
    if end < next {
      StartOfPieces(text, next, ps, letter);
      SpaceIsSkipped(text, end);
    }
    SameFrom(text, end, next, start, letter);
  }

  /** Written pieces are read back, one token for each, if and only if every bar stands. */
  lemma {:induction false} PiecesReadExactlyWhen(text: string, p: nat, ps: seq<Piece>, start: Location,
                                                 letter: char -> bool)
    requires Holds(text, p, ps) && AllPlaced(ps, letter) && PlainLetters(letter)
    ensures ReadsAs(text, p, ps, start, letter) <==> BarsStand(ps)
    ensures BarsStand(ps) ==> EndingFrom(text, p, start, letter) == Finished
    decreases |ps|
  {
    if ps == [] {
      assert |text| == p;
    } else {
      var next := FirstThenRest(text, p, ps, start, letter);
      PiecesReadExactlyWhen(text, next, ps[1..], start, letter);
    }
  }

  // ----- Trees

  function LexedBy(letter: char -> bool): Token -> bool {
    t => IsLexed(t, letter)
  }

  /** All tokens of a tree are tokens of the lexer. */
  predicate AllLexed(a: Ast, letter: char -> bool) {
    MadeOf(a, LexedBy(letter))
  }

  /** The first rune that is written for an expression. */
  function FirstRune(a: Ast): char {
    if a.kind == Literal && a.token.source != "" then a.token.source[0]
    else if a.kind == VariableDeclaration && a.arguments != [] && a.arguments[0].token.source != "" then
      a.arguments[0].token.source[0]
    else '('
  }

  /** No lambda's body starts with a rune that looks like the rest of an operator. */
  predicate BarsStandIn(a: Ast)
    decreases a
  {
    && (forall i | 0 <= i < |a.arguments| :: BarsStandIn(a.arguments[i]))
    && (a.kind == Lambda && a.arguments != [] ==>
          var body := a.arguments[|a.arguments| - 1];
          body.arguments != [] ==> BarStands(FirstRune(body.arguments[0])))
  }

  predicate AllStandIn(es: seq<Ast>) {
    forall i | 0 <= i < |es| :: BarsStandIn(es[i])
  }

  predicate EachLexed(es: seq<Ast>, letter: char -> bool) {
    forall i | 0 <= i < |es| :: AllLexed(es[i], letter)
  }

  predicate StartsWithDelimiter(ps: seq<Piece>) {
    ps != [] ==> ps[0].token.source != "" && IsDelimiter(ps[0].token.source[0])
  }

  /** Pieces in front of others are well placed, and their bars stand exactly if `ok`. */
  ghost predicate Fits(ps: seq<Piece>, rest: seq<Piece>, ok: bool, letter: char -> bool) {
    AllPlaced(ps + rest, letter) && (BarsStand(ps + rest) <==> ok && BarsStand(rest))
  }

  lemma {:induction false} PutFirst(p: Piece, rest: seq<Piece>, letter: char -> bool)
    requires AllPlaced(rest, letter) && WellPlaced([p] + rest, letter)
    ensures Fits([p], rest, FirstStands([p] + rest), letter)
  {
    assert ([p] + rest)[1..] == rest;
  }

  lemma {:induction false} PutSingle(p: Piece, rest: seq<Piece>, letter: char -> bool)
    requires AllPlaced(rest, letter) && IsSingle(p.token)
    ensures Fits([p], rest, true, letter)
  {
    PutFirst(p, rest, letter);
  }

  lemma {:induction false} PutSpaced(t: Token, rest: seq<Piece>, letter: char -> bool)
    requires AllPlaced(rest, letter) && IsLexed(t, letter) && t.kind != ParameterSeparator
    ensures Fits([Piece(t, true)], rest, true, letter)
  {
    PutFirst(Piece(t, true), rest, letter);
  }

  lemma FitsBefore(ps: seq<Piece>, qs: seq<Piece>, rest: seq<Piece>, ok: bool, also: bool, letter: char -> bool)
    requires Fits(qs, rest, also, letter) && Fits(ps, qs + rest, ok, letter)
    ensures Fits(ps + qs, rest, ok && also, letter)
  {
    assert ps + qs + rest == ps + (qs + rest);
  }

  lemma AssignIsLexed(letter: char -> bool)
    requires PlainLetters(letter)
    ensures IsLexed(ASSIGN, letter)
  {
    assert ':' in OPERATOR_CHARS[0] && '=' in OPERATOR_CHARS[2];
    EqualsIsOperator();
    InNone(':', IDENTIFIER_MARKS);
    assert Run(":=", 1, IsOperatorChar) == 2;
  }

  lemma EqualsIsOperator()
    ensures IsOperatorChar('=')
  {
    assert '=' in OPERATOR_CHARS[2];
    assert IsInAny('=', OPERATOR_CHARS[2..]);
    assert OPERATOR_CHARS[1..][1..] == OPERATOR_CHARS[2..];
    assert IsInAny('=', OPERATOR_CHARS[1..]);
  }

  // ----- Every printed tree is well placed

  /** What is written for an expression starts with its first rune. */
  lemma {:induction false} LayoutStarts(a: Ast, letter: char -> bool)
    requires Plain(a) && AllLexed(a, letter)
    ensures Layout(a) != [] && Layout(a)[0].token.source != "" && Layout(a)[0].token.source[0] == FirstRune(a)
    ensures Layout(a)[0].token != BAR
  {
    match a.kind
    case VariableDeclaration => assert AllLexed(a.arguments[0], letter) && IsParameter(a.arguments[0]);
    case Block => BracketedStarts(a.arguments[0], false);
    case Lambda => LambdaStarts(a);
    case Binary => BracketedStarts(a.arguments[0], true);
    case Call => assert Layout(a)[0] == Piece(OPEN, false);
    case Literal =>
  }

  lemma {:induction false} BracketedStarts(a: Ast, spaced: bool)
    ensures LayoutBracketed(a, spaced) != [] && LayoutBracketed(a, spaced)[0] == Piece(OPEN, false)
  {
  }

  lemma {:induction false} LambdaStarts(a: Ast)
    requires a.kind == Lambda && a.arguments != []
    ensures Layout(a) != [] && Layout(a)[0] == Piece(OPEN, false)
  {
    var n := |a.arguments| - 1;
    var inside := LayoutSources(a.arguments[..n]) + [Piece(BAR, false)] + Layout(a.arguments[n]);
    assert Layout(a) == [Piece(OPEN, false)] + inside + [Piece(CLOSE, false)];
  }

  lemma {:induction false} LayoutFits(a: Ast, rest: seq<Piece>, letter: char -> bool)
    requires Plain(a) && AllLexed(a, letter) && PlainLetters(letter)
    requires AllPlaced(rest, letter) && StartsWithDelimiter(rest)
    ensures Fits(Layout(a), rest, BarsStandIn(a), letter)
    decreases a, 1
  {
    match a.kind
    case Literal => PutFirst(Piece(a.token, false), rest, letter);
    case VariableDeclaration => DeclarationFits(a, rest, letter);
    case Block => BlockFits(a, rest, letter);
    case Lambda => LambdaFits(a, rest, letter);
    case Binary => BinaryFits(a, rest, letter);
    case Call => CallFits(a, rest, letter);
  }

  lemma {:induction false} DeclarationFits(a: Ast, rest: seq<Piece>, letter: char -> bool)
    requires Plain(a) && AllLexed(a, letter) && PlainLetters(letter) && a.kind == VariableDeclaration
    requires AllPlaced(rest, letter) && StartsWithDelimiter(rest)
    ensures Fits(Layout(a), rest, BarsStandIn(a), letter)
    decreases a, 0
  {
    var name, value := a.arguments[0], a.arguments[1];
    assert AllLexed(name, letter) && IsParameter(name);
    LayoutFits(value, rest, letter);
    NamedFits(name.token, Layout(value), rest, BarsStandIn(value), letter);
    DeclarationParts(a);
  }

  lemma {:induction false} DeclarationParts(a: Ast)
    requires Plain(a) && a.kind == VariableDeclaration
    ensures Layout(a) == [Piece(a.arguments[0].token, true)] + ([Piece(ASSIGN, true)] + Layout(a.arguments[1]))
    ensures BarsStandIn(a) <==> BarsStandIn(a.arguments[1])
  {
    TwoPieces(Piece(a.arguments[0].token, true), Piece(ASSIGN, true), Layout(a.arguments[1]));
    TwoStand(a, a.arguments[0], a.arguments[1]);
    ParameterStands(a.arguments[0]);
  }

  lemma TwoPieces(x: Piece, y: Piece, rest: seq<Piece>)
    ensures [x, y] + rest == [x] + ([y] + rest)
  {
  }

  lemma {:induction false} TwoStand(a: Ast, x: Ast, y: Ast)
    requires a.arguments == [x, y] && a.kind != Lambda
    ensures BarsStandIn(a) <==> BarsStandIn(x) && BarsStandIn(y)
  {
    assert a.arguments[0] == x && a.arguments[1] == y;
  }

  lemma {:induction false} ParameterStands(a: Ast)
    requires IsParameter(a)
    ensures BarsStandIn(a)
  {
  }

  lemma {:induction false} NamedFits(name: Token, value: seq<Piece>, rest: seq<Piece>, ok: bool, letter: char -> bool)
    requires IsLexed(name, letter) && name.kind != ParameterSeparator && PlainLetters(letter)
    requires Fits(value, rest, ok, letter) && AllPlaced(rest, letter)
    ensures Fits([Piece(name, true)] + ([Piece(ASSIGN, true)] + value), rest, ok, letter)
  {
    var assign := [Piece(ASSIGN, true)];
    AssignIsLexed(letter);
    PutSpaced(ASSIGN, value + rest, letter);
    FitsBefore(assign, value, rest, true, ok, letter);
    PutSpaced(name, assign + value + rest, letter);
    FitsBefore([Piece(name, true)], assign + value, rest, true, ok, letter);
  }

  /** Pieces between brackets. */
  lemma {:induction false} EnclosedFits(ps: seq<Piece>, spaced: bool, rest: seq<Piece>, ok: bool, letter: char -> bool)
    requires AllPlaced(rest, letter) && Fits(ps, [Piece(CLOSE, spaced)] + rest, ok, letter)
    ensures Fits([Piece(OPEN, false)] + ps + [Piece(CLOSE, spaced)], rest, ok, letter)
  {
    var close := [Piece(CLOSE, spaced)];
    PutSingle(close[0], rest, letter);
    FitsBefore(ps, close, rest, ok, true, letter);
    PutSingle(Piece(OPEN, false), ps + close + rest, letter);
    FitsBefore([Piece(OPEN, false)], ps + close, rest, true, ok, letter);
    assert [Piece(OPEN, false)] + ps + close == [Piece(OPEN, false)] + (ps + close);
  }

  lemma {:induction false} CloseIsPlaced(spaced: bool, rest: seq<Piece>, letter: char -> bool)
    requires AllPlaced(rest, letter)
    ensures AllPlaced([Piece(CLOSE, spaced)] + rest, letter)
    ensures StartsWithDelimiter([Piece(CLOSE, spaced)] + rest)
    ensures BarsStand([Piece(CLOSE, spaced)] + rest) <==> BarsStand(rest)
  {
    PutSingle(Piece(CLOSE, spaced), rest, letter);
  }

  lemma {:induction false} BracketedFits(a: Ast, spaced: bool, rest: seq<Piece>, letter: char -> bool)
    requires Plain(a) && AllLexed(a, letter) && PlainLetters(letter) && AllPlaced(rest, letter)
    ensures Fits(LayoutBracketed(a, spaced), rest, BarsStandIn(a), letter)
    decreases a, 2
  {
    CloseIsPlaced(spaced, rest, letter);
    LayoutFits(a, [Piece(CLOSE, spaced)] + rest, letter);
    EnclosedFits(Layout(a), spaced, rest, BarsStandIn(a), letter);
  }

  lemma {:induction false} BinaryFits(a: Ast, rest: seq<Piece>, letter: char -> bool)
    requires Plain(a) && AllLexed(a, letter) && PlainLetters(letter) && a.kind == Binary
    requires AllPlaced(rest, letter)
    ensures Fits(Layout(a), rest, BarsStandIn(a), letter)
    decreases a, 0
  {
    var left, right := a.arguments[0], a.arguments[1];
    var l, r := LayoutBracketed(left, true), LayoutBracketed(right, false);
    BracketedFits(right, false, rest, letter);
    OperatorFits(a.token, r, rest, BarsStandIn(right), letter);
    BracketedFits(left, true, [Piece(a.token, true)] + r + rest, letter);
    FitsBefore(l, [Piece(a.token, true)] + r, rest, BarsStandIn(left), BarsStandIn(right), letter);
    BinaryParts(a);
  }

  lemma {:induction false} OperatorFits(op: Token, right: seq<Piece>, rest: seq<Piece>, ok: bool, letter: char -> bool)
    requires IsLexed(op, letter) && op.kind != ParameterSeparator && AllPlaced(rest, letter)
    requires Fits(right, rest, ok, letter)
    ensures Fits([Piece(op, true)] + right, rest, ok, letter)
    ensures AllPlaced([Piece(op, true)] + right + rest, letter)
  {
    PutSpaced(op, right + rest, letter);
    FitsBefore([Piece(op, true)], right, rest, true, ok, letter);
  }

  lemma {:induction false} BinaryParts(a: Ast)
    requires a.kind == Binary && |a.arguments| == 2
    ensures Layout(a) == LayoutBracketed(a.arguments[0], true) +
                         ([Piece(a.token, true)] + LayoutBracketed(a.arguments[1], false))
    ensures BarsStandIn(a) <==> BarsStandIn(a.arguments[0]) && BarsStandIn(a.arguments[1])
  {
    Regrouped(LayoutBracketed(a.arguments[0], true), [Piece(a.token, true)], LayoutBracketed(a.arguments[1], false));
    TwoStand(a, a.arguments[0], a.arguments[1]);
  }

  lemma Regrouped(x: seq<Piece>, y: seq<Piece>, z: seq<Piece>)
    ensures x + y + z == x + (y + z)
  {
  }

  lemma {:induction false} EachFits(es: seq<Ast>, rest: seq<Piece>, letter: char -> bool)
    requires AllPlain(es) && EachLexed(es, letter) && PlainLetters(letter) && AllPlaced(rest, letter)
    ensures Fits(LayoutEach(es), rest, AllStandIn(es), letter)
    decreases es, 0
  {
    if es == [] {
      assert [] + rest == rest;
    } else {
      var others := LayoutEach(es[1..]);
      EachFits(es[1..], rest, letter);
      PutSingle(Piece(COMMA, true), others + rest, letter);
      CommaFirst(others, rest);
      LayoutFits(es[0], [Piece(COMMA, true)] + others + rest, letter);
      SeparatedFits(Layout(es[0]), others, rest, BarsStandIn(es[0]), AllStandIn(es[1..]), letter);
      AllStandFirst(es);
    }
  }

  lemma CommaFirst(others: seq<Piece>, rest: seq<Piece>)
    ensures [Piece(COMMA, true)] + others + rest == [Piece(COMMA, true)] + (others + rest)
    ensures StartsWithDelimiter([Piece(COMMA, true)] + others + rest)
  {
  }

  lemma {:induction false} SeparatedFits(first: seq<Piece>, others: seq<Piece>, rest: seq<Piece>, ok: bool, also: bool,
                      letter: char -> bool)
    requires AllPlaced(rest, letter) && Fits(others, rest, also, letter)
    requires Fits(first, [Piece(COMMA, true)] + others + rest, ok, letter)
    ensures Fits(first + [Piece(COMMA, true)] + others, rest, ok && also, letter)
  {
    var comma := [Piece(COMMA, true)];
    PutSingle(comma[0], others + rest, letter);
    FitsBefore(comma, others, rest, true, also, letter);
    FitsBefore(first, comma + others, rest, ok, also, letter);
    assert first + comma + others == first + (comma + others);
  }

  lemma AllStandFirst(es: seq<Ast>)
    requires es != []
    ensures AllStandIn(es) <==> BarsStandIn(es[0]) && AllStandIn(es[1..])
  {
    if AllStandIn(es[1..]) {
      forall i | 1 <= i < |es| ensures BarsStandIn(es[i]) <==> BarsStandIn(es[1..][i - 1]) {
      }
    }
  }

  lemma {:induction false} PiecesFit(es: seq<Ast>, rest: seq<Piece>, letter: char -> bool)
    requires AllPlain(es) && EachLexed(es, letter) && PlainLetters(letter) && AllPlaced(rest, letter)
    ensures Fits(LayoutPieces(es), rest, AllStandIn(es), letter)
    decreases es
  {
    if es == [] {
      assert [] + rest == rest;
    } else {
      var first, others := LayoutBracketed(es[0], true), LayoutPieces(es[1..]);
      PiecesFit(es[1..], rest, letter);
      BracketedFits(es[0], true, others + rest, letter);
      FitsBefore(first, others, rest, BarsStandIn(es[0]), AllStandIn(es[1..]), letter);
      AllStandFirst(es);
    }
  }

  lemma {:induction false} CallFits(a: Ast, rest: seq<Piece>, letter: char -> bool)
    requires Plain(a) && AllLexed(a, letter) && PlainLetters(letter) && a.kind == Call
    requires AllPlaced(rest, letter)
    ensures Fits(Layout(a), rest, BarsStandIn(a), letter)
    decreases a, 0
  {
    CloseIsPlaced(false, rest, letter);
    PiecesFit(a.arguments, [Piece(CLOSE, false)] + rest, letter);
    EnclosedFits(LayoutPieces(a.arguments), false, rest, AllStandIn(a.arguments), letter);
  }

  lemma {:induction false} BlockFits(a: Ast, rest: seq<Piece>, letter: char -> bool)
    requires Plain(a) && AllLexed(a, letter) && PlainLetters(letter) && a.kind == Block
    requires AllPlaced(rest, letter)
    ensures Fits(Layout(a), rest, BarsStandIn(a), letter)
    decreases a, 0
  {
    var es := BlockParts(a);
    assert AllLexed(a.arguments[0], letter);
    CloseIsPlaced(false, rest, letter);
    EachFits(es, [Piece(CLOSE, false)] + rest, letter);
    EnclosedFits(LayoutEach(es), false, rest, AllStandIn(es), letter);
    SequenceStands(es);
    BlockStands(a, es);
  }

  lemma {:induction false} SequenceStands(es: seq<Ast>)
    ensures BarsStandIn(SequenceAst(es)) <==> AllStandIn(es)
    ensures Layout(SequenceAst(es)) == LayoutEach(es)
  {
    assert SequenceAst(es).arguments == es;
  }

  lemma {:induction false} BlockStands(a: Ast, es: seq<Ast>)
    requires a == BlockAst(SequenceAst(es))
    ensures BarsStandIn(a) <==> BarsStandIn(SequenceAst(es))
    ensures Layout(a) == [Piece(OPEN, false)] + Layout(SequenceAst(es)) + [Piece(CLOSE, false)]
  {
    assert a.arguments[0] == SequenceAst(es);
  }

  lemma {:induction false} SourcesFit(ps: seq<Ast>, rest: seq<Piece>, letter: char -> bool)
    requires Parameters(ps) && EachLexed(ps, letter) && AllPlaced(rest, letter)
    ensures Fits(LayoutSources(ps), rest, true, letter)
    decreases |ps|
  {
    if ps == [] {
      assert [] + rest == rest;
    } else {
      var others := LayoutSources(ps[1..]);
      SourcesFit(ps[1..], rest, letter);
      assert IsParameter(ps[0]) && AllLexed(ps[0], letter);
      PutSpaced(ps[0].token, others + rest, letter);
      FitsBefore([Piece(ps[0].token, true)], others, rest, true, true, letter);
    }
  }

  /** The bar and the body behind it. */
  lemma {:induction false} BodyFits(es: seq<Ast>, rest: seq<Piece>, letter: char -> bool)
    requires AllPlain(es) && EachLexed(es, letter) && PlainLetters(letter) && AllPlaced(rest, letter) && es != []
    ensures Fits([Piece(BAR, false)] + LayoutEach(es), rest, BarStands(FirstRune(es[0])) && AllStandIn(es), letter)
    decreases es, 1
  {
    var bar, body := [Piece(BAR, false)], LayoutEach(es);
    EachFits(es, rest, letter);
    LayoutStarts(es[0], letter);
    assert body[0] == Layout(es[0])[0];
    var next := NextRune(bar + (body + rest));
    assert (bar + (body + rest))[1] == body[0];
    assert next == Some(FirstRune(es[0]));
    PutFirst(bar[0], body + rest, letter);
    FitsBefore(bar, body, rest, BarStands(FirstRune(es[0])), AllStandIn(es), letter);
  }

  lemma {:induction false} LambdaFits(a: Ast, rest: seq<Piece>, letter: char -> bool)
    requires Plain(a) && AllLexed(a, letter) && PlainLetters(letter) && a.kind == Lambda
    requires AllPlaced(rest, letter)
    ensures Fits(Layout(a), rest, BarsStandIn(a), letter)
    decreases a, 0
  {
    var ps, es := LambdaParts(a);
    var n := |a.arguments| - 1;
    var body := a.arguments[n];
    assert body == SequenceAst(es) && AllLexed(body, letter);
    var ok := BarStands(FirstRune(es[0])) && AllStandIn(es);
    var sources, rest' := LayoutSources(ps), [Piece(CLOSE, false)] + rest;
    var tail := [Piece(BAR, false)] + LayoutEach(es);
    CloseIsPlaced(false, rest, letter);
    BodyFits(es, rest', letter);
    assert EachLexed(ps, letter);
    SourcesFit(ps, tail + rest', letter);
    FitsBefore(sources, tail, rest', true, ok, letter);
    EnclosedFits(sources + tail, false, rest, ok, letter);
    LambdaStands(a, ps, es);
  }

  lemma {:induction false} LambdaStands(a: Ast, ps: seq<Ast>, es: seq<Ast>)
    requires a == LambdaAst(SequenceAst(es), ps) && Parameters(ps) && es != []
    ensures BarsStandIn(a) <==> BarStands(FirstRune(es[0])) && AllStandIn(es)
    ensures Layout(a) == [Piece(OPEN, false)] + (LayoutSources(ps) + ([Piece(BAR, false)] + LayoutEach(es))) +
                         [Piece(CLOSE, false)]
  {
    var body := SequenceAst(es);
    assert a.arguments[|ps|] == body && a.arguments[..|ps|] == ps;
    SequenceStands(es);
    ParametersStand(a, ps);
    LambdaSpelled(a, ps, body);
  }

  lemma ParametersStand(a: Ast, ps: seq<Ast>)
    requires |ps| < |a.arguments| && a.arguments[..|ps|] == ps && Parameters(ps)
    ensures forall i | 0 <= i < |ps| :: BarsStandIn(a.arguments[i])
  {
    forall i | 0 <= i < |ps| ensures BarsStandIn(a.arguments[i]) {
      assert a.arguments[i] == ps[i] && IsParameter(ps[i]);
      ParameterStands(ps[i]);
    }
  }

  lemma {:induction false} LambdaSpelled(a: Ast, ps: seq<Ast>, body: Ast)
    requires a.kind == Lambda && |a.arguments| == |ps| + 1
    requires a.arguments[|ps|] == body && a.arguments[..|ps|] == ps
    ensures Layout(a) == [Piece(OPEN, false)] + (LayoutSources(ps) + ([Piece(BAR, false)] + Layout(body))) +
                         [Piece(CLOSE, false)]
  {
  }

  // ----- Whole programs

  /** The text that is printed. */
  function Characters(a: Ast): string {
    Written(Layout(a))
  }

  /** The printed text of a program is lexed as its printed tokens if and only if no lambda's body
      starts with a rune that looks like the rest of an operator.  Then it also parses to the same
      tree. */
  lemma {:induction false} PrintedTextReadsExactlyWhen(a: Ast, start: Location, letter: char -> bool)
    requires WellFormedSequence(a, true) && NoIndex(a) && AllLexed(a, letter) && PlainLetters(letter)
    ensures var r := AllFrom(Characters(a), 0, start, letter);
            && (TokensOf(r.list) == Print(a) <==> BarsStandIn(a))
            && (BarsStandIn(a) ==> r.ending == Finished && Program(TokensOf(r.list)) == Ok(a))
  {
    var text, ps := Characters(a), Layout(a);
    WithoutIndex(a);
    EachFits(a.arguments, [], letter);
    SequenceStands(a.arguments);
    assert ps + [] == ps && text[0..] == text;
    PiecesReadExactlyWhen(text, 0, ps, start, letter);
    LayoutIsPrint(a);
    ParseInvertsPrint(a);
    ProgramOfPrint(a);
  }

  lemma {:induction false} ProgramOfPrint(a: Ast)
    requires WellFormedSequence(a, true) && NoIndex(a)
    ensures Program(Print(a)) == Ok(a)
  {
    ParseInvertsPrint(a);
  }

  lemma {:induction false} TokensOfTextAreLexed(text: string, p: nat, start: Location, letter: char -> bool)
    requires p <= |text|
    ensures All(TokensOf(AllFrom(text, p, start, letter).list), LexedBy(letter))
    decreases |text| - p
  {
    var skipped := SkipBlanks(text, p);
    if skipped.Some? && skipped.value < |text| {
      var t := TokenAt(text, skipped.value, letter);
      if t.Lexed? {
        TokensAreLexed(text, skipped.value, letter);
        TokensOfTextAreLexed(text, t.end, start, letter);
        LexedFirst(AllFrom(text, p, start, letter).list, letter);
      }
    }
  }

  lemma {:induction false} LexedFirst(list: seq<Lexeme>, letter: char -> bool)
    requires list != [] && IsLexed(list[0].token, letter) && All(TokensOf(list[1..]), LexedBy(letter))
    ensures All(TokensOf(list), LexedBy(letter))
  {
    assert TokensOf(list) == [list[0].token] + TokensOf(list[1..]);
    assert LexedBy(letter)(list[0].token);
  }

  /** From text to text: a program that was read from any text without index expressions, printed
      and read again, gives the same tokens and tree if and only if every bar stands. */
  lemma {:induction false} TextReadsBackExactlyWhen(text: string, a: Ast, start: Location, letter: char -> bool)
    requires PlainLetters(letter) && NoIndex(a)
    requires Program(TokensOf(AllFrom(text, 0, start, letter).list)) == Ok(a)
    ensures var again := AllFrom(Characters(a), 0, start, letter);
            && (TokensOf(again.list) == Print(a) <==> BarsStandIn(a))
            && (BarsStandIn(a) ==> again.ending == Finished && Program(TokensOf(again.list)) == Ok(a))
  {
    TreeOfText(text, a, start, letter);
    PrintedTextReadsExactlyWhen(a, start, letter);
  }

  lemma {:induction false} TreeOfText(text: string, a: Ast, start: Location, letter: char -> bool)
    requires Program(TokensOf(AllFrom(text, 0, start, letter).list)) == Ok(a)
    ensures WellFormedSequence(a, true) && AllLexed(a, letter)
  {
    var ts := TokensOf(AllFrom(text, 0, start, letter).list);
    TokensOfTextAreLexed(text, 0, start, letter);
    ProgramKeeps(ts, LexedBy(letter));
    ProgramBuilds(ts);
  }

  /** A program where a bar is lost, for every token that may start the body of a lambda and whose
      first rune looks like the rest of an operator. */
  lemma {:induction false} BarIsLost(t: Token, start: Location, letter: char -> bool)
    requires IsLiteralToken(t) && IsLexed(t, letter) && PlainLetters(letter) && !BarStands(t.source[0])
    ensures var a := SequenceAst([LambdaAst(SequenceAst([LiteralAst(t)]), [])]);
            && Characters(a) == "(|" + t.source + ", ), "
            && WellFormedSequence(a, true) && NoIndex(a)
            && TokensOf(AllFrom(Characters(a), 0, start, letter).list) != Print(a)
  {
    var literal := LiteralAst(t);
    var body := SequenceAst([literal]);
    var lambda := LambdaAst(body, []);
    var a := SequenceAst([lambda]);
    OneLiteral(t, letter);
    OneLambda(body, letter);
    assert lambda.arguments[0] == body && a.arguments[0] == lambda;
    LambdaStands(lambda, [], [literal]);
    SequenceStands([lambda]);
    assert !AllStandIn([lambda]);
    CharactersOfLambda(t);
    PrintedTextReadsExactlyWhen(a, start, letter);
  }

  lemma OneLiteral(t: Token, letter: char -> bool)
    requires IsLiteralToken(t) && IsLexed(t, letter)
    ensures var body := SequenceAst([LiteralAst(t)]);
            WellFormedSequence(body, true) && NoIndex(body) && AllLexed(body, letter)
  {
    var literal := LiteralAst(t);
    assert WellFormed(literal, true) && NoIndex(literal) && AllLexed(literal, letter);
    assert SequenceAst([literal]).arguments[0] == literal;
  }

  lemma {:induction false} OneLambda(body: Ast, letter: char -> bool)
    requires WellFormedSequence(body, true) && body.arguments != [] && NoIndex(body) && AllLexed(body, letter)
    ensures var a := SequenceAst([LambdaAst(body, [])]);
            WellFormedSequence(a, true) && NoIndex(a) && AllLexed(a, letter)
  {
    var lambda := LambdaAst(body, []);
    LambdaBuilds(body, []);
    assert lambda.arguments == [body] && lambda.arguments[0] == body;
    assert NoIndex(lambda) && AllLexed(lambda, letter);
    assert SequenceAst([lambda]).arguments[0] == lambda;
  }

  lemma {:induction false} WrittenFirst(p: Piece, rest: seq<Piece>)
    ensures Written([p] + rest) == p.token.source + (if p.spaced then " " else "") + Written(rest)
  {
    assert ([p] + rest)[1..] == rest;
  }

  lemma CharactersOfLambda(t: Token)
    ensures Characters(SequenceAst([LambdaAst(SequenceAst([LiteralAst(t)]), [])])) == "(|" + t.source + ", ), "
  {
    LayoutOfLambda(t);
    WrittenLambda(t);
  }

  function PiecesOfLambda(t: Token): seq<Piece> {
    [Piece(OPEN, false)] + PiecesBehindOpen(t)
  }

  function PiecesBehindOpen(t: Token): seq<Piece> {
    [Piece(BAR, false)] + ([Piece(t, false)] + PiecesBehindBody())
  }

  function PiecesBehindBody(): seq<Piece> {
    [Piece(COMMA, true), Piece(CLOSE, false), Piece(COMMA, true)]
  }

  lemma LayoutOfLambda(t: Token)
    ensures Layout(SequenceAst([LambdaAst(SequenceAst([LiteralAst(t)]), [])])) == PiecesOfLambda(t)
  {
    var literal := LiteralAst(t);
    var lambda := LambdaAst(SequenceAst([literal]), []);
    EachOfOne(literal);
    EachOfOne(lambda);
    LambdaSpelled(lambda, [], SequenceAst([literal]));
  }

  lemma WrittenLambda(t: Token)
    ensures Written(PiecesOfLambda(t)) == "(|" + t.source + ", ), "
  {
    WrittenFirst(Piece(OPEN, false), PiecesBehindOpen(t));
    WrittenFirst(Piece(BAR, false), [Piece(t, false)] + PiecesBehindBody());
    WrittenFirst(Piece(t, false), PiecesBehindBody());
    WrittenEnd();
  }

  lemma WrittenEnd()
    ensures Written(PiecesBehindBody()) == ", ), "
  {
    var comma, close := Piece(COMMA, true), Piece(CLOSE, false);
    assert PiecesBehindBody() == [comma] + ([close] + ([comma] + []));
    WrittenFirst(comma, [close] + ([comma] + []));
    WrittenFirst(close, [comma] + []);
    WrittenFirst(comma, []);
  }

  lemma {:induction false} EachOfOne(a: Ast)
    ensures Layout(SequenceAst([a])) == Layout(a) + [Piece(COMMA, true)]
  {
    assert LayoutEach([a]) == Layout(a) + [Piece(COMMA, true)] + LayoutEach([a][1..]);
  }

  lemma MinusFiveIsLexed(letter: char -> bool)
    ensures IsLexed(Token(Numeric, "-5"), letter) && !BarStands('-')
  {
    DashIsOperator();
    assert Run("-5", 1, IsDigit) == 2;
  }

  /** One such program is a lambda around -5. */
  lemma {:induction false} NegativeBodyIsLost(start: Location, letter: char -> bool)
    requires PlainLetters(letter)
    ensures var a := SequenceAst([LambdaAst(SequenceAst([LiteralAst(Token(Numeric, "-5"))]), [])]);
            Characters(a) == "(|-5, ), " && TokensOf(AllFrom("(|-5, ), ", 0, start, letter).list) != Print(a)
  {
    var t := Token(Numeric, "-5");
    MinusFiveIsLexed(letter);
    BarIsLost(t, start, letter);
    SpelledOut();
  }

  lemma SpelledOut()
    ensures "(|" + "-5" + ", ), " == "(|-5, ), "
  {
  }

  /** Another is a lambda around a name that starts with a letter whose low byte is a plus. */
  lemma LetterIsLexed(letter: char -> bool)
    requires letter('\U{012B}')
    ensures IsLexed(Token(Symbol, ['\U{012B}']), letter) && !BarStands('\U{012B}')
  {
    assert Run(['\U{012B}'], 1, IdentifierRest(letter)) == 1;
    assert '+' in OPERATOR_CHARS[0];
    NoKeywordOfOneRune('\U{012B}', KEYWORDS);
  }

  lemma {:induction false} NoKeywordOfOneRune(c: char, words: seq<string>)
    requires forall i | 0 <= i < |words| :: |words[i]| > 1
    ensures !IsAmong([c], words)
  {
    if words != [] {
      NoKeywordOfOneRune(c, words[1..]);
    }
  }

  lemma {:induction false} LetterBodyIsLost(start: Location, letter: char -> bool)
    requires PlainLetters(letter) && letter('\U{012B}')
    ensures var t := Token(Symbol, ['\U{012B}']);
            var a := SequenceAst([LambdaAst(SequenceAst([LiteralAst(t)]), [])]);
            TokensOf(AllFrom(Characters(a), 0, start, letter).list) != Print(a)
  {
    LetterIsLexed(letter);
    BarIsLost(Token(Symbol, ['\U{012B}']), start, letter);
  }
}
