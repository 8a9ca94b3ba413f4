/** What each parsing routine computes from a token sequence and a cursor.  The functions are
    total: they end on every token sequence, and none moves the cursor past the end. */
module Grammar {
  import opened Tokens
  import opened Wrappers

  // ----- Cursor tests

  predicate Expect(ts: seq<Token>, p: nat, kind: TokenType) {
    p < |ts| && ts[p].kind == kind
  }

  predicate ExpectToken(ts: seq<Token>, p: nat, kind: TokenType, lexeme: string) {
    p < |ts| && ts[p] == Token(kind, lexeme)
  }

  predicate ExpectDeclaration(ts: seq<Token>, p: nat) {
    p + 1 < |ts| && ts[p].kind == Symbol && ts[p + 1] == Token(Operator, ":=")
  }

  predicate NextIsOperator(ts: seq<Token>, p: nat) {
    p < |ts| && IsOperatorToken(ts[p])
  }

  function SkipSeparators(ts: seq<Token>, p: nat): (q: nat)
    requires p <= |ts|
    ensures p <= q <= |ts|
    ensures !Expect(ts, q, ExpressionSeparator)
    ensures Expect(ts, p, ExpressionSeparator) ==> q > p
    decreases |ts| - p
  {
    if Expect(ts, p, ExpressionSeparator) then SkipSeparators(ts, p + 1) else p
  }

  // ----- Identifiers

  function AbsentIdentifier(ts: seq<Token>, p: nat): ParseError {
    if p < |ts| then UnexpectedToken(ts[p].kind, ts[p].source) else ReadOfAbsentToken
  }

  function Identifier(ts: seq<Token>, p: nat): (r: Parsed<Ast>)
    requires p <= |ts|
    ensures p <= r.next <= |ts|
    ensures r.outcome.Ok? ==> r.next > p
  {
    if Expect(ts, p, Symbol) then Parsed(Ok(LiteralAst(ts[p])), p + 1)
    else Parsed(Err(AbsentIdentifier(ts, p)), p)
  }

  function SeparatedIdentifier(ts: seq<Token>, p: nat): (r: Parsed<Ast>)
    requires p <= |ts|
    ensures p <= r.next <= |ts|
    ensures r.outcome.Ok? ==> r.next > p
  {
    if Expect(ts, p, Symbol) then Parsed(Ok(LiteralAst(ts[p])), SkipSeparators(ts, p + 1))
    else Parsed(Err(AbsentIdentifier(ts, p)), p)
  }

  // ----- The loop of parse_many, once for each routine it is run with.
  // A failing routine ends the loop; its error is dropped as soon as one tree was collected,
  // and the cursor stays where the failing routine left it.

  function AfterFailure(trees: seq<Ast>, failed: Parsed<Ast>): (r: Parsed<seq<Ast>>)
    requires !failed.outcome.Ok?
    ensures r.next == failed.next
    ensures r.outcome.Ok? ==> trees != [] && r.outcome.value == trees
  {
    match failed.outcome
    case Err(e) => Parsed(if trees == [] then Err(e) else Ok(trees), failed.next)
    case Abort => Parsed(Abort, failed.next)
  }

  function ManyIdentifiers(ts: seq<Token>, p: nat, trees: seq<Ast>): (r: Parsed<seq<Ast>>)
    requires p <= |ts|
    ensures p <= r.next <= |ts|
    ensures r.outcome.Ok? ==> r.outcome.value != []
    ensures r.outcome.Ok? && trees == [] ==> r.next > p
    decreases |ts| - p
  {
    var e := SeparatedIdentifier(ts, p);
    if !e.outcome.Ok? then AfterFailure(trees, e)
    else ManyIdentifiers(ts, e.next, trees + [e.outcome.value])
  }

  function ManyAtomics(ts: seq<Token>, p: nat, trees: seq<Ast>): (r: Parsed<seq<Ast>>)
    requires p <= |ts|
    ensures p <= r.next <= |ts|
    ensures r.outcome.Ok? ==> r.outcome.value != []
    ensures r.outcome.Ok? && trees == [] ==> r.next > p
    decreases |ts| - p, 6
  {
    var e := IndexExpression(ts, p);
    if !e.outcome.Ok? then AfterFailure(trees, e)
    else ManyAtomics(ts, e.next, trees + [e.outcome.value])
  }

  function ManyExpressions(ts: seq<Token>, p: nat, trees: seq<Ast>): (r: Parsed<seq<Ast>>)
    requires p <= |ts|
    ensures p <= r.next <= |ts|
    ensures r.outcome.Ok? ==> r.outcome.value != []
    decreases |ts| - p, 9
  {
    var e := Expression(ts, p);
    if !e.outcome.Ok? then AfterFailure(trees, e)
    else if !Expect(ts, e.next, ExpressionSeparator) then
      Parsed(Ok(trees + [e.outcome.value]), e.next)
    else
      ManyExpressions(ts, SkipSeparators(ts, e.next), trees + [e.outcome.value])
  }

  // ----- Expressions

  function SequenceOf(ts: seq<Token>, p: nat): (r: Parsed<Ast>)
    requires p <= |ts|
    ensures p <= r.next <= |ts|
    ensures r.outcome.Ok? ==> r.outcome.value.kind == Sequence
    ensures r.outcome.Ok? && r.next < |ts| ==> r.outcome.value.arguments != []
    decreases |ts| - p, 10
  {
    var q := SkipSeparators(ts, p);
    if q >= |ts| then Parsed(Ok(SequenceAst([])), q)
    else
      var m := ManyExpressions(ts, q, []);
      match m.outcome
      case Ok(trees) => Parsed(Ok(SequenceAst(trees)), m.next)
      case Err(e) => Parsed(Err(e), m.next)
      case Abort => Parsed(Abort, m.next)
  }

  function Expression(ts: seq<Token>, p: nat): (r: Parsed<Ast>)
    requires p <= |ts|
    ensures p <= r.next <= |ts|
    ensures r.outcome.Ok? ==> r.next > p
    decreases |ts| - p, 8
  {
    if ExpectDeclaration(ts, p) then Declaration(ts, p) else Infix(ts, p)
  }

  function Declaration(ts: seq<Token>, p: nat): (r: Parsed<Ast>)
    requires p <= |ts|
    ensures p <= r.next <= |ts|
    ensures r.outcome.Ok? ==> r.next > p
    decreases |ts| - p, 7
  {
    var lvalue := Identifier(ts, p);
    match lvalue.outcome
    case Abort => Parsed(Abort, lvalue.next)
    case Err(UnexpectedToken(kind, source)) => Parsed(Err(LiteralAsIdentifier(kind, source)), lvalue.next)
    case Err(e) => Parsed(Err(e), lvalue.next)
    case Ok(name) =>
      if !ExpectToken(ts, lvalue.next, Operator, ":=") then Parsed(Abort, lvalue.next)
      else
        var rvalue := Expression(ts, lvalue.next + 1);
        match rvalue.outcome
        case Ok(value) => Parsed(Ok(DeclarationAst(name, value)), rvalue.next)
        case Err(_) => rvalue
        case Abort => rvalue
  }

  function Infix(ts: seq<Token>, p: nat): (r: Parsed<Ast>)
    requires p <= |ts|
    ensures p <= r.next <= |ts|
    ensures r.outcome.Ok? ==> r.next > p
    decreases |ts| - p, 7
  {
    var m := ManyAtomics(ts, p, []);
    match m.outcome
    case Err(e) => Parsed(Err(e), m.next)
    case Abort => Parsed(Abort, m.next)
    case Ok(atomics) =>
      var lhs := WrapIfSeveral(atomics);
      if !NextIsOperator(ts, m.next) then Parsed(Ok(lhs), m.next)
      else InfixRhs(ts, m.next + 1, BinaryAst(ts[m.next], [lhs]))
  }

  /** `lhs` is a binary that still misses its right operand. */
  function InfixRhs(ts: seq<Token>, p: nat, lhs: Ast): (r: Parsed<Ast>)
    requires p <= |ts|
    ensures p <= r.next <= |ts|
    ensures r.outcome.Ok? ==> r.next > p
    decreases |ts| - p, 7
  {
    var m := ManyAtomics(ts, p, []);
    match m.outcome
    case Err(e) => Parsed(Err(e), m.next)
    case Abort => Parsed(Abort, m.next)
    case Ok(atomics) =>
      var rhs := WrapIfSeveral(atomics);
      if !NextIsOperator(ts, m.next) then Parsed(Ok(AddArgument(lhs, rhs)), m.next)
      else
        var op := ts[m.next];
        if !HasPrecedence(lhs.token.source) then
          Parsed(Err(UndefinedOperator(lhs.token.source)), m.next + 1)
        else if !HasPrecedence(op.source) then
          Parsed(Err(UndefinedOperator(op.source)), m.next + 1)
        else if Precedence(lhs.token.source) >= Precedence(op.source) then
          InfixRhs(ts, m.next + 1, BinaryAst(op, [AddArgument(lhs, rhs)]))
        else
          var r := InfixRhs(ts, m.next + 1, BinaryAst(op, [rhs]));
          match r.outcome
          case Ok(right) => Parsed(Ok(AddArgument(lhs, right)), r.next)
          case Err(_) => r
          case Abort => r
  }

  /** A sequence and its closing token.  `start` is where the content of a block began. */
  function SequenceInside(ts: seq<Token>, p: nat, closing: TokenType, isLambda: bool,
                          parameters: seq<Ast>, start: Option<nat>): (r: Parsed<Ast>)
    requires p <= |ts|
    requires start.Some? ==> start.value <= p
    ensures p <= r.next <= |ts|
    ensures r.outcome.Ok? ==> r.next > p
    decreases |ts| - p, 11
  {
    var s := SequenceOf(ts, p);
    match s.outcome
    case Err(_) => s
    case Abort => s
    case Ok(body) =>
      if !Expect(ts, s.next, closing) then
        Parsed(NotClosed(ts, s.next, isLambda, start), s.next)
      else if isLambda then
        Parsed(Ok(LambdaAst(body, parameters)), s.next + 1)
      else if |body.arguments| == 1 then
        Parsed(Ok(body.arguments[0]), s.next + 1)
      else
        Parsed(Ok(BlockAst(body)), s.next + 1)
  }

  /** The error for a missing closing token.  A stray `|` after tokens that look like parameters
      is reported as such; the range inspected is the program's own `[start, p - start + 1)`,
      scanned upward until its end or the first token that cannot be an identifier. */
  function NotClosed(ts: seq<Token>, p: nat, isLambda: bool, start: Option<nat>): (o: Outcome<Ast>)
    requires p <= |ts|
    requires start.Some? ==> start.value <= p
    ensures !o.Ok?
  {
    if start.None? || !Expect(ts, p, ParameterSeparator) then Err(BlockWithoutClosingBracket)
    else if isLambda then Abort
    else
      var from, end := start.value, p - start.value + 1;
      if && from <= end <= |ts|
         && (forall i | from <= i < end :: IsIdentifierLooking(ts[i].kind))
         && (exists i :: from <= i < end && ts[i].kind != Symbol)
      then Err(FirstNonSymbol(ts, from, end))
      else Err(BlockWithoutClosingBracket)
  }

  function FirstNonSymbol(ts: seq<Token>, from: nat, end: nat): ParseError
    requires from <= end <= |ts|
    requires exists i :: from <= i < end && ts[i].kind != Symbol
    decreases end - from
  {
    if ts[from].kind != Symbol then LiteralAsIdentifier(ts[from].kind, ts[from].source)
    else FirstNonSymbol(ts, from + 1, end)
  }

  function IndexExpression(ts: seq<Token>, p: nat): (r: Parsed<Ast>)
    requires p <= |ts|
    ensures p <= r.next <= |ts|
    ensures r.outcome.Ok? ==> r.next > p
    decreases |ts| - p, 5
  {
    var a := Atomic(ts, p);
    match a.outcome
    case Ok(ast) => Indices(ts, a.next, ast)
    case Err(_) => a
    case Abort => a
  }

  function Indices(ts: seq<Token>, p: nat, indexed: Ast): (r: Parsed<Ast>)
    requires p <= |ts|
    ensures p <= r.next <= |ts|
    decreases |ts| - p, 5
  {
    if !Expect(ts, p, OpenIndex) then Parsed(Ok(indexed), p)
    else
      var i := SequenceInside(ts, p + 1, CloseIndex, false, [], None);
      match i.outcome
      case Ok(index) => Indices(ts, i.next, BinaryAst(ts[p], [indexed, index]))
      case Err(_) => i
      case Abort => i
  }

  function Atomic(ts: seq<Token>, p: nat): (r: Parsed<Ast>)
    requires p <= |ts|
    ensures p <= r.next <= |ts|
    ensures r.outcome.Ok? ==> r.next > p
    decreases |ts| - p, 4
  {
    if p >= |ts| then Parsed(Err(UnexpectedEmptySource), p)
    else
      match ts[p].kind
      case Keyword =>
        if !IsLiteralKeyword(ts[p].source) then Parsed(Err(UnexpectedKeyword(ts[p].source)), p)
        else Parsed(Ok(LiteralAst(ts[p])), p + 1)
      case Chord => Parsed(Ok(LiteralAst(ts[p])), p + 1)
      case Numeric => Parsed(Ok(LiteralAst(ts[p])), p + 1)
      case Symbol => Parsed(Ok(LiteralAst(ts[p])), p + 1)
      case OpenBlock => BlockOrLambda(ts, p + 1)
      case Operator => Parsed(Err(OperatorWithoutOperands(ts[p].source)), p)
      case _ => Parsed(Err(UnexpectedToken(ts[p].kind, ts[p].source)), p)
  }

  /** What follows an opening bracket.  Parameters are tried first; if they are not followed by
      `|`, the cursor goes back to the start of the content. */
  function BlockOrLambda(ts: seq<Token>, start: nat): (r: Parsed<Ast>)
    requires start <= |ts|
    ensures start <= r.next <= |ts|
    ensures r.outcome.Ok? ==> r.next > start
    decreases |ts| - start, 12
  {
    if Expect(ts, start, CloseBlock) then Parsed(Ok(BlockAst(SequenceAst([]))), start + 1)
    else if Expect(ts, start, ParameterSeparator) then
      SequenceInside(ts, start + 1, CloseBlock, true, [], Some(start))
    else
      var ps := ManyIdentifiers(ts, start, []);
      if ps.outcome.Ok? && Expect(ts, ps.next, ParameterSeparator) then
        SequenceInside(ts, ps.next + 1, CloseBlock, true, ps.outcome.value, Some(start))
      else
        SequenceInside(ts, start, CloseBlock, false, [], Some(start))
  }

  /** The whole program: a sequence that must reach the last token. */
  function Program(ts: seq<Token>): (o: Outcome<Ast>)
  {
    var s := SequenceOf(ts, 0);
    if s.outcome.Ok? && s.next < |ts| then
      if Expect(ts, s.next, CloseBlock) then Err(ClosingTokenWithoutOpening) else Abort
    else s.outcome
  }
}
