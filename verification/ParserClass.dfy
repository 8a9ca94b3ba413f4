/** The parser as the program runs it: one object with a cursor that its routines move and, for
    block parameters, move back.  Every routine is proved to compute its grammar function. */
module ParserClass {
  import opened Tokens
  import opened Grammar
  import opened Wrappers
  import opened Yields

  datatype Routine = ExpressionRoutine | AtomicRoutine | IdentifierRoutine

  /** What one run of a routine computes. */
  function RunOf(routine: Routine, ts: seq<Token>, p: nat): (r: Parsed<Ast>)
    requires p <= |ts|
  {
    match routine
    case ExpressionRoutine => Expression(ts, p)
    case AtomicRoutine => IndexExpression(ts, p)
    case IdentifierRoutine => SeparatedIdentifier(ts, p)
  }

  /** What the loop over a routine computes, once its optional leading separators are skipped. */
  function LoopOf(routine: Routine, ts: seq<Token>, p: nat, trees: seq<Ast>): (r: Parsed<seq<Ast>>)
    requires p <= |ts|
  {
    match routine
    case ExpressionRoutine => ManyExpressions(ts, p, trees)
    case AtomicRoutine => ManyAtomics(ts, p, trees)
    case IdentifierRoutine => ManyIdentifiers(ts, p, trees)
  }

  class Parser {
    const tokens: seq<Token>
    var tokenId: nat

    predicate Valid()
      reads this
    {
      tokenId <= |tokens|
    }

    constructor (tokens: seq<Token>)
      ensures this.tokens == tokens && tokenId == 0 && Valid()
    {
      this.tokens := tokens;
      tokenId := 0;
    }

    // ----- Cursor

    method Consume() returns (token: Token)
      requires tokenId < |tokens|
      modifies this
      ensures token == tokens[old(tokenId)] && tokenId == old(tokenId) + 1
    {
      token := tokens[tokenId];
      tokenId := tokenId + 1;
    }

    method SkipAll()
      requires Valid()
      modifies this
      ensures Valid() && tokenId == SkipSeparators(tokens, old(tokenId))
    {
      while Expect(tokens, tokenId, ExpressionSeparator)
        invariant Valid()
        invariant SkipSeparators(tokens, tokenId) == SkipSeparators(tokens, old(tokenId))
        decreases |tokens| - tokenId
      {
        var _ := Consume();
      }
    }

    // ----- Identifiers

    method ParseIdentifier() returns (r: Outcome<Ast>)
      requires Valid()
      modifies this
      ensures Valid() && Parsed(r, tokenId) == Identifier(tokens, old(tokenId))
    {
      if !Expect(tokens, tokenId, Symbol) {
        return Err(AbsentIdentifier(tokens, tokenId));
      }
      var t := Consume();
      r := Ok(LiteralAst(t));
    }

    method ParseIdentifierWithTrailingSeparators() returns (r: Outcome<Ast>)
      requires Valid()
      modifies this
      ensures Valid() && Parsed(r, tokenId) == SeparatedIdentifier(tokens, old(tokenId))
    {
      if !Expect(tokens, tokenId, Symbol) {
        return Err(AbsentIdentifier(tokens, tokenId));
      }
      var t := Consume();
      SkipAll();
      r := Ok(LiteralAst(t));
    }

    // ----- The shared loop

    method Run(routine: Routine) returns (r: Outcome<Ast>)
      requires Valid()
      modifies this
      ensures Valid() && Parsed(r, tokenId) == RunOf(routine, tokens, old(tokenId))
      decreases |tokens| - tokenId, if routine == ExpressionRoutine then 9 else 6
    {
      match routine
      case ExpressionRoutine => r := ParseExpression();
      case AtomicRoutine => r := ParseIndexExpression();
      case IdentifierRoutine => r := ParseIdentifierWithTrailingSeparators();
    }

    /** `separator` and `atLeastZero` are set together: only sequences use either. */
    method ParseMany(routine: Routine, separator: Option<TokenType>, atLeastZero: bool)
      returns (r: Outcome<seq<Ast>>)
      requires Valid()
      requires atLeastZero <==> routine == ExpressionRoutine
      requires separator == if routine == ExpressionRoutine then Some(ExpressionSeparator) else None
      modifies this
      ensures Valid()
      ensures !atLeastZero ==> Parsed(r, tokenId) == LoopOf(routine, tokens, old(tokenId), [])
      ensures atLeastZero ==>
                var start := SkipSeparators(tokens, old(tokenId));
                Parsed(r, tokenId) ==
                if start >= |tokens| then Parsed(Ok([]), start) else LoopOf(routine, tokens, start, [])
      decreases |tokens| - tokenId, if routine == ExpressionRoutine then 10 else 7
    {
      if separator.Some? && atLeastZero {
        SkipAll();
      }
      if atLeastZero && tokenId >= |tokens| {
        return Ok([]);
      }
      ghost var start := tokenId;
      var trees := [];
      var expr := Run(routine);
      while expr.Ok?
        invariant start <= tokenId <= |tokens|
        invariant LoopOf(routine, tokens, start, []) ==
                  if expr.Ok? then
                    if separator.Some? && !Expect(tokens, tokenId, ExpressionSeparator) then
                      Parsed(Ok(trees + [expr.value]), tokenId)
                    else
                      var next := if separator.Some? then SkipSeparators(tokens, tokenId) else tokenId;
                      LoopOf(routine, tokens, next, trees + [expr.value])
                  else AfterFailure(trees, Parsed(expr, tokenId))
        invariant expr.Ok? ==> tokenId > start
        decreases expr.Ok?, |tokens| - tokenId
      {
        trees := trees + [expr.value];
        if separator.Some? {
          if !Expect(tokens, tokenId, separator.value) {
            return Ok(trees);
          }
          SkipAll();
        }
        expr := Run(routine);
      }
      if expr.Abort? {
        return Abort;
      }
      if trees == [] {
        return Err(expr.error);
      }
      r := Ok(trees);
    }

    // ----- Expressions

    method ParseSequence() returns (r: Outcome<Ast>)
      requires Valid()
      modifies this
      ensures Valid() && Parsed(r, tokenId) == SequenceOf(tokens, old(tokenId))
      decreases |tokens| - tokenId, 11
    {
      var many := ParseMany(ExpressionRoutine, Some(ExpressionSeparator), true);
      match many
      case Ok(trees) => r := Ok(SequenceAst(trees));
      case Err(e) => r := Err(e);
      case Abort => r := Abort;
    }

    method ParseExpression() returns (r: Outcome<Ast>)
      requires Valid()
      modifies this
      ensures Valid() && Parsed(r, tokenId) == Expression(tokens, old(tokenId))
      decreases |tokens| - tokenId, 9, 0
    {
      if ExpectDeclaration(tokens, tokenId) {
        r := ParseVariableDeclaration();
      } else {
        r := ParseInfixExpression();
      }
    }

    method ParseVariableDeclaration() returns (r: Outcome<Ast>)
      requires Valid()
      modifies this
      ensures Valid() && Parsed(r, tokenId) == Declaration(tokens, old(tokenId))
      decreases |tokens| - tokenId, 8
    {
      var lvalue := ParseIdentifier();
      if !lvalue.Ok? {
        if lvalue.Err? && lvalue.error.UnexpectedToken? {
          return Err(LiteralAsIdentifier(lvalue.error.kind, lvalue.error.source));
        }
        return lvalue;
      }
      if !ExpectToken(tokens, tokenId, Operator, ":=") {
        return Abort;
      }
      var _ := Consume();
      var rvalue := ParseExpression();
      if rvalue.Ok? {
        return Ok(DeclarationAst(lvalue.value, rvalue.value));
      }
      r := rvalue;
    }

    method ParseInfixExpression() returns (r: Outcome<Ast>)
      requires Valid()
      modifies this
      ensures Valid() && Parsed(r, tokenId) == Infix(tokens, old(tokenId))
      decreases |tokens| - tokenId, 8
    {
      var atomics := ParseMany(AtomicRoutine, None, false);
      if atomics.Err? {
        return Err(atomics.error);
      } else if atomics.Abort? {
        return Abort;
      }
      var lhs := WrapIfSeveral(atomics.value);
      if NextIsOperator(tokens, tokenId) {
        var op := Consume();
        r := ParseRhsOfInfixExpression(BinaryAst(op, [lhs]));
        return;
      }
      r := Ok(lhs);
    }

    method ParseRhsOfInfixExpression(lhs: Ast) returns (r: Outcome<Ast>)
      requires Valid()
      modifies this
      ensures Valid() && Parsed(r, tokenId) == InfixRhs(tokens, old(tokenId), lhs)
      decreases |tokens| - tokenId, 8
    {
      var atomics := ParseMany(AtomicRoutine, None, false);
      if atomics.Err? {
        return Err(atomics.error);
      } else if atomics.Abort? {
        return Abort;
      }
      var rhs := WrapIfSeveral(atomics.value);
      if !NextIsOperator(tokens, tokenId) {
        return Ok(AddArgument(lhs, rhs));
      }
      var op := Consume();
      if !HasPrecedence(lhs.token.source) {
        return Err(UndefinedOperator(lhs.token.source));
      }
      if !HasPrecedence(op.source) {
        return Err(UndefinedOperator(op.source));
      }
      if Precedence(lhs.token.source) >= Precedence(op.source) {
        r := ParseRhsOfInfixExpression(BinaryAst(op, [AddArgument(lhs, rhs)]));
        return;
      }
      var right := ParseRhsOfInfixExpression(BinaryAst(op, [rhs]));
      if right.Ok? {
        return Ok(AddArgument(lhs, right.value));
      }
      r := right;
    }

    method ParseSequenceInside(closing: TokenType, isLambda: bool, parameters: seq<Ast>, start: Option<nat>)
      returns (r: Outcome<Ast>)
      requires Valid()
      requires start.Some? ==> start.value <= tokenId
      modifies this
      ensures Valid()
      ensures Parsed(r, tokenId) ==
              SequenceInside(tokens, old(tokenId), closing, isLambda, parameters, start)
      decreases |tokens| - tokenId, 12
    {
      var body := ParseSequence();
      if !body.Ok? {
        return body;
      }
      if !Expect(tokens, tokenId, closing) {
        return NotClosed(tokens, tokenId, isLambda, start);
      }
      var _ := Consume();
      if isLambda {
        return Ok(LambdaAst(body.value, parameters));
      }
      if |body.value.arguments| == 1 {
        return Ok(body.value.arguments[0]);
      }
      r := Ok(BlockAst(body.value));
    }

    method ParseIndexExpression() returns (r: Outcome<Ast>)
      requires Valid()
      modifies this
      ensures Valid() && Parsed(r, tokenId) == IndexExpression(tokens, old(tokenId))
      ensures r.Ok? ==>
                Accounts(tokens, old(tokenId), [], LostInIndexed(tokens, old(tokenId)), Yield(r.value), tokenId)
      decreases |tokens| - tokenId, 5
    {
      r := ParseAtomicExpression();
      if !r.Ok? {
        return;
      }
      while Expect(tokens, tokenId, OpenIndex)
        invariant old(tokenId) < tokenId <= |tokens|
        invariant r.Ok?
        invariant Indices(tokens, tokenId, r.value) == IndexExpression(tokens, old(tokenId))
        decreases |tokens| - tokenId
      {
        var op := Consume();
        var index := ParseSequenceInside(CloseIndex, false, [], None);
        if !index.Ok? {
          return index;
        }
        r := Ok(BinaryAst(op, [r.value, index.value]));
      }
      IndexedAccounts(tokens, old(tokenId));
    }

    method ParseAtomicExpression() returns (r: Outcome<Ast>)
      requires Valid()
      modifies this
      ensures Valid() && Parsed(r, tokenId) == Atomic(tokens, old(tokenId))
      decreases |tokens| - tokenId, 4
    {
      if tokenId >= |tokens| {
        return Err(UnexpectedEmptySource);
      }
      var peeked := tokens[tokenId];
      match peeked.kind {
        case Keyword =>
          if !IsLiteralKeyword(peeked.source) {
            return Err(UnexpectedKeyword(peeked.source));
          }
          var t := Consume();
          r := Ok(LiteralAst(t));
        case Chord =>
          var t := Consume();
          r := Ok(LiteralAst(t));
        case Numeric =>
          var t := Consume();
          r := Ok(LiteralAst(t));
        case Symbol =>
          var t := Consume();
          r := Ok(LiteralAst(t));
        case OpenBlock =>
          var _ := Consume();
          r := ParseBlockOrLambda();
        case Operator =>
          r := Err(OperatorWithoutOperands(peeked.source));
        case _ =>
          r := Err(UnexpectedToken(peeked.kind, peeked.source));
      }
    }

    method ParseBlockOrLambda() returns (r: Outcome<Ast>)
      requires Valid()
      modifies this
      ensures Valid() && Parsed(r, tokenId) == BlockOrLambda(tokens, old(tokenId))
      decreases |tokens| - tokenId, 13
    {
      if Expect(tokens, tokenId, CloseBlock) {
        var _ := Consume();
        return Ok(BlockAst(SequenceAst([])));
      }
      var start := tokenId;
      var parameters: seq<Ast> := [];
      var isLambda := false;
      if Expect(tokens, tokenId, ParameterSeparator) {
        var _ := Consume();
        isLambda := true;
      } else {
        var p := ParseMany(IdentifierRoutine, None, false);
        if p.Ok? && Expect(tokens, tokenId, ParameterSeparator) {
          var _ := Consume();
          parameters := p.value;
          isLambda := true;
        } else {
          tokenId := start;
        }
      }
      r := ParseSequenceInside(CloseBlock, isLambda, parameters, Some(start));
    }

    method Parse() returns (r: Outcome<Ast>)
      requires tokenId == 0
      modifies this
      ensures Valid() && r == Program(tokens)
      ensures r.Ok? ==> (Yield(r.value) == Kept(tokens) <==> LostInSequence(tokens, 0) == 0)
    {
      if Program(tokens).Ok? {
        ProgramReadsBackExactlyWhen(tokens);
      }
      r := ParseSequence();
      if r.Ok? && tokenId < |tokens| {
        if Expect(tokens, tokenId, CloseBlock) {
          var _ := Consume();
          return Err(ClosingTokenWithoutOpening);
        }
        return Abort;
      }
    }
  }
}
