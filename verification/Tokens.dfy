/** Tokens, program trees and parse outcomes shared by the parser and the printer. */
module Tokens {

  datatype TokenType =
    | Symbol
    | Keyword
    | Operator
    | Chord
    | Numeric
    | ParameterSeparator
    | ExpressionSeparator
    | OpenBlock
    | CloseBlock
    | OpenIndex
    | CloseIndex

  datatype Token = Token(kind: TokenType, source: string)

  datatype AstKind = Binary | Block | Lambda | Call | Literal | Sequence | VariableDeclaration

  /** A node of the program tree.  Only literals and binaries carry a token of their own. */
  datatype Ast = Ast(kind: AstKind, token: Token, arguments: seq<Ast>)

  datatype ParseError =
    | UnexpectedEmptySource
    | BlockWithoutClosingBracket
    | UnexpectedKeyword(keyword: string)
    | OperatorWithoutOperands(name: string)
    | UnexpectedToken(kind: TokenType, source: string)
    | LiteralAsIdentifier(kind: TokenType, source: string)
    | UndefinedOperator(op: string)
    | ClosingTokenWithoutOpening
    | ReadOfAbsentToken  // `peek()->` with no token left

  /** `Abort` is a failed `ensure`: the process ends, no caller sees a value or an error. */
  datatype Outcome<+T> = Ok(value: T) | Err(error: ParseError) | Abort

  /** An outcome together with the cursor the step leaves behind, on failure too. */
  datatype Parsed<+T> = Parsed(outcome: Outcome<T>, next: nat)

  const NO_TOKEN := Token(Symbol, "")

  // ----- Tree builders

  function LiteralAst(token: Token): Ast {
    Ast(Literal, token, [])
  }

  function BinaryAst(token: Token, arguments: seq<Ast>): Ast {
    Ast(Binary, token, arguments)
  }

  function CallAst(arguments: seq<Ast>): Ast {
    Ast(Call, NO_TOKEN, arguments)
  }

  function SequenceAst(expressions: seq<Ast>): Ast {
    Ast(Sequence, NO_TOKEN, expressions)
  }

  function BlockAst(body: Ast): Ast {
    Ast(Block, NO_TOKEN, [body])
  }

  function LambdaAst(body: Ast, parameters: seq<Ast>): Ast {
    Ast(Lambda, NO_TOKEN, parameters + [body])
  }

  function DeclarationAst(lvalue: Ast, rvalue: Ast): Ast {
    Ast(VariableDeclaration, NO_TOKEN, [lvalue, rvalue])
  }

  function AddArgument(ast: Ast, argument: Ast): Ast {
    ast.(arguments := ast.arguments + [argument])
  }

  /** One tree stands for itself; several are the pieces of a call. */
  function WrapIfSeveral(trees: seq<Ast>): Ast
    requires trees != []
  {
    if |trees| == 1 then trees[0] else CallAst(trees)
  }

  /** Equality as the program defines it: the token counts for literals and binaries only. */
  predicate SameAst(a: Ast, b: Ast)
    decreases a
  {
    && a.kind == b.kind
    && ((a.kind == Literal || a.kind == Binary) ==> a.token == b.token)
    && (a.kind != Literal ==>
          && |a.arguments| == |b.arguments|
          && forall i | 0 <= i < |a.arguments| :: SameAst(a.arguments[i], b.arguments[i]))
  }

  lemma {:induction false} SameAstReflexive(a: Ast)
    ensures SameAst(a, a)
  {
    forall i | 0 <= i < |a.arguments| ensures SameAst(a.arguments[i], a.arguments[i]) {
      SameAstReflexive(a.arguments[i]);
    }
  }

  // ----- Operators

  datatype Row = Row(ops: set<string>, precedence: int)

  /** Operators by how tightly they bind, loosest first. */
  const PRECEDENCES := [
    Row({":="}, 0),
    Row({"="}, 10),
    Row({"or"}, 100),
    Row({"and"}, 150),
    Row({"<", ">", "<=", ">=", "==", "!="}, 200),
    Row({"+", "-"}, 300),
    Row({"*", "/", "%", "&"}, 400),
    Row({"**"}, 500)
  ]

  function LookUp(op: string, rows: seq<Row>): int {
    if rows == [] then -1
    else if op in rows[0].ops then rows[0].precedence
    else LookUp(op, rows[1..])
  }

  /** Negative for an operator without precedence. */
  function Precedence(op: string): int {
    LookUp(op, PRECEDENCES)
  }

  predicate HasPrecedence(op: string) {
    Precedence(op) >= 0
  }

  lemma Found(op: string, i: nat)
    requires i < |PRECEDENCES| && op in PRECEDENCES[i].ops && forall j | 0 <= j < i :: op !in PRECEDENCES[j].ops
    ensures Precedence(op) == PRECEDENCES[i].precedence
  {
    FoundBehind(op, PRECEDENCES, i);
  }

  lemma {:induction false} FoundBehind(op: string, rows: seq<Row>, i: nat)
    requires i < |rows| && op in rows[i].ops && forall j | 0 <= j < i :: op !in rows[j].ops
    ensures LookUp(op, rows) == rows[i].precedence
  {
    if i > 0 {
      FoundBehind(op, rows[1..], i - 1);
    }
  }

  lemma {:induction false} NotFound(op: string, rows: seq<Row>)
    requires forall i | 0 <= i < |rows| :: op !in rows[i].ops
    ensures LookUp(op, rows) == -1
  {
    if rows != [] {
      NotFound(op, rows[1..]);
    }
  }

  /** How tightly the operators bind: loosest on the left, those in one set equally. */
  const LEVELS: seq<set<string>> := [
    {":="}, {"="}, {"or"}, {"and"}, {"<", ">", "<=", ">=", "==", "!="}, {"+", "-"}, {"*", "/", "%", "&"}, {"**"}
  ]

  lemma LevelOf(op: string, i: nat)
    requires i < 8 && op in LEVELS[i]
    ensures Precedence(op) == [0, 10, 100, 150, 200, 300, 400, 500][i]
  {
    Found(op, i);
  }

  /** An operator binds tighter than another if and only if it stands on a later level, and none that is
      on no level has a precedence. */
  lemma BindsTighterExactlyWhen(x: string, y: string, i: nat, j: nat)
    requires i < 8 && j < 8 && x in LEVELS[i] && y in LEVELS[j]
    ensures HasPrecedence(x) && (Precedence(x) < Precedence(y) <==> i < j)
  {
    LevelOf(x, i);
    LevelOf(y, j);
  }

  lemma HasPrecedenceExactlyWhen(op: string)
    ensures HasPrecedence(op) <==> exists i :: 0 <= i < 8 && op in LEVELS[i]
  {
    if i :| 0 <= i < 8 && op in LEVELS[i] {
      LevelOf(op, i);
    } else {
      assert forall i | 0 <= i < 8 :: PRECEDENCES[i].ops == LEVELS[i] by {
        assert PRECEDENCES[0].ops == LEVELS[0] && PRECEDENCES[1].ops == LEVELS[1] && PRECEDENCES[2].ops == LEVELS[2];
        assert PRECEDENCES[3].ops == LEVELS[3] && PRECEDENCES[4].ops == LEVELS[4] && PRECEDENCES[5].ops == LEVELS[5];
        assert PRECEDENCES[6].ops == LEVELS[6] && PRECEDENCES[7].ops == LEVELS[7];
      }
      NotFound(op, PRECEDENCES);
    }
  }

  predicate IsLiteralKeyword(source: string) {
    source == "false" || source == "nil" || source == "true"
  }

  predicate IsOperatorToken(t: Token) {
    t.kind == Operator || (t.kind == Keyword && (t.source == "and" || t.source == "or"))
  }

  predicate IsLiteralToken(t: Token) {
    || t.kind == Chord || t.kind == Numeric || t.kind == Symbol
    || (t.kind == Keyword && IsLiteralKeyword(t.source))
  }

  predicate IsIdentifierLooking(kind: TokenType) {
    kind == Symbol || kind == Keyword || kind == Chord
  }
}
