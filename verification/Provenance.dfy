/** The tokens of a parsed tree are tokens of the program it was parsed from. */
module Provenance {
  import opened Tokens
  import opened Grammar
  import opened Wrappers

  /** The tokens that count for the tree pass the test. */
  predicate MadeOf(a: Ast, ok: Token -> bool)
    decreases a
  {
    && (a.kind == Literal || a.kind == Binary ==> ok(a.token))
    && forall i | 0 <= i < |a.arguments| :: MadeOf(a.arguments[i], ok)
  }

  predicate AllMadeOf(trees: seq<Ast>, ok: Token -> bool) {
    forall i | 0 <= i < |trees| :: MadeOf(trees[i], ok)
  }

  predicate All(ts: seq<Token>, ok: Token -> bool) {
    forall i | 0 <= i < |ts| :: ok(ts[i])
  }

  ghost predicate OutcomeMadeOf(o: Outcome<Ast>, ok: Token -> bool) {
    o.Ok? ==> MadeOf(o.value, ok)
  }

  ghost predicate OutcomesMadeOf(o: Outcome<seq<Ast>>, ok: Token -> bool) {
    o.Ok? ==> AllMadeOf(o.value, ok)
  }

  lemma {:induction false} OneMore(trees: seq<Ast>, a: Ast, ok: Token -> bool)
    requires AllMadeOf(trees, ok) && MadeOf(a, ok)
    ensures AllMadeOf(trees + [a], ok)
  {
  }

  lemma {:induction false} BinaryIsMadeOf(op: Token, left: Ast, right: Ast, ok: Token -> bool)
    requires ok(op) && MadeOf(left, ok) && MadeOf(right, ok)
    ensures MadeOf(BinaryAst(op, [left, right]), ok) && MadeOf(BinaryAst(op, [left]), ok)
    ensures AddArgument(BinaryAst(op, [left]), right) == BinaryAst(op, [left, right])
  {
  }

  lemma {:induction false} LambdaIsMadeOf(body: Ast, parameters: seq<Ast>, ok: Token -> bool)
    requires MadeOf(body, ok) && AllMadeOf(parameters, ok)
    ensures MadeOf(LambdaAst(body, parameters), ok)
  {
  }

  lemma {:induction false} SequenceKeeps(ts: seq<Token>, p: nat, ok: Token -> bool)
    requires p <= |ts| && All(ts, ok)
    ensures OutcomeMadeOf(SequenceOf(ts, p).outcome, ok)
    decreases |ts| - p, 10
  {
    var q := SkipSeparators(ts, p);
    if q < |ts| {
      ExpressionsKeep(ts, q, [], ok);
    }
  }

  lemma {:induction false} ExpressionsKeep(ts: seq<Token>, p: nat, trees: seq<Ast>, ok: Token -> bool)
    requires p <= |ts| && All(ts, ok) && AllMadeOf(trees, ok)
    ensures OutcomesMadeOf(ManyExpressions(ts, p, trees).outcome, ok)
    decreases |ts| - p, 9
  {
    var e := Expression(ts, p);
    if e.outcome.Ok? {
      ExpressionKeeps(ts, p, ok);
      OneMore(trees, e.outcome.value, ok);
      if Expect(ts, e.next, ExpressionSeparator) {
        ExpressionsKeep(ts, SkipSeparators(ts, e.next), trees + [e.outcome.value], ok);
      }
    }
  }

  lemma {:induction false} ExpressionKeeps(ts: seq<Token>, p: nat, ok: Token -> bool)
    requires p <= |ts| && All(ts, ok)
    ensures OutcomeMadeOf(Expression(ts, p).outcome, ok)
    decreases |ts| - p, 8
  {
    if ExpectDeclaration(ts, p) {
      ExpressionKeeps(ts, p + 2, ok);
    } else {
      var m := ManyAtomics(ts, p, []);
      AtomicsKeep(ts, p, [], ok);
      if m.outcome.Ok? && NextIsOperator(ts, m.next) {
        RhsKeeps(ts, m.next + 1, ts[m.next], WrapIfSeveral(m.outcome.value), ok);
      }
    }
  }

  lemma {:induction false} RhsKeeps(ts: seq<Token>, p: nat, op: Token, left: Ast, ok: Token -> bool)
    requires p <= |ts| && All(ts, ok) && ok(op) && MadeOf(left, ok)
    ensures OutcomeMadeOf(InfixRhs(ts, p, BinaryAst(op, [left])).outcome, ok)
    decreases |ts| - p, 7
  {
    var m := ManyAtomics(ts, p, []);
    AtomicsKeep(ts, p, [], ok);
    if m.outcome.Ok? {
      var rhs := WrapIfSeveral(m.outcome.value);
      BinaryIsMadeOf(op, left, rhs, ok);
      if NextIsOperator(ts, m.next) {
        var next := ts[m.next];
        if Precedence(op.source) >= Precedence(next.source) {
          RhsKeeps(ts, m.next + 1, next, BinaryAst(op, [left, rhs]), ok);
        } else {
          RhsKeeps(ts, m.next + 1, next, rhs, ok);
          var r := InfixRhs(ts, m.next + 1, BinaryAst(next, [rhs]));
          if r.outcome.Ok? {
            BinaryIsMadeOf(op, left, r.outcome.value, ok);
          }
        }
      }
    }
  }

  lemma {:induction false} AtomicsKeep(ts: seq<Token>, p: nat, trees: seq<Ast>, ok: Token -> bool)
    requires p <= |ts| && All(ts, ok) && AllMadeOf(trees, ok)
    ensures var o := ManyAtomics(ts, p, trees).outcome;
            OutcomesMadeOf(o, ok) && (o.Ok? ==> MadeOf(WrapIfSeveral(o.value), ok))
    decreases |ts| - p, 6
  {
    var e := IndexExpression(ts, p);
    IndexKeeps(ts, p, ok);
    if e.outcome.Ok? {
      OneMore(trees, e.outcome.value, ok);
      AtomicsKeep(ts, e.next, trees + [e.outcome.value], ok);
    }
  }

  lemma {:induction false} IndexKeeps(ts: seq<Token>, p: nat, ok: Token -> bool)
    requires p <= |ts| && All(ts, ok)
    ensures OutcomeMadeOf(IndexExpression(ts, p).outcome, ok)
    decreases |ts| - p, 5
  {
    var a := Atomic(ts, p);
    if a.outcome.Ok? {
      if ts[p].kind == OpenBlock {
        BlockKeeps(ts, p + 1, ok);
      }
      IndicesKeep(ts, a.next, a.outcome.value, ok);
    }
  }

  lemma {:induction false} IndicesKeep(ts: seq<Token>, p: nat, indexed: Ast, ok: Token -> bool)
    requires p <= |ts| && All(ts, ok) && MadeOf(indexed, ok)
    ensures OutcomeMadeOf(Indices(ts, p, indexed).outcome, ok)
    decreases |ts| - p, 5
  {
    if Expect(ts, p, OpenIndex) {
      var i := SequenceInside(ts, p + 1, CloseIndex, false, [], None);
      InsideKeeps(ts, p + 1, CloseIndex, false, [], None, ok);
      if i.outcome.Ok? {
        BinaryIsMadeOf(ts[p], indexed, i.outcome.value, ok);
        IndicesKeep(ts, i.next, BinaryAst(ts[p], [indexed, i.outcome.value]), ok);
      }
    }
  }

  lemma {:induction false} BlockKeeps(ts: seq<Token>, start: nat, ok: Token -> bool)
    requires start <= |ts| && All(ts, ok)
    ensures OutcomeMadeOf(BlockOrLambda(ts, start).outcome, ok)
    decreases |ts| - start, 12
  {
    if Expect(ts, start, CloseBlock) {
    } else if Expect(ts, start, ParameterSeparator) {
      InsideKeeps(ts, start + 1, CloseBlock, true, [], Some(start), ok);
    } else {
      var ps := ManyIdentifiers(ts, start, []);
      IdentifiersKeep(ts, start, [], ok);
      if ps.outcome.Ok? && Expect(ts, ps.next, ParameterSeparator) {
        InsideKeeps(ts, ps.next + 1, CloseBlock, true, ps.outcome.value, Some(start), ok);
      } else {
        InsideKeeps(ts, start, CloseBlock, false, [], Some(start), ok);
      }
    }
  }

  lemma {:induction false} InsideKeeps(ts: seq<Token>, p: nat, closing: TokenType, isLambda: bool,
                                       parameters: seq<Ast>, start: Option<nat>, ok: Token -> bool)
    requires p <= |ts| && All(ts, ok) && AllMadeOf(parameters, ok)
    requires start.Some? ==> start.value <= p
    ensures OutcomeMadeOf(SequenceInside(ts, p, closing, isLambda, parameters, start).outcome, ok)
    decreases |ts| - p, 11
  {
    SequenceKeeps(ts, p, ok);
    var s := SequenceOf(ts, p);
    if s.outcome.Ok? && isLambda && Expect(ts, s.next, closing) {
      LambdaIsMadeOf(s.outcome.value, parameters, ok);
    }
  }

  lemma {:induction false} IdentifiersKeep(ts: seq<Token>, p: nat, trees: seq<Ast>, ok: Token -> bool)
    requires p <= |ts| && All(ts, ok) && AllMadeOf(trees, ok)
    ensures OutcomesMadeOf(ManyIdentifiers(ts, p, trees).outcome, ok)
    decreases |ts| - p
  {
    var e := SeparatedIdentifier(ts, p);
    if e.outcome.Ok? {
      OneMore(trees, e.outcome.value, ok);
      IdentifiersKeep(ts, e.next, trees + [e.outcome.value], ok);
    }
  }

  /** What holds of all tokens of a program holds of all tokens of its tree. */
  lemma ProgramKeeps(ts: seq<Token>, ok: Token -> bool)
    requires All(ts, ok)
    ensures OutcomeMadeOf(Program(ts), ok)
  {
    SequenceKeeps(ts, 0, ok);
  }
}
