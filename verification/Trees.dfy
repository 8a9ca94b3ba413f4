/** The trees the parser can build. */
module Trees {
  import opened Tokens
  import opened Grammar
  import opened Wrappers

  /** Trees of single expressions; `index` says whether index expressions may occur. */
  predicate WellFormed(a: Ast, index: bool)
    decreases a
  {
    match a.kind
    case Literal => IsLiteralToken(a.token) && a.arguments == []
    case Binary =>
      && (IsOperatorToken(a.token) || (index && a.token.kind == OpenIndex))
      && |a.arguments| == 2
      && WellFormed(a.arguments[0], index)
      && WellFormed(a.arguments[1], index)
    case Call =>
      && a.token == NO_TOKEN
      && |a.arguments| >= 2
      && forall i | 0 <= i < |a.arguments| :: WellFormed(a.arguments[i], index)
    case Block =>
      && a.token == NO_TOKEN
      && |a.arguments| == 1
      && var body := a.arguments[0];
         && body == SequenceAst(body.arguments)
         && |body.arguments| != 1
         && forall i | 0 <= i < |body.arguments| :: WellFormed(body.arguments[i], index)
    case Lambda =>
      && a.token == NO_TOKEN
      && a.arguments != []
      && Parameters(a.arguments[..|a.arguments| - 1])
      && var body := a.arguments[|a.arguments| - 1];
         && body == SequenceAst(body.arguments)
         && body.arguments != []
         && forall i | 0 <= i < |body.arguments| :: WellFormed(body.arguments[i], index)
    case VariableDeclaration =>
      && a.token == NO_TOKEN
      && |a.arguments| == 2
      && IsParameter(a.arguments[0])
      && WellFormed(a.arguments[1], index)
    case Sequence => false
  }

  /** Sequences: whole programs and the contents of blocks. */
  predicate WellFormedSequence(a: Ast, index: bool) {
    a == SequenceAst(a.arguments) && AllWellFormed(a.arguments, index)
  }

  /** On trees that the parser builds, the program's equality is equality. */
  lemma {:induction false} SameAstExactlyWhen(a: Ast, b: Ast, index: bool)
    requires WellFormed(a, index) || WellFormedSequence(a, index)
    requires WellFormed(b, index) || WellFormedSequence(b, index)
    ensures SameAst(a, b) <==> a == b
    decreases a
  {
    SameAstReflexive(a);
    if SameAst(a, b) && a.kind != Literal {
      forall i | 0 <= i < |a.arguments| ensures a.arguments[i] == b.arguments[i] {
        ArgumentIsWellFormed(a, i, index);
        ArgumentIsWellFormed(b, i, index);
        SameAstExactlyWhen(a.arguments[i], b.arguments[i], index);
      }
      assert a.arguments == b.arguments;
    }
  }

  lemma {:induction false} ArgumentIsWellFormed(a: Ast, i: nat, index: bool)
    requires (WellFormed(a, index) || WellFormedSequence(a, index)) && i < |a.arguments|
    ensures WellFormed(a.arguments[i], index) || WellFormedSequence(a.arguments[i], index)
  {
    if a.kind == Lambda && i < |a.arguments| - 1 {
      assert a.arguments[i] == a.arguments[..|a.arguments| - 1][i];
    } else if a.kind == VariableDeclaration && i == 0 {
      assert IsParameter(a.arguments[0]);
    }
  }

  /** No index expression anywhere. */
  predicate NoIndex(a: Ast)
    decreases a
  {
    && (a.kind == Binary ==> a.token.kind != OpenIndex)
    && forall i | 0 <= i < |a.arguments| :: NoIndex(a.arguments[i])
  }

  lemma {:induction false} WithoutIndex(a: Ast)
    requires NoIndex(a)
    ensures WellFormed(a, true) ==> WellFormed(a, false)
    ensures WellFormedSequence(a, true) ==> WellFormedSequence(a, false)
    decreases a
  {
    forall i | 0 <= i < |a.arguments|
      ensures WellFormed(a.arguments[i], true) ==> WellFormed(a.arguments[i], false)
      ensures WellFormedSequence(a.arguments[i], true) ==> WellFormedSequence(a.arguments[i], false)
    {
      WithoutIndex(a.arguments[i]);
    }
    if (a.kind == Block || a.kind == Lambda) && WellFormed(a, true) {
      var body := a.arguments[|a.arguments| - 1];
      assert WellFormedSequence(body, true);
    }
  }

  predicate IsParameter(a: Ast) {
    a.kind == Literal && a.token.kind == Symbol && a.arguments == []
  }

  predicate Parameters(ps: seq<Ast>) {
    forall i | 0 <= i < |ps| :: IsParameter(ps[i])
  }

  predicate AllWellFormed(es: seq<Ast>, index: bool) {
    forall i | 0 <= i < |es| :: WellFormed(es[i], index)
  }

  // ----- Everything the parser builds is well formed

  lemma {:induction false} SequenceBuilds(ts: seq<Token>, p: nat)
    requires p <= |ts|
    ensures var o := SequenceOf(ts, p).outcome; o.Ok? ==> WellFormedSequence(o.value, true)
    decreases |ts| - p, 10
  {
    var q := SkipSeparators(ts, p);
    if q < |ts| {
      ExpressionsBuild(ts, q, []);
    }
  }

  lemma {:induction false} ExpressionsBuild(ts: seq<Token>, p: nat, trees: seq<Ast>)
    requires p <= |ts| && AllWellFormed(trees, true)
    ensures var o := ManyExpressions(ts, p, trees).outcome; o.Ok? ==> AllWellFormed(o.value, true)
    decreases |ts| - p, 9
  {
    var e := Expression(ts, p);
    if e.outcome.Ok? {
      ExpressionBuilds(ts, p);
      if Expect(ts, e.next, ExpressionSeparator) {
        ExpressionsBuild(ts, SkipSeparators(ts, e.next), trees + [e.outcome.value]);
      }
    }
  }

  lemma {:induction false} ExpressionBuilds(ts: seq<Token>, p: nat)
    requires p <= |ts|
    ensures var o := Expression(ts, p).outcome; o.Ok? ==> WellFormed(o.value, true)
    decreases |ts| - p, 8
  {
    if ExpectDeclaration(ts, p) {
      ExpressionBuilds(ts, p + 2);
    } else {
      var m := ManyAtomics(ts, p, []);
      AtomicsBuild(ts, p, []);
      if m.outcome.Ok? && NextIsOperator(ts, m.next) {
        RhsBuilds(ts, m.next + 1, ts[m.next], WrapIfSeveral(m.outcome.value));
      }
    }
  }

  lemma {:induction false} RhsBuilds(ts: seq<Token>, p: nat, op: Token, left: Ast)
    requires p <= |ts| && IsOperatorToken(op) && WellFormed(left, true)
    ensures var o := InfixRhs(ts, p, BinaryAst(op, [left])).outcome; o.Ok? ==> WellFormed(o.value, true)
    decreases |ts| - p, 7
  {
    var m := ManyAtomics(ts, p, []);
    AtomicsBuild(ts, p, []);
    if m.outcome.Ok? {
      var rhs := WrapIfSeveral(m.outcome.value);
      BinaryBuilds(op, left, rhs);
      if NextIsOperator(ts, m.next) {
        var next := ts[m.next];
        if Precedence(op.source) >= Precedence(next.source) {
          RhsBuilds(ts, m.next + 1, next, BinaryAst(op, [left, rhs]));
        } else {
          RhsBuilds(ts, m.next + 1, next, rhs);
          var r := InfixRhs(ts, m.next + 1, BinaryAst(next, [rhs]));
          if r.outcome.Ok? {
            BinaryBuilds(op, left, r.outcome.value);
          }
        }
      }
    }
  }

  lemma {:induction false} BinaryBuilds(op: Token, left: Ast, right: Ast)
    requires IsOperatorToken(op) && WellFormed(left, true) && WellFormed(right, true)
    ensures AddArgument(BinaryAst(op, [left]), right) == BinaryAst(op, [left, right])
    ensures WellFormed(BinaryAst(op, [left, right]), true)
  {
  }

  lemma {:induction false} AtomicsBuild(ts: seq<Token>, p: nat, trees: seq<Ast>)
    requires p <= |ts| && AllWellFormed(trees, true)
    ensures var o := ManyAtomics(ts, p, trees).outcome;
            o.Ok? ==> AllWellFormed(o.value, true) && WellFormed(WrapIfSeveral(o.value), true)
    decreases |ts| - p, 6
  {
    var e := IndexExpression(ts, p);
    IndexBuilds(ts, p);
    if e.outcome.Ok? {
      AtomicsBuild(ts, e.next, trees + [e.outcome.value]);
    }
  }

  lemma {:induction false} IndexBuilds(ts: seq<Token>, p: nat)
    requires p <= |ts|
    ensures var o := IndexExpression(ts, p).outcome; o.Ok? ==> WellFormed(o.value, true)
    decreases |ts| - p, 5
  {
    var a := Atomic(ts, p);
    if a.outcome.Ok? {
      if ts[p].kind == OpenBlock {
        BlockBuilds(ts, p + 1);
      }
      IndicesBuild(ts, a.next, a.outcome.value);
    }
  }

  lemma {:induction false} IndicesBuild(ts: seq<Token>, p: nat, indexed: Ast)
    requires p <= |ts| && WellFormed(indexed, true)
    ensures var o := Indices(ts, p, indexed).outcome; o.Ok? ==> WellFormed(o.value, true)
    decreases |ts| - p, 5
  {
    if Expect(ts, p, OpenIndex) {
      var i := SequenceInside(ts, p + 1, CloseIndex, false, [], None);
      InsideBuilds(ts, p + 1, CloseIndex, false, [], None);
      if i.outcome.Ok? {
        IndicesBuild(ts, i.next, BinaryAst(ts[p], [indexed, i.outcome.value]));
      }
    }
  }

  lemma {:induction false} BlockBuilds(ts: seq<Token>, start: nat)
    requires start <= |ts|
    ensures var o := BlockOrLambda(ts, start).outcome; o.Ok? ==> WellFormed(o.value, true)
    decreases |ts| - start, 12
  {
    if Expect(ts, start, CloseBlock) {
    } else if Expect(ts, start, ParameterSeparator) {
      InsideBuilds(ts, start + 1, CloseBlock, true, [], Some(start));
    } else {
      var ps := ManyIdentifiers(ts, start, []);
      IdentifiersAreParameters(ts, start, []);
      if ps.outcome.Ok? && Expect(ts, ps.next, ParameterSeparator) {
        InsideBuilds(ts, ps.next + 1, CloseBlock, true, ps.outcome.value, Some(start));
      } else {
        InsideBuilds(ts, start, CloseBlock, false, [], Some(start));
      }
    }
  }

  lemma {:induction false} InsideBuilds(ts: seq<Token>, p: nat, closing: TokenType, isLambda: bool,
                                        parameters: seq<Ast>, start: Option<nat>)
    requires p <= |ts| && Parameters(parameters)
    requires start.Some? ==> start.value <= p
    ensures var o := SequenceInside(ts, p, closing, isLambda, parameters, start).outcome;
            o.Ok? ==> WellFormed(o.value, true)
    decreases |ts| - p, 11
  {
    SequenceBuilds(ts, p);
    var s := SequenceOf(ts, p);
    if s.outcome.Ok? && isLambda && Expect(ts, s.next, closing) {
      LambdaBuilds(s.outcome.value, parameters);
    }
  }

  lemma LambdaBuilds(body: Ast, parameters: seq<Ast>)
    requires WellFormedSequence(body, true) && body.arguments != [] && Parameters(parameters)
    ensures WellFormed(LambdaAst(body, parameters), true)
  {
    var l := LambdaAst(body, parameters);
    assert l.arguments[..|l.arguments| - 1] == parameters;
  }

  lemma {:induction false} IdentifiersAreParameters(ts: seq<Token>, p: nat, trees: seq<Ast>)
    requires p <= |ts| && Parameters(trees)
    ensures var o := ManyIdentifiers(ts, p, trees).outcome; o.Ok? ==> Parameters(o.value)
    decreases |ts| - p
  {
    var e := SeparatedIdentifier(ts, p);
    if e.outcome.Ok? {
      IdentifiersAreParameters(ts, e.next, trees + [e.outcome.value]);
    }
  }

  /** Every program the parser accepts is a well-formed sequence. */
  lemma ProgramBuilds(ts: seq<Token>)
    ensures Program(ts).Ok? ==> WellFormedSequence(Program(ts).value, true)
  {
    SequenceBuilds(ts, 0);
  }
}
