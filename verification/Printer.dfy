/** The printer of program trees: the tokens it writes, and the spaces between them. */
module Printer {
  import opened Tokens
  import opened Trees

  const OPEN := Token(OpenBlock, "(")
  const CLOSE := Token(CloseBlock, ")")
  const COMMA := Token(ExpressionSeparator, ",")
  const BAR := Token(ParameterSeparator, "|")
  const ASSIGN := Token(Operator, ":=")

  /** What the printer's own checks demand of a tree. */
  predicate Printable(a: Ast)
    decreases a
  {
    && (forall i | 0 <= i < |a.arguments| :: Printable(a.arguments[i]))
    && match a.kind
       case Block => |a.arguments| == 1
       case Lambda =>
         a.arguments != [] && forall i | 0 <= i < |a.arguments| - 1 :: a.arguments[i].kind == Literal
       case VariableDeclaration => |a.arguments| == 2 && a.arguments[0].kind == Literal
       case Binary => |a.arguments| >= 2
       case _ => true
  }

  predicate AllPrintable(es: seq<Ast>) {
    forall i | 0 <= i < |es| :: Printable(es[i])
  }

  /** Trees that the printer's checks reject are given no tokens here. */
  function Print(a: Ast): seq<Token>
    decreases a, 0
  {
    match a.kind
    case Sequence => PrintEach(a.arguments)
    case Block => if |a.arguments| == 1 then Bracketed(a.arguments[0]) else []
    case Lambda =>
      if a.arguments == [] then [] else
      var n := |a.arguments| - 1;
      [OPEN] + Sources(a.arguments[..n]) + [BAR] + Print(a.arguments[n]) + [CLOSE]
    case VariableDeclaration =>
      if |a.arguments| != 2 then [] else [a.arguments[0].token, ASSIGN] + Print(a.arguments[1])
    case Literal => [a.token]
    case Binary =>
      if |a.arguments| < 2 then [] else Bracketed(a.arguments[0]) + [a.token] + Bracketed(a.arguments[1])
    case Call => [OPEN] + PrintPieces(a.arguments) + [CLOSE]
  }

  function Bracketed(a: Ast): seq<Token>
    decreases a, 1
  {
    [OPEN] + Print(a) + [CLOSE]
  }

  /** Each expression followed by a separator. */
  function PrintEach(es: seq<Ast>): seq<Token>
    decreases es
  {
    if es == [] then [] else Print(es[0]) + [COMMA] + PrintEach(es[1..])
  }

  function PrintPieces(es: seq<Ast>): seq<Token>
    decreases es
  {
    if es == [] then [] else Bracketed(es[0]) + PrintPieces(es[1..])
  }

  function Sources(es: seq<Ast>): seq<Token> {
    seq(|es|, i requires 0 <= i < |es| => es[i].token)
  }

  lemma {:induction false} WellFormedIsPrintable(a: Ast)
    requires WellFormed(a, true) || WellFormedSequence(a, true)
    ensures Printable(a)
    decreases a
  {
    forall i | 0 <= i < |a.arguments| ensures Printable(a.arguments[i]) {
      var x := a.arguments[i];
      if a.kind == Lambda && i < |a.arguments| - 1 {
        assert x == a.arguments[..|a.arguments| - 1][i];
      }
      WellFormedIsPrintable(x);
    }
    if a.kind == Lambda {
      forall i | 0 <= i < |a.arguments| - 1 ensures a.arguments[i].kind == Literal {
        assert IsParameter(a.arguments[..|a.arguments| - 1][i]);
      }
    }
  }

  // ----- Spaces

  /** A token as it is written, with a space behind it or not. */
  datatype Piece = Piece(token: Token, spaced: bool)

  function TokensOfPieces(ps: seq<Piece>): seq<Token> {
    if ps == [] then [] else [ps[0].token] + TokensOfPieces(ps[1..])
  }

  /** The characters. */
  function Written(ps: seq<Piece>): string {
    if ps == [] then "" else ps[0].token.source + (if ps[0].spaced then " " else "") + Written(ps[1..])
  }

  function Layout(a: Ast): seq<Piece>
    decreases a, 0
  {
    match a.kind
    case Sequence => LayoutEach(a.arguments)
    case Block => if |a.arguments| == 1 then LayoutBracketed(a.arguments[0], false) else []
    case Lambda =>
      if a.arguments == [] then [] else
      var n := |a.arguments| - 1;
      [Piece(OPEN, false)] + LayoutSources(a.arguments[..n]) + [Piece(BAR, false)] + Layout(a.arguments[n]) +
      [Piece(CLOSE, false)]
    case VariableDeclaration =>
      if |a.arguments| != 2 then []
      else [Piece(a.arguments[0].token, true), Piece(ASSIGN, true)] + Layout(a.arguments[1])
    case Literal => [Piece(a.token, false)]
    case Binary =>
      if |a.arguments| < 2 then []
      else LayoutBracketed(a.arguments[0], true) + [Piece(a.token, true)] + LayoutBracketed(a.arguments[1], false)
    case Call => [Piece(OPEN, false)] + LayoutPieces(a.arguments) + [Piece(CLOSE, false)]
  }

  function LayoutBracketed(a: Ast, spaced: bool): seq<Piece>
    decreases a, 1
  {
    [Piece(OPEN, false)] + Layout(a) + [Piece(CLOSE, spaced)]
  }

  function LayoutEach(es: seq<Ast>): seq<Piece>
    decreases es
  {
    if es == [] then [] else Layout(es[0]) + [Piece(COMMA, true)] + LayoutEach(es[1..])
  }

  function LayoutPieces(es: seq<Ast>): seq<Piece>
    decreases es
  {
    if es == [] then [] else LayoutBracketed(es[0], true) + LayoutPieces(es[1..])
  }

  function LayoutSources(es: seq<Ast>): seq<Piece> {
    if es == [] then [] else [Piece(es[0].token, true)] + LayoutSources(es[1..])
  }

  // ----- The characters, construct by construct

  /** What the printer writes for a tree that passes its checks. */
  function Text(a: Ast): string
    decreases a, 0
  {
    match a.kind
    case Sequence => TextEach(a.arguments)
    case Block => if |a.arguments| != 1 then "" else "(" + Text(a.arguments[0]) + ")"
    case Lambda =>
      if a.arguments == [] then "" else
      var n := |a.arguments| - 1;
      "(" + Names(a.arguments[..n]) + "|" + Text(a.arguments[n]) + ")"
    case VariableDeclaration =>
      if |a.arguments| != 2 then "" else a.arguments[0].token.source + " := " + Text(a.arguments[1])
    case Literal => a.token.source
    case Binary =>
      if |a.arguments| < 2 then ""
      else "(" + Text(a.arguments[0]) + ") " + a.token.source + " (" + Text(a.arguments[1]) + ")"
    case Call => "(" + TextPieces(a.arguments) + ")"
  }

  function TextEach(es: seq<Ast>): string
    decreases es
  {
    if es == [] then "" else Text(es[0]) + ", " + TextEach(es[1..])
  }

  function TextPieces(es: seq<Ast>): string
    decreases es
  {
    if es == [] then "" else "(" + Text(es[0]) + ") " + TextPieces(es[1..])
  }

  function Names(ps: seq<Ast>): string {
    if ps == [] then "" else ps[0].token.source + " " + Names(ps[1..])
  }

  lemma {:induction false} WrittenBoth(ps: seq<Piece>, qs: seq<Piece>)
    ensures Written(ps + qs) == Written(ps) + Written(qs)
    decreases |ps|
  {
    if ps == [] {
      assert ps + qs == qs;
    } else {
      assert (ps + qs)[1..] == ps[1..] + qs;
      WrittenBoth(ps[1..], qs);
    }
  }

  lemma WrittenOne(t: Token, spaced: bool)
    ensures Written([Piece(t, spaced)]) == t.source + if spaced then " " else ""
  {
    assert [Piece(t, spaced)][1..] == [];
  }

  lemma {:induction false} WrittenEnclosed(ps: seq<Piece>, spaced: bool)
    ensures Written([Piece(OPEN, false)] + ps + [Piece(CLOSE, spaced)]) ==
            "(" + Written(ps) + if spaced then ") " else ")"
  {
    WrittenBoth([Piece(OPEN, false)] + ps, [Piece(CLOSE, spaced)]);
    WrittenBoth([Piece(OPEN, false)], ps);
    WrittenOne(OPEN, false);
    WrittenOne(CLOSE, spaced);
  }

  /** The pieces of a tree spell its text. */
  lemma {:induction false} LayoutIsText(a: Ast)
    ensures Written(Layout(a)) == Text(a)
    decreases a, 1
  {
    match a.kind
    case Sequence => EachIsText(a.arguments);
    case Block =>
      if |a.arguments| == 1 {
        BracketedIsText(a.arguments[0], false);
      }
    case Lambda => LambdaIsText(a);
    case VariableDeclaration => DeclarationIsText(a);
    case Literal => WrittenOne(a.token, false);
    case Binary => BinaryIsText(a);
    case Call =>
      PiecesAreText(a.arguments);
      WrittenEnclosed(LayoutPieces(a.arguments), false);
  }

  lemma {:induction false} BracketedIsText(a: Ast, spaced: bool)
    ensures Written(LayoutBracketed(a, spaced)) == "(" + Text(a) + if spaced then ") " else ")"
    decreases a, 2
  {
    LayoutIsText(a);
    WrittenEnclosed(Layout(a), spaced);
  }

  lemma {:induction false} EachIsText(es: seq<Ast>)
    ensures Written(LayoutEach(es)) == TextEach(es)
    decreases es
  {
    if es != [] {
      LayoutIsText(es[0]);
      EachIsText(es[1..]);
      WrittenBoth(Layout(es[0]) + [Piece(COMMA, true)], LayoutEach(es[1..]));
      WrittenBoth(Layout(es[0]), [Piece(COMMA, true)]);
      WrittenOne(COMMA, true);
      Three(Text(es[0]), ",", " ");
    }
  }

  lemma Three(a: string, b: string, c: string)
    ensures a + (b + c) == a + b + c
  {
  }

  lemma {:induction false} PiecesAreText(es: seq<Ast>)
    ensures Written(LayoutPieces(es)) == TextPieces(es)
    decreases es
  {
    if es != [] {
      BracketedIsText(es[0], true);
      PiecesAreText(es[1..]);
      WrittenBoth(LayoutBracketed(es[0], true), LayoutPieces(es[1..]));
    }
  }

  lemma {:induction false} SourcesAreNames(ps: seq<Ast>)
    ensures Written(LayoutSources(ps)) == Names(ps)
  {
    if ps != [] {
      SourcesAreNames(ps[1..]);
      WrittenBoth([Piece(ps[0].token, true)], LayoutSources(ps[1..]));
      WrittenOne(ps[0].token, true);
    }
  }

  lemma {:induction false} LambdaIsText(a: Ast)
    requires a.kind == Lambda
    ensures Written(Layout(a)) == Text(a)
    decreases a, 0
  {
    if a.arguments != [] {
      var n := |a.arguments| - 1;
      var names, body := LayoutSources(a.arguments[..n]), Layout(a.arguments[n]);
      SourcesAreNames(a.arguments[..n]);
      LayoutIsText(a.arguments[n]);
      WrittenLambda(names, body);
    }
  }

  lemma {:induction false} WrittenLambda(names: seq<Piece>, body: seq<Piece>)
    ensures Written([Piece(OPEN, false)] + names + [Piece(BAR, false)] + body + [Piece(CLOSE, false)]) ==
            "(" + Written(names) + "|" + Written(body) + ")"
  {
    var open, bar, close := [Piece(OPEN, false)], [Piece(BAR, false)], [Piece(CLOSE, false)];
    WrittenBoth(open + names + bar + body, close);
    WrittenBoth(open + names + bar, body);
    WrittenBoth(open + names, bar);
    WrittenBoth(open, names);
    WrittenOne(OPEN, false);
    WrittenOne(BAR, false);
    WrittenOne(CLOSE, false);
  }

  lemma {:induction false} DeclarationIsText(a: Ast)
    requires a.kind == VariableDeclaration
    ensures Written(Layout(a)) == Text(a)
    decreases a, 0
  {
    if |a.arguments| == 2 {
      var name, value := Piece(a.arguments[0].token, true), Layout(a.arguments[1]);
      LayoutIsText(a.arguments[1]);
      WrittenBoth([name, Piece(ASSIGN, true)], value);
      WrittenBoth([name], [Piece(ASSIGN, true)]);
      WrittenOne(a.arguments[0].token, true);
      WrittenOne(ASSIGN, true);
      assert [name] + [Piece(ASSIGN, true)] == [name, Piece(ASSIGN, true)];
      assert " " + (":=" + " ") == " := ";
    }
  }

  lemma {:induction false} BinaryIsText(a: Ast)
    requires a.kind == Binary
    ensures Written(Layout(a)) == Text(a)
    decreases a, 0
  {
    if |a.arguments| >= 2 {
      var left, right := LayoutBracketed(a.arguments[0], true), LayoutBracketed(a.arguments[1], false);
      BracketedIsText(a.arguments[0], true);
      BracketedIsText(a.arguments[1], false);
      WrittenBoth(left + [Piece(a.token, true)], right);
      WrittenBoth(left, [Piece(a.token, true)]);
      WrittenOne(a.token, true);
      Around(Text(a.arguments[0]), a.token.source, Text(a.arguments[1]));
    }
  }

  lemma Around(left: string, op: string, right: string)
    ensures "(" + left + ") " + (op + " ") + ("(" + right + ")") == "(" + left + ") " + op + " (" + right + ")"
  {
  }

  lemma {:induction false} TokensOfBoth(ps: seq<Piece>, qs: seq<Piece>)
    ensures TokensOfPieces(ps + qs) == TokensOfPieces(ps) + TokensOfPieces(qs)
    decreases |ps|
  {
    if ps == [] {
      assert ps + qs == qs;
    } else {
      assert (ps + qs)[1..] == ps[1..] + qs;
      TokensOfBoth(ps[1..], qs);
    }
  }

  lemma OneToken(t: Token, spaced: bool)
    ensures TokensOfPieces([Piece(t, spaced)]) == [t]
  {
    assert [Piece(t, spaced)][1..] == [];
  }

  lemma {:induction false} TokensEnclosed(before: Token, ps: seq<Piece>, after: Token, spaced: bool)
    ensures TokensOfPieces([Piece(before, false)] + ps + [Piece(after, spaced)]) ==
            [before] + TokensOfPieces(ps) + [after]
  {
    TokensOfBoth([Piece(before, false)] + ps, [Piece(after, spaced)]);
    TokensOfBoth([Piece(before, false)], ps);
    OneToken(before, false);
    OneToken(after, spaced);
  }

  /** Without the spaces it is the printed tokens. */
  lemma {:induction false} LayoutIsPrint(a: Ast)
    ensures TokensOfPieces(Layout(a)) == Print(a)
    decreases a, 1
  {
    match a.kind
    case Sequence => EachIsPrint(a.arguments);
    case Block =>
      if |a.arguments| == 1 {
        BracketedIsPrint(a.arguments[0], false);
      }
    case Lambda => LambdaIsPrint(a);
    case VariableDeclaration => DeclarationIsPrint(a);
    case Literal => OneToken(a.token, false);
    case Binary => BinaryIsPrint(a);
    case Call =>
      PiecesArePrint(a.arguments);
      TokensEnclosed(OPEN, LayoutPieces(a.arguments), CLOSE, false);
  }

  lemma {:induction false} LambdaIsPrint(a: Ast)
    requires a.kind == Lambda
    ensures TokensOfPieces(Layout(a)) == Print(a)
    decreases a, 0
  {
    if a.arguments != [] {
      var n := |a.arguments| - 1;
      var names, body := LayoutSources(a.arguments[..n]), Layout(a.arguments[n]);
      var bar := [Piece(BAR, false)];
      assert Layout(a) == [Piece(OPEN, false)] + (names + bar + body) + [Piece(CLOSE, false)];
      TokensEnclosed(OPEN, names + bar + body, CLOSE, false);
      TokensOfBoth(names + bar, body);
      TokensOfBoth(names, bar);
      OneToken(BAR, false);
      SourcesArePrint(a.arguments[..n]);
      LayoutIsPrint(a.arguments[n]);
    }
  }

  lemma {:induction false} DeclarationIsPrint(a: Ast)
    requires a.kind == VariableDeclaration
    ensures TokensOfPieces(Layout(a)) == Print(a)
    decreases a, 0
  {
    if |a.arguments| == 2 {
      var name := [Piece(a.arguments[0].token, true), Piece(ASSIGN, true)];
      TokensOfBoth(name, Layout(a.arguments[1]));
      assert name == [name[0]] + [name[1]];
      TokensOfBoth([name[0]], [name[1]]);
      OneToken(name[0].token, true);
      OneToken(ASSIGN, true);
      LayoutIsPrint(a.arguments[1]);
    }
  }

  lemma {:induction false} BinaryIsPrint(a: Ast)
    requires a.kind == Binary
    ensures TokensOfPieces(Layout(a)) == Print(a)
    decreases a, 0
  {
    if |a.arguments| >= 2 {
      var left, right := LayoutBracketed(a.arguments[0], true), LayoutBracketed(a.arguments[1], false);
      TokensOfBoth(left + [Piece(a.token, true)], right);
      TokensOfBoth(left, [Piece(a.token, true)]);
      OneToken(a.token, true);
      BracketedIsPrint(a.arguments[0], true);
      BracketedIsPrint(a.arguments[1], false);
    }
  }

  lemma {:induction false} BracketedIsPrint(a: Ast, spaced: bool)
    ensures TokensOfPieces(LayoutBracketed(a, spaced)) == Bracketed(a)
    decreases a, 2
  {
    LayoutIsPrint(a);
    TokensEnclosed(OPEN, Layout(a), CLOSE, spaced);
  }

  lemma {:induction false} EachIsPrint(es: seq<Ast>)
    ensures TokensOfPieces(LayoutEach(es)) == PrintEach(es)
    decreases es
  {
    if es != [] {
      LayoutIsPrint(es[0]);
      TokensOfBoth(Layout(es[0]) + [Piece(COMMA, true)], LayoutEach(es[1..]));
      TokensOfBoth(Layout(es[0]), [Piece(COMMA, true)]);
      OneToken(COMMA, true);
      EachIsPrint(es[1..]);
    }
  }

  lemma {:induction false} PiecesArePrint(es: seq<Ast>)
    ensures TokensOfPieces(LayoutPieces(es)) == PrintPieces(es)
    decreases es
  {
    if es != [] {
      BracketedIsPrint(es[0], true);
      TokensOfBoth(LayoutBracketed(es[0], true), LayoutPieces(es[1..]));
      PiecesArePrint(es[1..]);
    }
  }

  lemma {:induction false} SourcesArePrint(es: seq<Ast>)
    ensures TokensOfPieces(LayoutSources(es)) == Sources(es)
    decreases |es|
  {
    if es != [] {
      assert Sources(es) == [es[0].token] + Sources(es[1..]);
      assert LayoutSources(es)[1..] == LayoutSources(es[1..]);
      SourcesArePrint(es[1..]);
    }
  }

  // ----- The printer writes to a stream that it only ever extends

  class Stream {
    var out: seq<Piece>

    constructor ()
      ensures out == []
    {
      out := [];
    }

    method Put(t: Token, spaced: bool)
      modifies this
      ensures out == old(out) + [Piece(t, spaced)]
    {
      out := out + [Piece(t, spaced)];
    }

    method Snapshot(a: Ast)
      requires Printable(a)
      modifies this
      ensures out == old(out) + Layout(a)
      decreases a, 2
    {
      match a.kind {
        case Sequence => SnapshotEach(a.arguments);
        case Block => SnapshotBracketed(a.arguments[0], false);
        case Lambda => SnapshotLambda(a);
        case VariableDeclaration => SnapshotDeclaration(a);
        case Literal => Put(a.token, false);
        case Binary => SnapshotBinary(a);
        case Call =>
          Put(OPEN, false);
          SnapshotPieces(a.arguments);
          Put(CLOSE, false);
      }
    }

    method SnapshotLambda(a: Ast)
      requires Printable(a) && a.kind == Lambda
      modifies this
      ensures out == old(out) + Layout(a)
      decreases a, 1
    {
      var ps, body := a.arguments[..|a.arguments| - 1], a.arguments[|a.arguments| - 1];
      ghost var printed := Layout(body);
      assert Layout(a) ==
             [Piece(OPEN, false)] + LayoutSources(ps) + [Piece(BAR, false)] + printed + [Piece(CLOSE, false)];
      Put(OPEN, false);
      PutParameters(ps);
      Put(BAR, false);
      Snapshot(body);
      Put(CLOSE, false);
    }

    method SnapshotDeclaration(a: Ast)
      requires Printable(a) && a.kind == VariableDeclaration
      modifies this
      ensures out == old(out) + Layout(a)
      decreases a, 1
    {
      Put(a.arguments[0].token, true);
      Put(ASSIGN, true);
      Snapshot(a.arguments[1]);
    }

    method SnapshotBinary(a: Ast)
      requires Printable(a) && a.kind == Binary
      modifies this
      ensures out == old(out) + Layout(a)
      decreases a, 1
    {
      SnapshotBracketed(a.arguments[0], true);
      Put(a.token, true);
      SnapshotBracketed(a.arguments[1], false);
    }

    method SnapshotBracketed(a: Ast, spaced: bool)
      requires Printable(a)
      modifies this
      ensures out == old(out) + LayoutBracketed(a, spaced)
      decreases a, 3
    {
      Put(OPEN, false);
      Snapshot(a);
      Put(CLOSE, spaced);
    }

    method SnapshotEach(es: seq<Ast>)
      requires AllPrintable(es)
      modifies this
      ensures out == old(out) + LayoutEach(es)
      decreases es
    {
      for i := 0 to |es|
        invariant out + LayoutEach(es[i..]) == old(out) + LayoutEach(es)
      {
        ghost var before := out;
        Snapshot(es[i]);
        Put(COMMA, true);
        assert es[i..][1..] == es[i + 1..];
        assert out + LayoutEach(es[i + 1..]) == before + LayoutEach(es[i..]);
      }
    }

    method SnapshotPieces(es: seq<Ast>)
      requires AllPrintable(es)
      modifies this
      ensures out == old(out) + LayoutPieces(es)
      decreases es
    {
      for i := 0 to |es|
        invariant out + LayoutPieces(es[i..]) == old(out) + LayoutPieces(es)
      {
        ghost var before := out;
        SnapshotBracketed(es[i], true);
        assert es[i..][1..] == es[i + 1..];
        assert out + LayoutPieces(es[i + 1..]) == before + LayoutPieces(es[i..]);
      }
    }

    method PutParameters(es: seq<Ast>)
      modifies this
      ensures out == old(out) + LayoutSources(es)
    {
      for i := 0 to |es|
        invariant out + LayoutSources(es[i..]) == old(out) + LayoutSources(es)
      {
        ghost var before := out;
        Put(es[i].token, true);
        assert es[i..][1..] == es[i + 1..];
        assert out + LayoutSources(es[i + 1..]) == before + LayoutSources(es[i..]);
      }
    }
  }
}
