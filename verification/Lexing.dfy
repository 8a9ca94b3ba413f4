/** What the lexer finds in a text: blanks and comments to skip, and the token that follows. */
module Lexing {
  import opened Tokens
  import opened Wrappers

  // ----- Characters

  predicate IsDigit(c: char) {
    '0' <= c <= '9'
  }

  predicate IsSpace(c: char) {
    c == ' ' || c == '\t' || c == '\n' || c == '\U{000C}' || c == '\r' || c == '\U{000B}'
  }

  const OPERATOR_CHARS := [
    {'+', '-', '*', '/', ':', '%'},  // arithmetic
    {'|', '&', '^'},                 // logic and bit operations
    {'<', '>', '=', '!'},            // comparisons
    {'.'}                            // indexing
  ]

  predicate IsInAny(c: char, groups: seq<set<char>>) {
    groups != [] && (c in groups[0] || IsInAny(c, groups[1..]))
  }

  lemma {:induction false} InNone(c: char, groups: seq<set<char>>)
    requires forall i | 0 <= i < |groups| :: c !in groups[i]
    ensures !IsInAny(c, groups)
  {
    if groups != [] {
      InNone(c, groups[1..]);
    }
  }

  predicate IsOperatorChar(c: char) {
    IsInAny(c, OPERATOR_CHARS)
  }

  /** The test after `|` looks at the lowest byte of the rune only. */
  predicate LowByteIsOperator(c: char) {
    IsOperatorChar((c as int % 256) as char)
  }

  predicate IsNoteLetter(c: char) {
    'a' <= c <= 'g' || c == 'p'
  }

  predicate IsAccidental(c: char) {
    c == '#' || c == 's' || c == 'f' || c == 'b'
  }

  const IDENTIFIER_MARKS := [{'\'', '_', '#', '$', '@'}]

  /** Letters are whatever the Unicode tables say; `letter` stands for them. */
  predicate IsIdentifierStart(letter: char -> bool, c: char) {
    || letter(c)
    || IsInAny(c, IDENTIFIER_MARKS)
    || '\U{1D15D}' <= c <= '\U{1D164}'
    || '\U{1D13B}' <= c <= '\U{1D142}'
  }

  predicate IsIdentifierChar(letter: char -> bool, c: char) {
    IsIdentifierStart(letter, c) || IsDigit(c)
  }

  predicate IsQuotedChar(letter: char -> bool, c: char) {
    IsIdentifierChar(letter, c) || IsOperatorChar(c)
  }

  function IdentifierStart(letter: char -> bool): char -> bool {
    c => IsIdentifierStart(letter, c)
  }

  function IdentifierRest(letter: char -> bool): char -> bool {
    c => IsIdentifierChar(letter, c)
  }

  function QuotedRest(letter: char -> bool): char -> bool {
    c => IsQuotedChar(letter, c)
  }

  const KEYWORDS := ["false", "nil", "true", "and", "or"]

  predicate IsAmong(source: string, words: seq<string>) {
    words != [] && (words[0] == source || IsAmong(source, words[1..]))
  }

  predicate IsKeyword(source: string) {
    IsAmong(source, KEYWORDS)
  }

  // ----- Runs of characters

  /** Whether the character at `p` exists and passes the test. */
  predicate Has(text: string, p: nat, test: char -> bool) {
    p < |text| && test(text[p])
  }

  /** The end of the run of characters from `p` on that pass the test. */
  function Run(text: string, p: nat, test: char -> bool): (q: nat)
    requires p <= |text|
    ensures p <= q <= |text|
    ensures !Has(text, q, test)
    decreases |text| - p
  {
    if Has(text, p, test) then Run(text, p + 1, test) else p
  }

  lemma {:induction false} RunPassesTheTest(text: string, p: nat, test: char -> bool)
    requires p <= |text|
    ensures forall i | p <= i < Run(text, p, test) :: test(text[i])
    decreases |text| - p
  {
    if Has(text, p, test) {
      RunPassesTheTest(text, p + 1, test);
    }
  }

  predicate Is(text: string, p: nat, c: char) {
    p < |text| && text[p] == c
  }

  // ----- Blanks and comments

  predicate NotLineEnd(c: char) {
    c != '\n'
  }

  predicate IsHash(c: char) {
    c == '#'
  }

  predicate IsBang(c: char) {
    c == '!'
  }

  predicate IsQuote(c: char) {
    c == '\''
  }

  predicate IsDash(c: char) {
    c == '-'
  }

  /** Looks for three dashes in a row, `count` of which were just passed. */
  function CommentEnd(text: string, p: nat, count: nat): (r: Option<nat>)
    requires p <= |text|
    ensures r.Some? ==> p <= r.value <= |text|
    decreases |text| - p
  {
    if count >= 3 then Some(p)
    else if p >= |text| then None
    else CommentEnd(text, p + 1, if text[p] == '-' then count + 1 else 0)
  }

  /** The end of one blank run or comment that starts at `p`, if one does.  `Endless` is a
      multiline comment that is never closed. */
  datatype Skip = NothingToSkip | SkipTo(next: nat) | Endless

  function SkipOne(text: string, p: nat): (r: Skip)
    requires p <= |text|
    ensures r.SkipTo? ==> p < r.next <= |text|
  {
    if Has(text, p, IsSpace) then SkipTo(Run(text, p, IsSpace)) else SkipComment(text, p)
  }

  function SkipComment(text: string, p: nat): (r: Skip)
    requires p <= |text|
    ensures r.SkipTo? ==> p < r.next <= |text|
  {
    if Has(text, p, IsHash) && Has(text, p + 1, IsBang) then SkipTo(Run(text, p + 2, NotLineEnd))
    else SkipDashes(text, p)
  }

  function SkipDashes(text: string, p: nat): (r: Skip)
    requires p <= |text|
    ensures r.SkipTo? ==> p < r.next <= |text|
  {
    if Has(text, p, IsDash) && Has(text, p + 1, IsDash) then SkipDashed(text, p + 2) else NothingToSkip
  }

  /** A comment behind its first two dashes: of one line, or up to three more dashes. */
  function SkipDashed(text: string, p: nat): (r: Skip)
    requires p <= |text|
    ensures !r.NothingToSkip? && (r.SkipTo? ==> p <= r.next <= |text|)
  {
    if !Has(text, p, IsDash) then SkipTo(Run(text, p, NotLineEnd))
    else
      match CommentEnd(text, Run(text, p + 1, IsDash), 0)
      case None => Endless
      case Some(end) => SkipTo(Run(text, end, IsDash))
  }

  /** Where the next token starts; `None` if the lexer never gets there. */
  function SkipBlanks(text: string, p: nat): (r: Option<nat>)
    requires p <= |text|
    ensures r.Some? ==> p <= r.value <= |text| && SkipOne(text, r.value).NothingToSkip?
    decreases |text| - p
  {
    match SkipOne(text, p)
    case NothingToSkip => Some(p)
    case Endless => None
    case SkipTo(next) => SkipBlanks(text, next)
  }

  // ----- Tokens

  datatype Lexed = Lexed(kind: TokenType, end: nat) | Unrecognized(c: char)

  function SingleCharToken(c: char): Option<TokenType> {
    if c == '(' then Some(OpenBlock)
    else if c == ')' then Some(CloseBlock)
    else if c == '[' then Some(OpenIndex)
    else if c == ']' then Some(CloseIndex)
    else if c == ',' then Some(ExpressionSeparator)
    else None
  }

  /** `|` alone, unless the next rune looks like the rest of an operator; `|=` is not one. */
  predicate IsSeparatorBar(text: string, s: nat) {
    && Is(text, s, '|')
    && (s + 1 < |text| ==> !LowByteIsOperator(text[s + 1]) || text[s + 1] == '=')
  }

  /** Where matching goes on: behind a `|` that did not stand alone. */
  function Matching(text: string, s: nat): (p: nat)
    requires s < |text|
    ensures s <= p <= |text|
  {
    if Is(text, s, '|') then s + 1 else s
  }

  predicate StartsNumber(text: string, p: nat) {
    Has(text, p, IsDigit) || (Has(text, p, IsDash) && Has(text, p + 1, IsDigit))
  }

  /** Digits, with a fraction only if a digit follows the dot. */
  function NumberEnd(text: string, p: nat): (q: nat)
    requires StartsNumber(text, p)
    ensures p < q <= |text|
  {
    FractionEnd(text, Run(text, if Has(text, p, IsDigit) then p else p + 1, IsDigit))
  }

  function FractionEnd(text: string, p: nat): (q: nat)
    requires p <= |text|
    ensures p <= q <= |text|
  {
    if Is(text, p, '.') && Has(text, p + 1, IsDigit) then Run(text, p + 1, IsDigit) else p
  }

  function ChordEnd(text: string, p: nat): (q: nat)
    requires p < |text|
    ensures p < q <= |text|
  {
    Run(text, Run(text, p + 1, IsAccidental), IsDigit)
  }

  function SymbolOrKeyword(source: string): TokenType {
    if IsKeyword(source) then Keyword else Symbol
  }

  /** A chord, unless more of an identifier follows: then a symbol or keyword.  The token starts at
      `s` and its matching goes on at `p`, here and below. */
  function NoteAt(text: string, s: nat, p: nat, letter: char -> bool): (r: Lexed)
    requires s <= p < |text|
    ensures r.Lexed? && p < r.end <= |text|
  {
    var end := ChordEnd(text, p);
    if Has(text, end, IdentifierRest(letter)) then SymbolTo(text, s, Run(text, end, IdentifierRest(letter)))
    else Lexed(Chord, end)
  }

  function SymbolTo(text: string, s: nat, end: nat): (r: Lexed)
    requires s <= end <= |text|
    ensures r.Lexed? && r.end == end
  {
    Lexed(SymbolOrKeyword(text[s..end]), end)
  }

  function WordAt(text: string, s: nat, p: nat, letter: char -> bool): (r: Lexed)
    requires s <= p <= |text|
    ensures r.Lexed? ==> p < r.end <= |text|
  {
    if Has(text, p, IsQuote) then Lexed(Symbol, Run(text, p + 1, QuotedRest(letter)))
    else IdentifierAt(text, s, p, letter)
  }

  function IdentifierAt(text: string, s: nat, p: nat, letter: char -> bool): (r: Lexed)
    requires s <= p <= |text|
    ensures r.Lexed? ==> p < r.end <= |text|
  {
    if Has(text, p, IdentifierStart(letter)) then SymbolTo(text, s, Run(text, p + 1, IdentifierRest(letter)))
    else OperatorAt(text, p)
  }

  function OperatorAt(text: string, p: nat): (r: Lexed)
    requires p <= |text|
    ensures r.Lexed? ==> p < r.end <= |text|
  {
    if Has(text, p, IsOperatorChar) then Lexed(Operator, Run(text, p + 1, IsOperatorChar))
    else Unrecognized(if p < |text| then text[p] else '\0')
  }

  function LongTokenAt(text: string, s: nat, p: nat, letter: char -> bool): (r: Lexed)
    requires s <= p <= |text|
    ensures r.Lexed? ==> p < r.end <= |text|
  {
    if StartsNumber(text, p) then Lexed(Numeric, NumberEnd(text, p))
    else if Has(text, p, IsNoteLetter) then NoteAt(text, s, p, letter)
    else WordAt(text, s, p, letter)
  }

  /** The token that starts at `s`. */
  function TokenAt(text: string, s: nat, letter: char -> bool): (r: Lexed)
    requires s < |text|
    ensures r.Lexed? ==> s < r.end <= |text|
  {
    if SingleCharToken(text[s]).Some? then Lexed(SingleCharToken(text[s]).value, s + 1)
    else BarOrLongTokenAt(text, s, letter)
  }

  function BarOrLongTokenAt(text: string, s: nat, letter: char -> bool): (r: Lexed)
    requires s < |text|
    ensures r.Lexed? ==> s < r.end <= |text|
  {
    if IsSeparatorBar(text, s) then Lexed(ParameterSeparator, s + 1)
    else LongTokenAt(text, s, Matching(text, s), letter)
  }

  // ----- Locations

  datatype Location = Location(line: nat, column: nat)

  function Advance(l: Location, c: char): Location {
    if c == '\n' then Location(l.line + 1, 1)
    else if c == '\r' then Location(l.line, 1)
    else Location(l.line, l.column + 1)
  }

  /** The location behind the first `p` runes of a text that starts at `start`. */
  function LocationAt(start: Location, text: string, p: nat): Location
    requires p <= |text|
  {
    if p == 0 then start else Advance(LocationAt(start, text, p - 1), text[p - 1])
  }

  predicate EndsLine(c: char) {
    c == '\n' || c == '\r'
  }

  function NewLines(text: string): nat {
    if text == "" then 0 else NewLines(text[..|text| - 1]) + if text[|text| - 1] == '\n' then 1 else 0
  }

  /** The line counts the line feeds so far; the column counts the runes since the last line feed or
      carriage return, the first being one. */
  lemma {:induction false} LocationCounts(start: Location, text: string, p: nat, last: int)
    requires -1 <= last < p <= |text| && forall i | last < i < p :: !EndsLine(text[i])
    requires last >= 0 ==> EndsLine(text[last])
    ensures var l := LocationAt(start, text, p);
            && l.line == start.line + NewLines(text[..p])
            && l.column == if last < 0 then start.column + p else p - last
    decreases p
  {
    LinesCount(start, text, p);
    if p > 0 && last < p - 1 {
      LocationCounts(start, text, p - 1, last);
    }
  }

  lemma {:induction false} LinesCount(start: Location, text: string, p: nat)
    requires p <= |text|
    ensures LocationAt(start, text, p).line == start.line + NewLines(text[..p])
  {
    if p > 0 {
      assert text[..p][..p - 1] == text[..p - 1];
      LinesCount(start, text, p - 1);
    }
  }

  // ----- The whole text

  datatype Lexeme = Lexeme(token: Token, from: nat, end: nat, at: Location)

  datatype Ending = Finished | BadRune(c: char, at: Location) | NeverEnds

  datatype Lexemes = Lexemes(list: seq<Lexeme>, ending: Ending)

  /** All tokens from `p` on, up to the end of the text or the first rune that starts none. */
  function AllFrom(text: string, p: nat, start: Location, letter: char -> bool): (r: Lexemes)
    requires p <= |text|
    decreases |text| - p
  {
    match SkipBlanks(text, p)
    case None => Lexemes([], NeverEnds)
    case Some(s) =>
      if s == |text| then Lexemes([], Finished)
      else
        var at := LocationAt(start, text, s);
        match TokenAt(text, s, letter)
        case Unrecognized(c) => Lexemes([], BadRune(c, at))
        case Lexed(kind, end) =>
          var rest := AllFrom(text, end, start, letter);
          Lexemes([Lexeme(Token(kind, text[s..end]), s, end, at)] + rest.list, rest.ending)
  }

  function TokensOf(list: seq<Lexeme>): seq<Token> {
    if list == [] then [] else [list[0].token] + TokensOf(list[1..])
  }

  /** Skipped stretches and token sources, in order, up to the end of the last token. */
  function Pieces(text: string, p: nat, list: seq<Lexeme>): string
    decreases |list|
  {
    if list == [] then []
    else Stretch(text, p, list[0].from) + list[0].token.source + Pieces(text, list[0].end, list[1..])
  }

  function Stretch(text: string, p: nat, q: nat): string {
    if p <= q <= |text| then text[p..q] else []
  }

  function EndOf(p: nat, list: seq<Lexeme>): nat {
    if list == [] then p else list[|list| - 1].end
  }

  /** A lexeme is a stretch of the text and knows where it stands. */
  predicate Genuine(text: string, start: Location, l: Lexeme) {
    && l.from < l.end <= |text|
    && l.token.source == text[l.from..l.end]
    && l.at == LocationAt(start, text, l.from)
  }

  /** Every token is a stretch of the text and knows its location; skipped stretches and tokens
      put together are the text, up to the last token. */
  lemma {:induction false} Conservation(text: string, p: nat, start: Location, letter: char -> bool)
    requires p <= |text|
    ensures var list := AllFrom(text, p, start, letter).list;
            && p <= EndOf(p, list) <= |text|
            && Pieces(text, p, list) == text[p..EndOf(p, list)]
            && forall i | 0 <= i < |list| :: Genuine(text, start, list[i])
    decreases |text| - p
  {
    var skipped := SkipBlanks(text, p);
    if skipped.Some? && skipped.value < |text| {
      var s := skipped.value;
      var t := TokenAt(text, s, letter);
      if t.Lexed? {
        Conservation(text, t.end, start, letter);
        ConservationStep(text, p, start, s, t, AllFrom(text, t.end, start, letter).list);
      }
    }
  }

  lemma {:induction false} ConservationStep(text: string, p: nat, start: Location, s: nat, t: Lexed, rest: seq<Lexeme>)
    requires t.Lexed? && p <= s < t.end <= EndOf(t.end, rest) <= |text|
    requires Pieces(text, t.end, rest) == text[t.end..EndOf(t.end, rest)]
    ensures var l := Lexeme(Token(t.kind, text[s..t.end]), s, t.end, LocationAt(start, text, s));
            && Genuine(text, start, l)
            && EndOf(p, [l] + rest) == EndOf(t.end, rest)
            && Pieces(text, p, [l] + rest) == text[p..EndOf(t.end, rest)]
  {
    var l := Lexeme(Token(t.kind, text[s..t.end]), s, t.end, LocationAt(start, text, s));
    var list := [l] + rest;
    assert list[1..] == rest;
    SlicesJoin(text, p, s, t.end, EndOf(t.end, rest));
  }

  lemma SlicesJoin(text: string, p: nat, q: nat, r: nat, s: nat)
    requires p <= q <= r <= s <= |text|
    ensures text[p..q] + text[q..r] + text[r..s] == text[p..s]
  {
  }

  /** If every rune was taken and no comment is open, only blanks follow the last token. */
  lemma {:induction false} OnlyBlanksFollow(text: string, p: nat, start: Location, letter: char -> bool)
    requires p <= |text|
    ensures var r := AllFrom(text, p, start, letter);
            && EndOf(p, r.list) <= |text|
            && (r.ending == Finished <==> SkipBlanks(text, EndOf(p, r.list)) == Some(|text|))
            && (r.ending == NeverEnds <==> SkipBlanks(text, EndOf(p, r.list)) == None)
    decreases |text| - p
  {
    var skipped := SkipBlanks(text, p);
    if skipped.Some? && skipped.value < |text| {
      var t := TokenAt(text, skipped.value, letter);
      if t.Lexed? {
        OnlyBlanksFollow(text, t.end, start, letter);
      }
    }
  }

  // ----- Comments

  predicate DashesAt(text: string, p: nat) {
    p + 3 <= |text| && text[p] == '-' && text[p + 1] == '-' && text[p + 2] == '-'
  }

  /** A multiline comment ends behind the first three dashes in a row; without any, never. */
  lemma {:induction false} CommentEndIsFirst(text: string, p: nat, count: nat)
    requires count <= p <= |text| && count < 3 && forall i | p - count <= i < p :: text[i] == '-'
    ensures var r := CommentEnd(text, p, count);
            match r
            case Some(end) =>
              && end >= 3 && p - count <= end - 3 && DashesAt(text, end - 3)
              && forall i | p - count <= i < end - 3 :: !DashesAt(text, i)
            case None => forall i: nat | p - count <= i :: !DashesAt(text, i)
    decreases |text| - p
  {
    if p < |text| {
      if text[p] != '-' {
        CommentEndIsFirst(text, p + 1, 0);
      } else if count < 2 {
        CommentEndIsFirst(text, p + 1, count + 1);
      } else {
        assert CommentEnd(text, p + 1, 3) == Some(p + 1);
      }
    }
  }

  /** A multiline comment opens with the dashes at `p`, and no three dashes follow its opening. */
  ghost predicate NeverClosed(text: string, p: nat) {
    DashesAt(text, p) && forall i: nat | Run(text, p + 3, IsDash) <= i :: !DashesAt(text, i)
  }

  lemma EndlessExactlyWhen(text: string, p: nat)
    requires p <= |text|
    ensures SkipOne(text, p).Endless? <==> NeverClosed(text, p)
  {
    if DashesAt(text, p) {
      CommentEndIsFirst(text, Run(text, p + 3, IsDash), 0);
    }
  }

  /** Blanks and whole comments, one after the other. */
  predicate OnlyBlanks(text: string, p: nat, q: nat)
    decreases |text| - p
  {
    p <= q <= |text| && (p == q || var b := SkipOne(text, p); b.SkipTo? && OnlyBlanks(text, b.next, q))
  }

  ghost predicate HangsAt(text: string, p: nat, q: nat) {
    OnlyBlanks(text, p, q) && NeverClosed(text, q)
  }

  lemma {:induction false} WhereItHangs(text: string, p: nat) returns (q: nat)
    requires p <= |text| && SkipBlanks(text, p) == None
    ensures HangsAt(text, p, q)
    decreases |text| - p
  {
    var b := SkipOne(text, p);
    if b.Endless? {
      q := p;
      EndlessExactlyWhen(text, p);
    } else {
      q := WhereItHangs(text, b.next);
    }
  }

  lemma {:induction false} HangsThere(text: string, p: nat, q: nat)
    requires HangsAt(text, p, q)
    ensures SkipBlanks(text, p) == None
    decreases |text| - p
  {
    if p == q {
      EndlessExactlyWhen(text, p);
    } else {
      HangsThere(text, SkipOne(text, p).next, q);
    }
  }

  /** The lexer loops for ever if and only if, behind its last token and blanks, a multiline comment
      opens that no three dashes close. */
  lemma {:induction false} HangsExactlyWhen(text: string, start: Location, letter: char -> bool)
    ensures var r := AllFrom(text, 0, start, letter);
            r.ending == NeverEnds <==> exists q :: HangsAt(text, EndOf(0, r.list), q)
  {
    var r := AllFrom(text, 0, start, letter);
    OnlyBlanksFollow(text, 0, start, letter);
    if r.ending == NeverEnds {
      var q := WhereItHangs(text, EndOf(0, r.list));
    } else if q :| HangsAt(text, EndOf(0, r.list), q) {
      HangsThere(text, EndOf(0, r.list), q);
    }
  }

  /** All dashes are taken for the opening, so that a text of three or more of them hangs. */
  lemma {:induction false} DashesHang(text: string, start: Location, letter: char -> bool)
    requires |text| >= 3 && forall i | 0 <= i < |text| :: text[i] == '-'
    ensures AllFrom(text, 0, start, letter) == Lexemes([], NeverEnds)
  {
    assert !Has(text, Run(text, 3, IsDash), IsDash);
    HangsThere(text, 0, 0);
  }

  // ----- A token stands alone

  lemma {:induction false} RunInside(text: string, s: nat, end: nat, p: nat, test: char -> bool)
    requires s <= p <= end <= |text| && Run(text, p, test) <= end
    ensures Run(text[s..end], p - s, test) == Run(text, p, test) - s
    decreases end - p
  {
    if Has(text, p, test) {
      assert text[s..end][p - s] == text[p];
      RunInside(text, s, end, p + 1, test);
    }
  }

  lemma NothingSkippedInside(text: string, s: nat, end: nat)
    requires s < end <= |text| && SkipOne(text, s).NothingToSkip?
    ensures SkipBlanks(text[s..end], 0) == Some(0)
  {
    var source := text[s..end];
    assert source[0] == text[s];
    assert |source| > 1 ==> source[1] == text[s + 1];
  }

  lemma DigitsInside(text: string, s: nat, end: nat, p: nat)
    requires s <= p < end <= |text|
    requires StartsNumber(text, p) ==> Has(text, p, IsDigit) || p + 1 < end
    ensures StartsNumber(text[s..end], p - s) <==> StartsNumber(text, p)
    ensures Has(text[s..end], p - s, IsDigit) <==> Has(text, p, IsDigit)
  {
    assert text[s..end][p - s] == text[p];
    assert p + 1 < end ==> text[s..end][p + 1 - s] == text[p + 1];
  }

  lemma NumberInside(text: string, s: nat, end: nat, p: nat)
    requires s <= p < end <= |text| && StartsNumber(text, p) && end == NumberEnd(text, p)
    ensures StartsNumber(text[s..end], p - s) && NumberEnd(text[s..end], p - s) == end - s
  {
    var from := if Has(text, p, IsDigit) then p else p + 1;
    DigitsInside(text, s, end, p);
    RunInside(text, s, end, from, IsDigit);
    FractionInside(text, s, end, Run(text, from, IsDigit));
  }

  lemma FractionInside(text: string, s: nat, end: nat, p: nat)
    requires s <= p <= end <= |text| && FractionEnd(text, p) == end
    ensures FractionEnd(text[s..end], p - s) == end - s
  {
    var source := text[s..end];
    assert p < end ==> source[p - s] == text[p];
    if Is(text, p, '.') && Has(text, p + 1, IsDigit) {
      assert source[p + 1 - s] == text[p + 1];
      RunInside(text, s, end, p + 1, IsDigit);
    }
  }

  lemma ChordInside(text: string, s: nat, end: nat, p: nat)
    requires s <= p < end <= |text| && ChordEnd(text, p) <= end
    ensures ChordEnd(text[s..end], p - s) == ChordEnd(text, p) - s
  {
    var q := Run(text, p + 1, IsAccidental);
    RunInside(text, s, end, p + 1, IsAccidental);
    RunInside(text, s, end, q, IsDigit);
  }

  lemma NoteInside(text: string, s: nat, p: nat, letter: char -> bool)
    requires s <= p < |text|
    ensures var t := NoteAt(text, s, p, letter);
            NoteAt(text[s..t.end], 0, p - s, letter) == Lexed(t.kind, t.end - s)
  {
    var end := NoteAt(text, s, p, letter).end;
    var q := ChordEnd(text, p);
    ChordInside(text, s, end, p);
    RunInside(text, s, end, q, IdentifierRest(letter));
    assert q < end ==> text[s..end][q - s] == text[q];
    assert text[s..end][0..end - s] == text[s..end];
  }

  lemma OperatorInside(text: string, s: nat, p: nat)
    requires s <= p <= |text| && OperatorAt(text, p).Lexed?
    ensures var t := OperatorAt(text, p);
            OperatorAt(text[s..t.end], p - s) == Lexed(t.kind, t.end - s)
  {
    var end := OperatorAt(text, p).end;
    assert text[s..end][p - s] == text[p];
    RunInside(text, s, end, p + 1, IsOperatorChar);
  }

  lemma WordInside(text: string, s: nat, p: nat, letter: char -> bool)
    requires s <= p <= |text| && WordAt(text, s, p, letter).Lexed?
    ensures var t := WordAt(text, s, p, letter);
            WordAt(text[s..t.end], 0, p - s, letter) == Lexed(t.kind, t.end - s)
  {
    var end := WordAt(text, s, p, letter).end;
    assert text[s..end][p - s] == text[p];
    if Has(text, p, IsQuote) {
      RunInside(text, s, end, p + 1, QuotedRest(letter));
    } else {
      IdentifierInside(text, s, p, letter);
    }
  }

  lemma IdentifierInside(text: string, s: nat, p: nat, letter: char -> bool)
    requires s <= p <= |text| && IdentifierAt(text, s, p, letter).Lexed?
    ensures var t := IdentifierAt(text, s, p, letter);
            IdentifierAt(text[s..t.end], 0, p - s, letter) == Lexed(t.kind, t.end - s)
  {
    var end := IdentifierAt(text, s, p, letter).end;
    var source := text[s..end];
    assert source[p - s] == text[p];
    assert source[0..end - s] == source;
    if Has(text, p, IdentifierStart(letter)) {
      RunInside(text, s, end, p + 1, IdentifierRest(letter));
    } else {
      OperatorInside(text, s, p);
    }
  }

  lemma LongTokenInside(text: string, s: nat, p: nat, letter: char -> bool)
    requires s <= p <= |text| && LongTokenAt(text, s, p, letter).Lexed?
    ensures var t := LongTokenAt(text, s, p, letter);
            LongTokenAt(text[s..t.end], 0, p - s, letter) == Lexed(t.kind, t.end - s)
  {
    var end := LongTokenAt(text, s, p, letter).end;
    DigitsInside(text, s, end, p);
    assert text[s..end][p - s] == text[p];
    if StartsNumber(text, p) {
      NumberInside(text, s, end, p);
    } else if Has(text, p, IsNoteLetter) {
      NoteInside(text, s, p, letter);
    } else {
      WordInside(text, s, p, letter);
    }
  }

  lemma BarInside(text: string, s: nat, end: nat)
    requires s < end <= |text| && !IsSeparatorBar(text, s) && (Is(text, s, '|') ==> s + 1 < end)
    ensures !IsSeparatorBar(text[s..end], 0) && Matching(text[s..end], 0) == Matching(text, s) - s
  {
    assert text[s..end][0] == text[s];
    assert s + 1 < end ==> text[s..end][1] == text[s + 1];
  }

  /** Lexing the source of a token on its own gives the same token, for the whole source: the
      characters behind a token in the text do not matter to it. */
  lemma TokenStandsAlone(text: string, s: nat, letter: char -> bool)
    requires s < |text| && SkipOne(text, s).NothingToSkip? && TokenAt(text, s, letter).Lexed?
    ensures var t := TokenAt(text, s, letter);
            var source := text[s..t.end];
            && SkipBlanks(source, 0) == Some(0)
            && TokenAt(source, 0, letter) == Lexed(t.kind, |source|)
  {
    var end := TokenAt(text, s, letter).end;
    var source := text[s..end];
    NothingSkippedInside(text, s, end);
    assert source[0] == text[s];
    if SingleCharToken(text[s]).None? {
      BarOrLongTokenInside(text, s, letter);
    }
  }

  lemma BarOrLongTokenInside(text: string, s: nat, letter: char -> bool)
    requires s < |text| && BarOrLongTokenAt(text, s, letter).Lexed?
    ensures var t := BarOrLongTokenAt(text, s, letter);
            BarOrLongTokenAt(text[s..t.end], 0, letter) == Lexed(t.kind, t.end - s)
  {
    if !IsSeparatorBar(text, s) {
      LongTokenInside(text, s, Matching(text, s), letter);
      BarInside(text, s, BarOrLongTokenAt(text, s, letter).end);
    }
  }

  /** The bar before a negative number becomes part of it: source where a lambda's body starts
      with one right behind the closing bar does not read back as a lambda. */
  lemma BarSwallowedByNumber(text: string, s: nat, letter: char -> bool)
    requires Is(text, s, '|') && Has(text, s + 1, IsDash) && Has(text, s + 2, IsDigit)
    ensures TokenAt(text, s, letter) == Lexed(Numeric, NumberEnd(text, s + 1))
    ensures NumberEnd(text, s + 1) > s + 2
  {
    DashIsOperator();
    assert LowByteIsOperator(text[s + 1]);
  }

  lemma DashIsOperator()
    ensures IsOperatorChar('-')
  {
    assert '-' in OPERATOR_CHARS[0];
  }
}
