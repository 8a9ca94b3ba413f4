/** Tokens written one after the other: when reading the text gives the same tokens again. */
module Relexing {
  import opened Tokens
  import opened Lexing
  import opened Wrappers

  /** What the lexer made of some text: lexed on its own, the source gives the token. */
  predicate IsLexed(t: Token, letter: char -> bool) {
    && t.source != ""
    && SkipOne(t.source, 0).NothingToSkip?
    && TokenAt(t.source, 0, letter) == Lexed(t.kind, |t.source|)
  }

  /** Every token of every text is such a token. */
  lemma TokensAreLexed(text: string, s: nat, letter: char -> bool)
    requires s < |text| && SkipOne(text, s).NothingToSkip? && TokenAt(text, s, letter).Lexed?
    ensures var t := TokenAt(text, s, letter); IsLexed(Token(t.kind, text[s..t.end]), letter)
  {
    TokenStandsAlone(text, s, letter);
  }

  predicate IsDelimiter(c: char) {
    c == ' ' || c == '(' || c == ')' || c == ','
  }

  /** The letters of Unicode are none of these. */
  predicate PlainLetters(letter: char -> bool) {
    !letter(' ') && !letter('(') && !letter(')') && !letter(',') && !letter(':')
  }

  lemma DelimiterPassesNoTest(c: char, letter: char -> bool)
    requires IsDelimiter(c) && PlainLetters(letter)
    ensures !IsOperatorChar(c) && !IdentifierRest(letter)(c) && !QuotedRest(letter)(c)
    ensures !IsDigit(c) && !IsAccidental(c) && c != '.' && c != '-' && c != '!'
  {
    DelimiterIsNoOperator(c);
    InNone(c, IDENTIFIER_MARKS);
  }

  lemma DelimiterIsNoOperator(c: char)
    requires IsDelimiter(c)
    ensures !IsOperatorChar(c)
  {
    InNone(c, OPERATOR_CHARS);
  }

  // ----- A token followed by a delimiter

  /** The source of a token from `s` to `end`, with a delimiter behind it or nothing. */
  ghost predicate Delimited(text: string, s: nat, end: nat) {
    s < end <= |text| && (end < |text| ==> IsDelimiter(text[end]))
  }

  lemma {:induction false} RunOutside(text: string, s: nat, end: nat, p: nat, test: char -> bool)
    requires s <= p <= end <= |text| && (end < |text| ==> !test(text[end]))
    ensures Run(text, p, test) == s + Run(text[s..end], p - s, test)
    decreases end - p
  {
    if p < end {
      assert text[s..end][p - s] == text[p];
      if test(text[p]) {
        RunOutside(text, s, end, p + 1, test);
      }
    }
  }

  lemma NumberOutside(text: string, s: nat, end: nat, p: nat, letter: char -> bool)
    requires Delimited(text, s, end) && PlainLetters(letter) && s <= p < end
    ensures StartsNumber(text, p) <==> StartsNumber(text[s..end], p - s)
    ensures StartsNumber(text, p) ==> NumberEnd(text, p) == s + NumberEnd(text[s..end], p - s)
  {
    DigitOutside(text, s, end, p, letter);
    DigitOutside(text, s, end, p + 1, letter);
    assert text[s..end][p - s] == text[p];
    if StartsNumber(text, p) {
      var from := if Has(text, p, IsDigit) then p else p + 1;
      DigitsOutside(text, s, end, from, letter);
      FractionOutside(text, s, end, Run(text, from, IsDigit), letter);
    }
  }

  lemma DigitOutside(text: string, s: nat, end: nat, p: nat, letter: char -> bool)
    requires Delimited(text, s, end) && PlainLetters(letter) && s <= p <= end + 1
    ensures p <= end ==> (Has(text, p, IsDigit) <==> Has(text[s..end], p - s, IsDigit))
    ensures p <= end ==> (Is(text, p, '.') <==> Is(text[s..end], p - s, '.'))
  {
    if p < end {
      assert text[s..end][p - s] == text[p];
    } else if p == end < |text| {
      DelimiterPassesNoTest(text[end], letter);
    }
  }

  lemma DigitsOutside(text: string, s: nat, end: nat, p: nat, letter: char -> bool)
    requires Delimited(text, s, end) && PlainLetters(letter) && s <= p <= end
    ensures Run(text, p, IsDigit) == s + Run(text[s..end], p - s, IsDigit) <= end
  {
    if end < |text| {
      DelimiterPassesNoTest(text[end], letter);
    }
    RunOutside(text, s, end, p, IsDigit);
  }

  lemma FractionOutside(text: string, s: nat, end: nat, p: nat, letter: char -> bool)
    requires Delimited(text, s, end) && PlainLetters(letter) && s <= p <= end
    ensures FractionEnd(text, p) == s + FractionEnd(text[s..end], p - s)
  {
    DigitOutside(text, s, end, p, letter);
    DigitOutside(text, s, end, p + 1, letter);
    if Is(text, p, '.') && Has(text, p + 1, IsDigit) {
      DigitsOutside(text, s, end, p + 1, letter);
    }
  }

  /** The token is the whole of its source. */
  predicate Whole(t: Lexed, from: nat, kind: TokenType, end: nat) {
    from <= end && t == Lexed(kind, end - from)
  }

  lemma ChordOutside(text: string, s: nat, end: nat, p: nat, letter: char -> bool)
    requires Delimited(text, s, end) && PlainLetters(letter) && s <= p < end
    ensures ChordEnd(text, p) == s + ChordEnd(text[s..end], p - s) <= end
  {
    if end < |text| {
      DelimiterPassesNoTest(text[end], letter);
    }
    RunOutside(text, s, end, p + 1, IsAccidental);
    RunOutside(text, s, end, Run(text, p + 1, IsAccidental), IsDigit);
  }

  lemma RestOutside(text: string, s: nat, end: nat, p: nat, letter: char -> bool)
    requires Delimited(text, s, end) && PlainLetters(letter) && s <= p <= end
    ensures Run(text, p, IdentifierRest(letter)) == s + Run(text[s..end], p - s, IdentifierRest(letter))
    ensures Has(text, p, IdentifierRest(letter)) <==> Has(text[s..end], p - s, IdentifierRest(letter))
  {
    if end < |text| {
      DelimiterPassesNoTest(text[end], letter);
    }
    assert p < end ==> text[s..end][p - s] == text[p];
    RunOutside(text, s, end, p, IdentifierRest(letter));
  }

  lemma SymbolOutside(text: string, s: nat, end: nat)
    requires s <= end <= |text|
    ensures SymbolTo(text, s, end) == Lexed(SymbolTo(text[s..end], 0, end - s).kind, end)
  {
    assert text[s..end][0..end - s] == text[s..end];
  }

  lemma NoteOutside(text: string, s: nat, end: nat, p: nat, kind: TokenType, letter: char -> bool)
    requires Delimited(text, s, end) && PlainLetters(letter) && s <= p < end
    requires Whole(NoteAt(text[s..end], 0, p - s, letter), s, kind, end)
    ensures NoteAt(text, s, p, letter) == Lexed(kind, end)
  {
    ChordOutside(text, s, end, p, letter);
    RestOutside(text, s, end, ChordEnd(text, p), letter);
    SymbolOutside(text, s, end);
  }

  lemma OperatorOutside(text: string, s: nat, end: nat, p: nat, kind: TokenType, letter: char -> bool)
    requires Delimited(text, s, end) && PlainLetters(letter) && s <= p < end
    requires Whole(OperatorAt(text[s..end], p - s), s, kind, end)
    ensures OperatorAt(text, p) == Lexed(kind, end)
  {
    if end < |text| {
      DelimiterIsNoOperator(text[end]);
    }
    assert text[s..end][p - s] == text[p];
    RunOutside(text, s, end, p + 1, IsOperatorChar);
  }

  lemma IdentifierOutside(text: string, s: nat, end: nat, p: nat, kind: TokenType, letter: char -> bool)
    requires Delimited(text, s, end) && PlainLetters(letter) && s <= p < end
    requires Whole(IdentifierAt(text[s..end], 0, p - s, letter), s, kind, end)
    ensures IdentifierAt(text, s, p, letter) == Lexed(kind, end)
  {
    assert text[s..end][p - s] == text[p];
    if Has(text, p, IdentifierStart(letter)) {
      RestOutside(text, s, end, p + 1, letter);
      SymbolOutside(text, s, end);
    } else {
      OperatorOutside(text, s, end, p, kind, letter);
    }
  }

  lemma QuotedOutside(text: string, s: nat, end: nat, p: nat, letter: char -> bool)
    requires Delimited(text, s, end) && PlainLetters(letter) && s <= p <= end
    ensures Run(text, p, QuotedRest(letter)) == s + Run(text[s..end], p - s, QuotedRest(letter))
  {
    if end < |text| {
      DelimiterPassesNoTest(text[end], letter);
    }
    RunOutside(text, s, end, p, QuotedRest(letter));
  }

  lemma WordOutside(text: string, s: nat, end: nat, p: nat, kind: TokenType, letter: char -> bool)
    requires Delimited(text, s, end) && PlainLetters(letter) && s <= p < end
    requires Whole(WordAt(text[s..end], 0, p - s, letter), s, kind, end)
    ensures WordAt(text, s, p, letter) == Lexed(kind, end)
  {
    assert text[s..end][p - s] == text[p];
    if Has(text, p, IsQuote) {
      QuotedOutside(text, s, end, p + 1, letter);
    } else {
      IdentifierOutside(text, s, end, p, kind, letter);
    }
  }

  lemma LongTokenOutside(text: string, s: nat, end: nat, p: nat, kind: TokenType, letter: char -> bool)
    requires Delimited(text, s, end) && PlainLetters(letter) && s <= p < end
    requires Whole(LongTokenAt(text[s..end], 0, p - s, letter), s, kind, end)
    ensures LongTokenAt(text, s, p, letter) == Lexed(kind, end)
  {
    assert text[s..end][p - s] == text[p];
    NumberOutside(text, s, end, p, letter);
    if StartsNumber(text, p) {
    } else if Has(text, p, IsNoteLetter) {
      NoteOutside(text, s, end, p, kind, letter);
    } else {
      WordOutside(text, s, end, p, kind, letter);
    }
  }

  lemma BarOutside(text: string, s: nat, end: nat, kind: TokenType, letter: char -> bool)
    requires Delimited(text, s, end) && PlainLetters(letter) && kind != ParameterSeparator
    requires Whole(BarOrLongTokenAt(text[s..end], 0, letter), s, kind, end)
    ensures BarOrLongTokenAt(text, s, letter) == Lexed(kind, end)
  {
    var source := text[s..end];
    assert source[0] == text[s];
    assert s + 1 < end ==> source[1] == text[s + 1];
    assert !IsSeparatorBar(source, 0);
    assert Is(source, 0, '|') ==> s + 1 < end;
    LongTokenOutside(text, s, end, Matching(text, s), kind, letter);
  }

  lemma {:induction false} NothingSkippedOutside(text: string, s: nat, end: nat, letter: char -> bool)
    requires Delimited(text, s, end) && PlainLetters(letter) && SkipOne(text[s..end], 0).NothingToSkip?
    ensures SkipBlanks(text, s) == Some(s)
  {
    var source := text[s..end];
    assert source[0] == text[s];
    assert s + 1 < end ==> source[1] == text[s + 1];
    if end < |text| {
      DelimiterPassesNoTest(text[end], letter);
    }
  }

  /** Followed by a delimiter, a token other than the bar is read as it is. */
  lemma {:induction false} TokenBeforeDelimiter(text: string, s: nat, t: Token, letter: char -> bool)
    requires IsLexed(t, letter) && PlainLetters(letter) && t.kind != ParameterSeparator
    requires var end := s + |t.source|; Delimited(text, s, end) && text[s..end] == t.source
    ensures SkipBlanks(text, s) == Some(s) && TokenAt(text, s, letter) == Lexed(t.kind, s + |t.source|)
  {
    var end := s + |t.source|;
    NothingSkippedOutside(text, s, end, letter);
    assert t.source[0] == text[s];
    if SingleCharToken(text[s]).None? {
      BarOutside(text, s, end, t.kind, letter);
    }
  }

  /** The tokens written with a single character, whatever follows. */
  lemma {:induction false} BracketAnywhere(text: string, s: nat, letter: char -> bool)
    requires s < |text| && SingleCharToken(text[s]).Some?
    ensures SkipBlanks(text, s) == Some(s)
    ensures TokenAt(text, s, letter) == Lexed(SingleCharToken(text[s]).value, s + 1)
  {
  }

  /** A bar is read as such exactly if the next rune does not look like an operator. */
  lemma {:induction false} BarAnywhere(text: string, s: nat, letter: char -> bool)
    requires Is(text, s, '|')
    ensures SkipBlanks(text, s) == Some(s)
    ensures TokenAt(text, s, letter) == Lexed(ParameterSeparator, s + 1) <==> IsSeparatorBar(text, s)
  {
    if !IsSeparatorBar(text, s) {
      assert Matching(text, s) == s + 1;
    }
  }
}
