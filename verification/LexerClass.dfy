/** The lexer as the program runs it: a cursor that consumes rune by rune and can take one rune
    back.  Lengths are counted in runes. */
module LexerClass {
  import opened Tokens
  import opened Kinds
  import opened Lexing
  import opened Relexing
  import opened Wrappers

  datatype Next =
    | Found(token: Token, at: Location)
    | EndOfFile
    | UnrecognizedCharacter(c: char, at: Location)
    | Stuck  // in the loop that looks for the end of a comment

  predicate IsValidRune(c: char) {
    c != '\0' && c != '\U{FFFD}'
  }

  /** Only valid runes from `p` on: no NUL, which reads as the end of the text, and no decoding
      error.  NUL is no letter either. */
  predicate ValidText(text: string, letter: char -> bool, p: nat)
    decreases |text| - p
  {
    if p < |text| then IsValidRune(text[p]) && ValidText(text, letter, p + 1) else !letter('\0')
  }

  lemma {:induction false} EveryRuneIsValid(text: string, letter: char -> bool, p: nat, i: nat)
    requires ValidText(text, letter, p) && p <= i < |text|
    ensures IsValidRune(text[i])
    decreases i - p
  {
    if p < i {
      EveryRuneIsValid(text, letter, p + 1, i);
    }
  }

  lemma NulIsNoOperator()
    ensures !IsOperatorChar('\0')
  {
    InNone('\0', OPERATOR_CHARS);
  }

  /** What reads as the end of the text passes none of the tests for identifiers. */
  lemma {:induction false} NulIsNoIdentifier(text: string, letter: char -> bool, p: nat)
    requires ValidText(text, letter, p)
    ensures !IsIdentifierStart(letter, '\0') && !IsIdentifierChar(letter, '\0')
    ensures !IsQuotedChar(letter, '\0')
    decreases |text| - p
  {
    if p < |text| {
      NulIsNoIdentifier(text, letter, p + 1);
    } else {
      NulIsNoOperator();
      InNone('\0', IDENTIFIER_MARKS);
    }
  }

  class Lexer {
    const text: string
    const start: Location
    const letter: char -> bool
    var position: nat          // the remaining source is text[position..]
    var lastRuneLength: nat    // zero if there is nothing to take back
    var tokenStart: nat
    var tokenLength: nat
    var tokenLocation: Location
    var location: Location
    var prevLocation: Location

    ghost predicate Valid()
      reads this
    {
      && ValidText(text, letter, 0)
      && position <= |text|
      && location == LocationAt(start, text, position)
      && lastRuneLength <= 1 && lastRuneLength <= position
      && (lastRuneLength == 1 ==> prevLocation == LocationAt(start, text, position - 1))
    }

    /** A token is being matched. */
    ghost predicate Matches(from: nat)
      reads this
    {
      && Valid()
      && tokenStart == from && from + tokenLength == position
      && tokenLocation == LocationAt(start, text, from)
    }

    constructor (text: string, start: Location, letter: char -> bool)
      requires ValidText(text, letter, 0)
      ensures Valid() && position == 0
      ensures this.text == text && this.start == start && this.letter == letter
    {
      this.text, this.start, this.letter := text, start, letter;
      position, lastRuneLength, tokenStart, tokenLength := 0, 0, 0, 0;
      tokenLocation, location, prevLocation := start, start, start;
    }

    // ----- Single runes

    /** NUL at the end of the source. */
    function Peek(): char
      reads this
    {
      if position < |text| then text[position] else '\0'
    }

    method Consume() returns (c: char)
      requires Valid()
      modifies this`prevLocation, this`lastRuneLength, this`position, this`tokenLength, this`location
      ensures old(position) < |text| ==>
                && Valid() && c == text[old(position)]
                && position == old(position) + 1 && tokenLength == old(tokenLength) + 1
                && lastRuneLength == 1 && prevLocation == old(location)
      ensures old(position) == |text| ==>
                && c == '\0' && position == old(position) && tokenLength == old(tokenLength)
                && location == old(location)
    {
      prevLocation := location;
      c := '\0';
      if position < |text| {
        c := text[position];
        lastRuneLength := 1;
        position := position + 1;
        tokenLength := tokenLength + 1;
        location := Advance(location, c);
      }
    }

    /** Takes back exactly the last rune consumed.  The program insists that there is one. */
    method Rewind()
      requires Valid() && lastRuneLength == 1 && tokenLength > 0
      modifies this`lastRuneLength, this`position, this`tokenLength, this`location
      ensures Valid() && lastRuneLength == 0
      ensures position == old(position) - 1 && tokenLength == old(tokenLength) - 1
      ensures location == old(prevLocation)
    {
      position := position - lastRuneLength;
      tokenLength := tokenLength - lastRuneLength;
      location := prevLocation;
      lastRuneLength := 0;
    }

    method ConsumeIf(test: char -> bool) returns (done: bool)
      requires Valid() && !test('\0')
      modifies this`prevLocation, this`lastRuneLength, this`position, this`tokenLength, this`location
      ensures Valid()
      ensures done == Has(text, old(position), test)
      ensures position == old(position) + (if done then 1 else 0)
      ensures tokenLength == old(tokenLength) + (if done then 1 else 0)
      ensures done ==> lastRuneLength == 1
      ensures !done ==> lastRuneLength == old(lastRuneLength)
    {
      done := test(Peek());
      if done {
        var _ := Consume();
      }
    }

    /** Consumes two runes or none. */
    method ConsumeIfBoth(first: char -> bool, second: char -> bool) returns (done: bool)
      requires Valid() && !first('\0') && !second('\0')
      modifies this`prevLocation, this`lastRuneLength, this`position, this`tokenLength, this`location
      ensures Valid()
      ensures done == (Has(text, old(position), first) && Has(text, old(position) + 1, second))
      ensures position == old(position) + (if done then 2 else 0)
      ensures tokenLength == old(tokenLength) + (if done then 2 else 0)
    {
      var one := ConsumeIf(first);
      if one {
        var two := ConsumeIf(second);
        if two {
          return true;
        }
        Rewind();
      }
      return false;
    }

    method ConsumeRun(test: char -> bool) returns (some: bool)
      requires Valid() && !test('\0')
      modifies this`prevLocation, this`lastRuneLength, this`position, this`tokenLength, this`location
      ensures Valid() && position == Run(text, old(position), test)
      ensures tokenLength == old(tokenLength) + (position - old(position))
      ensures some == (position > old(position))
      ensures lastRuneLength == if some then 1 else old(lastRuneLength)
    {
      some := false;
      var more := ConsumeIf(test);
      while more
        invariant Valid() && old(position) <= position
        invariant more ==> position > old(position)
        invariant tokenLength == old(tokenLength) + (position - old(position))
        invariant Run(text, position, test) == Run(text, old(position), test)
        invariant !more ==> !Has(text, position, test)
        invariant some == (position > old(position) + (if more then 1 else 0))
        invariant lastRuneLength == if position > old(position) then 1 else old(lastRuneLength)
        decreases |text| - position, more
      {
        some := true;
        more := ConsumeIf(test);
      }
    }

    // ----- Blanks and comments

    method SkipLine()
      requires Valid()
      modifies this`prevLocation, this`lastRuneLength, this`position, this`tokenLength, this`location
      ensures Valid() && position == Run(text, old(position), NotLineEnd)
    {
      while Peek() != '\0' && Peek() != '\n'
        invariant Valid()
        invariant Run(text, position, NotLineEnd) == Run(text, old(position), NotLineEnd)
        decreases |text| - position
      {
        var _ := Consume();
      }
      if position < |text| {
        EveryRuneIsValid(text, letter, 0, position);
      }
    }

    /** Stops behind three dashes in a row; without any, the loop would spin at the end of the
        text for ever. */
    method SkipToCommentEnd() returns (found: bool)
      requires Valid()
      modifies this`prevLocation, this`lastRuneLength, this`position, this`tokenLength, this`location
      ensures Valid()
      ensures match CommentEnd(text, old(position), 0)
              case Some(end) => found && position == end
              case None => !found
    {
      var count := 0;
      while count < 3
        invariant Valid() && count <= 3
        invariant CommentEnd(text, position, count) == CommentEnd(text, old(position), 0)
        decreases |text| - position
      {
        var dash := ConsumeIf(IsDash);
        if dash {
          count := count + 1;
        } else {
          if position == |text| {
            return false;
          }
          var _ := Consume();
          count := 0;
        }
      }
      found := true;
    }

    method SkipWhitespaceAndComments() returns (ended: bool)
      requires Valid()
      modifies this`prevLocation, this`lastRuneLength, this`position, this`tokenLength, this`location
      ensures Valid()
      ensures match SkipBlanks(text, old(position))
              case Some(s) => ended && position == s
              case None => !ended
    {
      while true
        invariant Valid()
        invariant SkipBlanks(text, position) == SkipBlanks(text, old(position))
        decreases |text| - position
      {
        var skip := SkipNext();
        match skip
        case NothingToSkip => return true;
        case Endless => return false;
        case SkipTo(_) =>
      }
    }

    /** One round of the loop. */
    method SkipNext() returns (skip: Skip)
      requires Valid()
      modifies this`prevLocation, this`lastRuneLength, this`position, this`tokenLength, this`location
      ensures Valid() && skip == SkipOne(text, old(position))
      ensures skip.SkipTo? ==> position == skip.next
      ensures skip.NothingToSkip? ==> position == old(position)
    {
      var done := ConsumeRun(IsSpace);
      if done {
        return SkipTo(position);
      }
      skip := SkipNextComment();
    }

    method SkipNextComment() returns (skip: Skip)
      requires Valid()
      modifies this`prevLocation, this`lastRuneLength, this`position, this`tokenLength, this`location
      ensures Valid() && skip == SkipComment(text, old(position))
      ensures skip.SkipTo? ==> position == skip.next
      ensures skip.NothingToSkip? ==> position == old(position)
    {
      var done := ConsumeIfBoth(IsHash, IsBang);
      if done {
        SkipLine();
        return SkipTo(position);
      }
      skip := SkipNextDashes();
    }

    method SkipNextDashes() returns (skip: Skip)
      requires Valid()
      modifies this`prevLocation, this`lastRuneLength, this`position, this`tokenLength, this`location
      ensures Valid() && skip == SkipDashes(text, old(position))
      ensures skip.SkipTo? ==> position == skip.next
      ensures skip.NothingToSkip? ==> position == old(position)
    {
      var done := ConsumeIfBoth(IsDash, IsDash);
      if done {
        skip := SkipDashedComment();
        return;
      }
      return NothingToSkip;
    }

    method SkipDashedComment() returns (skip: Skip)
      requires Valid()
      modifies this`prevLocation, this`lastRuneLength, this`position, this`tokenLength, this`location
      ensures Valid() && skip == SkipDashed(text, old(position))
      ensures skip.SkipTo? ==> position == skip.next
    {
      var third := ConsumeIf(IsDash);
      if !third {
        SkipLine();
        return SkipTo(position);
      }
      var _ := ConsumeRun(IsDash);
      var found := SkipToCommentEnd();
      if !found {
        return Endless;
      }
      var _ := ConsumeRun(IsDash);
      return SkipTo(position);
    }

    // ----- Tokens

    method Start()
      requires Valid()
      modifies this`tokenStart, this`tokenLength, this`tokenLocation
      ensures Matches(position)
    {
      tokenStart := position;
      tokenLength := 0;
      tokenLocation := location;
    }

    method Finish() returns (source: string)
      requires Matches(tokenStart)
      modifies this`tokenStart, this`tokenLength
      ensures Valid() && source == text[old(tokenStart)..position]
    {
      source := text[tokenStart..tokenStart + tokenLength];
      tokenStart := 0;
      tokenLength := 0;
    }

    method FinishAs(kind: TokenType) returns (r: Next)
      requires Matches(tokenStart)
      modifies this`tokenStart, this`tokenLength
      ensures Valid()
      ensures r == Found(Token(kind, text[old(tokenStart)..position]), LocationAt(start, text, old(tokenStart)))
    {
      var source := Finish();
      r := Found(Token(kind, source), tokenLocation);
    }

    /** Tries to match a number, and stays where it was if there is none. */
    method MatchNumber() returns (done: bool)
      requires Valid()
      modifies this`prevLocation, this`lastRuneLength, this`position, this`tokenLength, this`location
      ensures Valid() && done == StartsNumber(text, old(position))
      ensures position == if done then NumberEnd(text, old(position)) else old(position)
      ensures tokenLength == old(tokenLength) + (position - old(position))
    {
      done := ConsumeIf(IsDigit);
      if !done {
        done := ConsumeIfBoth(IsDash, IsDigit);
      }
      if done {
        ghost var begin := old(position);
        assert Run(text, position, IsDigit) ==
               Run(text, if Has(text, begin, IsDigit) then begin else begin + 1, IsDigit);
        var _ := ConsumeRun(IsDigit);
        MatchFraction();
      }
    }

    /** Takes a dot back if no digit follows it. */
    method MatchFraction()
      requires Valid()
      modifies this`prevLocation, this`lastRuneLength, this`position, this`tokenLength, this`location
      ensures Valid() && position == FractionEnd(text, old(position))
      ensures tokenLength == old(tokenLength) + (position - old(position))
    {
      if Peek() == '.' {
        var _ := Consume();
        var looped := ConsumeRun(IsDigit);
        if !looped {
          Rewind();
        }
      }
    }

    /** Tries to match a note with accidentals and digits. */
    method MatchNote() returns (done: bool)
      requires Valid()
      modifies this`prevLocation, this`lastRuneLength, this`position, this`tokenLength, this`location
      ensures Valid() && done == Has(text, old(position), IsNoteLetter)
      ensures position == if done then ChordEnd(text, old(position)) else old(position)
      ensures tokenLength == old(tokenLength) + (position - old(position))
    {
      done := ConsumeIf(IsNoteLetter);
      if done {
        var _ := ConsumeRun(IsAccidental);
        var _ := ConsumeRun(IsDigit);
      }
    }

    /** Tries to match one rune and then as many as `rest` allows. */
    method MatchRun(first: char -> bool, rest: char -> bool) returns (done: bool)
      requires Valid() && !first('\0') && !rest('\0')
      modifies this`prevLocation, this`lastRuneLength, this`position, this`tokenLength, this`location
      ensures Valid() && done == Has(text, old(position), first)
      ensures position == if done then Run(text, old(position) + 1, rest) else old(position)
      ensures tokenLength == old(tokenLength) + (position - old(position))
    {
      done := ConsumeIf(first);
      if done {
        var _ := ConsumeRun(rest);
      }
    }

    /** Ends a token that may be a keyword. */
    method FinishSymbol() returns (r: Next)
      requires Matches(tokenStart)
      modifies this`tokenStart, this`tokenLength
      ensures Valid()
      ensures var source := text[old(tokenStart)..position];
              r == Found(Token(SymbolOrKeyword(source), source), LocationAt(start, text, old(tokenStart)))
    {
      r := FinishAs(Symbol);
      if IsKeyword(r.token.source) {
        r := Found(Token(Keyword, r.token.source), r.at);
      }
    }

    /** What comes after the single-character tokens. */
    method MatchLong() returns (r: Next)
      requires Matches(tokenStart)
      modifies this
      ensures Valid() && Answers(r, old(tokenStart), LongTokenAt(text, old(tokenStart), old(position), letter))
    {
      var done := MatchNumber();
      if done {
        r := FinishAs(Numeric);
        return;
      }
      done := MatchNote();
      if done {
        assert !IsIdentifierChar(letter, '\0') by { NulIsNoIdentifier(text, letter, 0); }
        if !IsIdentifierChar(letter, Peek()) {
          r := FinishAs(Chord);
        } else {
          var _ := ConsumeRun(IdentifierRest(letter));
          r := FinishSymbol();
        }
        return;
      }
      r := MatchWord();
    }

    method MatchWord() returns (r: Next)
      requires Matches(tokenStart)
      modifies this
      ensures Valid() && Answers(r, old(tokenStart), WordAt(text, old(tokenStart), old(position), letter))
    {
      assert !IsQuotedChar(letter, '\0') by { NulIsNoIdentifier(text, letter, 0); }
      var done := MatchRun(IsQuote, QuotedRest(letter));
      if done {
        r := FinishAs(Symbol);
        return;
      }
      r := MatchIdentifier();
    }

    method MatchIdentifier() returns (r: Next)
      requires Matches(tokenStart)
      modifies this
      ensures Valid()
      ensures Answers(r, old(tokenStart), IdentifierAt(text, old(tokenStart), old(position), letter))
    {
      assert !IsIdentifierStart(letter, '\0') && !IsIdentifierChar(letter, '\0') by {
        NulIsNoIdentifier(text, letter, 0);
      }
      var done := MatchRun(IdentifierStart(letter), IdentifierRest(letter));
      if done {
        r := FinishSymbol();
        return;
      }
      r := MatchOperator();
    }

    method MatchOperator() returns (r: Next)
      requires Matches(tokenStart)
      modifies this
      ensures Valid() && Answers(r, old(tokenStart), OperatorAt(text, old(position)))
    {
      NulIsNoOperator();
      var done := MatchRun(IsOperatorChar, IsOperatorChar);
      if done {
        r := FinishAs(Operator);
      } else {
        r := UnrecognizedCharacter(Peek(), tokenLocation);
      }
    }

    /** The answer to a token, or none, that starts at `s`, and the cursor behind it. */
    ghost predicate Answers(r: Next, s: nat, t: Lexed)
      requires s <= |text| && (t.Lexed? ==> s <= t.end <= |text|)
      reads this`position
    {
      match t
      case Lexed(kind, end) =>
        position == end && r == Found(Token(kind, text[s..end]), LocationAt(start, text, s))
      case Unrecognized(c) => r == UnrecognizedCharacter(c, LocationAt(start, text, s))
    }

    method NextToken() returns (r: Next)
      requires Valid()
      modifies this
      ensures Valid()
      ensures match SkipBlanks(text, old(position))
              case None => r == Stuck
              case Some(s) => if s == |text| then r == EndOfFile else Answers(r, s, TokenAt(text, s, letter))
      ensures r.Found? ==> IsTextOf(r.token.kind, r.token.source, letter)
    {
      var ended := SkipWhitespaceAndComments();
      if !ended {
        return Stuck;
      }
      if position < |text| {
        EveryRuneIsValid(text, letter, 0, position);
      }
      Start();
      if Peek() == '\0' {
        return EndOfFile;
      }
      ghost var s := position;
      r := MatchToken();
      if r.Found? {
        TokensAreLexed(text, s, letter);
        ReadText(r.token, letter);
      }
    }

    method MatchToken() returns (r: Next)
      requires Matches(position) && position < |text|
      modifies this
      ensures Valid() && Answers(r, old(position), TokenAt(text, old(position), letter))
    {
      var single := SingleCharToken(Peek());
      if single.Some? {
        var _ := Consume();
        r := FinishAs(single.value);
      } else {
        r := MatchBarOrLong();
      }
    }

    method MatchBarOrLong() returns (r: Next)
      requires Matches(position) && position < |text|
      modifies this
      ensures Valid() && Answers(r, old(position), BarOrLongTokenAt(text, old(position), letter))
    {
      var bar := MatchBar();
      if bar {
        r := FinishAs(ParameterSeparator);
      } else {
        r := MatchLong();
      }
    }

    /** Consumes a `|` in any case, and tells whether it is a token of its own. */
    method MatchBar() returns (bar: bool)
      requires Valid() && position < |text|
      modifies this`prevLocation, this`lastRuneLength, this`position, this`tokenLength, this`location
      ensures Valid() && bar == IsSeparatorBar(text, old(position))
      ensures position == Matching(text, old(position))
      ensures tokenLength == old(tokenLength) + (position - old(position))
    {
      if Peek() != '|' {
        return false;
      }
      var _ := Consume();
      NulIsNoOperator();
      bar := !LowByteIsOperator(Peek()) || Peek() == '=';
    }

    /** NextToken, told by the list of all tokens: the answer is its first, and the rest of it is
        the list from there. */
    method NextOfAll(ghost all: Lexemes) returns (r: Next)
      requires Valid() && all == AllFrom(text, position, start, letter)
      modifies this
      ensures Valid()
      ensures if all.list == [] then r == Stop(all.ending)
              else
                && r == Found(all.list[0].token, all.list[0].at) && position > old(position)
                && AllFrom(text, position, start, letter) == Lexemes(all.list[1..], all.ending)
    {
      r := NextToken();
    }

    /** What the parser asks for before it starts: every token of the text. */
    method AllTokens() returns (tokens: seq<Token>, last: Next)
      requires Valid()
      modifies this
      ensures var all := AllFrom(text, old(position), start, letter);
              tokens == TokensOf(all.list) && last == Stop(all.ending)
    {
      ghost var all := AllFrom(text, position, start, letter);
      ghost var rest := all;
      tokens := [];
      while true
        invariant Valid() && rest == AllFrom(text, position, start, letter)
        invariant rest.ending == all.ending && tokens + TokensOf(rest.list) == TokensOf(all.list)
        decreases |rest.list|
      {
        last := NextOfAll(rest);
        if !last.Found? {
          assert tokens + [] == tokens;
          return;
        }
        OneMoreToken(tokens, rest.list);
        tokens := tokens + [last.token];
        rest := Lexemes(rest.list[1..], rest.ending);
      }
    }
  }

  lemma {:induction false} OneMoreToken(tokens: seq<Token>, list: seq<Lexeme>)
    requires list != []
    ensures tokens + TokensOf(list) == tokens + [list[0].token] + TokensOf(list[1..])
  {
  }

  function Stop(ending: Ending): Next {
    match ending
    case Finished => EndOfFile
    case BadRune(c, at) => UnrecognizedCharacter(c, at)
    case NeverEnds => Stuck
  }
}
