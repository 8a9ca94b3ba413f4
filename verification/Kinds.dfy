/** Which texts are tokens of which kind, said on the texts themselves. */
module Kinds {
  import opened Tokens
  import opened Lexing
  import opened Relexing
  import opened Wrappers

  // ----- Texts

  predicate AllIn(s: string, chars: string) {
    forall i | 0 <= i < |s| :: s[i] in chars
  }

  predicate IsDigits(s: string) {
    s != "" && AllIn(s, "0123456789")
  }

  /** A note letter, accidentals and digits. */
  ghost predicate IsChordText(s: string) {
    s != "" && s[0] in "abcdefgp" &&
    exists k :: 1 <= k <= |s| && AllIn(s[1..k], "#sfb") && AllIn(s[k..], "0123456789")
  }

  predicate IsKeywordText(s: string) {
    s == "false" || s == "nil" || s == "true" || s == "and" || s == "or"
  }

  /** Digits, perhaps with a fraction. */
  ghost predicate IsUnsigned(s: string) {
    IsDigits(s) || exists k :: 0 < k < |s| && IsDigits(s[..k]) && s[k] == '.' && IsDigits(s[k + 1..])
  }

  /** A minus may stand in front, and a bar in front of that. */
  ghost predicate IsNumberText(s: string) {
    || IsUnsigned(s)
    || (|s| > 1 && s[0] == '-' && IsUnsigned(s[1..]))
    || (|s| > 2 && s[0] == '|' && s[1] == '-' && IsUnsigned(s[2..]))
  }

  /** The bar alone is no operator. */
  predicate IsOperatorText(s: string) {
    s != "" && s != "|" && AllIn(s, "+-*/:%|&^<>=!.")
  }

  predicate StartsName(c: char, letter: char -> bool) {
    letter(c) || c in "'_#$@" || '\U{1D15D}' <= c <= '\U{1D164}' || '\U{1D13B}' <= c <= '\U{1D142}'
  }

  predicate InName(c: char, letter: char -> bool) {
    StartsName(c, letter) || c in "0123456789"
  }

  /** A quote, and runes of names and operators. */
  predicate IsQuoted(s: string, letter: char -> bool) {
    s != "" && s[0] == '\'' && forall i | 0 < i < |s| :: InName(s[i], letter) || s[i] in "+-*/:%|&^<>=!."
  }

  /** Runes of names; the first starts one or is a note letter.  A bar may stand in front. */
  predicate IsNamed(s: string, letter: char -> bool) {
    var from := if s != "" && s[0] == '|' then 1 else 0;
    && from < |s|
    && (StartsName(s[from], letter) || s[from] in "abcdefgp")
    && forall i | from < i < |s| :: InName(s[i], letter) || s[i] in "#sfb"
  }

  ghost predicate IsSymbolText(s: string, letter: char -> bool) {
    (IsQuoted(s, letter) || IsNamed(s, letter)) && !IsKeywordText(s) && !IsChordText(s)
  }

  ghost predicate IsTextOf(kind: TokenType, s: string, letter: char -> bool) {
    match kind
    case Symbol => IsSymbolText(s, letter)
    case Keyword => IsKeywordText(s)
    case Operator => IsOperatorText(s)
    case Chord => IsChordText(s)
    case Numeric => IsNumberText(s)
    case ParameterSeparator => s == "|"
    case ExpressionSeparator => s == ","
    case OpenBlock => s == "("
    case CloseBlock => s == ")"
    case OpenIndex => s == "["
    case CloseIndex => s == "]"
  }

  // ----- The lexer's tests

  lemma DigitIs(c: char)
    ensures IsDigit(c) <==> c in "0123456789"
  {
    if IsDigit(c) {
      assert c == "0123456789"[c as int - 48];
    }
  }

  lemma NoteLetterIs(c: char)
    ensures IsNoteLetter(c) <==> c in "abcdefgp"
  {
    if 'a' <= c <= 'g' {
      assert c == "abcdefgp"[c as int - 97];
    }
  }

  lemma OperatorIs(c: char)
    ensures IsOperatorChar(c) <==> c in "+-*/:%|&^<>=!."
  {
    var all := "+-*/:%|&^<>=!.";
    if IsOperatorChar(c) {
      InSome(c, OPERATOR_CHARS);
      assert c == all[0] || c == all[1] || c == all[2] || c == all[3] || c == all[4] || c == all[5] || c == all[6]
          || c == all[7] || c == all[8] || c == all[9] || c == all[10] || c == all[11] || c == all[12] || c == all[13];
    } else {
      NotInAny(c, OPERATOR_CHARS);
      assert c !in OPERATOR_CHARS[0] && c !in OPERATOR_CHARS[1] && c !in OPERATOR_CHARS[2] && c !in OPERATOR_CHARS[3];
    }
  }

  lemma {:induction false} InSome(c: char, groups: seq<set<char>>)
    requires IsInAny(c, groups)
    ensures exists i :: 0 <= i < |groups| && c in groups[i]
  {
    if c !in groups[0] {
      InSome(c, groups[1..]);
      var i :| 0 <= i < |groups[1..]| && c in groups[1..][i];
      assert c in groups[i + 1];
    }
  }

  lemma {:induction false} NotInAny(c: char, groups: seq<set<char>>)
    requires !IsInAny(c, groups)
    ensures forall i | 0 <= i < |groups| :: c !in groups[i]
  {
    if groups != [] {
      NotInAny(c, groups[1..]);
      forall i | 0 <= i < |groups| ensures c !in groups[i] {
        assert i > 0 ==> groups[i] == groups[1..][i - 1];
      }
    }
  }

  lemma NameStartIs(c: char, letter: char -> bool)
    ensures IsIdentifierStart(letter, c) <==> StartsName(c, letter)
    ensures IsIdentifierChar(letter, c) <==> InName(c, letter)
  {
    DigitIs(c);
    var all := "'_#$@";
    if IsInAny(c, IDENTIFIER_MARKS) {
      InSome(c, IDENTIFIER_MARKS);
      assert c == all[0] || c == all[1] || c == all[2] || c == all[3] || c == all[4];
    } else {
      NotInAny(c, IDENTIFIER_MARKS);
      assert c !in IDENTIFIER_MARKS[0];
    }
  }

  lemma AccidentalIs(c: char)
    ensures IsAccidental(c) <==> c in "#sfb"
  {
    var all := "#sfb";
    assert all[0] == '#' && all[1] == 's' && all[2] == 'f' && all[3] == 'b';
  }

  // ----- What was read passes the tests

  lemma {:induction false} AllInRun(s: string, p: nat, test: char -> bool, chars: string)
    requires p <= |s| && forall c :: test(c) ==> c in chars
    ensures AllIn(s[p..Run(s, p, test)], chars)
  {
    RunPassesTheTest(s, p, test);
  }

  lemma InSlice(s: string, p: nat, q: nat, chars: string)
    requires p <= q <= |s| && AllIn(s[p..q], chars)
    ensures forall i | p <= i < q :: s[i] in chars
  {
    forall i | p <= i < q ensures s[i] in chars {
      assert s[i] == s[p..q][i - p];
    }
  }

  lemma TestsAreMembership()
    ensures forall c :: IsDigit(c) ==> c in "0123456789"
    ensures forall c :: IsAccidental(c) ==> c in "#sfb"
    ensures forall c :: IsOperatorChar(c) ==> c in "+-*/:%|&^<>=!."
  {
    forall c ensures (IsDigit(c) ==> c in "0123456789") && (IsAccidental(c) ==> c in "#sfb") {
      DigitIs(c);
      AccidentalIs(c);
    }
    forall c ensures IsOperatorChar(c) ==> c in "+-*/:%|&^<>=!." {
      OperatorIs(c);
    }
  }

  lemma ReadChord(s: string)
    requires s != "" && IsNoteLetter(s[0]) && ChordEnd(s, 0) == |s|
    ensures IsChordText(s)
  {
    var k := Run(s, 1, IsAccidental);
    NoteLetterIs(s[0]);
    TestsAreMembership();
    AllInRun(s, 1, IsAccidental, "#sfb");
    AllInRun(s, k, IsDigit, "0123456789");
    assert s[k..|s|] == s[k..];
  }

  lemma {:induction false} ReadDigits(s: string, p: nat)
    requires Has(s, p, IsDigit)
    ensures IsDigits(s[p..Run(s, p, IsDigit)])
  {
    TestsAreMembership();
    AllInRun(s, p, IsDigit, "0123456789");
    assert p < Run(s, p, IsDigit);
  }

  lemma {:induction false} ReadUnsigned(s: string, p: nat)
    requires Has(s, p, IsDigit) && FractionEnd(s, Run(s, p, IsDigit)) == |s|
    ensures IsUnsigned(s[p..])
  {
    var q := Run(s, p, IsDigit);
    ReadDigits(s, p);
    if q == |s| {
      assert s[p..q] == s[p..];
    } else {
      ReadDigits(s, q + 1);
      Sliced(s, p, q);
      Fraction(s[p..], q - p);
    }
  }

  lemma Sliced(s: string, p: nat, q: nat)
    requires p <= q < |s|
    ensures s[p..][..q - p] == s[p..q] && s[p..][q - p] == s[q] && s[p..][q - p + 1..] == s[q + 1..|s|]
  {
  }

  lemma Fraction(u: string, k: nat)
    requires 0 < k < |u| && IsDigits(u[..k]) && u[k] == '.' && IsDigits(u[k + 1..])
    ensures IsUnsigned(u)
  {
  }

  /** Behind a bar that did not stand alone, only a minus can start a number. */
  lemma NoDigitBehindBar(s: string)
    requires Is(s, 0, '|') && !IsSeparatorBar(s, 0)
    ensures |s| > 1 && LowByteIsOperator(s[1]) && !IsDigit(s[1]) && !IsNoteLetter(s[1]) && !IsQuote(s[1])
  {
    if IsDigit(s[1]) || IsNoteLetter(s[1]) || IsQuote(s[1]) {
      assert (s[1] as int % 256) as char == s[1];
      InNone(s[1], OPERATOR_CHARS);
      assert false;
    }
  }

  lemma ReadNumber(s: string)
    requires s != "" && (Is(s, 0, '|') ==> !IsSeparatorBar(s, 0))
    requires var p := Matching(s, 0); StartsNumber(s, p) && NumberEnd(s, p) == |s|
    ensures IsNumberText(s)
  {
    var p := Matching(s, 0);
    if p == 1 {
      NoDigitBehindBar(s);
    }
    ReadUnsigned(s, if Has(s, p, IsDigit) then p else p + 1);
    assert s[0..] == s;
  }

  lemma ReadOperator(s: string)
    requires s != "" && (Is(s, 0, '|') ==> !IsSeparatorBar(s, 0))
    requires OperatorAt(s, Matching(s, 0)) == Lexed(Operator, |s|)
    ensures IsOperatorText(s)
  {
    var p := Matching(s, 0);
    SignIs(s[0]);
    OperatorIs(s[p]);
    OperatorRun(s, p + 1);
    InFront(s, p, "+-*/:%|&^<>=!.");
  }

  lemma InFront(s: string, p: nat, chars: string)
    requires p < |s| && p <= 1 && s[0] in chars && s[p] in chars && forall i | p < i < |s| :: s[i] in chars
    ensures AllIn(s, chars)
  {
  }

  lemma {:induction false} OperatorRun(s: string, p: nat)
    requires p <= |s| && Run(s, p, IsOperatorChar) == |s|
    ensures forall i | p <= i < |s| :: s[i] in "+-*/:%|&^<>=!."
  {
    TestsAreMembership();
    AllInRun(s, p, IsOperatorChar, "+-*/:%|&^<>=!.");
    InSlice(s, p, |s|, "+-*/:%|&^<>=!.");
  }

  lemma {:induction false} ReadQuoted(s: string, letter: char -> bool)
    requires s != "" && IsQuote(s[0]) && Run(s, 1, QuotedRest(letter)) == |s|
    ensures IsQuoted(s, letter)
  {
    RunPassesTheTest(s, 1, QuotedRest(letter));
    forall i | 0 < i < |s| ensures InName(s[i], letter) || s[i] in "+-*/:%|&^<>=!." {
      assert QuotedRest(letter)(s[i]);
      NameStartIs(s[i], letter);
      OperatorIs(s[i]);
    }
  }

  lemma {:induction false} NameFrom(s: string, from: nat, q: nat, letter: char -> bool)
    requires from < q <= |s| && Run(s, q, IdentifierRest(letter)) == |s|
    requires forall i | from < i < q :: InName(s[i], letter) || s[i] in "#sfb"
    ensures forall i | from < i < |s| :: InName(s[i], letter) || s[i] in "#sfb"
  {
    RunPassesTheTest(s, q, IdentifierRest(letter));
    forall i | q <= i < |s| ensures InName(s[i], letter) {
      assert IdentifierRest(letter)(s[i]);
      NameStartIs(s[i], letter);
    }
  }

  lemma {:induction false} ReadName(s: string, letter: char -> bool)
    requires s != "" && (Is(s, 0, '|') ==> !IsSeparatorBar(s, 0))
    requires var p := Matching(s, 0);
             Has(s, p, IdentifierStart(letter)) && Run(s, p + 1, IdentifierRest(letter)) == |s|
    ensures IsNamed(s, letter)
  {
    var p := Matching(s, 0);
    NameStartIs(s[p], letter);
    NameFrom(s, p, p + 1, letter);
  }

  lemma {:induction false} ReadNote(s: string, letter: char -> bool)
    requires s != "" && IsNoteLetter(s[0]) && Has(s, ChordEnd(s, 0), IdentifierRest(letter))
    requires Run(s, ChordEnd(s, 0), IdentifierRest(letter)) == |s|
    ensures IsNamed(s, letter)
  {
    var q := ChordEnd(s, 0);
    NoteLetterIs(s[0]);
    NoteRuns(s, letter);
    NameFrom(s, 0, q, letter);
    assert s[0] != '|';
  }

  lemma NoteRuns(s: string, letter: char -> bool)
    requires s != ""
    ensures forall i | 0 < i < ChordEnd(s, 0) :: InName(s[i], letter) || s[i] in "#sfb"
  {
    var k, q := Run(s, 1, IsAccidental), ChordEnd(s, 0);
    TestsAreMembership();
    AllInRun(s, 1, IsAccidental, "#sfb");
    AllInRun(s, k, IsDigit, "0123456789");
    InSlice(s, 1, k, "#sfb");
    InSlice(s, k, q, "0123456789");
  }

  // ----- Each kind has texts of its own

  lemma {:induction false} RunReaches(s: string, p: nat, q: nat, test: char -> bool)
    requires p <= q <= |s| && (forall i | p <= i < q :: test(s[i])) && !Has(s, q, test)
    ensures Run(s, p, test) == q
    decreases q - p
  {
    if p < q {
      RunReaches(s, p + 1, q, test);
    }
  }

  lemma ChordTextEnds(s: string)
    requires IsChordText(s)
    ensures IsNoteLetter(s[0]) && ChordEnd(s, 0) == |s|
  {
    var k :| 1 <= k <= |s| && AllIn(s[1..k], "#sfb") && AllIn(s[k..], "0123456789");
    NoteLetterIs(s[0]);
    forall i | 1 <= i < k ensures IsAccidental(s[i]) {
      AccidentalIs(s[1..k][i - 1]);
    }
    forall i | k <= i < |s| ensures IsDigit(s[i]) {
      DigitIs(s[k..][i - k]);
    }
    RunReaches(s, 1, k, IsAccidental);
    RunReaches(s, k, |s|, IsDigit);
  }

  lemma KeywordIs(s: string)
    ensures IsKeyword(s) <==> IsKeywordText(s)
  {
    AmongOne(s, "false", ["nil", "true", "and", "or"]);
    AmongOne(s, "nil", ["true", "and", "or"]);
    AmongOne(s, "true", ["and", "or"]);
    AmongOne(s, "and", ["or"]);
    AmongOne(s, "or", []);
    assert KEYWORDS == ["false"] + ["nil", "true", "and", "or"];
    assert ["nil"] + ["true", "and", "or"] == ["nil", "true", "and", "or"];
    assert ["true"] + ["and", "or"] == ["true", "and", "or"];
    assert ["and"] + ["or"] == ["and", "or"] && ["or"] + [] == ["or"];
  }

  lemma {:induction false} AmongOne(s: string, first: string, others: seq<string>)
    ensures IsAmong(s, [first] + others) <==> s == first || IsAmong(s, others)
  {
    assert ([first] + others)[1..] == others;
  }

  lemma KeywordIsNoChord(s: string)
    requires IsKeywordText(s)
    ensures !IsChordText(s)
  {
    if IsChordText(s) {
      ChordTextEnds(s);
    }
  }

  predicate IsSign(c: char) {
    || c == '+' || c == '-' || c == '*' || c == '/' || c == ':' || c == '%' || c == '|' || c == '&' || c == '^'
    || c == '<' || c == '>' || c == '=' || c == '!' || c == '.'
  }

  lemma SignIs(c: char)
    ensures c in "+-*/:%|&^<>=!." <==> IsSign(c)
  {
    var all := "+-*/:%|&^<>=!.";
    assert all[0] == '+' && all[1] == '-' && all[2] == '*' && all[3] == '/' && all[4] == ':' && all[5] == '%';
    assert all[6] == '|' && all[7] == '&' && all[8] == '^' && all[9] == '<' && all[10] == '>' && all[11] == '=';
    assert all[12] == '!' && all[13] == '.';
  }

  predicate IsBracket(c: char) {
    c == '(' || c == ')' || c == '[' || c == ']' || c == ','
  }

  /** How a text of a kind can start. */
  predicate CanStart(kind: TokenType, s: string) {
    s != "" &&
    match kind
    case Symbol =>
      && !IsDigit(s[0]) && !IsBracket(s[0])
      && (IsSign(s[0]) ==> s[0] == '|' && |s| > 1 && !IsDigit(s[1]) && !IsSign(s[1]))
    case Keyword => s[0] == 'f' || s[0] == 'n' || s[0] == 't' || s[0] == 'a' || s[0] == 'o'
    case Operator => s != "|" && IsSign(s[0]) && (|s| > 1 ==> IsSign(s[1])) && (|s| > 2 ==> IsSign(s[2]))
    case Chord => IsNoteLetter(s[0])
    case Numeric =>
      || IsDigit(s[0])
      || (|s| > 1 && s[0] == '-' && IsDigit(s[1]))
      || (|s| > 2 && s[0] == '|' && s[1] == '-' && IsDigit(s[2]))
    case ParameterSeparator => s == "|"
    case ExpressionSeparator => s == ","
    case OpenBlock => s == "("
    case CloseBlock => s == ")"
    case OpenIndex => s == "["
    case CloseIndex => s == "]"
  }

  lemma DigitsStart(s: string)
    requires IsUnsigned(s)
    ensures s != "" && IsDigit(s[0])
  {
    DigitIs(s[0]);
    if !IsDigits(s) {
      var k :| 0 < k < |s| && IsDigits(s[..k]) && s[k] == '.' && IsDigits(s[k + 1..]);
      assert s[..k][0] == s[0];
    }
  }

  lemma NumberStarts(s: string)
    requires IsNumberText(s)
    ensures CanStart(Numeric, s)
  {
    if IsUnsigned(s) {
      DigitsStart(s);
    } else if |s| > 1 && s[0] == '-' && IsUnsigned(s[1..]) {
      DigitsStart(s[1..]);
    } else {
      DigitsStart(s[2..]);
    }
  }

  /** Letters are no digits, brackets, separators or operator characters. */
  ghost predicate ProperLetters(letter: char -> bool) {
    forall c | IsDigit(c) || IsBracket(c) || IsSign(c) :: !letter(c)
  }

  lemma NamesStart(c: char, letter: char -> bool)
    requires ProperLetters(letter) && (StartsName(c, letter) || c in "abcdefgp")
    ensures !IsDigit(c) && !IsBracket(c) && !IsSign(c)
  {
    NoteLetterIs(c);
    if StartsName(c, letter) && !letter(c) {
      var all := "'_#$@";
      assert c in all ==> c == all[0] || c == all[1] || c == all[2] || c == all[3] || c == all[4];
    }
  }

  lemma SymbolStarts(s: string, letter: char -> bool)
    requires ProperLetters(letter) && IsSymbolText(s, letter)
    ensures CanStart(Symbol, s)
  {
    if !IsQuoted(s, letter) {
      NamesStart(s[if s[0] == '|' then 1 else 0], letter);
    }
  }

  lemma OperatorStarts(s: string)
    requires IsOperatorText(s)
    ensures CanStart(Operator, s)
  {
    SignIs(s[0]);
    if |s| > 1 {
      SignIs(s[1]);
    }
    if |s| > 2 {
      SignIs(s[2]);
    }
  }

  lemma CanStartThere(kind: TokenType, s: string, letter: char -> bool)
    requires ProperLetters(letter) && IsTextOf(kind, s, letter)
    ensures CanStart(kind, s)
  {
    match kind
    case Symbol => SymbolStarts(s, letter);
    case Numeric => NumberStarts(s);
    case Operator => OperatorStarts(s);
    case Chord => NoteLetterIs(s[0]);
    case _ =>
  }

  predicate IsWordKind(kind: TokenType) {
    kind == Symbol || kind == Keyword || kind == Chord
  }

  /** Their beginnings tell the kinds apart, but for symbols, keywords and chords. */
  lemma BeginningsDiffer(a: TokenType, b: TokenType, s: string)
    requires CanStart(a, s) && CanStart(b, s) && a != b
    ensures IsWordKind(a) && IsWordKind(b)
  {
  }

  /** No text is of two kinds. */
  lemma KindsDiffer(a: TokenType, b: TokenType, s: string, letter: char -> bool)
    requires ProperLetters(letter) && IsTextOf(a, s, letter) && IsTextOf(b, s, letter)
    ensures a == b
  {
    CanStartThere(a, s, letter);
    CanStartThere(b, s, letter);
    if a != b {
      BeginningsDiffer(a, b, s);
      if IsKeywordText(s) {
        KeywordIsNoChord(s);
      }
    }
  }

  // ----- The kind of a token

  lemma WordIsRead(s: string, letter: char -> bool)
    requires s != "" && (Is(s, 0, '|') ==> !IsSeparatorBar(s, 0))
    requires var p := Matching(s, 0);
             !StartsNumber(s, p) && !Has(s, p, IsNoteLetter) && WordAt(s, 0, p, letter).Lexed?
             && WordAt(s, 0, p, letter).end == |s|
    ensures IsTextOf(WordAt(s, 0, Matching(s, 0), letter).kind, s, letter)
  {
    var p := Matching(s, 0);
    NoteLetterIs(s[0]);
    if p == 1 {
      NoDigitBehindBar(s);
    }
    if Has(s, p, IsQuote) {
      ReadQuoted(s, letter);
      QuotedIsPlain(s);
    } else if Has(s, p, IdentifierStart(letter)) {
      ReadName(s, letter);
      NamedIs(s, letter);
    } else {
      ReadOperator(s);
    }
  }

  lemma QuotedIsPlain(s: string)
    requires s != "" && s[0] == '\''
    ensures !IsKeywordText(s) && !IsChordText(s)
  {
    NoteLetterIs(s[0]);
  }

  lemma NamedIs(s: string, letter: char -> bool)
    requires IsNamed(s, letter) && !IsNoteLetter(s[0])
    ensures IsTextOf(SymbolTo(s, 0, |s|).kind, s, letter)
  {
    assert s[0..|s|] == s;
    KeywordIs(s);
    NoteLetterIs(s[0]);
  }

  lemma NoteIsRead(s: string, letter: char -> bool)
    requires s != "" && IsNoteLetter(s[0]) && NoteAt(s, 0, 0, letter).end == |s|
    ensures IsTextOf(NoteAt(s, 0, 0, letter).kind, s, letter)
  {
    if Has(s, ChordEnd(s, 0), IdentifierRest(letter)) {
      ReadNote(s, letter);
      assert s[0..|s|] == s;
      KeywordIs(s);
      if IsChordText(s) {
        ChordTextEnds(s);
      }
    } else {
      ReadChord(s);
    }
  }

  lemma LongIsRead(s: string, letter: char -> bool)
    requires s != "" && (Is(s, 0, '|') ==> !IsSeparatorBar(s, 0))
    requires var t := LongTokenAt(s, 0, Matching(s, 0), letter); t.Lexed? && t.end == |s|
    ensures IsTextOf(LongTokenAt(s, 0, Matching(s, 0), letter).kind, s, letter)
  {
    var p := Matching(s, 0);
    if p == 1 {
      NoDigitBehindBar(s);
    }
    if StartsNumber(s, p) {
      ReadNumber(s);
    } else if Has(s, p, IsNoteLetter) {
      NoteIsRead(s, letter);
    } else {
      WordIsRead(s, letter);
    }
  }

  lemma ReadText(t: Token, letter: char -> bool)
    requires IsLexed(t, letter)
    ensures IsTextOf(t.kind, t.source, letter)
  {
    var s := t.source;
    assert |s| == 1 ==> s == [s[0]];
    if SingleCharToken(s[0]).None? && !IsSeparatorBar(s, 0) {
      LongIsRead(s, letter);
    }
  }

  /** The kind of a token is told by its text: by its runes, and nothing else. */
  lemma KindExactlyWhen(t: Token, kind: TokenType, letter: char -> bool)
    requires IsLexed(t, letter) && ProperLetters(letter)
    ensures t.kind == kind <==> IsTextOf(kind, t.source, letter)
  {
    ReadText(t, letter);
    if IsTextOf(kind, t.source, letter) {
      KindsDiffer(kind, t.kind, t.source, letter);
    }
  }

  /** So for every token of every text. */
  lemma {:induction false} TokensHaveKinds(text: string, s: nat, kind: TokenType, letter: char -> bool)
    requires ProperLetters(letter) && s < |text| && SkipBlanks(text, s) == Some(s) && TokenAt(text, s, letter).Lexed?
    ensures var t := TokenAt(text, s, letter); t.kind == kind <==> IsTextOf(kind, text[s..t.end], letter)
  {
    var t := TokenAt(text, s, letter);
    TokensAreLexed(text, s, letter);
    KindExactlyWhen(Token(t.kind, text[s..t.end]), kind, letter);
  }

  // ----- Where a token ends, and what starts one

  /** Whether the rune at `p` exists and could still belong to a token of the kind. */
  ghost predicate CouldGoOn(kind: TokenType, text: string, s: nat, p: nat, letter: char -> bool)
    requires s <= p <= |text|
  {
    p < |text| &&
    match kind
    case Chord => InName(text[p], letter)
    case Keyword => InName(text[p], letter)
    case Symbol => InName(text[p], letter) || (text[s] == '\'' && text[p] in "+-*/:%|&^<>=!.")
    case Operator => text[p] in "+-*/:%|&^<>=!."
    case Numeric =>
      || text[p] in "0123456789"
      || (text[p] == '.' && p + 1 < |text| && text[p + 1] in "0123456789" && '.' !in text[s..p])
    case _ => false
  }

  lemma RunIsOver(text: string, p: nat, letter: char -> bool)
    requires p <= |text|
    ensures !Has(text, p, IdentifierRest(letter)) && p < |text| ==> !InName(text[p], letter)
    ensures !Has(text, p, IsOperatorChar) && p < |text| ==> text[p] !in "+-*/:%|&^<>=!."
    ensures !Has(text, p, IsDigit) && p < |text| ==> text[p] !in "0123456789"
  {
    if p < |text| {
      NameStartIs(text[p], letter);
      OperatorIs(text[p]);
      DigitIs(text[p]);
    }
  }

  lemma WordIsLongest(text: string, s: nat, p: nat, letter: char -> bool)
    requires s <= p < |text| && (text[s] == '\'' <==> s == p && text[p] == '\'')
    requires WordAt(text, s, p, letter).Lexed?
    ensures var t := WordAt(text, s, p, letter); !CouldGoOn(t.kind, text, s, t.end, letter)
  {
    var t := WordAt(text, s, p, letter);
    RunIsOver(text, t.end, letter);
    if Has(text, p, IsQuote) && t.end < |text| {
      assert !QuotedRest(letter)(text[t.end]);
    }
  }

  lemma NoteIsLongest(text: string, s: nat, letter: char -> bool)
    requires s < |text| && IsNoteLetter(text[s])
    ensures var t := NoteAt(text, s, s, letter); !CouldGoOn(t.kind, text, s, t.end, letter)
  {
    RunIsOver(text, NoteAt(text, s, s, letter).end, letter);
  }

  lemma NumberIsLongest(text: string, s: nat, p: nat, letter: char -> bool)
    requires s <= p < |text| && StartsNumber(text, p)
    ensures !CouldGoOn(Numeric, text, s, NumberEnd(text, p), letter)
  {
    var from := if Has(text, p, IsDigit) then p else p + 1;
    var q, end := Run(text, from, IsDigit), NumberEnd(text, p);
    RunIsOver(text, end, letter);
    if end + 1 < |text| {
      DigitIs(text[end + 1]);
    }
    if q < end {
      assert text[s..end][q - s] == '.';
    }
  }

  lemma LongIsLongest(text: string, s: nat, letter: char -> bool)
    requires s < |text| && (Is(text, s, '|') ==> !IsSeparatorBar(text, s))
    requires LongTokenAt(text, s, Matching(text, s), letter).Lexed?
    ensures var t := LongTokenAt(text, s, Matching(text, s), letter); !CouldGoOn(t.kind, text, s, t.end, letter)
  {
    var p := Matching(text, s);
    if p == s + 1 {
      NoWordBehindBar(text, s);
    }
    if StartsNumber(text, p) {
      NumberIsLongest(text, s, p, letter);
    } else if Has(text, p, IsNoteLetter) {
      NoteIsLongest(text, s, letter);
    } else {
      WordIsLongest(text, s, p, letter);
    }
  }

  lemma NoWordBehindBar(text: string, s: nat)
    requires Is(text, s, '|') && !IsSeparatorBar(text, s)
    ensures s + 1 < |text| && !IsNoteLetter(text[s + 1]) && !IsQuote(text[s + 1])
  {
    var c := text[s + 1];
    if IsNoteLetter(c) || IsQuote(c) {
      assert (c as int % 256) as char == c;
      InNone(c, OPERATOR_CHARS);
      assert false;
    }
  }

  /** Every token is as long as it can be. */
  lemma TokensAreLongest(text: string, s: nat, letter: char -> bool)
    requires s < |text| && TokenAt(text, s, letter).Lexed?
    ensures var t := TokenAt(text, s, letter); !CouldGoOn(t.kind, text, s, t.end, letter)
  {
    if SingleCharToken(text[s]).None? && !IsSeparatorBar(text, s) {
      LongIsLongest(text, s, letter);
    }
  }

  /** A token starts wherever one of these runes stands, or one of them behind a bar that does not
      stand alone; anywhere else no token is found. */
  lemma TokenStartsExactlyWhen(text: string, s: nat, letter: char -> bool)
    requires s < |text|
    ensures TokenAt(text, s, letter).Lexed? <==>
            || IsBracket(text[s]) || IsSeparatorBar(text, s)
            || var p := Matching(text, s);
               p < |text| &&
               (text[p] in "0123456789" || text[p] in "abcdefgp" || StartsName(text[p], letter)
                || text[p] in "+-*/:%|&^<>=!.")
  {
    var p := Matching(text, s);
    if p < |text| {
      DigitIs(text[p]);
      NoteLetterIs(text[p]);
      NameStartIs(text[p], letter);
      OperatorIs(text[p]);
      QuoteStarts(text[p], letter);
      DashIsOperator();
    }
  }

  lemma QuoteStarts(c: char, letter: char -> bool)
    ensures c == '\'' ==> StartsName(c, letter)
  {
    assert "'_#$@"[0] == '\'';
  }

  /** The bar is a token of its own if and only if the low byte of the next rune is no operator
      character, or the next rune is an equals sign. */
  lemma SeparatorExactlyWhen(text: string, s: nat)
    ensures IsSeparatorBar(text, s) <==>
            && s < |text| && text[s] == '|'
            && (s + 1 == |text| || text[s + 1] == '=' || (text[s + 1] as int % 256) as char !in "+-*/:%|&^<>=!.")
  {
    if s + 1 < |text| {
      OperatorIs((text[s + 1] as int % 256) as char);
    }
  }

  // ----- What stands between tokens

  predicate IsBlank(c: char) {
    c == ' ' || c == '\t' || c == '\n' || c == '\r' || c == '\U{000B}' || c == '\U{000C}'
  }

  /** All blanks from `p` on. */
  predicate IsBlankGap(text: string, p: nat, q: nat) {
    p < q <= |text| && (forall i | p <= i < q :: IsBlank(text[i])) && (q < |text| ==> !IsBlank(text[q]))
  }

  predicate StartsWith(text: string, p: nat, start: string) {
    p + |start| <= |text| && text[p..p + |start|] == start
  }

  /** A comment up to the end of its line: behind two dashes, but not three, or behind `#!`. */
  predicate IsLineGap(text: string, p: nat, q: nat) {
    && p + 2 <= q <= |text|
    && (StartsWith(text, p, "#!") || (StartsWith(text, p, "--") && !StartsWith(text, p, "---")))
    && (forall i | p + 2 <= i < q :: text[i] != '\n') && (q < |text| ==> text[q] == '\n')
  }

  predicate AllDashes(text: string, p: nat, q: nat) {
    p <= q <= |text| && (forall i | p <= i < q :: text[i] == '-') && (q < |text| ==> text[q] != '-')
  }

  /** A comment from three or more dashes up to the next three or more. */
  ghost predicate IsLongGap(text: string, p: nat, q: nat) {
    exists open: nat, end: nat :: OpensAndEnds(text, p, open, end, q)
  }

  ghost predicate OpensAndEnds(text: string, p: nat, open: nat, end: nat, q: nat) {
    && p + 3 <= open && open + 3 <= end <= q && AllDashes(text, p, open)
    && DashesAt(text, end - 3) && (forall i: nat | open <= i < end - 3 :: !DashesAt(text, i))
    && AllDashes(text, end, q)
  }

  lemma {:induction false} RunOfDashes(text: string, p: nat)
    requires p <= |text|
    ensures AllDashes(text, p, Run(text, p, IsDash))
  {
    RunPassesTheTest(text, p, IsDash);
  }

  lemma {:induction false} BlankRun(text: string, p: nat)
    requires Has(text, p, IsSpace)
    ensures IsBlankGap(text, p, Run(text, p, IsSpace))
  {
    RunPassesTheTest(text, p, IsSpace);
  }

  lemma {:induction false} LineRun(text: string, p: nat)
    requires p + 2 <= |text|
    requires StartsWith(text, p, "#!") || (StartsWith(text, p, "--") && !StartsWith(text, p, "---"))
    ensures IsLineGap(text, p, Run(text, p + 2, NotLineEnd))
  {
    RunPassesTheTest(text, p + 2, NotLineEnd);
  }

  lemma LongRun(text: string, p: nat)
    requires StartsWith(text, p, "---") && SkipDashed(text, p + 2).SkipTo?
    ensures IsLongGap(text, p, SkipDashed(text, p + 2).next)
  {
    var three := text[p..p + 3];
    assert text[p] == three[0] && text[p + 1] == three[1] && text[p + 2] == three[2];
    var open := Run(text, p + 3, IsDash);
    var end := CommentEnd(text, open, 0).value;
    CommentEndIsFirst(text, open, 0);
    RunOfDashes(text, p + 3);
    RunOfDashes(text, end);
    assert OpensAndEnds(text, p, open, end, Run(text, end, IsDash));
  }

  lemma TwoRunes(text: string, p: nat, a: char, b: char)
    requires p < |text| && text[p] == a && p + 1 < |text| && text[p + 1] == b
    ensures text[p..p + 2] == [a, b]
  {
  }

  lemma NoThirdDash(text: string, p: nat)
    requires !Has(text, p + 2, IsDash)
    ensures !StartsWith(text, p, "---")
  {
    if p + 3 <= |text| {
      assert text[p..p + 3][2] == text[p + 2];
    }
  }

  /** Every stretch that the lexer skips is blanks, or a comment of one line, or a long one. */
  lemma SkippedIsGap(text: string, p: nat)
    requires p <= |text| && SkipOne(text, p).SkipTo?
    ensures var q := SkipOne(text, p).next; IsBlankGap(text, p, q) || IsLineGap(text, p, q) || IsLongGap(text, p, q)
  {
    if Has(text, p, IsSpace) {
      BlankRun(text, p);
    } else if Has(text, p, IsHash) && Has(text, p + 1, IsBang) {
      TwoRunes(text, p, '#', '!');
      LineRun(text, p);
    } else {
      TwoRunes(text, p, '-', '-');
      if Has(text, p + 2, IsDash) {
        assert text[p..p + 3] == text[p..p + 2] + [text[p + 2]];
        LongRun(text, p);
      } else {
        NoThirdDash(text, p);
        LineRun(text, p);
      }
    }
  }

  /** Nothing is skipped if and only if neither a blank nor the start of a comment stands there. */
  lemma NothingSkippedExactlyWhen(text: string, p: nat)
    requires p <= |text|
    ensures SkipOne(text, p).NothingToSkip? <==>
            !(p < |text| && IsBlank(text[p])) && !StartsWith(text, p, "#!") && !StartsWith(text, p, "--")
  {
    if StartsWith(text, p, "#!") {
      assert text[p] == text[p..p + 2][0] && text[p + 1] == text[p..p + 2][1];
    }
    if StartsWith(text, p, "--") {
      assert text[p] == text[p..p + 2][0] && text[p + 1] == text[p..p + 2][1];
    }
    if p + 1 < |text| {
      TwoRunes(text, p, text[p], text[p + 1]);
    }
  }
}
