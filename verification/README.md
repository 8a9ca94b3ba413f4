# Musique, verified

Musique is a small music language: source text is lexed and parsed, the tree is evaluated, and notes
are sent as MIDI messages. This project models the parts of the program where most can go wrong and
proves what they guarantee, for all inputs, runs or interleavings.

| module | what it models |
|---|---|
| `Tokens`, `Grammar`, `ParserClass` | tokens, trees and operator precedence; the grammar as total functions on a token sequence and a cursor; the parser itself, a mutable cursor with backtracking and loops, proved equal to the grammar |
| `Trees`, `Provenance`, `Printer`, `RoundTrip` | which trees the parser builds, where their tokens come from, the printer for trees, and the two as inverses of each other |
| `Yields`, `Complaints` | which tokens of a program end up in its tree, in which order and which are dropped; which error a program gets |
| `InfixTrees` | which tree a chain of operands and operators becomes, and when it is the one precedence asks for |
| `Lexing`, `LexerClass`, `Kinds` | what text lexes to; the lexer itself, a cursor with a rewind of one rune; which texts are tokens of which kind |
| `Relexing`, `PrintedText`, `LostBars` | when tokens written one after the other are read back, and when the printed text of a program parses to that program again |
| `Utf8` | encoding and decoding runes, with the signedness of `char` as a parameter |
| `Music`, `Sorting`, `Durations`, `Messages`, `Timeline`, `Player` | notes, chords, values and how long they take; the messages they send and when; `play`, `par` and `sim` as they drive a MIDI device, with interrupts at any point where one can be observed |
| `MidiQueue` | the ring buffer, once as an object used by one thread, once as two threads whose shared reads and writes interleave freely |
| `Random`, `Shuffle` | uniform integers from a generator's words, and the shuffle |
| `EditDistance` | the two-row algorithm against edit scripts |
| `Rationals`, `Digits` | fractions in lowest terms, and the digits of a rational |
| `Mix` | the round-robin builtin |
| `Vectorize` | `+` and `-` on numbers, chords and nested collections |
| `Arithmetic`, `Wrappers` | facts about division; the optional value |

`dafny verify dfyconfig.toml` checks everything.

## What the code does, where that may surprise

Each of these is stated and proved as it is, with the exact condition where there is one.

- An operator that binds tighter takes everything after it: `a - b * c - d` becomes `a - (b * c - d)`
  (`InfixTrees.SubtractionRegroups`). `InfixTrees.PrecedenceExactlyWhen` says which chains are safe.
- An expression that fails behind others is dropped without an error, together with the tokens it has
  passed: `1, 2 +` is the program `1` (`Yields.LastExpressionIsDropped`). All that is ever missing from a
  tree was passed by such an attempt (`Yields.ProgramReadsBackExactlyWhen`).
- A note of length zero in `sim` may stay on, since its On and Off share a time and sorting may
  exchange them (`Timeline.ZeroLengthCanHang`, `Timeline.SilentExactlyWhenReleased`).
- `par` forgets notes that were active before if it sustains the same pitch: it erases by key, not one
  element (`Player.ParRestoresExactlyWhen`, `Player.SustainAgain`).
- A chord does not always take the time of its longest note. It does if and only if the waits for the
  notes that are waited for add up to it. For lengths that are not negative this means that the lengths
  of its shortest notes, up to some point, add up to the longest; otherwise it takes the sum of all
  (`Durations.LongestExactlyWhen`). Two notes of different positive lengths take their sum, three of
  lengths `a`, `a` and `2a` take `2a` (`Durations.DifferentLengthsAddUp`), and two of lengths -1 and 1
  take 1 (`Durations.NegativeLengthIsNoWait`).
- Drawing from a range wider than the generator's word loses the upper values
  (`Random.LargestIsDrawnExactlyWhen`).
- The decoder's test for continuation bytes is the wrong way round: where `char` is unsigned no
  multi-byte rune decodes, and where it is signed any byte is taken for a continuation
  (`Utf8.RefusedExactly`, `Utf8.EncodeInvertsDecodeExactlyWhen`).
- A note with an octave that is moved below its octave comes out an octave too high, unless it lands on a
  `c`: `c4 - 1` is `b4`, but `c4 - 12` is `c3` (`Vectorize.DownFromC4`, `Vectorize.MovesExactlyWhen`).
- The printer writes the body of a lambda right behind its bar, and the lexer takes a bar together with
  what follows if the low byte of the next rune looks like an operator. The printed text of a program
  parses to the same program if and only if no lambda's body starts with such a rune, other than `=`
  (`LostBars.TreeReadsBackExactlyWhen`). A lambda is lost if its body starts with `-5`
  (`PrintedText.NegativeBodyIsLost`), or with the letter U+012B (`PrintedText.LetterBodyIsLost`).
- In the bases up to 128, a number is written like its absolute value if and only if it is not negative
  (`Digits.WrittenLikeMagnitudeExactlyWhen`): the whole part of a negative one meets an unsigned base
  and becomes unsigned, and a first digit below zero is kept in an unsigned byte. In base 10, 1/2 is
  written 0 5 and -1/2 is written 0 251 (`Digits.MinusOneHalf`). In each larger base there is a negative
  number that is written like its absolute value (`Digits.LargerBases`).
- `mix` divides by zero for an empty collection (`Mix.ValuesExactlyWhen`, `Mix.ArraysExactlyWhen`).
- The lexer loops for ever if and only if a multiline comment is not closed (`Lexing.HangsExactlyWhen`,
  `LexerClass.Lexer.SkipToCommentEnd`). A line of three or more dashes does not close itself
  (`Lexing.DashesHang`).

## Model

| member | source | states |
|---|---|---|
| `RoundTrip.ParseInvertsPrint` | musique/interpreter/interpreter.cc:353-405 | for every tree the parser can build without an index node, parsing its printed tokens consumes them all and gives the same tree, also under the program's own tree equality |
| `RoundTrip.PrintingNormalises` | musique/parser/parser.cc:51-85 | however an accepted index-free program was written, printing its tree and parsing again gives that tree |
| `RoundTrip.ExactlyTheParsedPrograms` | musique/parser/parser.cc:87-435 | the index-free trees that some token sequence parses to are exactly the well-formed ones |
| `LostBars.TreeReadsBackExactlyWhen` | musique/interpreter/interpreter.cc:353-405 | for every text that parses to an index-free tree: the text printed for that tree parses to the same tree if and only if no lambda's body starts with a rune whose low byte is an operator character and which is not `=` |
| `LostBars.PrintedTreeReadsExactlyWhen` | musique/interpreter/interpreter.cc:368-376 | the same for every well-formed index-free tree whose tokens the lexer can make |
| `LostBars.LambdaIsLost` | musique/lexer/lexer.cc:97-104 | for every literal token that starts with such a rune, the program with a lambda around it is not what its printed text parses to |
| `LostBars.FewerBarsRead` | musique/lexer/lexer.cc:97-104 | of well-placed written tokens at most as many bars are read as were written, and fewer if a bar stands in front of such a rune |
| `LostBars.LambdasTakeBars` | musique/parser/parser.cc:276-341 | an accepted program has no more lambdas than bars |
| `PrintedText.TextReadsBackExactlyWhen` | musique/interpreter/interpreter.cc:353-405 | under the same condition, exactly, the printed text is lexed as the printed tokens, up to its end |
| `PrintedText.PrintedTextReadsExactlyWhen` | musique/interpreter/interpreter.cc:368-376 | the same for every well-formed index-free tree whose tokens the lexer can make |
| `PrintedText.BarIsLost` | musique/interpreter/interpreter.cc:374-376 | for every literal token that starts with such a rune, the printed program with a lambda around it is lexed as other tokens |
| `PrintedText.NegativeBodyIsLost` | musique/lexer/lexer.cc:97-121 | the text printed for a lambda around -5 is lexed as other tokens than its printed ones |
| `PrintedText.LetterBodyIsLost` | musique/lexer/lexer.cc:97-104 | the same for a lambda around the name U+012B, wherever that is a letter |
| `Relexing.TokenBeforeDelimiter` | musique/lexer/lexer.cc:81-172 | any token other than the bar, written before a space, bracket or comma or at the end, is read as it is |
| `Relexing.BarAnywhere` | musique/lexer/lexer.cc:97-104 | a written bar is read as a bar if and only if the rune behind it does not look like an operator |
| `Provenance.ProgramKeeps` | musique/parser/parser.cc:87-435 | whatever holds of all tokens of a program holds of all tokens in its tree |
| `Trees.ProgramBuilds` | musique/parser/parser.cc:87-435 | every accepted program is a well-formed tree: no single-expression blocks, no empty lambda bodies, calls of two or more, parameters that are symbols, two children per binary node |
| `Printer.WellFormedIsPrintable` | musique/interpreter/interpreter.cc:353-405 | none of the printer's assertions can fail on a tree the parser built |
| `Printer.Stream.Snapshot` | musique/interpreter/interpreter.cc:353-405 | the printer appends exactly the tokens and spaces of the tree to what was written before |
| `Printer.LayoutIsPrint` | musique/interpreter/interpreter.cc:353-405 | without the spaces, what is written are the printed tokens |
| `Tokens.SameAstReflexive` | musique/parser/parser.cc:583-609 | tree equality holds between a tree and itself |
| `Trees.SameAstExactlyWhen` | musique/parser/parser.cc:583-609 | on trees that the parser builds, tree equality is equality |
| `Printer.LayoutIsText` | musique/interpreter/interpreter.cc:353-405 | the pieces of a tree spell its text: brackets around operands, the bar right in front of a body, a comma and a space behind each expression of a sequence |
| `Yields.ProgramReadsBackExactlyWhen` | musique/parser/parser.cc:51-435 | reading an accepted program's tree from left to right, an index node as its first child, bracket, second child and bracket, gives all its tokens in order, but for round brackets and separators, if and only if no attempt that was given up had passed one; as many are missing as such attempts have passed |
| `Yields.IndexIsRead` | musique/parser/parser.cc:231-255 | the first child of an index node is the atomic expression in front of the brackets, the second their content |
| `Yields.IndexOfIndex` | musique/parser/parser.cc:231-255 | `x[0][1]` indexes `x[0]` |
| `Yields.LastExpressionIsDropped` | musique/parser/parser.cc:401-435 | a last expression that misses its last operand is dropped whole |
| `Complaints.BadStart` | musique/parser/parser.cc:257-365 | the error of a program that starts with an operator, a keyword that is no literal, or a token that nothing starts with |
| `Complaints.ClosingWithoutOpening` | musique/parser/parser.cc:68-83 | the error of any printed program with a closing bracket behind it |
| `Complaints.OneLiteralParses` | musique/parser/parser.cc:257-275 | a number, a name, a chord and each of three keywords is a program |
| `Complaints.LiteralsAreCall` | musique/parser/parser.cc:124-145 | any number of literals side by side is one call of all of them, in order |
| `Complaints.DeclarationParses` | musique/parser/parser.cc:101-122 | a name, `:=` and a literal declare the name |
| `Complaints.TwoOperandsParse` | musique/parser/parser.cc:124-195 | any operator, and the words `and` and `or`, make a binary node of what stands left and right |
| `Complaints.StrayBar` | musique/parser/parser.cc:68-83 | a bar behind a number ends the program with a failed assertion |
| `Complaints.NotClosedAtEnd` | musique/parser/parser.cc:197-229 | a bracket that is never closed is reported as such |
| `Complaints.ChordAsParameter` | musique/parser/parser.cc:197-229 | a chord among what looks like parameters is reported as a literal in place of a name |
| `Complaints.BlockFails` | musique/parser/parser.cc:401-435 | the error in a block at the start of a program is that of the program |
| `RoundTrip.ExpressionRead` | musique/parser/parser.cc:93-145 | a printed expression in front of a separator or closing bracket is read back whole, wherever it stands |
| `RoundTrip.ParametersRead` | musique/parser/parser.cc:286-300 | printed lambda parameters are collected in order by the parser's loop |
| `RoundTrip.LambdaRead` | musique/parser/parser.cc:276-341 | a printed lambda reads back as a lambda, through the attempt to read parameters |
| `RoundTrip.BlockRead` | musique/parser/parser.cc:276-341 | a printed block reads back as a block: the attempt to read parameters backs out |
| `RoundTrip.CallRead` | musique/parser/parser.cc:124-145 | a printed call reads back as the same call |
| `RoundTrip.BinaryRead` | musique/parser/parser.cc:147-195 | a printed binary expression reads back as the same node |
| `RoundTrip.SequenceRead` | musique/parser/parser.cc:87-91 | printed expressions with a trailing separator read back as the same sequence |
| `ParserClass.Parser.Parse` | musique/parser/parser.cc:51-85 | the outcome, tree or error, is the grammar's, for any tokens; the tree reads back to the tokens if and only if nothing was lost in attempts that were given up |
| `ParserClass.Parser.ParseMany` | musique/parser/parser.cc:401-435 | the generic loop ends, moves the cursor as the grammar says, and keeps collected trees when a later one fails |
| `ParserClass.Parser.ParseSequence` | musique/parser/parser.cc:87-91 | result and cursor are the grammar's |
| `ParserClass.Parser.ParseExpression` | musique/parser/parser.cc:93-99 | result and cursor are the grammar's |
| `ParserClass.Parser.ParseVariableDeclaration` | musique/parser/parser.cc:101-122 | result and cursor are the grammar's |
| `ParserClass.Parser.ParseInfixExpression` | musique/parser/parser.cc:124-145 | result and cursor are the grammar's |
| `ParserClass.Parser.ParseRhsOfInfixExpression` | musique/parser/parser.cc:147-195 | result and cursor are the grammar's, for any left operand |
| `ParserClass.Parser.ParseSequenceInside` | musique/parser/parser.cc:197-229 | result and cursor are the grammar's, with the error of the missing bracket |
| `ParserClass.Parser.ParseIndexExpression` | musique/parser/parser.cc:231-255 | result and cursor are the grammar's; every token that was passed is read in the tree in its order, or counted as lost |
| `ParserClass.Parser.ParseAtomicExpression` | musique/parser/parser.cc:257-365 | result and cursor are the grammar's |
| `ParserClass.Parser.ParseBlockOrLambda` | musique/parser/parser.cc:276-341 | the cursor goes back to the start of the block if there was no parameter list |
| `ParserClass.Parser.ParseIdentifierWithTrailingSeparators` | musique/parser/parser.cc:367-383 | result and cursor are the grammar's |
| `ParserClass.Parser.ParseIdentifier` | musique/parser/parser.cc:385-399 | result and cursor are the grammar's |
| `Grammar.Expression` | musique/parser/parser.cc:93-122 | success consumes at least one token and never passes the end; the recursion ends under remaining tokens, then grammar level |
| `Grammar.IndexExpression` | musique/parser/parser.cc:231-255 | success consumes at least one token and never passes the end |
| `Grammar.ManyAtomics` | musique/parser/parser.cc:401-435 | success yields at least one tree and every round makes progress |
| `Grammar.SequenceOf` | musique/parser/parser.cc:87-91 | success is a sequence node; an empty one only at the end of the tokens |
| `InfixTrees.InfixBuildsParserTree` | musique/parser/parser.cc:124-195 | for any tokens, parsing an infix expression is reading its chain and building the parser's tree, with the same cursor and errors |
| `InfixTrees.ShapeOfParserTree` | musique/parser/parser.cc:147-195 | operators up to the first strict rise fold to the left; the last of them takes the parse of all the rest as its right child |
| `InfixTrees.ParserTreeConserves` | musique/parser/parser.cc:147-195 | the tree reads back in order to its operands and operators, and no left child binds looser than its parent |
| `InfixTrees.PrecedenceExactlyWhen` | musique/parser/parser.cc:562-581 | the tree is the left-associative precedence tree if and only if, at every rise, the operator before it binds strictly looser than all later ones |
| `InfixTrees.PrecedenceTreeConserves` | musique/parser/parser.cc:562-581 | the reference tree, rooted at the rightmost loosest operator, reads back to the same chain |
| `InfixTrees.SubtractionRegroups` | musique/parser/parser.cc:147-195 | a chain of four operands that precedence would group differently |
| `Tokens.BindsTighterExactlyWhen` | musique/parser/parser.cc:562-581 | an operator binds tighter than another if and only if it stands on a later one of eight levels, written out |
| `Tokens.HasPrecedenceExactlyWhen` | musique/parser/parser.cc:562-581 | operators have a precedence if and only if they stand on one of these levels |
| `Lexing.Conservation` | musique/lexer/lexer.cc:81-172 | skipped stretches and token sources, in order, are the text up to the last token; each token's location is the fold over all earlier runes |
| `Lexing.OnlyBlanksFollow` | musique/lexer/lexer.cc:25-79 | lexing finishes if and only if skipping blanks and comments behind the last token leads to the end of the text, and hangs if and only if it leads nowhere |
| `Lexing.HangsExactlyWhen` | musique/lexer/lexer.cc:41-71 | the lexer hangs if and only if behind the last token there are just blanks and whole comments and then the opening of a multiline comment that no three dashes follow |
| `Lexing.DashesHang` | musique/lexer/lexer.cc:58-67 | every text of three or more dashes hangs, since all of them belong to the opening |
| `Lexing.CommentEndIsFirst` | musique/lexer/lexer.cc:61-71 | a multiline comment ends behind the first three dashes in a row, and never without any |
| `Lexing.TokenStandsAlone` | musique/lexer/lexer.cc:81-172 | lexing the source of a token on its own gives the same token for the whole source |
| `Lexing.BarSwallowedByNumber` | musique/lexer/lexer.cc:97-121 | one way for a bar to be lost: in front of a negative number it is lexed as part of that number |
| `Lexing.RunPassesTheTest` | musique/lexer/lexer.cc:106-166 | the runes a scanning loop takes all pass its test |
| `Lexing.LocationCounts` | musique/location.cc:11-23 | the line counts the line feeds so far, the column the runes since the last line feed or carriage return |
| `Kinds.KindExactlyWhen` | musique/lexer/lexer.cc:81-182 | a lexed token has a kind if and only if its text is of that kind, each written out: a chord is a letter of `abcdefgp`, accidentals of `#sfb` and digits; a keyword one of five words; a symbol a name that is neither, or a quoted one; and so on |
| `Kinds.TokensHaveKinds` | musique/lexer/lexer.cc:81-182 | so for the token at any place of any text |
| `Kinds.TokensAreLongest` | musique/lexer/lexer.cc:81-182 | no token stops while it could go on: no digit, fraction, accidental, letter or operator character of its kind follows |
| `Kinds.TokenStartsExactlyWhen` | musique/lexer/lexer.cc:81-182 | where a token starts, by the rune that stands there, or behind a bar that does not stand alone; anywhere else the rune is unrecognized |
| `Kinds.SeparatorExactlyWhen` | musique/lexer/lexer.cc:97-104 | a bar is a token of its own if and only if the low byte of the next rune is no operator character, or the next rune is an equals sign |
| `Kinds.SkippedIsGap` | musique/lexer/lexer.cc:25-79 | each stretch that is skipped is blanks, a comment up to the end of its line, or a comment between dashes |
| `Kinds.NothingSkippedExactlyWhen` | musique/lexer/lexer.cc:25-79 | nothing is skipped if and only if no blank stands there, and neither `#!` nor two dashes |
| `LexerClass.Lexer.Consume` | musique/lexer/lexer.cc:184-197 | takes one rune, advances span and location, and remembers where it was; at the end nothing moves |
| `LexerClass.Lexer.Rewind` | musique/lexer/lexer.cc:227-234 | undoes exactly the last rune; every caller is proved to have one to take back |
| `LexerClass.Lexer.ConsumeIf` | musique/lexer/lexer.cc:199-213 | takes a rune exactly if there is one that passes the test |
| `LexerClass.Lexer.ConsumeIfBoth` | musique/lexer/lexer.cc:215-225 | takes two runes or none |
| `LexerClass.Lexer.SkipToCommentEnd` | musique/lexer/lexer.cc:61-68 | stops behind the first three dashes in a row; without any the loop cannot end |
| `LexerClass.Lexer.SkipWhitespaceAndComments` | musique/lexer/lexer.cc:25-79 | stops where the next token starts, or hangs in an open comment |
| `LexerClass.Lexer.MatchFraction` | musique/lexer/lexer.cc:110-119 | takes a dot back exactly if no digit follows it |
| `LexerClass.Lexer.MatchLong` | musique/lexer/lexer.cc:106-172 | kind, source, location and end of the token are those of the specification |
| `LexerClass.Lexer.NextToken` | musique/lexer/lexer.cc:81-172 | answers with the token that follows the blanks, whose text is of the kind it says, the end of the text, or the first rune that starts no token |
| `LexerClass.Lexer.AllTokens` | musique/parser/parser.cc:51-66 | the parser's loop ends with all tokens of the text, or with the lexer's error |
| `Utf8.DecodeInvertsEncodeExactlyWhen` | musique/unicode.cc:28-88 | decoding gives an encoded rune back, with the following bytes left, if and only if it has one byte, or `char` is signed and it is below 2^21 |
| `Utf8.StringsSurviveExactlyWhen` | musique/unicode.cc:28-88 | decoding a string rune by rune gives it back with nothing left if and only if each of its runes survives |
| `Utf8.EncodeInvertsDecodeExactlyWhen` | musique/unicode.cc:28-88 | encoding a decoded rune gives its bytes back if and only if it has one byte, or `char` is signed and its bytes were well formed: proper continuation bytes, not overlong |
| `Utf8.RefusedExactly` | musique/unicode.cc:44-46 | the continuation test refuses exactly the continuation bytes where `char` is unsigned, and nothing where it is signed |
| `Utf8.EncodingReadsBack` | musique/unicode.cc:56-82 | the length read from the first byte is the number of bytes written, and the bytes put together are the low 21 bits of the rune |
| `Utf8.LengthByRange` | musique/unicode.cc:56-82 | one, two, three or four bytes are written exactly in the ranges of section 3 of RFC 3629 |
| `Utf8.Samples` | musique/unicode.cc:28-82 | runes of two, three and four bytes, an empty string, and one cut short, written out |
| `Utf8.RuneLength` | musique/unicode.cc:16-26 | the loop over the tables finds the length that the first byte's range says |
| `Utf8.DecodeRune` | musique/unicode.cc:28-54 | the loop computes the specified rune and remainder, errors included |
| `Utf8.EncodeInto` | musique/unicode.cc:56-82 | the filled part of the four-byte buffer is the encoding |
| `Player.Interpreter.Run` | musique/runner.cc:63-76 | the states at all looks for an interrupt are recorded, from the one at the start on; the run is interrupted if and only if a look saw an interrupt, and that look is the last; at each of them every sounding note is recorded as active; after an interrupt nothing sounds and nothing is recorded as active, however the builtins are nested |
| `Player.Interpreter.EvalSequence` | musique/interpreter/interpreter.cc:78-80 | a look for an interrupt on entry is recorded, and the evaluation is interrupted exactly if some look saw one; the default action is kept; constants give the last of them, and inside `play` exactly the messages of the others are sent, in order |
| `Player.Interpreter.EvalInTurn` | musique/interpreter/interpreter.cc:198-208 | a sequence of chords and arrays of chords gives the last; inside `play` the log grows by exactly the messages of all others, chord by chord, and outside by nothing; the record is as before |
| `Player.Interpreter.Eval` | musique/interpreter/interpreter.cc:78-80 | a look on entry is recorded, and a second one at the name of a called builtin; evaluation is interrupted exactly if some look saw an interrupt; a constant gives its value and plays nothing; a call with constants performs the builtin on their values; the default action is kept unless the run is cut short |
| `Player.Interpreter.TurnOffAllActiveNotes` | musique/interpreter/interpreter.cc:315-328 | silences the device and empties the record; the log grows by exactly one off for each recorded note |
| `Player.Interpreter.HandlePotentialInterrupt` | musique/interpreter/interpreter.cc:479-485 | ends the run exactly when the oracle interrupts at this look, and records a safe state |
| `Player.Interpreter.Sleep` | musique/interpreter/interpreter.cc:493-500 | adds the time slept, nothing for a negative time, unless the sleep is interrupted |
| `Player.Interpreter.PlayChord` | musique/interpreter/interpreter.cc:272-313 | uninterrupted, the log grows by exactly the messages of the chord in some order by length: all ons at once, then each off when its note has been waited for; the record is the same multiset as before, which is held at every look; it fails exactly without a connection |
| `Messages.TwoNotes` | musique/interpreter/interpreter.cc:290-310 | the messages of a chord of two lengths, written out: the shorter note ends when it is over, the longer as much later as it is long |
| `Messages.EndsWhenWaited` | musique/interpreter/interpreter.cc:300-310 | each note ends when the notes before it and itself have been waited for, as long as any are |
| `Messages.StartsTogether` | musique/interpreter/interpreter.cc:290-298 | all notes of a chord start at once, in the order in which they end |
| `Messages.PassageTakesChordTime` | musique/interpreter/interpreter.cc:300-310 | a chord takes the time of its notes |
| `Messages.ChordIsOver` | musique/interpreter/interpreter.cc:290-310 | behind its messages sounds what sounded before, but for its own keys |
| `Messages.PlaysBalance` | musique/interpreter/interpreter.cc:272-313 | however chords follow each other, each key is switched on as often as off, once for each of its notes |
| `Messages.ChordsOfBoth` | musique/interpreter/builtin_functions.cc:351-366 | of two lists of values, the chords of the first are played ahead of those of the second |
| `Music.KeyNumbers` | musique/value/note.cc:77-88 | the a above middle c is 69, a semitone counts one and an octave twelve, and below zero the byte wraps around |
| `Music.FillsWhatIsOpen` | musique/interpreter/context.cc:3-8 | what a note says stands, and what it leaves open is the default |
| `Durations.QuartersPerMinute` | musique/interpreter/context.cc:10-14 | as many quarters as the tempo says fill a minute |
| `Durations.DurationIsLinear` | musique/interpreter/context.cc:10-14 | time is proportional to length |
| `Player.Interpreter.EraseAtLowerBound` | musique/interpreter/interpreter.cc:308 | the erased element equals the key, and one copy is erased |
| `Player.Interpreter.SequentialPlay` | musique/interpreter/builtin_functions.cc:351-366 | for any nested array of chords the log grows by exactly the messages of its chords, one after the other, and the record is as before and held at every look; so for a block of such values inside `play`; other values play nothing |
| `Player.Interpreter.BuiltinPlay` | musique/interpreter/builtin_functions.cc:383-404 | the same for all arguments in order, and the default action is put back unless the run is cut short; without a connection it fails before anything else |
| `Player.Interpreter.BuiltinPar` | musique/interpreter/builtin_functions.cc:413-449 | the log grows by the ons of the first argument at the start, the messages of the others as `play` sends them, and the offs of the first at the end; at every look in between the sustained keys are recorded; every copy of them is erased from the record, which is as before if and only if no sustained key was in it |
| `Player.Interpreter.Sustain` | musique/interpreter/builtin_functions.cc:431-448 | the same for any notes that are switched on first and any arguments |
| `Player.ParRestoresExactlyWhen` | musique/interpreter/builtin_functions.cc:441-447 | the record is as before if and only if no sustained key was active before |
| `Player.SustainAgain` | musique/interpreter/builtin_functions.cc:429-447 | an input where the record of an active note is lost |
| `Player.Interpreter.BuiltinSim` | musique/interpreter/builtin_functions.cc:460-569 | for some time-sorted order of the schedule: each message is sent when the accumulated sleep is its time, the total sleep is that of the last, and device and record are what replaying it gives; with positive note lengths no scheduled pitch sounds or is recorded at the end |
| `Player.Interpreter.AppendTrack` | musique/interpreter/builtin_functions.cc:480-511 | the track of an argument, a block of constants included, is its chords in the order that `play` plays them; other values are an error |
| `Player.BuildSchedule` | musique/interpreter/builtin_functions.cc:513-543 | the loops build the specified schedule, which holds a message if and only if it switches a note of some track at its time |
| `Player.Interpreter.PlaySchedule` | musique/interpreter/builtin_functions.cc:550-566 | a sorted schedule is played message by message at its scheduled times |
| `Durations.EqualLengthsEndTogether` | musique/interpreter/interpreter.cc:300-310 | a chord of one length takes that length |
| `Durations.DifferentLengthsAddUp` | musique/interpreter/interpreter.cc:300-310 | two notes of different positive lengths take their sum; three notes of lengths `a`, `a` and `2a` take `2a` |
| `Durations.LongestExactlyWhen` | musique/interpreter/interpreter.cc:290-310 | for lengths of either sign, notes take the time of the last, which is the longest once they are sorted, if and only if the waits for the notes waited for add up to it; without negative lengths, if and only if the lengths of some beginning add up to it, and otherwise they take the sum of all |
| `Durations.NegativeLengthIsNoWait` | musique/value/chord.cc:51-66 | an input with a negative length: the time is that of the longest note and yet no beginning adds up to it |
| `Durations.ChordTakesLongestExactlyWhen` | musique/interpreter/interpreter.cc:284-310 | the same for a chord with its defaults filled in, in any order it may be sorted |
| `Durations.TimeOfWaits` | musique/interpreter/interpreter.cc:300-310 | for any lengths, negative ones too: the time is that of all notes before the point where nothing of the longest is left |
| `Durations.ChordTimeIsUnique` | musique/interpreter/interpreter.cc:284-310 | the time does not depend on how notes of equal length are sorted |
| `Durations.EmptyChordIsRest` | musique/interpreter/interpreter.cc:279-282 | a chord without notes takes as long as one rest whose length is left open |
| `Timeline.ScheduleContents` | musique/interpreter/builtin_functions.cc:524-543 | a message is in the schedule if and only if it is the On of a note at the start of its chord, or its Off one length later, where chords start at the sum of the longest lengths of all earlier ones: lengths that no note of their chord exceeds and some note has, or zero |
| `Timeline.ScheduleIsComplete` | musique/interpreter/builtin_functions.cc:524-543 | the schedule has two messages for each note, equal ones included |
| `Timeline.SilentExactlyWhenReleased` | musique/interpreter/builtin_functions.cc:546-566 | every time-sorted order of a schedule ends with none of its pitches sounding or recorded if and only if each On has an Off of its key at a strictly later time |
| `Timeline.PositiveScheduleReleased` | musique/interpreter/builtin_functions.cc:524-543 | the schedule of tracks with positive lengths is released in that sense |
| `Timeline.ZeroLengthCanHang` | musique/interpreter/builtin_functions.cc:546-566 | some time-sorted order leaves a note of length zero sounding |
| `Timeline.LastDecides` | musique/interpreter/builtin_functions.cc:558-565 | whether a key sounds, and is recorded, after a schedule depends on the last message for it alone |
| `MidiQueue.EveryInterleavingIsSafe` | lib/rtmidi/RtMidi.cpp:737-792 | in every state of every interleaving of one producer and one consumer: popped is a prefix of pushed, at most `ringSize - 1` messages wait, no slot is written while it is read, and every refusal was justified when its index was read |
| `MidiQueue.ApplyKeeps` | lib/rtmidi/RtMidi.cpp:737-792 | each single read or write of a shared field keeps the invariant |
| `MidiQueue.UndisturbedPush` | lib/rtmidi/RtMidi.cpp:756-772 | a push without steps of the consumer in between is accepted exactly if there is room |
| `MidiQueue.UndisturbedPop` | lib/rtmidi/RtMidi.cpp:774-792 | a pop without steps of the producer in between takes the oldest message exactly if there is one |
| `MidiQueue.WindowIsBacklog` | lib/rtmidi/RtMidi.cpp:737-753 | at every step the slots from `front` to `back`, wrapping around, hold what was pushed and not popped |
| `MidiQueue.HasRoom` | lib/rtmidi/RtMidi.cpp:737-764 | the computed size is the number of queued messages, and the unsigned bound `ringSize - 1` leaves one slot free unless there is no ring at all |
| `MidiQueue.Queue.Push` | lib/rtmidi/RtMidi.cpp:756-772 | appends if fewer than `ringSize - 1` messages wait, else changes nothing; without a ring the write is out of bounds |
| `MidiQueue.Queue.Pop` | lib/rtmidi/RtMidi.cpp:774-792 | takes the oldest message, or nothing from an empty queue |
| `Random.Unbiased` | musique/random.hh:34-65 | at any depth of recursion, every value of the range is yielded by the same positive number of attempts |
| `Random.UnbiasedDown` | musique/random.hh:60-64 | downscaling accepts exactly `scaling` words for each value |
| `Random.OnePairPerValue` | musique/random.hh:48-55 | upscaling accepts exactly one pair of split and place for each value |
| `Random.DrawnByAttempt` | musique/random.hh:34-65 | whatever is drawn lies in the range and comes from an accepted attempt |
| `Random.AttemptIsDrawn` | musique/random.hh:34-65 | every accepted attempt is drawn as soon as the generator makes its words |
| `Random.WrapAroundIsHarmless` | musique/random.hh:48-54 | the sum and test of the upscaling loop, computed with wrap-around, accept and give what exact arithmetic does |
| `Random.RangeOfDifference` | musique/random.hh:34 | the unsigned difference of the bounds, negative ones too, is exact if and only if it fits the word |
| `Random.LargestIsDrawnExactlyWhen` | musique/random.hh:34-65 | the upper bound can be drawn if and only if the range fits the generator's word |
| `Random.EveryValueIsDrawn` | musique/random.hh:34-65 | within that limit every value can be drawn |
| `Random.CastIsCongruent` | musique/random.hh:34-65 | a conversion adds or takes away a multiple of the number of values of its type |
| `Random.Generator.DrawUniform` | musique/random.hh:20-66 | the recursion and its loops consume the words, and return the value, that the specification says |
| `Random.Generator.DrawUpscaled` | musique/random.hh:42-55 | the upscaling loop does |
| `Random.Generator.DrawDownscaled` | musique/random.hh:56-65 | the downscaling loop does |
| `Shuffle.ShuffleIsABijection` | musique/random.hh:70-76 | for distinct elements every sequence of draws gives a permutation, different draws give different ones, and each permutation is reached |
| `Shuffle.ShuffledPermutes` | musique/random.hh:70-76 | elements are only rearranged, repeated ones too |
| `Shuffle.EveryArrangementIsShuffled` | musique/random.hh:70-76 | for distinct elements each arrangement is what some words of the generator shuffle into |
| `Shuffle.ShuffleInPlace` | musique/random.hh:70-76 | the array ends as the specified shuffle by the positions the generator's words determine |
| `EditDistance.DistanceIsLeast` | lib/edit_distance.cc/edit_distance.hh:36-60 | some script of insertions, deletions and substitutions with that many edits turns `s` into `t`, and none has fewer |
| `EditDistance.NoScriptIsShorter` | lib/edit_distance.cc/edit_distance.hh:36-60 | every script that turns `s` into `t` has at least that many edits |
| `EditDistance.ShortestScript` | lib/edit_distance.cc/edit_distance.hh:36-60 | a script with exactly that many edits |
| `EditDistance.TableIsDistance` | lib/edit_distance.cc/edit_distance.hh:47-57 | each table entry is the distance of two prefixes |
| `EditDistance.FillRow` | lib/edit_distance.cc/edit_distance.hh:48-55 | the inner loop turns one row of the full table into the next |
| `EditDistance.EditDistanceRows` | lib/edit_distance.cc/edit_distance.hh:36-60 | two swapped rows compute the distance |
| `Digits.WrittenLikeMagnitudeExactlyWhen` | musique/interpreter/builtin_functions.cc:1527-1556 | for bases up to 128, the bytes written for a number are those written for its absolute value if and only if it is not negative |
| `Digits.AllDigitsExactlyWhen` | musique/interpreter/builtin_functions.cc:1527-1556 | for bases up to 128, all bytes written for a number in lowest terms are below the base if and only if the number is whole or not negative |
| `Digits.MinusOneHalf` | musique/interpreter/builtin_functions.cc:1542-1555 | in base 10, 1/2 is written 0 5 and -1/2 is written 0 251 |
| `Digits.ComplementOfWhole` | musique/interpreter/builtin_functions.cc:1536-1540 | a negative whole number is written as its 64-bit complement |
| `Digits.LargerBases` | musique/interpreter/builtin_functions.cc:1542-1555 | in every base above 128, -128 divided by the base is written like its absolute value |
| `Digits.AppendDigits` | musique/interpreter/builtin_functions.cc:1527-1556 | for any fraction, negative ones too, what is appended are the bytes of the numeral of its whole part and of the digits of the rest up to the first place where nothing is left or a remainder recurs |
| `Digits.AppendFraction` | musique/interpreter/builtin_functions.cc:1542-1555 | the loop with the set of seen numbers stops at exactly that place, and each digit is kept in an unsigned byte |
| `Digits.AppendWhole` | musique/interpreter/builtin_functions.cc:1536-1540 | the bytes that were pushed and reversed are those of the numeral of the whole part, which is unsigned in the divisions |
| `Digits.EndsWithinDenominator` | musique/interpreter/builtin_functions.cc:1542-1555 | there are fewer fractional digits than the denominator; for a negative number at most as many |
| `Digits.ExactOrPeriodic` | musique/interpreter/builtin_functions.cc:1542-1555 | the digits are the exact value, or repeating them from some position on is the whole infinite expansion |
| `Digits.NothingShorter` | musique/interpreter/builtin_functions.cc:1542-1555 | no shorter beginning is exact, and no shorter beginning and period repeat: just one period is written |
| `Digits.PrefixValue` | musique/interpreter/builtin_functions.cc:1545-1554 | digits so far and what is left always make up the fraction |
| `Digits.RepeatedIsExpansion` | musique/interpreter/builtin_functions.cc:1542-1555 | after a recurring remainder each later digit is one of those written |
| `Digits.WholeDigitsValue` | musique/interpreter/builtin_functions.cc:1536-1540 | digits below the base, no leading zero, and the right value |
| `Digits.NumeralIsUnique` | musique/interpreter/builtin_functions.cc:1536-1540 | no other numeral has that value |
| `Digits.ExpansionIsUnique` | musique/interpreter/builtin_functions.cc:1527-1556 | the digits are determined by the number |
| `Digits.ExpansionFitsBytes` | musique/interpreter/builtin_functions.cc:1527-1556 | for a number that is not negative and a base up to 256 each digit is below the base and its byte is the digit itself |
| `Digits.Floor` | musique/value/number.cc:255-288 | the rounding of the program, for either sign, is division rounded down |
| `Rationals.LowestTermsAreUnique` | musique/value/number.cc:34-61 | numbers in lowest terms are equal as values exactly if their fields are, as the set of seen numbers relies on |
| `Rationals.Simplify` | musique/value/number.cc:34-51 | the loop ends in lowest terms with a positive denominator and keeps the value, for any signs |
| `Mix.Mix` | musique/interpreter/builtin_functions.cc:1497-1525 | the rounds that follow one another while something is awaited are max(1, longest) rounds of one turn per argument, up to the first turn that fails or divides by zero; collections may be blocks, whose answers are arbitrary |
| `Mix.RowsAt` | musique/interpreter/builtin_functions.cc:1512-1521 | value `r * n + i` is what argument `i` gives in round `r`: itself, or its element at `r` modulo its size |
| `Mix.ValuesExactlyWhen` | musique/interpreter/builtin_functions.cc:1511-1524 | there is a result if and only if every turn of every round gives a value |
| `Mix.ArraysExactlyWhen` | musique/interpreter/builtin_functions.cc:1511-1524 | with scalars and arrays only, if and only if no array is empty |
| `Mix.ArraysTakeTurns` | musique/interpreter/builtin_functions.cc:1512-1521 | with arrays, value `r * n + i` is the item of array `i` at `r` modulo its size |
| `Mix.MixRound` | musique/interpreter/builtin_functions.cc:1512-1521 | after each round the awaited containers are those with more elements than rounds |
| `Vectorize.CommutesWithFlattening` | musique/interpreter/builtin_operators.cc:11-33 | operating on any nested collection and flattening is flattening and operating on the leaves, in both argument orders, failures of operations included; where indexing a block fails, so does the operation |
| `Vectorize.ShapeIsKept` | musique/interpreter/builtin_operators.cc:11-33 | the result has the shape of the collection on the left |
| `Vectorize.ShapeIsKeptOnTheRight` | musique/interpreter/builtin_operators.cc:11-33 | the result has the shape of the collection on the right |
| `Vectorize.EachLeftIsPointwise` | musique/interpreter/builtin_operators.cc:16-23 | results stand item by item; a failure is that of the first item that fails |
| `Vectorize.EachRightIsPointwise` | musique/interpreter/builtin_operators.cc:25-32 | the same with the collection on the right |
| `Vectorize.NumericWorks` | musique/interpreter/builtin_operators.cc:66-110 | collections of numbers and a number never fail, in either order |
| `Vectorize.FoldOfReals` | musique/interpreter/builtin_operators.cc:66-76 | numbers are added up, or all others are taken from the first, for any list of them |
| `Vectorize.EachNumberChanges` | musique/interpreter/builtin_operators.cc:66-93 | with a number, each number `x` in a nested collection becomes `x + k`, `x - k` or `k - x`, as operator and order of the arguments say |
| `Vectorize.ChordMoves` | musique/interpreter/builtin_operators.cc:78-90 | with a whole number, in either order, notes of a chord without octave move by it, up or down; rests and lengths stay |
| `Vectorize.MovedIntoRange` | musique/value/note.cc:90-98 | a moved note with an octave ends on one of twelve semitones of an octave in range, congruent to where it should |
| `Vectorize.FoldOfFew` | musique/interpreter/builtin_operators.cc:66-110 | no argument gives zero, one gives itself, and two collections cannot be combined |
| `Vectorize.AddThenSubtract` | musique/interpreter/builtin_operators.cc:66-110 | subtracting what was added gives a collection of numbers back |
| `Vectorize.MovesExactlyWhen` | musique/value/note.cc:90-98 | the exact condition under which a note moves by the given number of semitones |
| `Vectorize.OctaveTooHigh` | musique/value/note.cc:90-98 | a note that moves below zero, and not by whole octaves, comes out an octave too high wherever its octave stays in range |
| `Vectorize.DownFromC4` | musique/value/note.cc:90-98 | one semitone below c4 comes out as b4 |
| `Vectorize.MoveNotes` | musique/interpreter/builtin_operators.cc:78-86 | the loop moves every note in place, and ends the program if there is one to move by a fraction of a semitone |
| `Vectorize.Operate` | musique/interpreter/builtin_operators.cc:73-109 | the step of the fold is the specified operation on two values |
| `Vectorize.Vectorized` | musique/interpreter/builtin_operators.cc:11-33 | the loops give the specified array or the first failure |
| `Vectorize.AddSubtract` | musique/interpreter/builtin_operators.cc:66-110 | arguments are folded from the left up to the first failure; none give zero; numbers give their sum, or the first less all others |
| `Vectorize.FlattenDeep` | musique/interpreter/builtin_functions.cc:34-55 | the recursive loop gives the leaves in order, or the first failure of an index |
| `Vectorize.FlattenReadsInOrder` | musique/interpreter/builtin_functions.cc:34-55 | a list without collections is as it was, lists flatten one after the other, and a collection to what it holds |

## Left out

- Locations of tokens and trees in the parser, which tree equality ignores, and the text of errors.
- Reads of a token where there is none are an error outcome of their own in the parser, and failed
  assertions and program exits are an outcome that ends it; what the program does after such a read is
  undefined.
- Index expressions in the inverse of parser and printer: they are printed without a closing bracket.
- The lexer works on runes, with lengths in runes. The runes NUL and U+FFFD, which it cannot tell from
  the end of the text and from a decoding error, are excluded, and the table of letters is any
  predicate that NUL does not satisfy; printed text also needs that brackets, commas, colons and spaces
  are no letters, and what it parses to, that operator characters are none; kinds of tokens need that no
  digit, operator character, bracket or comma is a letter.
- `LexerClass.Lexer.SkipToCommentEnd`: where the program loops for ever in an open comment, the model
  returns and says so.
- Evaluation beyond what playing needs: variables, functions, operators and macros are not values of
  the `Player` module, whose programs are sequences of constants, blocks and calls of `play`, `par` and
  `sim`.
- `Player.Interpreter.SequentialPlay`: which messages are sent is stated for arrays of chords and for
  blocks of them; for code that calls builtins itself, only interrupt safety is.
- `note_on`, `note_off`, changes of port and of defaults such as octave, length and tempo.
- Durations are exact reals instead of floats, and the tempo is positive.
- Each state observed by an interrupt is recorded by the model; the thread that raises interrupts is
  any oracle on the number of looks.
- The two threads of `MidiQueue` take sequentially consistent steps, one shared field each; the
  assignment of a message is two steps, its bytes and its time stamp.
- Termination of the rejection loops in `uniform`, which is a matter of probability. The generator is a
  finite script of words, and `None` says that the script ended first.
- The width of `int` in the edit distance, and of the bases and octaves of notes.
- `Digits.AppendDigits`: products in its loop do not overflow, and the least integer, which has no
  opposite, is left out; `usize` has 64 bits.
- Bases of zero and one in the digits, for which the program divides by zero or does not end; the only
  base in use is 10.
- Number fields that are both zero, or a zero denominator: no operation makes them.
- Hash functions: sets of numbers compare fields, which `Rationals.LowestTermsAreUnique` justifies.
- What the code of blocks does when `mix` or an operator indexes them: their answers, failures included,
  are arbitrary, and each operation asks for each position once.
- `Vectorize.AddThenSubtract`: not stated for chords, since notes with an octave may end in another
  octave.
- Multiplication, comparison and the other operators and builtins, the read-eval-print loop, MIDI
  back ends and user directories.
