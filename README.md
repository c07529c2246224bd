# blancoApexParser in Dafny

A model of the lexical parser and token combiner of blancoApexParser, a
tokenizer for Salesforce Apex source written in Java, with proofs about it.

The Java lexer makes a single forward pass over a `BufferedReader`. It keeps
one character of pushback (`mark(1)`/`reset()`) and three fields: the token
list, the current line number and the pending word. It dispatches on each
character and produces word, number literal, string literal, comment,
whitespace, newline and special-character tokens. The parser then rewrites
the token list in place, in two passes. The first merges runs of three
adjacent special characters into an operator of its table (`===`, `>>>`, …).
The second does the same for runs of two (`++`, `==`, …).

The model has three layers.

- **Imperative code, as in the Java.**
  - The lexer is the class `Lexer.LexicalParser`: `tokenList`, `lineNumber` and `strbufWord` are fields, and one method stands for each Java method.
  - The reader is the class `Reading.Reader`: a string, a cursor and a mark. Reading from a string cannot fail.
  - Tokens are the class `Tokens.Token`. Its `value` and `note` change in place.
  - The combining loops are methods over a `seq<Token>` that call `SetValue` on list elements and cut followers out of the list.
- **Specification functions on values.**
  - `ScanSpec` mirrors the main read loop and each sub-scanner, working on `TokenView` snapshots of tokens.
  - `CombineSpec` mirrors the two passes.
  - Every method's `ensures` ties its new state to these functions. The fields are `lineNumber`, `strbufWord`, the views of `tokenList`, and the reader's position.
- **Lemmas about the specification functions.**
  - `ScanProperties` covers the lexer: spelling, well-formedness, line numbers and worked runs.
  - `CombineSpec` covers the combiner: spelling, untouched tokens, shrinking, table values and the worked examples.
  - `CombineIdempotence` proves that combining twice gives the same list as combining once, for lists whose special tokens are single characters, as the lexer makes them.
  - `ParseExamples` works single inputs through the lexer and the combiner:
    - the statement `str1 === str1` of the combine test, through the whole pipeline;
    - the round trip of that test's whole input, its string literal `'文字列1'` included;
    - the decimal number `3.14`, which appears in no test;
    - the string literal `'a\'b'`, whose escaped quote does not close it.

`Double.parseDouble` is Java floating-point parsing. The lexer takes it as a parameter `isDouble: string -> bool`, and every property holds for any such predicate. The examples use `Digits` (a non-empty run of decimal digits) in its place.

The model follows the code in the cases below. A conventional tokenizer would behave differently in each: it would make `a/b` three tokens, and it would report an unterminated comment or literal as an error instead of dropping it.

- A `/` followed by any character other than `*` or `/` is appended to the pending word, so `a/b` is one word token. `ScanWordText` proves this for every text of word characters and slashes in which no slash is last and none is followed by `*` or `/`.
- Some inputs produce no token at all:
  - an unterminated block comment;
  - an unterminated string literal;
  - a blank run at the end of input;
  - a `/` as the last character.

  Their text is lost. `ScanSpellsInput` states exactly that: the output spells a prefix of the input, and the rest is lost by one of these cases.
- Spelling the input back from the tokens holds exactly when no pass of the main loop starts at one of these cases. `Lossless` follows the positions where the main loop starts a pass. `ScanRoundTrip` proves that the tokens spell the input if and only if `Lossless` holds from position 0. `Parser.ParseAndJoin` requires the same. `ParseExamples.CombineTestRoundTrip` shows that the combine test's input meets it.

## Model

| member | source | states |
|---|---|---|
| ParserUtil.IsWhitespaceWithoutLines | src/main/java/blanco/apex/parser/BlancoApexParserUtil.java:34-40 | true exactly for space, tab and the full-width space U+3000; never for CR or LF |
| ParserUtil.IsSpecialChar | src/main/java/blanco/apex/parser/BlancoApexParserUtil.java:48-77 | true exactly for the characters of `SPECIAL_CHARS`, and false for every other character |
| ParserUtil.SpecialCharsAreDistinct | src/main/java/blanco/apex/parser/BlancoApexParserUtil.java:48-77 | the special characters are 24 distinct characters |
| ParserUtil.ClassesAreDisjoint | src/main/java/blanco/apex/parser/BlancoApexParserUtil.java:34-77 | no character is both special and blank; CR and LF are neither |
| ParserUtil.WordCharacters | src/main/java/blanco/apex/parser/BlancoApexParserUtil.java:34-77 | quotes, backslash, caret, tilde, underscore, ASCII letters and digits are neither special nor blank |
| ParserUtil.JoinAppend | src/main/java/blanco/apex/parser/BlancoApexParserUtil.java:86-92 | joining values distributes over list concatenation |
| ParserUtil.JoinAt | src/main/java/blanco/apex/parser/BlancoApexParserUtil.java:86-92 | each token's value sits in the join between the values before it and those after it |
| ParserUtil.TokenList2String | src/main/java/blanco/apex/parser/BlancoApexParserUtil.java:86-92 | the result is the current values of the tokens concatenated in list order; an empty list gives the empty string |
| Tokens.Token.Word | src/main/java/blanco/apex/parser/token/BlancoApexWordToken.java:24-53 | `value` and `originalValue` are the given string, the line is the given line, both flags are false, and there is no note |
| Tokens.Token.Literal | src/main/java/blanco/apex/parser/token/BlancoApexLiteralToken.java:49-54 | `value` equals `originalValue`, with the given line and literal type |
| Tokens.Token.Comment | src/main/java/blanco/apex/parser/token/BlancoApexCommentToken.java:37-42 | `value` equals `originalValue`, with the given line and comment type |
| Tokens.Token.Newline | src/main/java/blanco/apex/parser/token/BlancoApexNewlineToken.java:24-28 | `value` equals `originalValue`, with the given line |
| Tokens.Token.SetValue | src/main/java/blanco/apex/parser/token/BlancoApexToken.java:44-50 | only `value` changes and it becomes the argument; `originalValue` and `lineNumber` are constants of the class |
| Tokens.Token.AddNote | src/main/java/blanco/apex/parser/token/BlancoApexToken.java:42-66 | the note becomes the old note followed by the argument, with a missing note read as "null"; nothing else changes |
| Tokens.Token.SetReservedKeyword | src/main/java/blanco/apex/parser/token/BlancoApexWordToken.java:27-33 | only the reserved-keyword flag changes, to the argument |
| Tokens.Token.SetSystemType | src/main/java/blanco/apex/parser/token/BlancoApexWordToken.java:35-41 | only the system-type flag changes, to the argument |
| Tokens.Token.SetLiteralType | src/main/java/blanco/apex/parser/token/BlancoApexLiteralToken.java:56-62 | the literal type becomes the argument; value and note stay |
| Tokens.Token.SetCommentType | src/main/java/blanco/apex/parser/token/BlancoApexCommentToken.java:44-50 | the comment type becomes the argument; value and note stay |
| Tokens.Token.View | src/main/java/blanco/apex/parser/token/BlancoApexToken.java:44-58 | the getters of value, original value and line number, plus the kind, as one value |
| Tokens.Token.DisplayString | src/main/java/blanco/apex/parser/token/BlancoApexWordToken.java:55-57 | a word shows as `WORD[` + current value + `]`; a newline as `NEWLINE[` + `RenderLineBreaks` of its value + `]`, nine characters longer than its value and free of CR and LF |
| Tokens.RenderLineBreaks | src/main/java/blanco/apex/parser/token/BlancoApexNewlineToken.java:37-40 | each CR becomes `r`, each LF becomes `n` and every other character is kept in place; the length is kept and no CR or LF is left |
| Tokens.ReplaceChar | src/main/java/blanco/apex/parser/token/BlancoApexNewlineToken.java:38-39 | `String.replace(char, char)`: every occurrence of one character becomes the other; the rest are kept, and so is the length |
| Tokens.CrLfDisplay | src/main/java/blanco/apex/parser/token/BlancoApexNewlineToken.java:37-40 | a CR LF newline shows as `NEWLINE[rn]` |
| Tokens.LiteralDisplayInjective | src/main/java/blanco/apex/parser/token/BlancoApexLiteralToken.java:33-69 | a literal's display string determines its literal type and its value |
| Tokens.CommentDisplayInjective | src/main/java/blanco/apex/parser/token/BlancoApexCommentToken.java:24-54 | a comment's display string determines its comment type and its value |
| Lexer.LexicalParser.constructor | src/main/java/blanco/apex/parser/BlancoApexLexicalParser.java:49-98 | no tokens, line 1, empty word |
| Lexer.LexicalParser.Add | src/main/java/blanco/apex/parser/BlancoApexLexicalParser.java:214 | appends one new token and changes nothing else |
| Lexer.LexicalParser.FireWord | src/main/java/blanco/apex/parser/BlancoApexLexicalParser.java:201-230 | the new state is `ScanSpec.FireWord` of the old one: a token only for a non-empty word, NUMBER exactly when `isDouble` accepts the word, else WORD, on the current line; the word is cleared |
| ScanSpec.FireWord | src/main/java/blanco/apex/parser/BlancoApexLexicalParser.java:201-230 | one token exactly when the word is non-empty, with the word as text and the current line; NUMBER if and only if `isDouble` holds, WORD if and only if not; the word is cleared and the line kept |
| ScanSpec.BlockCommentFrom | src/main/java/blanco/apex/parser/BlancoApexLexicalParser.java:244-286 | the comment loop stops within the input and never moves the line back |
| ScanSpec.LineCommentEnd | src/main/java/blanco/apex/parser/BlancoApexLexicalParser.java:292-316 | the first CR or LF from the start, or the end of input: no line break before it, and one at it unless the input ends there |
| ScanSpec.QuotedFrom | src/main/java/blanco/apex/parser/BlancoApexLexicalParser.java:322-358 | the literal loop stops within the input |
| ScanSpec.BlankRunEnd | src/main/java/blanco/apex/parser/BlancoApexLexicalParser.java:406-421 | the end of the maximal blank run: only blanks before it, and a non-blank at it unless the input ends there |
| ScanSpec.BlockCommentStep | src/main/java/blanco/apex/parser/BlancoApexLexicalParser.java:232-287 | `parseMultilineComment` stops within the input |
| ScanSpec.LineCommentStep | src/main/java/blanco/apex/parser/BlancoApexLexicalParser.java:289-317 | `parseSinglelineComment` stops within the input |
| ScanSpec.QuotedStep | src/main/java/blanco/apex/parser/BlancoApexLexicalParser.java:319-401 | `parseStringLiteral` and `parseStringLiteralForSOQL` stop within the input |
| ScanSpec.BlankStep | src/main/java/blanco/apex/parser/BlancoApexLexicalParser.java:403-422 | `parseWhitespaceWithoutlines` stops within the input |
| ScanSpec.NewlineStep | src/main/java/blanco/apex/parser/BlancoApexLexicalParser.java:424-445 | `parseNewlines` reads at most the LF of a CR LF |
| ScanSpec.SlashStep | src/main/java/blanco/apex/parser/BlancoApexLexicalParser.java:126-157 | the slash case stops within the input |
| ScanSpec.Step | src/main/java/blanco/apex/parser/BlancoApexLexicalParser.java:113-195 | one pass of the main loop reads at least one character and stops within the input |
| ScanSpec.ScanFrom | src/main/java/blanco/apex/parser/BlancoApexLexicalParser.java:113-199 | the loop ends with the final `fireWord`, so no word is left pending |
| ScanSpec.Scan | src/main/java/blanco/apex/parser/BlancoApexLexicalParser.java:112-199 | an empty input gives no tokens |
| Reading.Reader.constructor | src/main/java/blanco/apex/parser/BlancoApexParser.java:68-69 | a reader over the given string, at its start |
| Reading.Reader.Read | src/main/java/blanco/apex/parser/BlancoApexLexicalParser.java:113-123 | `read()`: the character at the cursor, which moves on by one, or nothing at the end of input, where the cursor stays |
| Reading.Reader.Mark | src/main/java/blanco/apex/parser/BlancoApexLexicalParser.java:129 | `mark(1)`: remembers the cursor |
| Reading.Reader.Reset | src/main/java/blanco/apex/parser/BlancoApexLexicalParser.java:129-154 | `reset()`: the cursor goes back to the mark |
| Lexer.LexicalParser.ParseMultilineComment | src/main/java/blanco/apex/parser/BlancoApexLexicalParser.java:232-287 | the reader position and state reached are those of `BlockCommentStep`, with its CR/LF line counting and the `isPastCr` flag |
| Lexer.LexicalParser.ParseSinglelineComment | src/main/java/blanco/apex/parser/BlancoApexLexicalParser.java:289-317 | the reader is left on the line break, or at the end of input; the state is `LineCommentStep`'s: one SINGLE_LINE token of `//` and the text before the break |
| Lexer.LexicalParser.ParseQuoted | src/main/java/blanco/apex/parser/BlancoApexLexicalParser.java:319-401 | the loop both literal forms share, proved to reach `QuotedStep`: escapes copied verbatim, the line unchanged, no token when the literal is not closed |
| Lexer.LexicalParser.ParseStringLiteral | src/main/java/blanco/apex/parser/BlancoApexLexicalParser.java:319-359 | `QuotedStep` with the single quote |
| Lexer.LexicalParser.ParseStringLiteralForSOQL | src/main/java/blanco/apex/parser/BlancoApexLexicalParser.java:361-401 | `QuotedStep` with the double quote |
| Lexer.LexicalParser.ParseWhitespaceWithoutlines | src/main/java/blanco/apex/parser/BlancoApexLexicalParser.java:403-422 | `BlankStep`: the maximal blank run, as a token only when a non-blank follows, which is left unread |
| Lexer.LexicalParser.ParseNewlines | src/main/java/blanco/apex/parser/BlancoApexLexicalParser.java:424-445 | `NewlineStep`: CR LF, CR or LF as one token on the current line, and the line advances by exactly one |
| Lexer.LexicalParser.ParseSpecialChar | src/main/java/blanco/apex/parser/BlancoApexLexicalParser.java:447-450 | appends one special-character token of the character, on the current line |
| Lexer.LexicalParser.ParseSlash | src/main/java/blanco/apex/parser/BlancoApexLexicalParser.java:126-157 | `SlashStep`: a comment after `/*` or `//`, the slash added to the word otherwise with the next character left unread, nothing at the end of input |
| Lexer.LexicalParser.ParseChar | src/main/java/blanco/apex/parser/BlancoApexLexicalParser.java:125-195 | one pass of the main loop computes `Step` of the position and state before it |
| Lexer.LexicalParser.Parse | src/main/java/blanco/apex/parser/BlancoApexLexicalParser.java:112-199 | reads to the end of input and ends in `ScanFrom` of the starting position and state; tokens are only appended, each a new object |
| ScanProperties.BlockCommentText | src/main/java/blanco/apex/parser/BlancoApexLexicalParser.java:238-286 | an unclosed comment runs to the end of input; a closed one is its opener followed by the input verbatim through `*/`, and it closes at the first `*/` after the opener |
| ScanProperties.BlockCommentClosed | src/main/java/blanco/apex/parser/BlancoApexLexicalParser.java:244-273 | a block comment is closed if and only if a `*/` follows its opener |
| ScanProperties.BlockCommentLines | src/main/java/blanco/apex/parser/BlancoApexLexicalParser.java:274-283 | the line after a comment is its start line plus `LineAdvance` of the text consumed: one per CR, and one per LF when no CR has come since the previous LF (`isPastCr` is cleared only by an LF) |
| ScanProperties.BlockCommentScanned | src/main/java/blanco/apex/parser/BlancoApexLexicalParser.java:232-287 | a closed block comment is the input from `/*` through `*/`, a well-formed MULTI_LINE token on its start line; the line never goes back |
| ScanProperties.QuotedText | src/main/java/blanco/apex/parser/BlancoApexLexicalParser.java:319-359 | an unclosed literal runs to the end of input; a closed one is its opening quote and the input verbatim through the closing quote, and what lies between the quotes is a `QuotedBody`: every backslash takes the next character with it, and no delimiter appears unescaped |
| ScanProperties.QuotedClosesAt | src/main/java/blanco/apex/parser/BlancoApexLexicalParser.java:322-358 | the converse: when a `QuotedBody` is followed by the delimiter, the literal closes right there, with the input verbatim as its text; an escaped delimiter never ends it |
| ScanProperties.LineCommentWellFormed | src/main/java/blanco/apex/parser/BlancoApexLexicalParser.java:289-317 | a line comment starts with `//` and holds no CR or LF |
| ScanProperties.StepJoin | src/main/java/blanco/apex/parser/BlancoApexLexicalParser.java:113-196 | one pass keeps the tokens' values plus the word equal to the input read, or drops the rest of the input in one of the four ways of `Dropped` |
| ScanProperties.ScanFromJoin | src/main/java/blanco/apex/parser/BlancoApexLexicalParser.java:113-199 | from a state that spells the input read, the final tokens spell a prefix of the input, and only a `Dropped` case ends it early |
| ScanProperties.ScanSpellsInput | src/main/java/blanco/apex/parser/BlancoApexLexicalParser.java:112-199 | the tokens' values concatenated are a prefix of the input; the rest is lost to an unclosed comment or literal, a trailing blank run, or a final slash |
| ScanProperties.ScanRoundTrip | src/main/java/blanco/apex/parser/BlancoApexLexicalParser.java:112-199 | the tokens' values concatenated are the input if and only if `Lossless` holds: no pass of the main loop starts at a place where the rest of the input is lost |
| ScanProperties.StepEndOf | src/main/java/blanco/apex/parser/BlancoApexLexicalParser.java:113-195 | where a pass of the main loop stops depends on the input alone, not on the tokens, the line, the pending word or `isDouble` |
| ScanProperties.LosslessPlain | src/main/java/blanco/apex/parser/BlancoApexLexicalParser.java:113-195 | a stretch without slashes or quotes loses nothing when it is followed by a quote or ends the input on a non-blank, and what follows loses nothing |
| ScanProperties.LosslessQuoted | src/main/java/blanco/apex/parser/BlancoApexLexicalParser.java:158-171 | a closed literal (a quote, a `QuotedBody`, the same quote) loses nothing when what follows it loses nothing |
| ScanProperties.StepExtends | src/main/java/blanco/apex/parser/BlancoApexLexicalParser.java:113-195 | one pass of the main loop only appends tokens, never moves the line back, and puts each new token on a line from the old current line to the new one |
| ScanProperties.ScanFromExtends | src/main/java/blanco/apex/parser/BlancoApexLexicalParser.java:112-199 | the same for the whole loop with its final `fireWord` |
| ScanProperties.StepGood | src/main/java/blanco/apex/parser/BlancoApexLexicalParser.java:125-195 | one pass keeps the invariant `Good`: well-formed tokens in line order, no two adjacent whitespace tokens, the word made of word characters |
| ScanProperties.ScanFromGood | src/main/java/blanco/apex/parser/BlancoApexLexicalParser.java:113-199 | the whole loop keeps that invariant |
| ScanProperties.ScanTokensWellFormed | src/main/java/blanco/apex/parser/BlancoApexLexicalParser.java:112-450 | every token has the shape of its kind (comments start with `//` or `/*`…`*/`, literals have matching quotes, a newline is CR, LF or CR LF, a special token is one character and never `/`); line numbers never decrease; no two whitespace tokens are adjacent |
| ScanProperties.WordFrom | src/main/java/blanco/apex/parser/BlancoApexLexicalParser.java:126-195 | in a text of word characters and slashes where no slash is last or followed by `*` or `/`, every character, slash included, goes into the word buffer |
| ScanProperties.ScanWordText | src/main/java/blanco/apex/parser/BlancoApexLexicalParser.java:152-230 | such a text, `a/b` among them, scans to exactly one token, a NUMBER or a WORD, on line 1 |
| ScanProperties.WordRunFrom | src/main/java/blanco/apex/parser/BlancoApexLexicalParser.java:193-195 | a run of plain word characters is appended to the pending word |
| ScanProperties.SpecialCharFrom | src/main/java/blanco/apex/parser/BlancoApexLexicalParser.java:172-450 | a special character other than `/` flushes the word and becomes a token of its own |
| ScanProperties.BlankRunFrom | src/main/java/blanco/apex/parser/BlancoApexLexicalParser.java:179-422 | a blank run before a non-blank flushes the word and becomes one whitespace token |
| ScanProperties.LinesCountedAt | src/main/java/blanco/apex/parser/BlancoApexLexicalParser.java:236-444 | under the recursive line accounting, every token is on line one plus the line breaks of the tokens before it |
| ScanProperties.StepLines | src/main/java/blanco/apex/parser/BlancoApexLexicalParser.java:125-195 | one pass keeps the line accounting: the current line is one plus the line breaks of the tokens so far |
| ScanProperties.ScanFromLines | src/main/java/blanco/apex/parser/BlancoApexLexicalParser.java:113-199 | the whole loop keeps the line accounting |
| ScanProperties.ScanLineNumbers | src/main/java/blanco/apex/parser/BlancoApexLexicalParser.java:236-445 | every token's line is one plus the newline tokens before it plus the line breaks inside earlier block comments; string literals add none |
| CombineSpec.Candidate | src/main/java/blanco/apex/parser/BlancoApexParser.java:125-148 | the candidate is the values of the run's tokens joined |
| CombineSpec.Merge | src/main/java/blanco/apex/parser/BlancoApexParser.java:128-152 | a merge removes exactly `n - 1` tokens |
| CombineSpec.TableIsDistinct | src/main/java/blanco/apex/parser/BlancoApexParser.java:51-57 | no operator appears twice in the table, so a candidate matches at most one entry |
| CombineSpec.MergeKeepsJoin | src/main/java/blanco/apex/parser/BlancoApexParser.java:125-152 | a merge keeps the concatenation of all values |
| CombineSpec.PassKeepsJoin | src/main/java/blanco/apex/parser/BlancoApexParser.java:108-156 | a pass keeps the concatenation of all values |
| CombineSpec.CombineKeepsJoin | src/main/java/blanco/apex/parser/BlancoApexParser.java:107-156 | both passes keep what `tokenList2String` returns |
| CombineSpec.OthersAppend | src/main/java/blanco/apex/parser/BlancoApexParser.java:110-139 | the tokens that are not special characters, taken from two lists joined, are those of each list in turn |
| CombineSpec.OthersOfSpecialRun | src/main/java/blanco/apex/parser/BlancoApexParser.java:110-145 | a run of special characters holds no other token |
| CombineSpec.MergeKeepsOthers | src/main/java/blanco/apex/parser/BlancoApexParser.java:126-153 | a merge of a special run leaves every other token, in order and unchanged |
| CombineSpec.PassKeepsOthers | src/main/java/blanco/apex/parser/BlancoApexParser.java:108-156 | a pass leaves every token that is not a special character, in order and unchanged |
| CombineSpec.CombineKeepsOthers | src/main/java/blanco/apex/parser/BlancoApexParser.java:107-156 | combining touches only special characters |
| CombineSpec.PassShrinks | src/main/java/blanco/apex/parser/BlancoApexParser.java:129-152 | a pass never makes the list longer |
| CombineSpec.MergeKeepsShown | src/main/java/blanco/apex/parser/BlancoApexParser.java:126-153 | a merged token is a special character whose value is a table entry, and keeps the original value and line of the first token of its run |
| CombineSpec.PassKeepsShown | src/main/java/blanco/apex/parser/BlancoApexParser.java:108-156 | after a pass, every token shows its original value or is a special character showing a table entry |
| CombineSpec.CombineKeepsShown | src/main/java/blanco/apex/parser/BlancoApexParser.java:107-156 | the same after both passes, and the list is no longer than before |
| CombineSpec.ShiftAssignCombines | src/main/java/blanco/apex/parser/BlancoApexParser.java:107-156 | `> > > =` becomes `>>>=`: the three-token pass builds `>>>` and the two-token pass extends it |
| CombineSpec.TriplePlusCombines | src/main/java/blanco/apex/parser/BlancoApexParser.java:108-137 | `+ + +` becomes `++` then `+`: a merged token is not looked at again in its pass |
| CombineSpec.StrictEqualsCombines | src/main/java/blanco/apex/parser/BlancoApexParser.java:108-134 | `= = =` becomes the single token `===` |
| CombineSpec.EqualsArrowCombines | src/main/java/blanco/apex/parser/BlancoApexParser.java:137-156 | `= = >` becomes `==` then `>`, not `=` then `=>` |
| Parser.RemovedFollowers | src/main/java/blanco/apex/parser/BlancoApexParser.java:129-152 | removing the followers shifts the tail down by `n - 1` and keeps the list free of repeated objects |
| Parser.MergedViews | src/main/java/blanco/apex/parser/BlancoApexParser.java:126-153 | after the table loop the views of the list are `Merge` of the old views when the run forms an operator, and unchanged otherwise |
| Parser.MatchTable | src/main/java/blanco/apex/parser/BlancoApexParser.java:126-154 | the loop over the table sets the first token's value and removes the followers exactly when the candidate is an entry; no token's note changes |
| Parser.CombineAt | src/main/java/blanco/apex/parser/BlancoApexParser.java:109-154 | the loop body at one index: the views become `Merge` when `Combines` holds, and stay the same otherwise; no token's note changes |
| Parser.CombinePass | src/main/java/blanco/apex/parser/BlancoApexParser.java:108-156 | one loop, in place, computes `Pass` of the views from index 0; no token object appears twice, and no token's note changes |
| Parser.Parse | src/main/java/blanco/apex/parser/BlancoApexParser.java:104-159 | a fresh lexer reads the whole input; the result's views are `Combine` of the scanned tokens, all of them new objects |
| Parser.ParseString | src/main/java/blanco/apex/parser/BlancoApexParser.java:68-75 | parsing a string gives `Combine(Scan(s))` |
| Parser.ParsedSpellsInput | src/main/java/blanco/apex/parser/BlancoApexParser.java:104-159 | after combining, the values still spell a prefix of the input, only a `Dropped` case makes it shorter, and they spell all of it if and only if `Lossless` holds |
| Parser.ParseAndJoin | src/test/java/blanco/apex/parser/BlancoApexParserCombineTest.java:44-46 | printing every token's value back gives the input whenever no pass of the lexer's main loop loses the rest of it |
| Parser.ParsedIsCombined | src/main/java/blanco/apex/parser/BlancoApexParser.java:104-159 | combining the parser's result a second time changes nothing |
| ParseExamples.StrictEqualsScan | src/test/java/blanco/apex/parser/BlancoApexParserCombineTest.java:36 | `str1 === str1` scans to a word, a blank, three `=` signs, a blank and a word |
| ParseExamples.StrictEqualsParse | src/test/java/blanco/apex/parser/BlancoApexParserCombineTest.java:36 | after combining, a single special token `===` stands between the blanks around the words |
| ParseExamples.DecimalScan | src/main/java/blanco/apex/parser/BlancoApexParserUtil.java:50 | `3.14` scans as NUMBER `3`, special `.`, NUMBER `14` |
| ParseExamples.EscapedQuoteScan | src/main/java/blanco/apex/parser/BlancoApexLexicalParser.java:319-359 | `'a\'b'` scans to one STRING literal holding all of it: the escaped quote does not close it |
| ParseExamples.CombineTestLossless | src/test/java/blanco/apex/parser/BlancoApexParserCombineTest.java:32-39 | no pass of the main loop loses any of the combine test's input |
| ParseExamples.CombineTestRoundTrip | src/test/java/blanco/apex/parser/BlancoApexParserCombineTest.java:32-46 | printing back the values of the parsed combine test's input gives the input, string literal and `===` included |
| CombineIdempotence.OperatorShape | src/main/java/blanco/apex/parser/BlancoApexParser.java:51-57 | every operator of the table has two to four characters, and the first three characters of a longer one are an operator too |
| CombineIdempotence.MergeKeepsNoShortStart | src/main/java/blanco/apex/parser/BlancoApexParser.java:125-152 | a merge keeps the characters of every run of special tokens, so no token of fewer than three characters starts an operator after it if none did before |
| CombineIdempotence.TriplePassLeavesNoShortStart | src/main/java/blanco/apex/parser/BlancoApexParser.java:107-134 | after the three-token pass over single characters, no token of fewer than three characters starts a run whose first three characters form an operator, and every special token has one or three characters |
| CombineIdempotence.PairPassLeavesNoOddPair | src/main/java/blanco/apex/parser/BlancoApexParser.java:136-156 | the two-token pass keeps that, and leaves no two adjacent tokens of one or three characters whose values form an operator |
| CombineIdempotence.CombineIdempotent | src/main/java/blanco/apex/parser/BlancoApexParser.java:107-156 | for a list whose special tokens are single characters, combining the result again changes nothing |

## Left out

- The `parse(File)` overloads of both classes, with their UTF-8 decoding: this is file I/O.
- `BlancoApexLexicalParser.parse(String)` is left out. It only wraps a string in a reader, as `Parser.ParseString` does for the parser.
- `IOException` and closing the reader are left out: reading from a string cannot fail.
- `Reading.Reader` models `BufferedReader` as the text and a cursor, so `mark(1)` remembers the cursor and `reset()` goes back to it. Its read-ahead limit is not modelled, because the lexer never reads more than one character past a mark before resetting.
- `Double.parseDouble` is Java floating-point parsing. It is the parameter `isDouble`. Java's number grammar (`NaN`, `Infinity`, exponents, suffixes) is not modelled.
- The whitespace and special-character token classes are not part of this model. Their tokens are the kinds `Whitespace` and `SpecialChar`, with the common fields, and they have no display string.
- `Tokens.Token.DisplayString` states only the word and newline cases in its own `ensures`. The `LITERAL(type)[value]` and `COMMENT(type)[value]` formats are written only in the body of `Display`. `LiteralDisplayInjective` and `CommentDisplayInjective` prove that those strings determine the type and the value, not their exact form.
- The token base class sets `lineNumber` to -1 by default. The default is not modelled, because every constructor sets the line.
- The Java getters (`getValue`, `getOriginalValue`, `getLineNumber`, `getNote` and the type and flag getters) are the fields themselves. Dafny reads them directly.
- Nothing in the modelled code sets the reserved-keyword and system-type flags. The setters exist, but no lemma relies on them.
- The `"/="` and `"^="` table entries can never fire: the lexer never makes a special token of `/` or `^`. They stay in the table, with no claim about them.
- One width-parameterised `Pass` models both combining loops of `parse(BufferedReader)`, with `n` equal to 3, then 2. `Parser.CombineAt` and `Parser.MatchTable` are the body of either loop and its inner loop over the table.
- `Lexer.LexicalParser.ParseSlash` and `Lexer.LexicalParser.ParseChar` are the slash case and the body of the main loop of `parse`, split out as methods. `Lexer.LexicalParser.ParseQuoted` is the loop that both string-literal methods share.
- The example lemmas use `Digits` in place of `Double.parseDouble`. Digits and `Double.parseDouble` agree on the words of the examples.
- The lexer's `lineNumber` is a Java `int`, which wraps after 2^31 - 1 lines. The model's line is an unbounded `int` and does not wrap.
- A Java `char` is a UTF-16 code unit. A Dafny `char` is a Unicode scalar value. The Java lexer reads a character outside the Basic Multilingual Plane as two surrogate units, and a lone surrogate can occur in its input; neither happens in the model. Both surrogate units would go to the pending word, as the model's one character does.
- `Tokens.Token.AddNote` takes a string. A Java `null` argument, which appends `"null"` to the note, is not modelled.
- The scanner's own contracts are small. What each sub-scanner reads and emits is proved in lemmas about it (`BlockCommentText`, `QuotedText`, `StepJoin`, `StepGood`, `StepLines` and their per-case lemmas), and the methods of `Lexer.LexicalParser` are proved equal to the functions. The lines below name them.
- ScanSpec.BlockCommentFrom: its contract bounds the end and the line only; `BlockCommentText`, `BlockCommentClosed` and `BlockCommentLines` state what it reads.
- ScanSpec.QuotedFrom: its contract bounds the end only; `QuotedText` and `QuotedClosesAt` state what it reads.
- ScanSpec.BlockCommentStep: its contract bounds the position only; `BlockCommentScanned` and `BlockCommentStepJoin` state the token and the text.
- ScanSpec.LineCommentStep: its contract bounds the position only; `LineCommentWellFormed` and `LineCommentStepJoin` state the token.
- ScanSpec.QuotedStep: its contract bounds the position only; `QuotedText` and `QuotedStepJoin` state the token.
- ScanSpec.BlankStep: its contract bounds the position only; `BlankRunFrom` and `BlankStepJoin` state the token.
- ScanSpec.NewlineStep: its contract bounds the position only; `NewlineStepJoin` and `ScanLineNumbers` state the token and the line.
- ScanSpec.SlashStep: its contract bounds the position only; `SlashStepJoin` states each of its cases.
- ScanSpec.Step: its contract bounds the position only; `StepJoin`, `StepGood`, `StepLines` and `StepExtends` state what one pass does.
- ScanSpec.ScanFrom: its contract says only that no word is left pending; `ScanFromJoin`, `ScanFromGood`, `ScanFromLines` and `ScanFromExtends` state the rest.
- ScanSpec.Scan: its contract covers only the empty input; `ScanSpellsInput`, `ScanRoundTrip`, `ScanTokensWellFormed` and `ScanLineNumbers` state the rest.
- The console output of the tests (`println`) is left out. The test that reads a data file is left out too.
