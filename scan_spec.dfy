/**
 * The lexical scanner as functions on values: what one pass of the main read
 * loop does, and what each sub-scanner (block comment, line comment, quoted
 * literal, blank run, newline) consumes and produces. The imperative lexer in
 * module Lexer is proved to compute exactly these.
 */
module ScanSpec {
  import opened Tokens
  import opened ParserUtil

  /** The lexer's fields: tokens so far, the current line, the pending word. */
  datatype ScanState = ScanState(tokens: seq<TokenView>, line: int, word: string)

  /** A fresh lexer: no tokens, line 1, empty word. */
  const INITIAL: ScanState := ScanState([], 1, [])

  predicate IsLineBreak(c: char) {
    c == '\n' || c == '\r'
  }

  /** Appends one token. */
  function Emit(st: ScanState, t: TokenView): ScanState {
    st.(tokens := st.tokens + [t])
  }

  /** `fireWord`: a pending word becomes a NUMBER literal when `isDouble` accepts it, else a WORD. */
  function FireWord(st: ScanState, isDouble: string -> bool): (r: ScanState)
    ensures r.word == [] && r.line == st.line
    ensures |r.tokens| == |st.tokens| + (if st.word == [] then 0 else 1)
    ensures r.tokens[..|st.tokens|] == st.tokens
    ensures st.word != [] ==>
              var t := r.tokens[|st.tokens|];
              t.value == st.word && t.originalValue == st.word && t.lineNumber == st.line &&
              (t.kind == Literal(NUMBER) <==> isDouble(st.word)) &&
              (t.kind == Word(false, false) <==> !isDouble(st.word))
  {
    if st.word == [] then st
    else
      var kind := if isDouble(st.word) then Literal(NUMBER) else Word(false, false);
      ScanState(st.tokens + [TokenView(kind, st.word, st.word, st.line)], st.line, [])
  }

  /** What a block-comment scan ends with: whether the closing star-slash was found, where it stopped, the text, the line. */
  datatype CommentScan = CommentScan(closed: bool, end: nat, text: string, line: int)

  /**
   * The loop of `parseMultilineComment` from position `i`, with text `acc` so far,
   * the current line and the CR flag.
   */
  function BlockCommentFrom(s: string, i: nat, acc: string, line: int, pastCr: bool): (r: CommentScan)
    requires i <= |s|
    ensures i <= r.end <= |s|
    ensures line <= r.line
    decreases |s| - i
  {
    if i == |s| then CommentScan(false, i, acc, line)
    else if s[i] == '*' then
      if i + 1 == |s| then CommentScan(false, |s|, acc, line)
      else if s[i + 1] == '/' then CommentScan(true, i + 2, acc + "*/", line)
      else BlockCommentFrom(s, i + 1, acc + "*", line, pastCr)
    else if s[i] == '\r' then BlockCommentFrom(s, i + 1, acc + "\r", line + 1, true)
    else if s[i] == '\n' then BlockCommentFrom(s, i + 1, acc + "\n", if pastCr then line else line + 1, false)
    else BlockCommentFrom(s, i + 1, acc + [s[i]], line, pastCr)
  }

  /** End of a line comment's text: the first CR or LF at or after `i`, or the end of input. */
  function LineCommentEnd(s: string, i: nat): (e: nat)
    requires i <= |s|
    ensures i <= e <= |s|
    ensures forall k :: i <= k < e ==> !IsLineBreak(s[k])
    ensures e < |s| ==> IsLineBreak(s[e])
    decreases |s| - i
  {
    if i == |s| || IsLineBreak(s[i]) then i else LineCommentEnd(s, i + 1)
  }

  /** What a quoted-literal scan ends with: whether the delimiter was found, where it stopped, the text. */
  datatype QuotedScan = QuotedScan(closed: bool, end: nat, text: string)

  /**
   * The loop of `parseStringLiteral` (delimiter `'`) and `parseStringLiteralForSOQL`
   * (delimiter `"`) from position `i`, with text `acc` so far.
   */
  function QuotedFrom(s: string, i: nat, q: char, acc: string): (r: QuotedScan)
    requires i <= |s|
    ensures i <= r.end <= |s|
    decreases |s| - i
  {
    if i == |s| then QuotedScan(false, i, acc)
    else if s[i] == '\\' then
      if i + 1 == |s| then QuotedScan(false, |s|, acc + "\\")
      else QuotedFrom(s, i + 2, q, acc + [s[i], s[i + 1]])
    else if s[i] == q then QuotedScan(true, i + 1, acc + [q])
    else QuotedFrom(s, i + 1, q, acc + [s[i]])
  }

  /** End of a blank run: the first non-blank at or after `i`, or the end of input. */
  function BlankRunEnd(s: string, i: nat): (e: nat)
    requires i <= |s|
    ensures i <= e <= |s|
    ensures forall k :: i <= k < e ==> IsWhitespaceWithoutLines(s[k])
    ensures e < |s| ==> !IsWhitespaceWithoutLines(s[e])
    decreases |s| - i
  {
    if i == |s| || !IsWhitespaceWithoutLines(s[i]) then i else BlankRunEnd(s, i + 1)
  }

  /** Where one pass of the main loop stops, and the lexer's fields afterwards. */
  datatype Stepped = Stepped(next: nat, state: ScanState)

  /**
   * `parseMultilineComment` from `j`, just after the opening slash-star: the comment
   * becomes a token at the line it started on only when it is closed; the line
   * advances over its line breaks.
   */
  function BlockCommentStep(s: string, j: nat, st: ScanState): (r: Stepped)
    requires j <= |s|
    ensures j <= r.next <= |s|
  {
    var cs := BlockCommentFrom(s, j, "/*", st.line, false);
    var tokens := if cs.closed then st.tokens + [TokenView(Comment(MULTI_LINE), cs.text, cs.text, st.line)]
                  else st.tokens;
    Stepped(cs.end, ScanState(tokens, cs.line, st.word))
  }

  /** `parseSinglelineComment` from `j`, just after the two slashes: the line break is left unread. */
  function LineCommentStep(s: string, j: nat, st: ScanState): (r: Stepped)
    requires j <= |s|
    ensures j <= r.next <= |s|
  {
    var e := LineCommentEnd(s, j);
    var text := "//" + s[j..e];
    Stepped(e, Emit(st, TokenView(Comment(SINGLE_LINE), text, text, st.line)))
  }

  /** A quoted literal from `j`, just after the opening `q`: a token only when it is closed. */
  function QuotedStep(s: string, j: nat, q: char, st: ScanState): (r: Stepped)
    requires j <= |s|
    ensures j <= r.next <= |s|
  {
    var qs := QuotedFrom(s, j, q, [q]);
    Stepped(qs.end, if qs.closed then Emit(st, TokenView(Literal(STRING), qs.text, qs.text, st.line)) else st)
  }

  /**
   * `parseWhitespaceWithoutlines` from `j`, just after the blank `c`: the run becomes
   * a token only when a non-blank follows it; that character is left unread.
   */
  function BlankStep(s: string, j: nat, c: char, st: ScanState): (r: Stepped)
    requires j <= |s|
    ensures j <= r.next <= |s|
  {
    var e := BlankRunEnd(s, j);
    var text := [c] + s[j..e];
    Stepped(e, if e < |s| then Emit(st, TokenView(Whitespace, text, text, st.line)) else st)
  }

  /** `parseNewlines` from `j`, just after the line break `c`: CR LF is one token; the line advances by one. */
  function NewlineStep(s: string, j: nat, c: char, st: ScanState): (r: Stepped)
    requires j <= |s|
    ensures j <= r.next <= j + 1
  {
    var e := if c == '\r' && j < |s| && s[j] == '\n' then j + 1 else j;
    var text := [c] + s[j..e];
    Stepped(e, ScanState(st.tokens + [TokenView(Newline, text, text, st.line)], st.line + 1, st.word))
  }

  /**
   * A slash, read just before `j`: the opener of a block or line comment, part of
   * the word when another character follows, dropped at the end of input.
   */
  function SlashStep(s: string, j: nat, st: ScanState, isDouble: string -> bool): (r: Stepped)
    requires 0 < j <= |s|
    ensures j <= r.next <= |s|
  {
    if j == |s| then Stepped(j, st)
    else if s[j] == '*' then BlockCommentStep(s, j + 1, FireWord(st, isDouble))
    else if s[j] == '/' then LineCommentStep(s, j + 1, FireWord(st, isDouble))
    else Stepped(j, st.(word := st.word + "/"))
  }

  /** One pass of the main read loop of `parse`, dispatching on the character at `i`. */
  function Step(s: string, i: nat, st: ScanState, isDouble: string -> bool): (r: Stepped)
    requires i < |s|
    ensures i < r.next <= |s|
  {
    var c := s[i];
    if c == '/' then SlashStep(s, i + 1, st, isDouble)
    else if c == '\'' || c == '"' then QuotedStep(s, i + 1, c, FireWord(st, isDouble))
    else if IsSpecialChar(c) then
      var st1 := FireWord(st, isDouble);
      Stepped(i + 1, Emit(st1, TokenView(SpecialChar, [c], [c], st1.line)))
    else if IsWhitespaceWithoutLines(c) then BlankStep(s, i + 1, c, FireWord(st, isDouble))
    else if IsLineBreak(c) then NewlineStep(s, i + 1, c, FireWord(st, isDouble))
    else Stepped(i + 1, st.(word := st.word + [c]))
  }

  /** The main loop of `parse` from position `i` to the end of input, ending with the final `fireWord`. */
  function ScanFrom(s: string, i: nat, st: ScanState, isDouble: string -> bool): (r: ScanState)
    requires i <= |s|
    ensures r.word == []
    decreases |s| - i
  {
    if i == |s| then FireWord(st, isDouble)
    else
      var r := Step(s, i, st, isDouble);
      ScanFrom(s, r.next, r.state, isDouble)
  }

  /** The tokens a fresh lexer produces for the whole of `s`. */
  function Scan(s: string, isDouble: string -> bool): (ts: seq<TokenView>)
    ensures s == [] ==> ts == []
  {
    ScanFrom(s, 0, INITIAL, isDouble).tokens
  }
}
