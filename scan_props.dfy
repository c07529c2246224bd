/**
 * Properties of the lexical scanner of module ScanSpec: what each sub-scanner
 * consumes and produces, the shape of every token, the order of line numbers,
 * and the text the tokens spell out again.
 */
module ScanProperties {
  import opened Tokens
  import opened ParserUtil
  import opened ScanSpec

  predicate IsQuote(c: char) {
    c == '\'' || c == '"'
  }

  /** Some star-slash starts at or after `j`. */
  predicate StarSlashFrom(s: string, j: nat) {
    exists m :: j <= m && m + 1 < |s| && s[m] == '*' && s[m + 1] == '/'
  }

  /**
   * How far a block comment's text advances the line: every CR counts, and an LF
   * counts only when no CR has been seen since the last LF.
   */
  function LineAdvance(t: string, pastCr: bool): nat
    decreases |t|
  {
    if t == [] then 0
    else if t[0] == '\r' then 1 + LineAdvance(t[1..], true)
    else if t[0] == '\n' then (if pastCr then 0 else 1) + LineAdvance(t[1..], false)
    else LineAdvance(t[1..], pastCr)
  }

  /**
   * A block comment runs to the end of input when it is not closed; when it is,
   * its text is what it started with followed by the input verbatim up to and
   * including the first star-slash at or after `j`.
   */
  lemma {:induction false} BlockCommentText(s: string, j: nat, acc: string, line: int, pastCr: bool)
    requires j <= |s|
    ensures var cs := BlockCommentFrom(s, j, acc, line, pastCr);
            (!cs.closed ==> cs.end == |s|) &&
            (cs.closed ==> j + 2 <= cs.end && cs.text == acc + s[j..cs.end] && s[cs.end - 2..cs.end] == "*/") &&
            (cs.closed ==> forall m :: j <= m < cs.end - 2 ==> !(s[m] == '*' && s[m + 1] == '/'))
    decreases |s| - j
  {
    if j < |s| {
      var c := s[j];
      if c == '*' && j + 1 < |s| && s[j + 1] == '/' {
        assert s[j..j + 2] == "*/";
      } else if !(c == '*' && j + 1 == |s|) {
        var acc' := if c == '*' then acc + "*" else acc + [c];
        var line' := if c == '\r' then line + 1 else if c == '\n' && !pastCr then line + 1 else line;
        var pastCr' := if c == '\r' then true else if c == '\n' then false else pastCr;
        assert BlockCommentFrom(s, j, acc, line, pastCr) == BlockCommentFrom(s, j + 1, acc', line', pastCr');
        BlockCommentText(s, j + 1, acc', line', pastCr');
        var cs := BlockCommentFrom(s, j + 1, acc', line', pastCr');
        if cs.closed {
          assert acc' == acc + [c];
          assert s[j..cs.end] == [c] + s[j + 1..cs.end];
        }
      }
    }
  }

  /** A block comment is closed exactly when a star-slash follows its opener. */
  lemma {:induction false} BlockCommentClosed(s: string, j: nat, acc: string, line: int, pastCr: bool)
    requires j <= |s|
    ensures BlockCommentFrom(s, j, acc, line, pastCr).closed <==> StarSlashFrom(s, j)
    decreases |s| - j
  {
    if j < |s| {
      var c := s[j];
      if c == '*' && j + 1 < |s| && s[j + 1] == '/' {
      } else if c == '*' && j + 1 == |s| {
      } else {
        var acc' := if c == '*' then acc + "*" else acc + [c];
        var line' := if c == '\r' then line + 1 else if c == '\n' && !pastCr then line + 1 else line;
        var pastCr' := if c == '\r' then true else if c == '\n' then false else pastCr;
        assert BlockCommentFrom(s, j, acc, line, pastCr) == BlockCommentFrom(s, j + 1, acc', line', pastCr');
        BlockCommentClosed(s, j + 1, acc', line', pastCr');
        if StarSlashFrom(s, j) {
          var m :| j <= m && m + 1 < |s| && s[m] == '*' && s[m + 1] == '/';
          assert m != j;
        }
      }
    }
  }

  /** The line after a block comment is the line it started on, advanced over the text it consumed. */
  lemma {:induction false} BlockCommentLines(s: string, j: nat, acc: string, line: int, pastCr: bool)
    requires j <= |s|
    ensures var cs := BlockCommentFrom(s, j, acc, line, pastCr);
            cs.line == line + LineAdvance(s[j..cs.end], pastCr)
    decreases |s| - j
  {
    if j < |s| {
      var c := s[j];
      if c == '*' && j + 1 < |s| && s[j + 1] == '/' {
        assert s[j..j + 2] == "*/";
        assert LineAdvance("*/", pastCr) == LineAdvance("/", pastCr) == LineAdvance("", pastCr) == 0 by {
          assert "*/"[1..] == "/" && "/"[1..] == "";
        }
      } else if c == '*' && j + 1 == |s| {
        assert s[j..|s|] == "*" && "*"[1..] == "";
      } else {
        var acc' := if c == '*' then acc + "*" else acc + [c];
        var line' := if c == '\r' then line + 1 else if c == '\n' && !pastCr then line + 1 else line;
        var pastCr' := if c == '\r' then true else if c == '\n' then false else pastCr;
        assert BlockCommentFrom(s, j, acc, line, pastCr) == BlockCommentFrom(s, j + 1, acc', line', pastCr');
        BlockCommentLines(s, j + 1, acc', line', pastCr');
        var cs := BlockCommentFrom(s, j + 1, acc', line', pastCr');
        assert s[j..cs.end][0] == c && s[j..cs.end][1..] == s[j + 1..cs.end];
      }
    }
  }

  /**
   * A block comment opened at `i`: closed exactly when a star-slash follows, its
   * text then the input from `i` through the star-slash (a well-formed token), and
   * never on an earlier line when it ends.
   */
  lemma BlockCommentScanned(s: string, i: nat, line: int)
    requires i + 1 < |s| && s[i] == '/' && s[i + 1] == '*'
    ensures var cs := BlockCommentFrom(s, i + 2, "/*", line, false);
            cs.line >= line && (cs.closed <==> StarSlashFrom(s, i + 2)) &&
            (!cs.closed ==> cs.end == |s|) &&
            (cs.closed ==> cs.text == s[i..cs.end] && cs.text[2..] == s[i + 2..cs.end] &&
                           (line >= 1 ==> WellFormed(TokenView(Comment(MULTI_LINE), cs.text, cs.text, line))))
  {
    var cs := BlockCommentFrom(s, i + 2, "/*", line, false);
    BlockCommentText(s, i + 2, "/*", line, false);
    BlockCommentLines(s, i + 2, "/*", line, false);
    BlockCommentClosed(s, i + 2, "/*", line, false);
    if cs.closed {
      assert s[i..i + 2] == "/*";
      assert cs.text[..2] == "/*";
      assert cs.text[|cs.text| - 2..] == s[cs.end - 2..cs.end];
    }
  }

  /**
   * The body of a quoted literal as the scanner reads it: a backslash together
   * with the character after it, whatever that is, or a single character that is
   * neither a backslash nor the delimiter `q`.
   */
  predicate QuotedBody(t: string, q: char)
    decreases |t|
  {
    t == [] ||
    (t[0] == '\\' && |t| >= 2 && QuotedBody(t[2..], q)) ||
    (t[0] != '\\' && t[0] != q && QuotedBody(t[1..], q))
  }

  /** What lies between the delimiters of a closed literal is a body. */
  lemma {:induction false} QuotedBodyFrom(s: string, j: nat, q: char, acc: string)
    requires j <= |s|
    ensures var qs := QuotedFrom(s, j, q, acc);
            qs.closed ==> j < qs.end && QuotedBody(s[j..qs.end - 1], q)
    decreases |s| - j
  {
    if j < |s| {
      if s[j] == '\\' {
        if j + 1 < |s| {
          QuotedBodyFrom(s, j + 2, q, acc + [s[j], s[j + 1]]);
          var qs := QuotedFrom(s, j + 2, q, acc + [s[j], s[j + 1]]);
          if qs.closed {
            var body := s[j..qs.end - 1];
            assert body[0] == '\\' && body[2..] == s[j + 2..qs.end - 1];
          }
        }
      } else if s[j] == q {
        assert s[j..j] == [];
      } else {
        QuotedBodyFrom(s, j + 1, q, acc + [s[j]]);
        var qs := QuotedFrom(s, j + 1, q, acc + [s[j]]);
        if qs.closed {
          var body := s[j..qs.end - 1];
          assert body[0] == s[j] && body[1..] == s[j + 1..qs.end - 1];
        }
      }
    }
  }

  /**
   * A quoted literal runs to the end of input when it is not closed; when it is,
   * its text is what it started with followed by the input verbatim up to and
   * including the closing delimiter, and what lies between is a body in which
   * every delimiter is escaped by a backslash.
   */
  lemma QuotedText(s: string, j: nat, q: char, acc: string)
    requires j <= |s|
    ensures var qs := QuotedFrom(s, j, q, acc);
            (!qs.closed ==> qs.end == |s|) &&
            (qs.closed ==> j < qs.end && qs.text == acc + s[j..qs.end] && s[qs.end - 1] == q) &&
            (qs.closed ==> QuotedBody(s[j..qs.end - 1], q))
  {
    QuotedSpan(s, j, q, acc);
    QuotedBodyFrom(s, j, q, acc);
  }

  /** The text part of `QuotedText`, by induction along the scan. */
  lemma {:induction false} QuotedSpan(s: string, j: nat, q: char, acc: string)
    requires j <= |s|
    ensures var qs := QuotedFrom(s, j, q, acc);
            (!qs.closed ==> qs.end == |s|) &&
            (qs.closed ==> j < qs.end && qs.text == acc + s[j..qs.end] && s[qs.end - 1] == q)
    decreases |s| - j
  {
    if j < |s| {
      if s[j] == '\\' {
        if j + 1 < |s| {
          QuotedSpan(s, j + 2, q, acc + [s[j], s[j + 1]]);
          var qs := QuotedFrom(s, j + 2, q, acc + [s[j], s[j + 1]]);
          if qs.closed {
            assert s[j..qs.end] == [s[j], s[j + 1]] + s[j + 2..qs.end];
          }
        }
      } else if s[j] == q {
        assert s[j..j + 1] == [q];
      } else {
        QuotedSpan(s, j + 1, q, acc + [s[j]]);
        var qs := QuotedFrom(s, j + 1, q, acc + [s[j]]);
        if qs.closed {
          assert s[j..qs.end] == [s[j]] + s[j + 1..qs.end];
        }
      }
    }
  }

  /**
   * The converse: a body followed by the delimiter closes the literal right
   * there, so an escaped delimiter never ends it and an unescaped one always does.
   */
  lemma {:induction false} QuotedClosesAt(s: string, j: nat, e: nat, q: char, acc: string)
    requires j <= e < |s| && q != '\\' && s[e] == q && QuotedBody(s[j..e], q)
    ensures QuotedFrom(s, j, q, acc) == QuotedScan(true, e + 1, acc + s[j..e + 1])
    decreases e - j
  {
    var body := s[j..e];
    if body == [] {
      assert j == e && s[j..e + 1] == [q];
    } else if body[0] == '\\' && |body| >= 2 && QuotedBody(body[2..], q) {
      assert s[j] == '\\' && body[2..] == s[j + 2..e];
      QuotedClosesAt(s, j + 2, e, q, acc + [s[j], s[j + 1]]);
      assert acc + [s[j], s[j + 1]] + s[j + 2..e + 1] == acc + s[j..e + 1];
    } else {
      assert s[j] == body[0] && body[1..] == s[j + 1..e];
      QuotedClosesAt(s, j + 1, e, q, acc + [s[j]]);
      assert acc + [s[j]] + s[j + 1..e + 1] == acc + s[j..e + 1];
    }
  }

  /** The tokens so far and the pending word spell out the first `i` characters of the input. */
  predicate Consumed(s: string, i: nat, st: ScanState)
    requires i <= |s|
  {
    JoinValues(st.tokens) + st.word == s[..i]
  }

  /**
   * The ways the scanner loses the rest of the input from `k`: a slash as the last
   * character, a block comment that is never closed, a string literal that is never
   * closed, or a run of blanks up to the end.
   */
  predicate Dropped(s: string, k: nat) {
    k < |s| &&
    (s[k..] == "/" ||
     (s[k] == '/' && k + 1 < |s| && s[k + 1] == '*' && !StarSlashFrom(s, k + 2)) ||
     (IsQuote(s[k]) && !QuotedFrom(s, k + 1, s[k], [s[k]]).closed) ||
     (forall m :: k <= m < |s| ==> IsWhitespaceWithoutLines(s[m])))
  }

  /**
   * Where the pass of the main loop that starts at `i` stops. It depends on the
   * input only, not on the lexer's fields nor on how numbers are recognised.
   */
  function StepEnd(s: string, i: nat): (e: nat)
    requires i < |s|
    ensures i < e <= |s|
  {
    Step(s, i, INITIAL, w => false).next
  }

  /** Where a block comment ends does not depend on the text, line or CR flag carried along. */
  lemma {:induction false} BlockCommentEndOf(s: string, j: nat, acc: string, line: int, pastCr: bool,
                                             acc': string, line': int, pastCr': bool)
    requires j <= |s|
    ensures BlockCommentFrom(s, j, acc, line, pastCr).end == BlockCommentFrom(s, j, acc', line', pastCr').end
    decreases |s| - j
  {
    if j < |s| && !(s[j] == '*' && j + 1 == |s|) && !(s[j] == '*' && s[j + 1] == '/') {
      var c := s[j];
      BlockCommentEndOf(s, j + 1, acc + [c], if c == '\r' || (c == '\n' && !pastCr) then line + 1 else line,
                        if c == '\r' then true else if c == '\n' then false else pastCr,
                        acc' + [c], if c == '\r' || (c == '\n' && !pastCr') then line' + 1 else line',
                        if c == '\r' then true else if c == '\n' then false else pastCr');
      assert c == '*' ==> acc + "*" == acc + [c] && acc' + "*" == acc' + [c];
      assert c == '\r' ==> acc + "\r" == acc + [c] && acc' + "\r" == acc' + [c];
      assert c == '\n' ==> acc + "\n" == acc + [c] && acc' + "\n" == acc' + [c];
    }
  }

  lemma StepEndOf(s: string, i: nat, st: ScanState, isDouble: string -> bool)
    requires i < |s|
    ensures Step(s, i, st, isDouble).next == StepEnd(s, i)
  {
    var c := s[i];
    if c == '/' {
      if i + 1 < |s| && s[i + 1] == '*' {
        BlockCommentEndOf(s, i + 2, "/*", FireWord(st, isDouble).line, false, "/*", 1, false);
      }
    } else if IsQuote(c) {
    } else if IsSpecialChar(c) {
    } else if IsWhitespaceWithoutLines(c) {
    } else if IsLineBreak(c) {
    }
  }

  /**
   * No pass of the main loop from position `i` on loses the rest of the input:
   * following the positions where the loop dispatches, none is `Dropped`.
   */
  predicate Lossless(s: string, i: nat)
    requires i <= |s|
    decreases |s| - i
  {
    i == |s| || (!Dropped(s, i) && Lossless(s, StepEnd(s, i)))
  }

  lemma EmitJoin(st: ScanState, t: TokenView)
    ensures JoinValues(Emit(st, t).tokens) == JoinValues(st.tokens) + t.value
  {
    assert (st.tokens + [t])[..|st.tokens|] == st.tokens;
  }

  /** Flushing the word moves it, unchanged, from the buffer to the tokens. */
  lemma FireWordJoin(st: ScanState, isDouble: string -> bool)
    ensures var r := FireWord(st, isDouble);
            JoinValues(r.tokens) == JoinValues(st.tokens) + st.word && r.word == []
  {
    if st.word != [] {
      var r := FireWord(st, isDouble);
      assert r.tokens[..|st.tokens|] == st.tokens;
    }
  }

  lemma SliceSplit(s: string, i: nat, j: nat)
    requires i <= j <= |s|
    ensures s[..i] + s[i..j] == s[..j]
  {
  }

  lemma ConsAt(s: string, i: nat, j: nat)
    requires i < j <= |s|
    ensures [s[i]] + s[i + 1..j] == s[i..j]
  {
  }

  /** A block comment step keeps the spelling invariant, or drops an unclosed comment. */
  lemma BlockCommentStepJoin(s: string, i: nat, st: ScanState, isDouble: string -> bool)
    requires i + 1 < |s| && s[i] == '/' && s[i + 1] == '*' && Consumed(s, i, st)
    ensures var r := BlockCommentStep(s, i + 2, FireWord(st, isDouble));
            if Dropped(s, i) then r.next == |s| && JoinValues(r.state.tokens) + r.state.word == s[..i]
            else Consumed(s, r.next, r.state)
  {
    var st1 := FireWord(st, isDouble);
    FireWordJoin(st, isDouble);
    var cs := BlockCommentFrom(s, i + 2, "/*", st1.line, false);
    BlockCommentScanned(s, i, st1.line);
    if cs.closed {
      EmitJoin(st1, TokenView(Comment(MULTI_LINE), cs.text, cs.text, st1.line));
      SliceSplit(s, i, cs.end);
    }
  }

  /** A line comment step keeps the spelling invariant. */
  lemma LineCommentStepJoin(s: string, i: nat, st: ScanState, isDouble: string -> bool)
    requires i + 1 < |s| && s[i] == '/' && s[i + 1] == '/' && Consumed(s, i, st)
    ensures var r := LineCommentStep(s, i + 2, FireWord(st, isDouble));
            Consumed(s, r.next, r.state)
  {
    var st1 := FireWord(st, isDouble);
    FireWordJoin(st, isDouble);
    var e := LineCommentEnd(s, i + 2);
    var text := "//" + s[i + 2..e];
    SlashesThen(s, i, e);
    EmitJoin(st1, TokenView(Comment(SINGLE_LINE), text, text, st1.line));
    SliceSplit(s, i, e);
  }

  /** The text of two slashes at `i` followed by the input up to `e`. */
  lemma SlashesThen(s: string, i: nat, e: nat)
    requires i + 2 <= e <= |s| && s[i] == '/' && s[i + 1] == '/'
    ensures "//" + s[i + 2..e] == s[i..e]
  {
    assert s[i..e] == s[i..i + 2] + s[i + 2..e];
    assert s[i..i + 2] == "//";
  }

  /** A quoted step keeps the spelling invariant, or drops an unclosed literal. */
  lemma QuotedStepJoin(s: string, i: nat, st: ScanState, isDouble: string -> bool)
    requires i < |s| && IsQuote(s[i]) && Consumed(s, i, st)
    ensures var r := QuotedStep(s, i + 1, s[i], FireWord(st, isDouble));
            if Dropped(s, i) then r.next == |s| && JoinValues(r.state.tokens) + r.state.word == s[..i]
            else Consumed(s, r.next, r.state)
  {
    var c := s[i];
    var st1 := FireWord(st, isDouble);
    FireWordJoin(st, isDouble);
    var qs := QuotedFrom(s, i + 1, c, [c]);
    QuotedSpan(s, i + 1, c, [c]);
    if qs.closed {
      EmitJoin(st1, TokenView(Literal(STRING), qs.text, qs.text, st1.line));
      ConsAt(s, i, qs.end);
      SliceSplit(s, i, qs.end);
    }
  }

  /** A blank step keeps the spelling invariant, or drops a trailing blank run. */
  lemma BlankStepJoin(s: string, i: nat, st: ScanState, isDouble: string -> bool)
    requires i < |s| && IsWhitespaceWithoutLines(s[i]) && Consumed(s, i, st)
    ensures var r := BlankStep(s, i + 1, s[i], FireWord(st, isDouble));
            if Dropped(s, i) then r.next == |s| && JoinValues(r.state.tokens) + r.state.word == s[..i]
            else Consumed(s, r.next, r.state)
  {
    var c := s[i];
    var st1 := FireWord(st, isDouble);
    FireWordJoin(st, isDouble);
    var e := BlankRunEnd(s, i + 1);
    ConsAt(s, i, e);
    if e < |s| {
      EmitJoin(st1, TokenView(Whitespace, [c] + s[i + 1..e], [c] + s[i + 1..e], st1.line));
      SliceSplit(s, i, e);
    }
  }

  /** A newline step keeps the spelling invariant. */
  lemma NewlineStepJoin(s: string, i: nat, st: ScanState, isDouble: string -> bool)
    requires i < |s| && IsLineBreak(s[i]) && Consumed(s, i, st)
    ensures var r := NewlineStep(s, i + 1, s[i], FireWord(st, isDouble));
            Consumed(s, r.next, r.state)
  {
    var c := s[i];
    var st1 := FireWord(st, isDouble);
    FireWordJoin(st, isDouble);
    var r := NewlineStep(s, i + 1, c, st1);
    ConsAt(s, i, r.next);
    EmitJoin(st1, TokenView(Newline, [c] + s[i + 1..r.next], [c] + s[i + 1..r.next], st1.line));
    SliceSplit(s, i, r.next);
  }

  /** The slash case of `StepJoin`: a comment, a slash added to the word, or a final slash that is lost. */
  lemma SlashStepJoin(s: string, i: nat, st: ScanState, isDouble: string -> bool)
    requires i < |s| && s[i] == '/' && Consumed(s, i, st)
    ensures var r := Step(s, i, st, isDouble);
            if Dropped(s, i) then r.next == |s| && JoinValues(r.state.tokens) + r.state.word == s[..i]
            else Consumed(s, r.next, r.state)
  {
    if i + 1 == |s| {
      assert s[i..] == "/";
    } else if s[i + 1] == '*' {
      BlockCommentStepJoin(s, i, st, isDouble);
    } else if s[i + 1] == '/' {
      LineCommentStepJoin(s, i, st, isDouble);
    } else {
      assert s[..i + 1] == s[..i] + "/";
    }
  }

  /** Nothing is lost from a position that holds neither a slash, nor a quote, nor a blank. */
  lemma NotDroppedAt(s: string, i: nat)
    requires i < |s| && s[i] != '/' && !IsQuote(s[i]) && !IsWhitespaceWithoutLines(s[i])
    ensures !Dropped(s, i)
  {
    assert s[i..][0] == s[i];
  }

  /** The special-character case of `StepJoin`: the word, then the character, become tokens. */
  lemma SpecialStepJoin(s: string, i: nat, st: ScanState, isDouble: string -> bool)
    requires i < |s| && s[i] != '/' && !IsQuote(s[i]) && IsSpecialChar(s[i]) && Consumed(s, i, st)
    ensures !Dropped(s, i) && Consumed(s, Step(s, i, st, isDouble).next, Step(s, i, st, isDouble).state)
  {
    var c := s[i];
    var st1 := FireWord(st, isDouble);
    var t := TokenView(SpecialChar, [c], [c], st1.line);
    ClassesAreDisjoint(c);
    NotDroppedAt(s, i);
    assert Step(s, i, st, isDouble) == Stepped(i + 1, Emit(st1, t));
    FireWordJoin(st, isDouble);
    EmitJoin(st1, t);
    assert s[..i + 1] == s[..i] + [c];
  }

  /**
   * One pass of the main loop keeps the spelling invariant, unless it loses the
   * rest of the input, which then starts at `i`.
   */
  lemma StepJoin(s: string, i: nat, st: ScanState, isDouble: string -> bool)
    requires i < |s| && Consumed(s, i, st)
    ensures var r := Step(s, i, st, isDouble);
            if Dropped(s, i) then r.next == |s| && JoinValues(r.state.tokens) + r.state.word == s[..i]
            else Consumed(s, r.next, r.state)
  {
    var c := s[i];
    if c == '/' {
      SlashStepJoin(s, i, st, isDouble);
    } else if IsQuote(c) {
      QuotedStepJoin(s, i, st, isDouble);
    } else if IsSpecialChar(c) {
      SpecialStepJoin(s, i, st, isDouble);
    } else if IsWhitespaceWithoutLines(c) {
      BlankStepJoin(s, i, st, isDouble);
    } else if IsLineBreak(c) {
      NewlineStepJoin(s, i, st, isDouble);
    } else {
      NotDroppedAt(s, i);
      assert s[..i + 1] == s[..i] + [c];
    }
  }

  /**
   * From a state that spells out the first `i` characters, the tokens of the
   * whole scan spell out a prefix of the input, and a shorter prefix only at a
   * place where the rest is lost; they spell out all of it exactly when nothing
   * is lost from `i` on.
   */
  lemma {:induction false} ScanFromJoin(s: string, i: nat, st: ScanState, isDouble: string -> bool)
    requires i <= |s| && Consumed(s, i, st)
    ensures var out := JoinValues(ScanFrom(s, i, st, isDouble).tokens);
            |out| <= |s| && out == s[..|out|] && (|out| == |s| || Dropped(s, |out|)) &&
            (out == s <==> Lossless(s, i))
    decreases |s| - i
  {
    if i == |s| {
      FireWordJoin(st, isDouble);
      assert s[..|s|] == s;
    } else {
      var r := Step(s, i, st, isDouble);
      StepJoin(s, i, st, isDouble);
      StepEndOf(s, i, st, isDouble);
      if Dropped(s, i) {
        assert ScanFrom(s, r.next, r.state, isDouble) == FireWord(r.state, isDouble);
        FireWordJoin(r.state, isDouble);
      } else {
        ScanFromJoin(s, r.next, r.state, isDouble);
      }
    }
  }

  /**
   * The values of the lexer's tokens, joined, give back the input up to the point
   * where it loses the rest, if it does.
   */
  lemma ScanSpellsInput(s: string, isDouble: string -> bool)
    ensures var out := JoinValues(Scan(s, isDouble));
            |out| <= |s| && out == s[..|out|] && (|out| == |s| || Dropped(s, |out|))
  {
    ScanFromJoin(s, 0, INITIAL, isDouble);
  }

  /** The values of the lexer's tokens, joined, are the input exactly when no pass of the main loop loses the rest of it. */
  lemma ScanRoundTrip(s: string, isDouble: string -> bool)
    ensures JoinValues(Scan(s, isDouble)) == s <==> Lossless(s, 0)
  {
    ScanFromJoin(s, 0, INITIAL, isDouble);
  }

  /** Text without slashes and quotes: each of its characters is a whole token, a blank run, a line break or part of a word. */
  predicate PlainText(t: string) {
    forall k :: 0 <= k < |t| ==> t[k] != '/' && !IsQuote(t[k])
  }

  /**
   * Plain text from `i` to `j` loses nothing when it ends before a quote, or at the
   * end of input on a character that is not blank.
   */
  lemma {:induction false} LosslessPlain(s: string, i: nat, j: nat)
    requires i <= j <= |s| && PlainText(s[i..j])
    requires (j < |s| && IsQuote(s[j])) || (j == |s| && (i == j || !IsWhitespaceWithoutLines(s[j - 1])))
    requires Lossless(s, j)
    ensures Lossless(s, i)
    decreases j - i
  {
    if i < j {
      var c := s[i];
      assert c == s[i..j][0];
      var m := if j < |s| then j else j - 1;
      assert i <= m < |s| && !IsWhitespaceWithoutLines(s[m]);
      assert !Dropped(s, i);
      var e := StepEnd(s, i);
      if IsWhitespaceWithoutLines(c) {
        assert e == BlankRunEnd(s, i + 1);
      } else if c == '\r' && i + 1 < |s| && s[i + 1] == '\n' {
        assert e == i + 2;
      } else {
        assert e == i + 1;
      }
      assert e <= j;
      assert forall k :: 0 <= k < j - e ==> s[e..j][k] == s[i..j][k + e - i];
      LosslessPlain(s, e, j);
    }
  }

  /** A literal from `i`, closed by the delimiter at `e`, loses nothing when nothing is lost after it. */
  lemma LosslessQuoted(s: string, i: nat, e: nat)
    requires i < e < |s| && IsQuote(s[i]) && s[e] == s[i] && QuotedBody(s[i + 1..e], s[i])
    requires Lossless(s, e + 1)
    ensures Lossless(s, i)
  {
    QuotedClosesAt(s, i + 1, e, s[i], [s[i]]);
    assert !Dropped(s, i);
    assert StepEnd(s, i) == e + 1;
  }

  /** A character that the main loop appends to the pending word. */
  predicate WordChar(c: char) {
    c == '/' || !(IsSpecialChar(c) || IsWhitespaceWithoutLines(c) || IsLineBreak(c) || IsQuote(c))
  }

  /** The shape of a token the lexer emits, by kind. */
  predicate WellFormed(t: TokenView) {
    var v := t.value;
    v == t.originalValue && v != [] && t.lineNumber >= 1 &&
    match t.kind
    case Word(reservedKeyword, systemType) =>
      !reservedKeyword && !systemType && forall k :: 0 <= k < |v| ==> WordChar(v[k])
    case Literal(literalType) =>
      (literalType == NUMBER && forall k :: 0 <= k < |v| ==> WordChar(v[k])) ||
      (literalType == STRING && |v| >= 2 && IsQuote(v[0]) && v[|v| - 1] == v[0])
    case Comment(commentType) =>
      (commentType == SINGLE_LINE && |v| >= 2 && v[..2] == "//" && forall k :: 2 <= k < |v| ==> !IsLineBreak(v[k])) ||
      (commentType == MULTI_LINE && |v| >= 4 && v[..2] == "/*" && v[|v| - 2..] == "*/")
    case Whitespace => forall k :: 0 <= k < |v| ==> IsWhitespaceWithoutLines(v[k])
    case Newline => v == "\r" || v == "\n" || v == "\r\n"
    case SpecialChar => |v| == 1 && IsSpecialChar(v[0]) && v[0] != '/'
  }

  predicate LastIsBlank(ts: seq<TokenView>) {
    ts != [] && ts[|ts| - 1].kind == Whitespace
  }

  /**
   * Every token is well formed and on a line no later than `line`, lines never go
   * down along the list, and no two blank runs are adjacent.
   */
  predicate TokensOk(ts: seq<TokenView>, line: int) {
    (forall k :: 0 <= k < |ts| ==> WellFormed(ts[k]) && ts[k].lineNumber <= line) &&
    (forall k :: 0 < k < |ts| ==> ts[k - 1].lineNumber <= ts[k].lineNumber) &&
    (forall k :: 0 < k < |ts| ==> !(ts[k - 1].kind == Whitespace && ts[k].kind == Whitespace))
  }

  /**
   * The invariant of the main loop at position `i`: the tokens are in order, the
   * word holds word characters only, and a blank run last in the list is followed
   * by a pending word, the end of input, or a character that is not blank.
   */
  predicate Good(s: string, i: nat, st: ScanState)
    requires i <= |s|
  {
    st.line >= 1 && TokensOk(st.tokens, st.line) &&
    (forall k :: 0 <= k < |st.word| ==> WordChar(st.word[k])) &&
    (LastIsBlank(st.tokens) ==> st.word != [] || i == |s| || !IsWhitespaceWithoutLines(s[i]))
  }

  /** Appending a well-formed token that is on the current line and does not make two blank runs adjacent. */
  lemma EmitOk(ts: seq<TokenView>, line: int, t: TokenView)
    requires TokensOk(ts, line) && WellFormed(t) && t.lineNumber == line
    requires !(LastIsBlank(ts) && t.kind == Whitespace)
    ensures TokensOk(ts + [t], line)
  {
  }

  lemma TokensOkLater(ts: seq<TokenView>, line: int, line': int)
    requires TokensOk(ts, line) && line <= line'
    ensures TokensOk(ts, line')
  {
  }

  /** Flushing a word of word characters keeps the tokens in order; a blank run is then last only if it was before. */
  lemma FireWordOk(st: ScanState, isDouble: string -> bool)
    requires st.line >= 1 && TokensOk(st.tokens, st.line) && forall k :: 0 <= k < |st.word| ==> WordChar(st.word[k])
    ensures var r := FireWord(st, isDouble);
            r.line == st.line && r.word == [] && TokensOk(r.tokens, r.line) &&
            (LastIsBlank(r.tokens) ==> st.word == [] && LastIsBlank(st.tokens))
  {
    if st.word != [] {
      var kind := if isDouble(st.word) then Literal(NUMBER) else Word(false, false);
      EmitOk(st.tokens, st.line, TokenView(kind, st.word, st.word, st.line));
    }
  }

  /** A block comment step keeps the invariant; a closed comment is a well-formed token at the line it started on. */
  lemma BlockCommentStepGood(s: string, i: nat, st: ScanState, isDouble: string -> bool)
    requires i + 1 < |s| && s[i] == '/' && s[i + 1] == '*' && Good(s, i, st)
    ensures var r := BlockCommentStep(s, i + 2, FireWord(st, isDouble));
            Good(s, r.next, r.state)
  {
    var st1 := FireWord(st, isDouble);
    FireWordOk(st, isDouble);
    var cs := BlockCommentFrom(s, i + 2, "/*", st1.line, false);
    BlockCommentScanned(s, i, st1.line);
    if cs.closed {
      var t := TokenView(Comment(MULTI_LINE), cs.text, cs.text, st1.line);
      EmitOk(st1.tokens, st1.line, t);
      TokensOkLater(st1.tokens + [t], st1.line, cs.line);
    } else {
      TokensOkLater(st1.tokens, st1.line, cs.line);
    }
  }

  /** A line comment step keeps the invariant; the comment holds no line break. */
  lemma LineCommentStepGood(s: string, i: nat, st: ScanState, isDouble: string -> bool)
    requires i + 1 < |s| && s[i] == '/' && s[i + 1] == '/' && Good(s, i, st)
    ensures var r := LineCommentStep(s, i + 2, FireWord(st, isDouble));
            Good(s, r.next, r.state)
  {
    var st1 := FireWord(st, isDouble);
    FireWordOk(st, isDouble);
    var e := LineCommentEnd(s, i + 2);
    var text := "//" + s[i + 2..e];
    LineCommentWellFormed(s, i + 2, st1.line);
    EmitOk(st1.tokens, st1.line, TokenView(Comment(SINGLE_LINE), text, text, st1.line));
  }

  /** A line comment is the two slashes and the text up to the line break, which holds none. */
  lemma LineCommentWellFormed(s: string, j: nat, line: int)
    requires j <= |s| && line >= 1
    ensures var text := "//" + s[j..LineCommentEnd(s, j)];
            WellFormed(TokenView(Comment(SINGLE_LINE), text, text, line))
  {
    var e := LineCommentEnd(s, j);
    var text := "//" + s[j..e];
    assert text[..2] == "//";
    assert forall k :: 2 <= k < |text| ==> text[k] == s[j + k - 2];
  }

  /** A quoted step keeps the invariant; a closed literal starts and ends with its delimiter. */
  lemma QuotedStepGood(s: string, i: nat, st: ScanState, isDouble: string -> bool)
    requires i < |s| && IsQuote(s[i]) && Good(s, i, st)
    ensures var r := QuotedStep(s, i + 1, s[i], FireWord(st, isDouble));
            Good(s, r.next, r.state)
  {
    var c := s[i];
    var st1 := FireWord(st, isDouble);
    FireWordOk(st, isDouble);
    var qs := QuotedFrom(s, i + 1, c, [c]);
    QuotedSpan(s, i + 1, c, [c]);
    if qs.closed {
      assert qs.text[|qs.text| - 1] == s[qs.end - 1];
      EmitOk(st1.tokens, st1.line, TokenView(Literal(STRING), qs.text, qs.text, st1.line));
    }
  }

  /**
   * A blank step keeps the invariant: the run is a token only when a non-blank
   * follows, and the token before it is not a blank run.
   */
  lemma BlankStepGood(s: string, i: nat, st: ScanState, isDouble: string -> bool)
    requires i < |s| && IsWhitespaceWithoutLines(s[i]) && Good(s, i, st)
    ensures var r := BlankStep(s, i + 1, s[i], FireWord(st, isDouble));
            Good(s, r.next, r.state)
  {
    var c := s[i];
    var st1 := FireWord(st, isDouble);
    FireWordOk(st, isDouble);
    var e := BlankRunEnd(s, i + 1);
    if e < |s| {
      var text := [c] + s[i + 1..e];
      assert forall k :: 1 <= k < |text| ==> text[k] == s[i + k];
      EmitOk(st1.tokens, st1.line, TokenView(Whitespace, text, text, st1.line));
    }
  }

  /** A newline step keeps the invariant and moves to the next line. */
  lemma NewlineStepGood(s: string, i: nat, st: ScanState, isDouble: string -> bool)
    requires i < |s| && IsLineBreak(s[i]) && Good(s, i, st)
    ensures var r := NewlineStep(s, i + 1, s[i], FireWord(st, isDouble));
            Good(s, r.next, r.state)
  {
    var c := s[i];
    var st1 := FireWord(st, isDouble);
    FireWordOk(st, isDouble);
    var r := NewlineStep(s, i + 1, c, st1);
    var text := [c] + s[i + 1..r.next];
    assert text == [c] || text == [c, s[i + 1]];
    var t := TokenView(Newline, text, text, st1.line);
    EmitOk(st1.tokens, st1.line, t);
    TokensOkLater(st1.tokens + [t], st1.line, st1.line + 1);
  }

  /** One pass of the main loop keeps the invariant. */
  lemma StepGood(s: string, i: nat, st: ScanState, isDouble: string -> bool)
    requires i < |s| && Good(s, i, st)
    ensures var r := Step(s, i, st, isDouble);
            Good(s, r.next, r.state)
  {
    var c := s[i];
    if c == '/' {
      if i + 1 < |s| && s[i + 1] == '*' {
        BlockCommentStepGood(s, i, st, isDouble);
      } else if i + 1 < |s| && s[i + 1] == '/' {
        LineCommentStepGood(s, i, st, isDouble);
      }
    } else if IsQuote(c) {
      QuotedStepGood(s, i, st, isDouble);
    } else if IsSpecialChar(c) {
      var st1 := FireWord(st, isDouble);
      FireWordOk(st, isDouble);
      EmitOk(st1.tokens, st1.line, TokenView(SpecialChar, [c], [c], st1.line));
    } else if IsWhitespaceWithoutLines(c) {
      BlankStepGood(s, i, st, isDouble);
    } else if IsLineBreak(c) {
      NewlineStepGood(s, i, st, isDouble);
    }
  }

  /** From a state that keeps the invariant, the tokens of the whole scan are in order. */
  lemma {:induction false} ScanFromGood(s: string, i: nat, st: ScanState, isDouble: string -> bool)
    requires i <= |s| && Good(s, i, st)
    ensures var r := ScanFrom(s, i, st, isDouble);
            TokensOk(r.tokens, r.line)
    decreases |s| - i
  {
    if i == |s| {
      FireWordOk(st, isDouble);
    } else {
      var r := Step(s, i, st, isDouble);
      StepGood(s, i, st, isDouble);
      ScanFromGood(s, r.next, r.state, isDouble);
    }
  }

  /**
   * The lexer's fields moved from `st` to `r` the way the lexer moves them:
   * tokens are only appended, the line never goes back, and every new token
   * lies on a line from the old current line to the new one.
   */
  predicate Extends(st: ScanState, r: ScanState) {
    st.tokens <= r.tokens && st.line <= r.line &&
    forall k :: |st.tokens| <= k < |r.tokens| ==> st.line <= r.tokens[k].lineNumber <= r.line
  }

  lemma ExtendsTrans(a: ScanState, b: ScanState, c: ScanState)
    requires Extends(a, b) && Extends(b, c)
    ensures Extends(a, c)
  {
    forall k | |a.tokens| <= k < |c.tokens|
      ensures a.line <= c.tokens[k].lineNumber <= c.line
    {
      if k < |b.tokens| {
        assert c.tokens[k] == b.tokens[k];
      }
    }
  }

  /** One pass of the main loop only appends tokens, on lines between the current line before and after it. */
  lemma StepExtends(s: string, i: nat, st: ScanState, isDouble: string -> bool)
    requires i < |s|
    ensures Extends(st, Step(s, i, st, isDouble).state)
  {
    var st1 := FireWord(st, isDouble);
    assert Extends(st, st1);
    var c := s[i];
    if c == '/' && i + 1 < |s| && (s[i + 1] == '*' || s[i + 1] == '/') {
      ExtendsTrans(st, st1, Step(s, i, st, isDouble).state);
    } else if c == '/' {
    } else if IsQuote(c) || IsSpecialChar(c) || IsWhitespaceWithoutLines(c) || IsLineBreak(c) {
      ExtendsTrans(st, st1, Step(s, i, st, isDouble).state);
    }
  }

  /** The whole main loop, with the final `fireWord`, only appends tokens, each on a line between the first and the last current line. */
  lemma {:induction false} ScanFromExtends(s: string, i: nat, st: ScanState, isDouble: string -> bool)
    requires i <= |s|
    ensures Extends(st, ScanFrom(s, i, st, isDouble))
    decreases |s| - i
  {
    if i < |s| {
      var r := Step(s, i, st, isDouble);
      StepExtends(s, i, st, isDouble);
      ScanFromExtends(s, r.next, r.state, isDouble);
      ExtendsTrans(st, r.state, ScanFrom(s, i, st, isDouble));
    }
  }

  /**
   * Every token of a scan has the shape its kind calls for (a word of word
   * characters, a literal between matching quotes, a comment with its markers, a
   * blank run, one line break, one special character other than slash), keeps its
   * original value, has a line number of at least one that never goes down along
   * the list, and no two blank runs are adjacent.
   */
  lemma ScanTokensWellFormed(s: string, isDouble: string -> bool)
    ensures var ts := Scan(s, isDouble);
            (forall k :: 0 <= k < |ts| ==> WellFormed(ts[k])) &&
            (forall k :: 0 < k < |ts| ==> ts[k - 1].lineNumber <= ts[k].lineNumber) &&
            (forall k :: 0 < k < |ts| ==> !(ts[k - 1].kind == Whitespace && ts[k].kind == Whitespace))
  {
    ScanFromGood(s, 0, INITIAL, isDouble);
  }

  /**
   * Text the main loop keeps in the pending word: word characters, where a slash
   * is neither last nor followed by a star or a slash.
   */
  predicate WordText(s: string) {
    (forall k :: 0 <= k < |s| ==> WordChar(s[k])) &&
    (forall k :: 0 <= k < |s| && s[k] == '/' ==> k + 1 < |s| && s[k + 1] != '*' && s[k + 1] != '/')
  }

  lemma {:induction false} WordFrom(s: string, i: nat, isDouble: string -> bool)
    requires i <= |s| && WordText(s)
    ensures ScanFrom(s, i, ScanState([], 1, s[..i]), isDouble) == FireWord(ScanState([], 1, s), isDouble)
    decreases |s| - i
  {
    if i == |s| {
      assert s[..i] == s;
    } else {
      assert s[..i + 1] == s[..i] + [s[i]];
      WordFrom(s, i + 1, isDouble);
    }
  }

  /** Such a text scans to one token at line 1: a NUMBER literal when `isDouble` accepts it, else a word. */
  lemma ScanWordText(s: string, isDouble: string -> bool)
    requires s != [] && WordText(s)
    ensures Scan(s, isDouble) == [TokenView(if isDouble(s) then Literal(NUMBER) else Word(false, false), s, s, 1)]
  {
    WordFrom(s, 0, isDouble);
  }

  /** Word characters other than slash. */
  predicate PlainWord(w: string) {
    forall k :: 0 <= k < |w| ==> w[k] != '/' && WordChar(w[k])
  }

  /** A run of word characters other than slash goes into the pending word unchanged. */
  lemma {:induction false} WordRunFrom(s: string, i: nat, j: nat, st: ScanState, isDouble: string -> bool)
    requires i <= j <= |s| && PlainWord(s[i..j])
    ensures ScanFrom(s, i, st, isDouble) == ScanFrom(s, j, st.(word := st.word + s[i..j]), isDouble)
    decreases j - i
  {
    if i == j {
      assert st.word + s[i..j] == st.word;
    } else {
      var st' := st.(word := st.word + [s[i]]);
      assert s[i] == s[i..j][0] && s[i + 1..j] == s[i..j][1..];
      WordRunFrom(s, i + 1, j, st', isDouble);
      assert st.word + [s[i]] + s[i + 1..j] == st.word + s[i..j];
    }
  }

  /**
   * A special character other than slash flushes the word and becomes a token of
   * its own. This is one unfolding of `Step`, kept as a step for the worked runs
   * of the examples.
   */
  lemma SpecialCharFrom(s: string, i: nat, st: ScanState, isDouble: string -> bool)
    requires i < |s| && IsSpecialChar(s[i]) && s[i] != '/'
    ensures ScanFrom(s, i, st, isDouble) ==
            ScanFrom(s, i + 1, Emit(FireWord(st, isDouble), TokenView(SpecialChar, [s[i]], [s[i]], st.line)), isDouble)
  {
  }

  /** A blank run followed by a non-blank flushes the word and becomes one token. */
  lemma BlankRunFrom(s: string, i: nat, j: nat, st: ScanState, isDouble: string -> bool)
    requires i < j < |s| && !IsWhitespaceWithoutLines(s[j])
    requires forall k :: i <= k < j ==> IsWhitespaceWithoutLines(s[k])
    ensures ScanFrom(s, i, st, isDouble) ==
            ScanFrom(s, j, Emit(FireWord(st, isDouble), TokenView(Whitespace, s[i..j], s[i..j], st.line)), isDouble)
  {
    ClassesAreDisjoint(s[i]);
    var st1 := FireWord(st, isDouble);
    assert Step(s, i, st, isDouble) == BlankStep(s, i + 1, s[i], st1);
    assert BlankRunEnd(s, i + 1) == j;
    assert [s[i]] + s[i + 1..j] == s[i..j];
    assert BlankStep(s, i + 1, s[i], st1) == Stepped(j, Emit(st1, TokenView(Whitespace, s[i..j], s[i..j], st.line)));
  }

  /** The line breaks a token accounts for: one for a newline token, those in the body of a block comment. */
  function Advance(t: TokenView): nat {
    if t.kind == Newline then 1
    else if t.kind == Comment(MULTI_LINE) && |t.value| >= 2 then LineAdvance(t.value[2..], false)
    else 0
  }

  /** The line breaks a list of tokens accounts for. */
  function LinesIn(ts: seq<TokenView>): nat {
    if ts == [] then 0 else LinesIn(ts[..|ts| - 1]) + Advance(ts[|ts| - 1])
  }

  /** Every token is on line one plus the line breaks of the tokens before it, stated from the end of the list. */
  predicate LinesCounted(ts: seq<TokenView>) {
    ts == [] ||
    (LinesCounted(ts[..|ts| - 1]) && ts[|ts| - 1].lineNumber == 1 + LinesIn(ts[..|ts| - 1]))
  }

  /** The same, token by token. */
  lemma {:induction false} LinesCountedAt(ts: seq<TokenView>)
    requires LinesCounted(ts)
    ensures forall k :: 0 <= k < |ts| ==> ts[k].lineNumber == 1 + LinesIn(ts[..k])
  {
    if ts != [] {
      var init := ts[..|ts| - 1];
      LinesCountedAt(init);
      forall k | 0 <= k < |ts|
        ensures ts[k].lineNumber == 1 + LinesIn(ts[..k])
      {
        if k < |init| {
          assert ts[k] == init[k] && ts[..k] == init[..k];
        }
      }
    }
  }

  /**
   * The line-count invariant of the main loop: the tokens' lines are counted, and
   * the current line follows the last token, except after a block comment that
   * ran to the end of input unclosed.
   */
  predicate Lines(s: string, i: nat, st: ScanState) {
    LinesCounted(st.tokens) && (st.line == 1 + LinesIn(st.tokens) || (i == |s| && st.word == []))
  }

  lemma EmitLines(ts: seq<TokenView>, t: TokenView)
    requires LinesCounted(ts) && t.lineNumber == 1 + LinesIn(ts)
    ensures LinesCounted(ts + [t]) && LinesIn(ts + [t]) == LinesIn(ts) + Advance(t)
  {
    assert (ts + [t])[..|ts|] == ts;
  }

  /** Appending a token that accounts for no line break, on the current line, keeps the invariant. */
  lemma EmitKeepsLines(s: string, j: nat, st: ScanState, t: TokenView)
    requires LinesCounted(st.tokens) && st.line == 1 + LinesIn(st.tokens)
    requires t.lineNumber == st.line && Advance(t) == 0
    ensures Lines(s, j, Emit(st, t))
  {
    EmitLines(st.tokens, t);
  }

  /** Appending a token on the current line and moving past its line breaks keeps the invariant. */
  lemma EmitAdvancesLines(s: string, j: nat, st: ScanState, t: TokenView, line: int)
    requires LinesCounted(st.tokens) && st.line == 1 + LinesIn(st.tokens)
    requires t.lineNumber == st.line && line == st.line + Advance(t)
    ensures Lines(s, j, ScanState(st.tokens + [t], line, st.word))
  {
    EmitLines(st.tokens, t);
  }

  lemma FireWordLines(st: ScanState, isDouble: string -> bool)
    requires LinesCounted(st.tokens) && st.line == 1 + LinesIn(st.tokens)
    ensures var r := FireWord(st, isDouble);
            LinesCounted(r.tokens) && r.line == 1 + LinesIn(r.tokens)
  {
    if st.word != [] {
      var kind := if isDouble(st.word) then Literal(NUMBER) else Word(false, false);
      EmitLines(st.tokens, TokenView(kind, st.word, st.word, st.line));
    }
  }

  /** A closed block comment accounts for the line breaks in its body. */
  lemma BlockCommentStepLines(s: string, i: nat, st: ScanState, isDouble: string -> bool)
    requires i + 1 < |s| && s[i] == '/' && s[i + 1] == '*'
    requires LinesCounted(st.tokens) && st.line == 1 + LinesIn(st.tokens)
    ensures var r := BlockCommentStep(s, i + 2, FireWord(st, isDouble));
            Lines(s, r.next, r.state)
  {
    var st1 := FireWord(st, isDouble);
    FireWordLines(st, isDouble);
    var cs := BlockCommentFrom(s, i + 2, "/*", st1.line, false);
    BlockCommentText(s, i + 2, "/*", st1.line, false);
    BlockCommentLines(s, i + 2, "/*", st1.line, false);
    if cs.closed {
      var t := TokenView(Comment(MULTI_LINE), cs.text, cs.text, st1.line);
      assert cs.text[2..] == s[i + 2..cs.end];
      EmitAdvancesLines(s, cs.end, st1, t, cs.line);
    }
  }

  /** A newline token accounts for one line break. */
  lemma NewlineStepLines(s: string, i: nat, st: ScanState, isDouble: string -> bool)
    requires i < |s| && IsLineBreak(s[i])
    requires LinesCounted(st.tokens) && st.line == 1 + LinesIn(st.tokens)
    ensures var r := NewlineStep(s, i + 1, s[i], FireWord(st, isDouble));
            Lines(s, r.next, r.state)
  {
    var st1 := FireWord(st, isDouble);
    FireWordLines(st, isDouble);
    var r := NewlineStep(s, i + 1, s[i], st1);
    EmitLines(st1.tokens, r.state.tokens[|st1.tokens|]);
    assert r.state.tokens == st1.tokens + [r.state.tokens[|st1.tokens|]];
  }

  /** A line comment holds no line break. */
  lemma LineCommentStepLines(s: string, i: nat, st: ScanState, isDouble: string -> bool)
    requires i + 1 < |s| && s[i] == '/' && s[i + 1] == '/'
    requires LinesCounted(st.tokens) && st.line == 1 + LinesIn(st.tokens)
    ensures var r := LineCommentStep(s, i + 2, FireWord(st, isDouble));
            Lines(s, r.next, r.state)
  {
    var st1 := FireWord(st, isDouble);
    FireWordLines(st, isDouble);
    var e := LineCommentEnd(s, i + 2);
    EmitKeepsLines(s, e, st1, TokenView(Comment(SINGLE_LINE), "//" + s[i + 2..e], "//" + s[i + 2..e], st1.line));
  }

  /** A string literal accounts for no line break, whatever it holds. */
  lemma QuotedStepLines(s: string, i: nat, st: ScanState, isDouble: string -> bool)
    requires i < |s| && IsQuote(s[i])
    requires LinesCounted(st.tokens) && st.line == 1 + LinesIn(st.tokens)
    ensures var r := QuotedStep(s, i + 1, s[i], FireWord(st, isDouble));
            Lines(s, r.next, r.state)
  {
    var c := s[i];
    var st1 := FireWord(st, isDouble);
    FireWordLines(st, isDouble);
    var qs := QuotedFrom(s, i + 1, c, [c]);
    QuotedSpan(s, i + 1, c, [c]);
    if qs.closed {
      EmitKeepsLines(s, qs.end, st1, TokenView(Literal(STRING), qs.text, qs.text, st1.line));
    }
  }

  lemma BlankStepLines(s: string, i: nat, st: ScanState, isDouble: string -> bool)
    requires i < |s| && IsWhitespaceWithoutLines(s[i])
    requires LinesCounted(st.tokens) && st.line == 1 + LinesIn(st.tokens)
    ensures var r := BlankStep(s, i + 1, s[i], FireWord(st, isDouble));
            Lines(s, r.next, r.state)
  {
    var c := s[i];
    var st1 := FireWord(st, isDouble);
    FireWordLines(st, isDouble);
    var e := BlankRunEnd(s, i + 1);
    if e < |s| {
      EmitKeepsLines(s, e, st1, TokenView(Whitespace, [c] + s[i + 1..e], [c] + s[i + 1..e], st1.line));
    }
  }

  /** One pass of the main loop keeps the line-count invariant. */
  lemma StepLines(s: string, i: nat, st: ScanState, isDouble: string -> bool)
    requires i < |s| && Lines(s, i, st)
    ensures var r := Step(s, i, st, isDouble);
            Lines(s, r.next, r.state)
  {
    var c := s[i];
    if c == '/' {
      if i + 1 < |s| && s[i + 1] == '*' {
        BlockCommentStepLines(s, i, st, isDouble);
      } else if i + 1 < |s| && s[i + 1] == '/' {
        LineCommentStepLines(s, i, st, isDouble);
      }
    } else if IsQuote(c) {
      QuotedStepLines(s, i, st, isDouble);
    } else if IsSpecialChar(c) {
      var st1 := FireWord(st, isDouble);
      FireWordLines(st, isDouble);
      EmitKeepsLines(s, i + 1, st1, TokenView(SpecialChar, [c], [c], st1.line));
    } else if IsWhitespaceWithoutLines(c) {
      BlankStepLines(s, i, st, isDouble);
    } else if IsLineBreak(c) {
      NewlineStepLines(s, i, st, isDouble);
    }
  }

  lemma {:induction false} ScanFromLines(s: string, i: nat, st: ScanState, isDouble: string -> bool)
    requires i <= |s| && Lines(s, i, st)
    ensures LinesCounted(ScanFrom(s, i, st, isDouble).tokens)
    decreases |s| - i
  {
    if i == |s| {
      if st.word != [] {
        FireWordLines(st, isDouble);
      }
    } else {
      var r := Step(s, i, st, isDouble);
      StepLines(s, i, st, isDouble);
      ScanFromLines(s, r.next, r.state, isDouble);
    }
  }

  /**
   * The line number of every token is one plus the line breaks of the newline
   * tokens and block comments before it: line breaks inside string literals are
   * never counted, and a CR LF inside a block comment counts once.
   */
  lemma ScanLineNumbers(s: string, isDouble: string -> bool)
    ensures var ts := Scan(s, isDouble);
            forall k :: 0 <= k < |ts| ==> ts[k].lineNumber == 1 + LinesIn(ts[..k])
  {
    ScanFromLines(s, 0, INITIAL, isDouble);
    LinesCountedAt(Scan(s, isDouble));
  }
}
