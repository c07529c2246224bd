/**
 * The lexical parser: a single forward pass over a reader with one character of
 * pushback. Its state is the token list, the current line number and the
 * pending word. Every method is proved to compute what the functions of
 * module ScanSpec say.
 */
module Lexer {
  import opened Wrappers
  import opened Tokens
  import opened ParserUtil
  import opened ScanSpec
  import opened Reading

  class LexicalParser {
    var tokenList: seq<Token>
    var lineNumber: int
    var strbufWord: string
    /** Stands for `Double.parseDouble` succeeding on the whole string. */
    const isDouble: string -> bool
    /** The tokens as values, kept beside the list. */
    ghost var views: seq<TokenView>

    ghost predicate Valid()
      reads this, tokenList
    {
      Distinct(tokenList) && |views| == |tokenList| &&
      forall i :: 0 <= i < |tokenList| ==> tokenList[i].View() == views[i]
    }

    /** The lexer's fields as a value. */
    ghost function State(): ScanState
      reads this
    {
      ScanState(views, lineNumber, strbufWord)
    }

    /** Tokens are only ever appended, and every appended token is a new object. */
    twostate predicate OnlyAppendsFresh()
      reads this
    {
      old(tokenList) <= tokenList &&
      forall i :: |old(tokenList)| <= i < |tokenList| ==> fresh(tokenList[i])
    }

    constructor (isDouble: string -> bool)
      ensures Valid() && State() == INITIAL && this.isDouble == isDouble
      ensures tokenList == []
    {
      tokenList := [];
      lineNumber := 1;
      strbufWord := [];
      views := [];
      this.isDouble := isDouble;
    }

    /** `tokenList.add`: appends a token not yet in the list. */
    method Add(t: Token)
      requires Valid() && t !in tokenList
      modifies this
      ensures Valid() && tokenList == old(tokenList) + [t]
      ensures lineNumber == old(lineNumber) && strbufWord == old(strbufWord)
      ensures State() == Emit(old(State()), t.View())
    {
      ViewsAppend(tokenList, t);
      tokenList := tokenList + [t];
      views := views + [t.View()];
    }

    /** `fireWord`: flushes the pending word as a NUMBER literal or a WORD and clears it. */
    method FireWord()
      requires Valid()
      modifies this
      ensures Valid() && OnlyAppendsFresh()
      ensures State() == ScanSpec.FireWord(old(State()), isDouble)
    {
      if |strbufWord| > 0 {
        if isDouble(strbufWord) {
          var newToken := new Token.Literal(strbufWord, lineNumber, NUMBER);
          Add(newToken);
        } else {
          var newToken := new Token.Word(strbufWord, lineNumber);
          Add(newToken);
        }
        strbufWord := [];
      }
    }

    /** `parseMultilineComment`, entered just after the opening slash-star. */
    method ParseMultilineComment(reader: Reader)
      requires Valid() && reader.Valid()
      modifies this, reader
      ensures Valid() && reader.Valid() && OnlyAppendsFresh()
      ensures var r := BlockCommentStep(reader.text, old(reader.pos), old(State()));
              reader.pos == r.next && State() == r.state
    {
      ghost var s, p0 := reader.text, reader.pos;
      var startTimeLineNumber := lineNumber;
      var strbuf := "/*";
      var isPastCr := false;
      while true
        invariant reader.Valid() && p0 <= reader.pos
        invariant tokenList == old(tokenList) && views == old(views) && strbufWord == old(strbufWord)
        invariant BlockCommentFrom(s, reader.pos, strbuf, lineNumber, isPastCr)
               == BlockCommentFrom(s, p0, "/*", startTimeLineNumber, false)
        decreases |s| - reader.pos
      {
        reader.Mark();
        var iRead := reader.Read();
        if iRead.None? {
          break;
        }
        var cRead := iRead.value;
        if cRead == '*' {
          reader.Mark();
          var iRead2 := reader.Read();
          if iRead2.None? {
            break;
          }
          if iRead2.value == '/' {
            strbuf := strbuf + "*/";
            var newToken := new Token.Comment(strbuf, startTimeLineNumber, MULTI_LINE);
            Add(newToken);
            return;
          } else {
            reader.Reset();
          }
        } else if cRead == '\r' {
          lineNumber := lineNumber + 1;
          isPastCr := true;
        } else if cRead == '\n' {
          if isPastCr {
            isPastCr := false;
          } else {
            lineNumber := lineNumber + 1;
          }
        }
        strbuf := strbuf + [cRead];
      }
    }

    /** `parseSinglelineComment`, entered just after the two slashes; the line break is pushed back. */
    method ParseSinglelineComment(reader: Reader)
      requires Valid() && reader.Valid()
      modifies this, reader
      ensures Valid() && reader.Valid() && OnlyAppendsFresh()
      ensures var r := LineCommentStep(reader.text, old(reader.pos), old(State()));
              reader.pos == r.next && State() == r.state
    {
      ghost var s, p0 := reader.text, reader.pos;
      var strbuf := "//";
      while true
        invariant reader.Valid() && p0 <= reader.pos
        invariant tokenList == old(tokenList) && views == old(views) && lineNumber == old(lineNumber) && strbufWord == old(strbufWord)
        invariant strbuf == "//" + s[p0..reader.pos]
        invariant LineCommentEnd(s, reader.pos) == LineCommentEnd(s, p0)
        decreases |s| - reader.pos
      {
        reader.Mark();
        var iRead := reader.Read();
        if iRead.None? {
          var newToken := new Token.Comment(strbuf, lineNumber, SINGLE_LINE);
          Add(newToken);
          return;
        }
        var cRead := iRead.value;
        if cRead == '\n' || cRead == '\r' {
          reader.Reset();
          var newToken := new Token.Comment(strbuf, lineNumber, SINGLE_LINE);
          Add(newToken);
          return;
        }
        strbuf := strbuf + [cRead];
      }
    }

    /** The loop shared by both quoted forms, entered just after the opening delimiter `q`. */
    method ParseQuoted(reader: Reader, q: char)
      requires Valid() && reader.Valid()
      modifies this, reader
      ensures Valid() && reader.Valid() && OnlyAppendsFresh()
      ensures var r := QuotedStep(reader.text, old(reader.pos), q, old(State()));
              reader.pos == r.next && State() == r.state
    {
      ghost var s, p0 := reader.text, reader.pos;
      var strbuf := [q];
      while true
        invariant reader.Valid() && p0 <= reader.pos
        invariant tokenList == old(tokenList) && views == old(views) && lineNumber == old(lineNumber) && strbufWord == old(strbufWord)
        invariant QuotedFrom(s, reader.pos, q, strbuf) == QuotedFrom(s, p0, q, [q])
        decreases |s| - reader.pos
      {
        reader.Mark();
        var iRead := reader.Read();
        if iRead.None? {
          break;
        }
        var cRead := iRead.value;
        if cRead == '\\' {
          // the backslash and the escaped character are both kept
          ghost var before := strbuf;
          strbuf := strbuf + [cRead];
          var iRead2 := reader.Read();
          if iRead2.None? {
            break;
          }
          strbuf := strbuf + [iRead2.value];
          assert strbuf == before + [cRead, iRead2.value];
        } else if cRead == q {
          strbuf := strbuf + [cRead];
          var newToken := new Token.Literal(strbuf, lineNumber, STRING);
          Add(newToken);
          return;
        } else {
          strbuf := strbuf + [cRead];
        }
      }
    }

    /** `parseStringLiteral`: a literal in single quotes. */
    method ParseStringLiteral(reader: Reader)
      requires Valid() && reader.Valid()
      modifies this, reader
      ensures Valid() && reader.Valid() && OnlyAppendsFresh()
      ensures var r := QuotedStep(reader.text, old(reader.pos), '\'', old(State()));
              reader.pos == r.next && State() == r.state
    {
      ParseQuoted(reader, '\'');
    }

    /** `parseStringLiteralForSOQL`: a literal in double quotes, scanned like the single-quoted form. */
    method ParseStringLiteralForSOQL(reader: Reader)
      requires Valid() && reader.Valid()
      modifies this, reader
      ensures Valid() && reader.Valid() && OnlyAppendsFresh()
      ensures var r := QuotedStep(reader.text, old(reader.pos), '"', old(State()));
              reader.pos == r.next && State() == r.state
    {
      ParseQuoted(reader, '"');
    }

    /** `parseWhitespaceWithoutlines`, entered just after the blank `cPastRead`; the first non-blank is pushed back. */
    method ParseWhitespaceWithoutlines(reader: Reader, cPastRead: char)
      requires Valid() && reader.Valid()
      modifies this, reader
      ensures Valid() && reader.Valid() && OnlyAppendsFresh()
      ensures var r := BlankStep(reader.text, old(reader.pos), cPastRead, old(State()));
              reader.pos == r.next && State() == r.state
    {
      ghost var s, p0 := reader.text, reader.pos;
      var strbuf := [cPastRead];
      while true
        invariant reader.Valid() && p0 <= reader.pos
        invariant tokenList == old(tokenList) && views == old(views) && lineNumber == old(lineNumber) && strbufWord == old(strbufWord)
        invariant strbuf == [cPastRead] + s[p0..reader.pos]
        invariant BlankRunEnd(s, reader.pos) == BlankRunEnd(s, p0)
        decreases |s| - reader.pos
      {
        reader.Mark();
        var iRead := reader.Read();
        if iRead.None? {
          break;
        }
        var cRead := iRead.value;
        if !IsWhitespaceWithoutLines(cRead) {
          var newToken := new Token.Whitespace(strbuf, lineNumber);
          Add(newToken);
          reader.Reset();
          return;
        }
        strbuf := strbuf + [cRead];
      }
    }

    /** `parseNewlines`, entered just after the line break `cPastRead`: CR LF is one token; the line advances by one. */
    method ParseNewlines(reader: Reader, cPastRead: char)
      requires Valid() && reader.Valid()
      modifies this, reader
      ensures Valid() && reader.Valid() && OnlyAppendsFresh()
      ensures var r := NewlineStep(reader.text, old(reader.pos), cPastRead, old(State()));
              reader.pos == r.next && State() == r.state
    {
      ghost var s, p0 := reader.text, reader.pos;
      var isNewlinesStartedWithCR := cPastRead == '\r';
      var strbuf := [cPastRead];
      if isNewlinesStartedWithCR {
        reader.Mark();
        var iRead := reader.Read();
        if iRead.Some? && iRead.value == '\n' {
          strbuf := strbuf + [iRead.value];
          assert strbuf == [cPastRead] + s[p0..p0 + 1];
        } else {
          reader.Reset();
          assert strbuf == [cPastRead] + s[p0..p0];
        }
      } else {
        assert strbuf == [cPastRead] + s[p0..p0];
      }
      var newToken := new Token.Newline(strbuf, lineNumber);
      Add(newToken);
      lineNumber := lineNumber + 1;
    }

    /** `parseSpecialChar`: the character alone becomes a token. */
    method ParseSpecialChar(reader: Reader, cRead: char)
      requires Valid()
      modifies this
      ensures Valid() && OnlyAppendsFresh()
      ensures State() == Emit(old(State()), TokenView(SpecialChar, [cRead], [cRead], old(lineNumber)))
    {
      var newToken := new Token.SpecialChar([cRead], lineNumber);
      Add(newToken);
    }
  
    /** The slash case of the main loop of `parse`, for a slash just read: a comment opener, or part of the word. */
    method ParseSlash(reader: Reader)
      requires Valid() && reader.Valid()
      requires 0 < reader.pos
      modifies this, reader
      ensures Valid() && reader.Valid() && OnlyAppendsFresh()
      ensures var r := SlashStep(reader.text, old(reader.pos), old(State()), isDouble);
              reader.pos == r.next && State() == r.state
    {
      ghost var s, j, st := reader.text, reader.pos, State();
      ghost var r := SlashStep(s, j, st, isDouble);
      reader.Mark();
      var iRead2 := reader.Read();
      if iRead2.None? {
        // a slash at the very end is dropped
        reader.Reset();
        assert reader.pos == r.next && State() == r.state;
      } else if iRead2.value == '*' {
        FireWord();
        ParseMultilineComment(reader);
        assert reader.pos == r.next && State() == r.state;
      } else if iRead2.value == '/' {
        FireWord();
        ParseSinglelineComment(reader);
        assert reader.pos == r.next && State() == r.state;
      } else {
        // any other slash is part of the word
        reader.Reset();
        strbufWord := strbufWord + "/";
        assert reader.pos == r.next && State() == r.state;
      }
    }

    /** The body of the main loop of `parse`, for the character `cRead` just read. */
    method ParseChar(reader: Reader, cRead: char)
      requires Valid() && reader.Valid()
      requires 0 < reader.pos && reader.text[reader.pos - 1] == cRead
      modifies this, reader
      ensures Valid() && reader.Valid() && OnlyAppendsFresh()
      ensures var r := Step(reader.text, old(reader.pos) - 1, old(State()), isDouble);
              reader.pos == r.next && State() == r.state
    {
      ghost var s, i, st := reader.text, reader.pos - 1, State();
      ghost var r := Step(s, i, st, isDouble);
      if cRead == '/' {
        ParseSlash(reader);
      } else if cRead == '\'' {
        FireWord();
        ParseStringLiteral(reader);
        assert reader.pos == r.next && State() == r.state;
      } else if cRead == '"' {
        FireWord();
        ParseStringLiteralForSOQL(reader);
        assert reader.pos == r.next && State() == r.state;
      } else if IsSpecialChar(cRead) {
        FireWord();
        ParseSpecialChar(reader, cRead);
        assert reader.pos == r.next && State() == r.state;
      } else if IsWhitespaceWithoutLines(cRead) {
        FireWord();
        ParseWhitespaceWithoutlines(reader, cRead);
        assert reader.pos == r.next && State() == r.state;
      } else if cRead == '\n' || cRead == '\r' {
        FireWord();
        ParseNewlines(reader, cRead);
        assert reader.pos == r.next && State() == r.state;
      } else {
        strbufWord := strbufWord + [cRead];
        assert reader.pos == r.next && State() == r.state;
      }
    }

    /** `parse`: read to the end of input, dispatching on each character, then flush the word. */
    method Parse(reader: Reader) returns (result: seq<Token>)
      requires Valid() && reader.Valid()
      modifies this, reader
      ensures Valid() && OnlyAppendsFresh() && result == tokenList
      ensures reader.pos == |reader.text|
      ensures State() == ScanFrom(reader.text, old(reader.pos), old(State()), isDouble)
    {
      ghost var s := reader.text;
      while true
        invariant Valid() && reader.Valid() && OnlyAppendsFresh()
        invariant ScanFrom(s, reader.pos, State(), isDouble) == ScanFrom(s, old(reader.pos), old(State()), isDouble)
        decreases |s| - reader.pos
      {
        var iRead := reader.Read();
        if iRead.None? {
          // end of input: flush the word and stop
          FireWord();
          break;
        }
        ParseChar(reader, iRead.value);
      }
      result := tokenList;
    }
  }
}
