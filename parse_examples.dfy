/**
 * Worked inputs: the whole pipeline on the statement `str1 === str1` of the
 * combine test, the round trip of that test's whole input, a decimal number,
 * and a string literal with an escaped quote.
 */
module ParseExamples {
  import opened Tokens
  import opened ScanSpec
  import opened ScanProperties
  import opened CombineSpec
  import opened ParserUtil

  /** A stand-in for `Double.parseDouble` succeeding: a non-empty run of decimal digits. */
  predicate Digits(w: string) {
    w != [] && forall k :: 0 <= k < |w| ==> '0' <= w[k] <= '9'
  }

  function W(v: string): TokenView {
    TokenView(Word(false, false), v, v, 1)
  }

  function Blank(): TokenView {
    TokenView(Whitespace, " ", " ", 1)
  }

  /** The tokens of the combine test's input after its first `n` tokens' worth of steps. */
  function StrictEqualsTokens(n: nat): seq<TokenView>
    requires n <= 7
  {
    [W("str1"), Blank(), Sp("="), Sp("="), Sp("="), Blank(), W("str1")][..n]
  }

  lemma Str1IsPlainWord()
    ensures PlainWord("str1") && !Digits("str1")
  {
    assert "str1"[0] == 's';
  }

  /** `str1` is not a number, so it is flushed as a word. */
  lemma Str1IsFiredAsWord(tokens: seq<TokenView>)
    ensures FireWord(ScanState(tokens, 1, "str1"), Digits) == ScanState(tokens + [W("str1")], 1, "")
  {
    Str1IsPlainWord();
  }

  /** The leading word of `str1 === str1` is kept pending. */
  lemma StrictEqualsFirstWord(s: string)
    requires s == "str1 === str1"
    ensures ScanFrom(s, 0, INITIAL, Digits) == ScanFrom(s, 4, ScanState([], 1, "str1"), Digits)
  {
    assert s[0..4] == "str1";
    Str1IsPlainWord();
    WordRunFrom(s, 0, 4, INITIAL, Digits);
    assert INITIAL.(word := INITIAL.word + s[0..4]) == ScanState([], 1, "str1");
  }

  /** Flushing `str1` and emitting a blank after it. */
  lemma Str1ThenBlank(b: string)
    requires b == " "
    ensures Emit(FireWord(ScanState([], 1, "str1"), Digits), TokenView(Whitespace, b, b, 1)) ==
            ScanState([W("str1"), Blank()], 1, "")
  {
    Str1IsFiredAsWord([]);
  }

  /** The first blank flushes the word and is a token of its own. */
  lemma StrictEqualsFirstBlank(s: string)
    requires s == "str1 === str1"
    ensures ScanFrom(s, 4, ScanState([], 1, "str1"), Digits) ==
            ScanFrom(s, 5, ScanState([W("str1"), Blank()], 1, ""), Digits)
  {
    assert s[4] == ' ' && s[5] == '=';
    BlankAfterStr1(s);
  }

  /** A blank at index 4 after `str1`, before a character that is not blank. */
  lemma BlankAfterStr1(s: string)
    requires 5 < |s| && s[4] == ' ' && s[5] == '='
    ensures ScanFrom(s, 4, ScanState([], 1, "str1"), Digits) ==
            ScanFrom(s, 5, ScanState([W("str1"), Blank()], 1, ""), Digits)
  {
    BlankRunFrom(s, 4, 5, ScanState([], 1, "str1"), Digits);
    assert s[4..5] == [s[4]];
    Str1ThenBlank(s[4..5]);
  }

  /** The three equals signs of `str1 === str1`, each a token of its own. */
  lemma StrictEqualsSigns(s: string)
    requires s == "str1 === str1"
    ensures ScanFrom(s, 5, ScanState([W("str1"), Blank()], 1, ""), Digits) ==
            ScanFrom(s, 8, ScanState(StrictEqualsTokens(5), 1, ""), Digits)
  {
    assert s[5] == '=' && s[6] == '=' && s[7] == '=';
    SpecialCharFrom(s, 5, ScanState([W("str1"), Blank()], 1, ""), Digits);
    assert [W("str1"), Blank()] + [Sp("=")] == StrictEqualsTokens(3);
    SpecialCharFrom(s, 6, ScanState(StrictEqualsTokens(3), 1, ""), Digits);
    assert StrictEqualsTokens(3) + [Sp("=")] == StrictEqualsTokens(4);
    SpecialCharFrom(s, 7, ScanState(StrictEqualsTokens(4), 1, ""), Digits);
    assert StrictEqualsTokens(4) + [Sp("=")] == StrictEqualsTokens(5);
  }

  /** The second blank is a token of its own. */
  lemma StrictEqualsSecondBlank(s: string)
    requires s == "str1 === str1"
    ensures ScanFrom(s, 8, ScanState(StrictEqualsTokens(5), 1, ""), Digits) ==
            ScanFrom(s, 9, ScanState(StrictEqualsTokens(6), 1, ""), Digits)
  {
    assert s[8..9] == " " && s[8] == ' ' && s[9] == 's';
    var st4 := ScanState(StrictEqualsTokens(5), 1, "");
    BlankRunFrom(s, 8, 9, st4, Digits);
    assert TokenView(Whitespace, s[8..9], s[8..9], 1) == Blank();
    assert StrictEqualsTokens(5) + [Blank()] == StrictEqualsTokens(6);
  }

  /** The last word is flushed at the end of input. */
  lemma StrictEqualsLastWord(s: string)
    requires s == "str1 === str1"
    ensures ScanFrom(s, 9, ScanState(StrictEqualsTokens(6), 1, ""), Digits).tokens == StrictEqualsTokens(7)
  {
    assert s[9..13] == "str1";
    Str1IsPlainWord();
    var st5 := ScanState(StrictEqualsTokens(6), 1, "");
    WordRunFrom(s, 9, 13, st5, Digits);
    assert st5.(word := st5.word + s[9..13]) == ScanState(StrictEqualsTokens(6), 1, "str1");
    Str1IsFiredAsWord(StrictEqualsTokens(6));
    assert StrictEqualsTokens(6) + [W("str1")] == StrictEqualsTokens(7);
  }

  /** `str1 === str1` scans to two words, two blanks and three equals signs. */
  lemma StrictEqualsScan(s: string)
    requires s == "str1 === str1"
    ensures Scan(s, Digits) == [W("str1"), Blank(), Sp("="), Sp("="), Sp("="), Blank(), W("str1")]
  {
    StrictEqualsFirstWord(s);
    StrictEqualsFirstBlank(s);
    StrictEqualsSigns(s);
    StrictEqualsSecondBlank(s);
    StrictEqualsLastWord(s);
  }

  /** The three-token loop merges the three equals signs and has no later window to look at. */
  lemma StrictEqualsTriples(ts: seq<TokenView>)
    requires ts == StrictEqualsTokens(7)
    ensures Pass(ts, 0, 3) == [W("str1"), Blank(), TokenView(SpecialChar, "===", "=", 1), Blank(), W("str1")]
  {
    assert !Combines(ts, 0, 3) && !Combines(ts, 1, 3);
    assert Candidate(ts, 2, 3) == "===" == COMBINED_SPECIAL_CHAR[17];
    var ts1 := [W("str1"), Blank(), TokenView(SpecialChar, "===", "=", 1), Blank(), W("str1")];
    assert Merge(ts, 2, 3) == ts1;
    assert Pass(ts, 0, 3) == Pass(ts, 2, 3) == Pass(ts1, 3, 3) == ts1;
  }

  /** The two-token loop finds no two adjacent special characters. */
  lemma StrictEqualsPairs(ts: seq<TokenView>)
    requires ts == [W("str1"), Blank(), TokenView(SpecialChar, "===", "=", 1), Blank(), W("str1")]
    ensures Pass(ts, 0, 2) == ts
  {
    assert !Combines(ts, 0, 2) && !Combines(ts, 1, 2) && !Combines(ts, 2, 2) && !Combines(ts, 3, 2);
    assert Pass(ts, 0, 2) == Pass(ts, 1, 2) == Pass(ts, 2, 2) == Pass(ts, 3, 2) == Pass(ts, 4, 2) == ts;
  }

  /** The combiner turns the three equals signs into one strict-equality token between the words. */
  lemma StrictEqualsParse(s: string)
    requires s == "str1 === str1"
    ensures Combine(Scan(s, Digits)) ==
            [W("str1"), Blank(), TokenView(SpecialChar, "===", "=", 1), Blank(), W("str1")]
  {
    StrictEqualsScan(s);
    StrictEqualsTriples(Scan(s, Digits));
    StrictEqualsPairs(Pass(Scan(s, Digits), 0, 3));
  }

  function Num(v: string): TokenView {
    TokenView(Literal(NUMBER), v, v, 1)
  }

  lemma ThreeIsPlainNumber()
    ensures PlainWord("3") && Digits("3")
  {
    assert "3"[0] == '3';
  }

  lemma FourteenIsPlainNumber()
    ensures PlainWord("14") && Digits("14")
  {
    assert "14"[0] == '1' && "14"[1] == '4';
  }

  /** A run of digits is flushed as a number. */
  lemma DigitsAreFiredAsNumber(tokens: seq<TokenView>, v: string)
    requires Digits(v)
    ensures FireWord(ScanState(tokens, 1, v), Digits) == ScanState(tokens + [Num(v)], 1, "")
  {
  }

  /** The integer part of `3.14` is kept pending. */
  lemma DecimalFirstNumber(s: string)
    requires s == "3.14"
    ensures ScanFrom(s, 0, INITIAL, Digits) == ScanFrom(s, 1, ScanState([], 1, "3"), Digits)
  {
    assert s[0..1] == "3";
    ThreeIsPlainNumber();
    WordRunFrom(s, 0, 1, INITIAL, Digits);
    assert INITIAL.(word := INITIAL.word + s[0..1]) == ScanState([], 1, "3");
  }

  /** The dot flushes the integer part as a number and is a token of its own. */
  lemma DecimalDot(s: string)
    requires s == "3.14"
    ensures ScanFrom(s, 1, ScanState([], 1, "3"), Digits) == ScanFrom(s, 2, ScanState([Num("3"), Sp(".")], 1, ""), Digits)
  {
    assert s[1] == '.';
    SpecialCharFrom(s, 1, ScanState([], 1, "3"), Digits);
    ThreeIsPlainNumber();
    DigitsAreFiredAsNumber([], "3");
    assert Emit(ScanState([Num("3")], 1, ""), TokenView(SpecialChar, [s[1]], [s[1]], 1)) ==
           ScanState([Num("3"), Sp(".")], 1, "");
  }

  /** The fraction of `3.14` is flushed as a number at the end of input. */
  lemma DecimalTail(s: string)
    requires s == "3.14"
    ensures ScanFrom(s, 2, ScanState([Num("3"), Sp(".")], 1, ""), Digits).tokens == [Num("3"), Sp("."), Num("14")]
  {
    assert s[2..4] == "14";
    FourteenIsPlainNumber();
    var st := ScanState([Num("3"), Sp(".")], 1, "");
    WordRunFrom(s, 2, 4, st, Digits);
    assert st.(word := st.word + s[2..4]) == ScanState([Num("3"), Sp(".")], 1, "14");
    DigitsAreFiredAsNumber([Num("3"), Sp(".")], "14");
  }

  /** The dot is a special character, so `3.14` is two numbers around a dot, not one number. */
  lemma DecimalScan(s: string)
    requires s == "3.14"
    ensures Scan(s, Digits) == [Num("3"), Sp("."), Num("14")]
  {
    DecimalFirstNumber(s);
    DecimalDot(s);
    DecimalTail(s);
  }

  /** `'a\'b'` is one string literal: the escaped quote does not close it. */
  lemma EscapedQuoteScan(s: string, isDouble: string -> bool)
    requires s == "'a\\'b'"
    ensures Scan(s, isDouble) == [TokenView(Literal(STRING), s, s, 1)]
  {
    var body := s[1..5];
    assert body == "a\\'b";
    assert body[1..] == "\\'b" && body[1..][2..] == "b" && "b"[1..] == "";
    assert QuotedBody(body, '\'');
    QuotedClosesAt(s, 1, 5, '\'', "'");
    assert "'" + s[1..6] == s;
    var t := TokenView(Literal(STRING), s, s, 1);
    assert Step(s, 0, INITIAL, isDouble) == QuotedStep(s, 1, '\'', INITIAL) == Stepped(6, Emit(INITIAL, t));
    assert ScanFrom(s, 0, INITIAL, isDouble) == ScanFrom(s, 6, Emit(INITIAL, t), isDouble) == Emit(INITIAL, t);
  }

  lemma PlainAppend(a: string, b: string)
    requires PlainText(a) && PlainText(b)
    ensures PlainText(a + b)
  {
    assert forall k :: |a| <= k < |a + b| ==> (a + b)[k] == b[k - |a|];
  }

  lemma PlainBefore(a1: string, a2: string, a3: string)
    requires a1 == "public class MyClass {\n" && a2 == "    public void myMethod() {\n"
    requires a3 == "         String str1 = "
    ensures PlainText(a1 + a2 + a3)
  {
    assert PlainText(a1);
    assert PlainText(a2);
    assert PlainText(a3);
    PlainAppend(a1, a2);
    PlainAppend(a1 + a2, a3);
  }

  lemma PlainAfter(b1: string, b2: string, b3: string, b4: string, b5: string)
    requires b1 == ";\n" && b2 == "         if (str1 === str1) {\n" && b3 == "         }\n"
    requires b4 == "    }\n" && b5 == "}"
    ensures PlainText(b1 + b2 + b3 + b4 + b5)
  {
    assert PlainText(b1);
    assert PlainText(b2);
    assert PlainText(b3);
    assert PlainText(b4);
    assert PlainText(b5);
    PlainAppend(b1, b2);
    PlainAppend(b1 + b2, b3);
    PlainAppend(b1 + b2 + b3, b4);
    PlainAppend(b1 + b2 + b3 + b4, b5);
  }

  /** Plain text up to `i`, a literal from `i` closed at `e`, and plain text to the end on a non-blank lose nothing. */
  lemma LosslessAroundAt(s: string, i: nat, e: nat)
    requires i < e && e + 1 < |s| && IsQuote(s[i]) && s[e] == s[i] && QuotedBody(s[i + 1..e], s[i])
    requires PlainText(s[0..i]) && PlainText(s[e + 1..|s|]) && !IsWhitespaceWithoutLines(s[|s| - 1])
    ensures Lossless(s, 0)
  {
    LosslessPlain(s, e + 1, |s|);
    LosslessQuoted(s, i, e);
    LosslessPlain(s, 0, i);
  }

  /** Plain text, one closed literal, and plain text ending on a non-blank lose nothing. */
  lemma LosslessAroundLiteral(s: string, a: string, q: char, body: string, b: string)
    requires s == a + [q] + body + [q] + b
    requires PlainText(a) && PlainText(b) && IsQuote(q) && QuotedBody(body, q)
    requires b != [] && !IsWhitespaceWithoutLines(b[|b| - 1])
    ensures Lossless(s, 0)
  {
    var i, e := |a|, |a| + 1 + |body|;
    LiteralParts(s, a, q, body, b);
    LosslessAroundAt(s, i, e);
  }

  lemma LiteralParts(s: string, a: string, q: char, body: string, b: string)
    requires s == a + [q] + body + [q] + b && b != []
    ensures var i, e := |a|, |a| + 1 + |body|;
            e + 1 < |s| && s[e + 1..|s|] == b && s[|s| - 1] == b[|b| - 1] &&
            s[i + 1..e] == body && s[i] == q && s[e] == q && s[0..i] == a
  {
  }

  lemma Kanji1IsBody(body: string)
    requires body == "文字列1"
    ensures QuotedBody(body, '\'')
  {
    assert body[4..] == "";
    assert body[3..][0] == '1' && body[3..][1..] == body[4..];
    assert QuotedBody(body[3..], '\'');
    assert body[2..][0] == '列' && body[2..][1..] == body[3..];
    assert QuotedBody(body[2..], '\'');
    assert body[1..][0] == '字' && body[1..][1..] == body[2..];
    assert QuotedBody(body[1..], '\'');
    assert body[0] == '文';
  }

  /** The combine test's input is plain text, its one literal, and plain text again. */
  lemma CombineTestParts(s: string)
    requires s == "public class MyClass {\n" + "    public void myMethod() {\n" +
                  "         String str1 = '文字列1';\n" + "         if (str1 === str1) {\n" +
                  "         }\n" + "    }\n" + "}"
    ensures s == ("public class MyClass {\n" + "    public void myMethod() {\n" + "         String str1 = ") +
                 ['\''] + "文字列1" + ['\''] +
                 (";\n" + "         if (str1 === str1) {\n" + "         }\n" + "    }\n" + "}")
  {
  }

  /** The input of the combine test loses nothing: its one literal is closed and it ends on a brace. */
  lemma CombineTestLossless(s: string)
    requires s == "public class MyClass {\n" + "    public void myMethod() {\n" +
                  "         String str1 = '文字列1';\n" + "         if (str1 === str1) {\n" +
                  "         }\n" + "    }\n" + "}"
    ensures Lossless(s, 0)
  {
    var a := "public class MyClass {\n" + "    public void myMethod() {\n" + "         String str1 = ";
    var b := ";\n" + "         if (str1 === str1) {\n" + "         }\n" + "    }\n" + "}";
    CombineTestParts(s);
    PlainBefore("public class MyClass {\n", "    public void myMethod() {\n", "         String str1 = ");
    PlainAfter(";\n", "         if (str1 === str1) {\n", "         }\n", "    }\n", "}");
    Kanji1IsBody("文字列1");
    assert b[|b| - 1] == '}';
    LosslessAroundLiteral(s, a, '\'', "文字列1", b);
  }

  /**
   * Printing back the values of every token the combine test's input parses to
   * gives that input, whatever `isDouble` accepts.
   */
  lemma CombineTestRoundTrip(s: string, isDouble: string -> bool)
    requires s == "public class MyClass {\n" + "    public void myMethod() {\n" +
                  "         String str1 = '文字列1';\n" + "         if (str1 === str1) {\n" +
                  "         }\n" + "    }\n" + "}"
    ensures JoinValues(Combine(Scan(s, isDouble))) == s
  {
    CombineTestLossless(s);
    ScanRoundTrip(s, isDouble);
    CombineKeepsJoin(Scan(s, isDouble));
  }
}
