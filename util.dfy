/** Character classification and token-list helpers of the lexical parser. */
module ParserUtil {
  import opened Tokens

  /** U+3000 IDEOGRAPHIC SPACE, the full-width blank of East Asian text. */
  const FULL_WIDTH_SPACE: char := '\U{3000}'

  /** The 24 characters that the lexer turns into special-character tokens. */
  const SPECIAL_CHARS: string := ".,;:=+-*/#!?|&%{}()<>[]@"

  /** Blank but not a line break: space, tab or full-width space. */
  predicate IsWhitespaceWithoutLines(c: char)
    ensures IsWhitespaceWithoutLines(c) ==> c != '\n' && c != '\r'
    ensures IsWhitespaceWithoutLines(c) <==> c in {' ', '\t', FULL_WIDTH_SPACE}
  {
    c == ' ' || c == '\t' || c == FULL_WIDTH_SPACE
  }

  /** The `switch` of the Java code, one case per special character. */
  predicate IsSpecialChar(c: char)
    ensures IsSpecialChar(c) <==> c in SPECIAL_CHARS
  {
    match c
    case '.' => true
    case ',' => true
    case ';' => true
    case ':' => true
    case '=' => true
    case '+' => true
    case '-' => true
    case '*' => true
    case '/' => true
    case '#' => true
    case '!' => true
    case '?' => true
    case '|' => true
    case '&' => true
    case '%' => true
    case '{' => true
    case '}' => true
    case '(' => true
    case ')' => true
    case '<' => true
    case '>' => true
    case '[' => true
    case ']' => true
    case '@' => true
    case _ => false
  }

  /** The special characters are 24 distinct characters. */
  lemma SpecialCharsAreDistinct()
    ensures |SPECIAL_CHARS| == 24
    ensures forall i, j :: 0 <= i < j < |SPECIAL_CHARS| ==> SPECIAL_CHARS[i] != SPECIAL_CHARS[j]
  {
  }

  /** No character is both special and blank, and line breaks are neither. */
  lemma ClassesAreDisjoint(c: char)
    ensures !(IsSpecialChar(c) && IsWhitespaceWithoutLines(c))
    ensures !IsSpecialChar('\n') && !IsSpecialChar('\r')
    ensures !IsWhitespaceWithoutLines('\n') && !IsWhitespaceWithoutLines('\r')
  {
  }

  /** Quotes, backslash, caret, tilde, ASCII letters and digits fall into neither class. */
  lemma WordCharacters(c: char)
    requires c in "'\"\\^~_" || 'a' <= c <= 'z' || 'A' <= c <= 'Z' || '0' <= c <= '9'
    ensures !IsSpecialChar(c) && !IsWhitespaceWithoutLines(c)
  {
  }

  /** The concatenation of the values of a token list, in list order. */
  function JoinValues(vs: seq<TokenView>): (r: string)
    ensures vs == [] ==> r == ""
    ensures |vs| == 1 ==> r == vs[0].value
  {
    if vs == [] then "" else JoinValues(vs[..|vs| - 1]) + vs[|vs| - 1].value
  }

  /** Joining distributes over concatenation of token lists. */
  lemma {:induction false} JoinAppend(a: seq<TokenView>, b: seq<TokenView>)
    ensures JoinValues(a + b) == JoinValues(a) + JoinValues(b)
    decreases |b|
  {
    if b == [] {
      assert a + b == a;
    } else {
      var b' := b[..|b| - 1];
      assert (a + b)[..|a + b| - 1] == a + b';
      JoinAppend(a, b');
    }
  }

  /** Every token's value occurs in the join, at the offset of the values before it. */
  lemma {:induction false} JoinAt(vs: seq<TokenView>, k: nat)
    requires k < |vs|
    ensures JoinValues(vs) == JoinValues(vs[..k]) + vs[k].value + JoinValues(vs[k + 1..])
  {
    var a, b := vs[..k], vs[k + 1..];
    assert vs == (a + [vs[k]]) + b;
    JoinAppend(a + [vs[k]], b);
    JoinAppend(a, [vs[k]]);
  }

  /** `tokenList2String`: append every token's current value, in list order. */
  method TokenList2String(tokenList: seq<Token>) returns (r: string)
    ensures r == JoinValues(Views(tokenList))
  {
    ghost var vs := Views(tokenList);
    var strbuf := "";
    for i := 0 to |tokenList|
      invariant strbuf == JoinValues(vs[..i])
    {
      assert vs[..i + 1][..i] == vs[..i];
      strbuf := strbuf + tokenList[i].value;
    }
    assert vs[..|tokenList|] == vs;
    r := strbuf;
  }
}
