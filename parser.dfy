/**
 * The parser's entry points: run the lexical parser over the input, then
 * combine adjacent special characters into operators, in place. Each method is
 * proved to compute the functions of modules ScanSpec and CombineSpec.
 */
module Parser {
  import opened Tokens
  import opened ParserUtil
  import opened ScanSpec
  import opened ScanProperties
  import opened CombineSpec
  import opened Reading
  import opened Lexer
  import opened CombineIdempotence

  /** Removing the `n - 1` tokens after `index` keeps the list free of repeats and shifts the tail down. */
  lemma RemovedFollowers(before: seq<Token>, r: seq<Token>, index: nat, n: nat)
    requires Width(n) && index + n <= |before| && Distinct(before)
    requires r == before[..index + 1] + before[index + n..]
    ensures Distinct(r) && forall t :: t in r ==> t in before
    ensures |r| == |before| - (n - 1)
    ensures forall j :: 0 <= j < |r| ==> r[j] == if j <= index then before[j] else before[j + n - 1]
  {
    forall i, j | 0 <= i < j < |r| ensures r[i] != r[j] {
      if i > index {
        assert r[i] == before[i + n - 1];
      }
      if j > index {
        assert r[j] == before[j + n - 1];
      }
    }
  }

  /** What the table loop does to the views of the list: the merge of the run when it forms an operator. */
  lemma MergedViews(before: seq<Token>, vs: seq<TokenView>, r: seq<Token>, index: nat, n: nat, candidate: string)
    requires Width(n) && index + n <= |before| == |vs| && Distinct(before)
    requires SpecialRun(vs, index, n) && candidate == Candidate(vs, index, n)
    requires forall j :: 0 <= j < |before| && j != index ==> before[j].View() == vs[j]
    requires candidate in COMBINED_SPECIAL_CHAR ==>
               r == before[..index + 1] + before[index + n..] && before[index].View() == vs[index].(value := candidate)
    requires candidate !in COMBINED_SPECIAL_CHAR ==>
               r == before && before[index].View() == vs[index]
    ensures Distinct(r) && forall t :: t in r ==> t in before
    ensures Views(r) == if Combines(vs, index, n) then Merge(vs, index, n) else vs
  {
    if candidate in COMBINED_SPECIAL_CHAR {
      RemovedFollowers(before, r, index, n);
      var m := Merge(vs, index, n);
      forall j | 0 <= j < |r|
        ensures Views(r)[j] == m[j]
      {
        if j > index {
          assert m[j] == vs[j + n - 1];
        }
      }
      assert Views(r) == m;
    } else {
      assert Views(r) == vs;
    }
  }

  /**
   * The loop over the operator table for one run of `n` special characters
   * starting at `index`: on a match the first token takes the candidate as its
   * value and the other `n - 1` are removed from the list.
   */
  method MatchTable(tokenList: seq<Token>, index: nat, n: nat, candidate: string) returns (r: seq<Token>)
    requires Width(n) && index + n <= |tokenList| && Distinct(tokenList)
    requires SpecialRun(Views(tokenList), index, n) && candidate == Candidate(Views(tokenList), index, n)
    modifies tokenList[index]
    ensures Distinct(r) && forall t :: t in r ==> t in tokenList
    ensures var vs := old(Views(tokenList));
            Views(r) == if Combines(vs, index, n) then Merge(vs, index, n) else vs
    ensures forall t :: t in tokenList ==> t.note == old(t.note)
  {
    ghost var vs := Views(tokenList);
    TableIsDistinct();
    var specialChar := tokenList[index];
    r := tokenList;
    for k := 0 to |COMBINED_SPECIAL_CHAR|
      invariant specialChar.kind == old(specialChar.kind) && specialChar.note == old(specialChar.note)
      invariant candidate in COMBINED_SPECIAL_CHAR[..k] ==>
                  r == tokenList[..index + 1] + tokenList[index + n..] && specialChar.value == candidate
      invariant candidate !in COMBINED_SPECIAL_CHAR[..k] ==>
                  r == tokenList && specialChar.value == old(specialChar.value)
    {
      if candidate == COMBINED_SPECIAL_CHAR[k] {
        specialChar.SetValue(candidate);
        r := r[..index + 1] + r[index + n..];
      }
      assert COMBINED_SPECIAL_CHAR[..k + 1] == COMBINED_SPECIAL_CHAR[..k] + [COMBINED_SPECIAL_CHAR[k]];
    }
    assert COMBINED_SPECIAL_CHAR[..|COMBINED_SPECIAL_CHAR|] == COMBINED_SPECIAL_CHAR;
    assert forall j :: 0 <= j < |tokenList| && j != index ==> tokenList[j].View() == vs[j];
    MergedViews(tokenList, vs, r, index, n, candidate);
  }

  /**
   * The body of a combining loop at `index`: when the `n` tokens from there are
   * all special characters, their values joined are looked up in the table.
   */
  method CombineAt(tokenList: seq<Token>, index: nat, n: nat) returns (r: seq<Token>)
    requires Width(n) && index + n <= |tokenList| && Distinct(tokenList)
    modifies tokenList[index]
    ensures Distinct(r) && forall t :: t in r ==> t in tokenList
    ensures var vs := old(Views(tokenList));
            Views(r) == if Combines(vs, index, n) then Merge(vs, index, n) else vs
    ensures forall t :: t in tokenList ==> t.note == old(t.note)
  {
    var lookup := tokenList[index];
    if lookup.kind == SpecialChar && tokenList[index + 1].kind == SpecialChar &&
       (n == 2 || tokenList[index + 2].kind == SpecialChar) {
      var candidate := if n == 2 then lookup.value + tokenList[index + 1].value
                       else lookup.value + tokenList[index + 1].value + tokenList[index + 2].value;
      r := MatchTable(tokenList, index, n, candidate);
    } else {
      r := tokenList;
    }
  }

  /**
   * One combining loop of `parse` over runs of `n` tokens: three for the first
   * loop, two for the second. The list shrinks as tokens merge, and the index
   * moves past every merged token.
   */
  method CombinePass(tokenList: seq<Token>, n: nat) returns (r: seq<Token>)
    requires Width(n) && Distinct(tokenList)
    modifies set t | t in tokenList
    ensures Distinct(r) && forall t :: t in r ==> t in tokenList
    ensures Views(r) == Pass(old(Views(tokenList)), 0, n)
    ensures forall t :: t in tokenList ==> t.note == old(t.note)
  {
    ghost var v0 := Views(tokenList);
    r := tokenList;
    var index := 0;
    while index < |r| - (n - 1)
      invariant index <= |r|
      invariant Distinct(r) && forall t :: t in r ==> t in tokenList
      invariant Pass(Views(r), index, n) == Pass(v0, 0, n)
      invariant forall t :: t in tokenList ==> t.note == old(t.note)
      decreases |r| - index
    {
      assert r[index] in tokenList;
      r := CombineAt(r, index, n);
      index := index + 1;
    }
  }

  /**
   * `parse(BufferedReader)`: lex the rest of the input with a new lexical parser,
   * then run the three-token and the two-token combining loops over its list.
   */
  method Parse(reader: Reader, isDouble: string -> bool) returns (tokenList: seq<Token>)
    requires reader.Valid()
    modifies reader
    ensures reader.pos == |reader.text|
    ensures Distinct(tokenList) && forall t :: t in tokenList ==> fresh(t)
    ensures Views(tokenList) == Combine(ScanFrom(reader.text, old(reader.pos), INITIAL, isDouble).tokens)
  {
    var lexer := new LexicalParser(isDouble);
    var lexed := lexer.Parse(reader);
    assert Views(lexed) == lexer.views;
    assert forall t :: t in lexed ==> fresh(t) by {
      forall t | t in lexed ensures fresh(t) {
        var i :| 0 <= i < |lexed| && lexed[i] == t;
      }
    }
    var triples := CombinePass(lexed, 3);
    assert forall t :: t in triples ==> fresh(t);
    tokenList := CombinePass(triples, 2);
  }

  /** `parse(String)`: parse the whole of a string. */
  method ParseString(sourceString: string, isDouble: string -> bool) returns (tokenList: seq<Token>)
    ensures Distinct(tokenList)
    ensures Views(tokenList) == Combine(Scan(sourceString, isDouble))
  {
    var reader := new Reader(sourceString);
    tokenList := Parse(reader, isDouble);
  }

  /**
   * The values of the parsed tokens, as `tokenList2String` joins them, give back
   * the input up to the point where the lexer loses the rest, if it does: the
   * combining loops change how the text is split, never the text.
   */
  lemma ParsedSpellsInput(s: string, isDouble: string -> bool)
    ensures var out := JoinValues(Combine(Scan(s, isDouble)));
            |out| <= |s| && out == s[..|out|] && (|out| == |s| || Dropped(s, |out|)) &&
            (out == s <==> Lossless(s, 0))
  {
    ScanSpellsInput(s, isDouble);
    ScanRoundTrip(s, isDouble);
    CombineKeepsJoin(Scan(s, isDouble));
  }

  /** The lexer makes one-character special tokens only, so combining its list a second time changes nothing. */
  lemma ParsedIsCombined(s: string, isDouble: string -> bool)
    ensures Combine(Combine(Scan(s, isDouble))) == Combine(Scan(s, isDouble))
  {
    ScanTokensWellFormed(s, isDouble);
    CombineIdempotent(Scan(s, isDouble));
  }

  /** Parsing a string and joining the values of the tokens gives the string back when the lexer loses none of it. */
  method ParseAndJoin(sourceString: string, isDouble: string -> bool) returns (r: string)
    requires Lossless(sourceString, 0)
    ensures r == sourceString
  {
    var tokenList := ParseString(sourceString, isDouble);
    r := TokenList2String(tokenList);
    ParsedSpellsInput(sourceString, isDouble);
  }
}
