/**
 * The second stage of parsing as functions on values: adjacent special-character
 * tokens whose values concatenate to an operator of the table are merged, first
 * three at a time in one left-to-right pass, then two at a time in a second.
 * The merged token is the first of the run with its value replaced.
 */
module CombineSpec {
  import opened Tokens
  import opened ParserUtil

  /** The operators that adjacent special characters may form. */
  const COMBINED_SPECIAL_CHAR: seq<string> := [
    "++", "--", "<=", ">=", "==", "!=", "&&", "||",
    "+=", "-=", "*=", "/=",
    "|=", "&=",
    "<<=", ">>=", ">>>=",
    "===", "!==", "^=", "<<", ">>", ">>>",
    "=>", "<>"]

  /** The two pass widths: three tokens, then two. */
  predicate Width(n: nat) {
    n == 2 || n == 3
  }

  /** The values of the `n` tokens from `i`, concatenated. */
  function Candidate(ts: seq<TokenView>, i: nat, n: nat): (c: string)
    requires Width(n) && i + n <= |ts|
    ensures c == JoinValues(ts[i..i + n])
  {
    assert n == 3 ==> ts[i..i + n][..2] == ts[i..i + 2];
    if n == 2 then ts[i].value + ts[i + 1].value
    else ts[i].value + ts[i + 1].value + ts[i + 2].value
  }

  /** The `n` tokens from `i` are all special characters. */
  predicate SpecialRun(ts: seq<TokenView>, i: nat, n: nat)
    requires Width(n) && i + n <= |ts|
  {
    ts[i].kind == SpecialChar && ts[i + 1].kind == SpecialChar &&
    (n == 2 || ts[i + 2].kind == SpecialChar)
  }

  /** The `n` tokens from `i` are all special characters and form an operator of the table. */
  predicate Combines(ts: seq<TokenView>, i: nat, n: nat)
    requires Width(n) && i + n <= |ts|
  {
    SpecialRun(ts, i, n) && Candidate(ts, i, n) in COMBINED_SPECIAL_CHAR
  }

  /** The token at `i` takes the joined value of the `n` tokens from `i`; the other `n - 1` go. */
  function Merge(ts: seq<TokenView>, i: nat, n: nat): (r: seq<TokenView>)
    requires Width(n) && i + n <= |ts|
    ensures |r| == |ts| - n + 1
  {
    ts[..i] + [ts[i].(value := Candidate(ts, i, n))] + ts[i + n..]
  }

  /**
   * One combining pass of width `n` from index `i`: at each index where a combination
   * fits, merge and move on to the next index, so a merged token is not looked at
   * again in the same pass.
   */
  function Pass(ts: seq<TokenView>, i: nat, n: nat): seq<TokenView>
    requires Width(n) && i <= |ts|
    decreases |ts| - i
  {
    if i + n > |ts| then ts
    else Pass(if Combines(ts, i, n) then Merge(ts, i, n) else ts, i + 1, n)
  }

  /** Both passes: three tokens at a time, then two. */
  function Combine(ts: seq<TokenView>): seq<TokenView> {
    Pass(Pass(ts, 0, 3), 0, 2)
  }

  /** The tokens that are not special characters, in order. */
  function Others(ts: seq<TokenView>): seq<TokenView> {
    if ts == [] then []
    else (if ts[0].kind == SpecialChar then [] else [ts[0]]) + Others(ts[1..])
  }

  /** Every token shows its original text, or is a special character showing an operator of the table. */
  predicate ShowsOriginal(ts: seq<TokenView>) {
    forall k :: 0 <= k < |ts| ==>
      ts[k].value == ts[k].originalValue ||
      (ts[k].kind == SpecialChar && ts[k].value in COMBINED_SPECIAL_CHAR)
  }

  /** No operator appears twice in the table, so a candidate matches at most one entry. */
  lemma TableIsDistinct()
    ensures forall i, j :: 0 <= i < j < |COMBINED_SPECIAL_CHAR| ==> COMBINED_SPECIAL_CHAR[i] != COMBINED_SPECIAL_CHAR[j]
  {
  }

  lemma SplitAt(ts: seq<TokenView>, i: nat, j: nat)
    requires i <= j <= |ts|
    ensures ts == ts[..i] + ts[i..j] + ts[j..]
  {
  }

  lemma JoinSplit(a: seq<TokenView>, x: seq<TokenView>, b: seq<TokenView>)
    ensures JoinValues(a + x + b) == JoinValues(a) + JoinValues(x) + JoinValues(b)
  {
    JoinAppend(a + x, b);
    JoinAppend(a, x);
  }

  /** A merge keeps the concatenation of all values. */
  lemma MergeKeepsJoin(ts: seq<TokenView>, i: nat, n: nat)
    requires Width(n) && i + n <= |ts|
    ensures JoinValues(Merge(ts, i, n)) == JoinValues(ts)
  {
    var a, run, b := ts[..i], ts[i..i + n], ts[i + n..];
    var m := ts[i].(value := Candidate(ts, i, n));
    SplitAt(ts, i, i + n);
    JoinSplit(a, [m], b);
    JoinSplit(a, run, b);
  }

  /** A pass keeps the concatenation of all values. */
  lemma {:induction false} PassKeepsJoin(ts: seq<TokenView>, i: nat, n: nat)
    requires Width(n) && i <= |ts|
    ensures JoinValues(Pass(ts, i, n)) == JoinValues(ts)
    decreases |ts| - i
  {
    if i + n <= |ts| {
      if Combines(ts, i, n) {
        MergeKeepsJoin(ts, i, n);
        PassKeepsJoin(Merge(ts, i, n), i + 1, n);
      } else {
        PassKeepsJoin(ts, i + 1, n);
      }
    }
  }

  /** Combining never changes the source text the tokens spell out. */
  lemma CombineKeepsJoin(ts: seq<TokenView>)
    ensures JoinValues(Combine(ts)) == JoinValues(ts)
  {
    PassKeepsJoin(ts, 0, 3);
    PassKeepsJoin(Pass(ts, 0, 3), 0, 2);
  }

  lemma {:induction false} OthersAppend(a: seq<TokenView>, b: seq<TokenView>)
    ensures Others(a + b) == Others(a) + Others(b)
    decreases |a|
  {
    if a == [] {
      assert a + b == b;
    } else {
      assert (a + b)[1..] == a[1..] + b;
      OthersAppend(a[1..], b);
    }
  }

  /** A run of special characters has no other tokens. */
  lemma {:induction false} OthersOfSpecialRun(run: seq<TokenView>)
    requires forall k :: 0 <= k < |run| ==> run[k].kind == SpecialChar
    ensures Others(run) == []
    decreases |run|
  {
    if run != [] {
      OthersOfSpecialRun(run[1..]);
    }
  }

  lemma OthersSplit(a: seq<TokenView>, x: seq<TokenView>, b: seq<TokenView>)
    ensures Others(a + x + b) == Others(a) + Others(x) + Others(b)
  {
    OthersAppend(a + x, b);
    OthersAppend(a, x);
  }

  /** A merge touches only special characters. */
  lemma MergeKeepsOthers(ts: seq<TokenView>, i: nat, n: nat)
    requires Width(n) && i + n <= |ts| && SpecialRun(ts, i, n)
    ensures Others(Merge(ts, i, n)) == Others(ts)
  {
    var a, run, b := ts[..i], ts[i..i + n], ts[i + n..];
    var m := ts[i].(value := Candidate(ts, i, n));
    SplitAt(ts, i, i + n);
    assert forall k :: 0 <= k < |run| ==> run[k].kind == SpecialChar by {
      forall k | 0 <= k < |run| ensures run[k].kind == SpecialChar {
        assert run[k] == ts[i + k];
        assert k == 0 || k == 1 || (n == 3 && k == 2);
      }
    }
    OthersOfSpecialRun([m]);
    OthersOfSpecialRun(run);
    OthersSplit(a, [m], b);
    OthersSplit(a, run, b);
  }

  /** A pass leaves every token that is not a special character where it was, relative to the others. */
  lemma {:induction false} PassKeepsOthers(ts: seq<TokenView>, i: nat, n: nat)
    requires Width(n) && i <= |ts|
    ensures Others(Pass(ts, i, n)) == Others(ts)
    decreases |ts| - i
  {
    if i + n <= |ts| {
      if Combines(ts, i, n) {
        MergeKeepsOthers(ts, i, n);
        PassKeepsOthers(Merge(ts, i, n), i + 1, n);
      } else {
        PassKeepsOthers(ts, i + 1, n);
      }
    }
  }

  /** Combining leaves words, literals, comments, blanks and newlines untouched. */
  lemma CombineKeepsOthers(ts: seq<TokenView>)
    ensures Others(Combine(ts)) == Others(ts)
  {
    PassKeepsOthers(ts, 0, 3);
    PassKeepsOthers(Pass(ts, 0, 3), 0, 2);
  }

  /** A pass never adds tokens. */
  lemma {:induction false} PassShrinks(ts: seq<TokenView>, i: nat, n: nat)
    requires Width(n) && i <= |ts|
    ensures |Pass(ts, i, n)| <= |ts|
    decreases |ts| - i
  {
    if i + n <= |ts| {
      if Combines(ts, i, n) {
        PassShrinks(Merge(ts, i, n), i + 1, n);
      } else {
        PassShrinks(ts, i + 1, n);
      }
    }
  }

  /** A merged token keeps the kind, original text and line of the first token of its run. */
  lemma MergeKeepsShown(ts: seq<TokenView>, i: nat, n: nat)
    requires Width(n) && i + n <= |ts| && Combines(ts, i, n) && ShowsOriginal(ts)
    ensures ShowsOriginal(Merge(ts, i, n))
    ensures var m := Merge(ts, i, n)[i];
            m.kind == SpecialChar && m.value in COMBINED_SPECIAL_CHAR &&
            m.originalValue == ts[i].originalValue && m.lineNumber == ts[i].lineNumber
  {
    var r := Merge(ts, i, n);
    forall k | 0 <= k < |r|
      ensures r[k].value == r[k].originalValue || (r[k].kind == SpecialChar && r[k].value in COMBINED_SPECIAL_CHAR)
    {
      if k > i {
        assert r[k] == ts[k + n - 1];
      }
    }
  }

  /** A pass keeps every token either at its original text or at an operator of the table. */
  lemma {:induction false} PassKeepsShown(ts: seq<TokenView>, i: nat, n: nat)
    requires Width(n) && i <= |ts| && ShowsOriginal(ts)
    ensures ShowsOriginal(Pass(ts, i, n))
    decreases |ts| - i
  {
    if i + n <= |ts| {
      if Combines(ts, i, n) {
        MergeKeepsShown(ts, i, n);
        PassKeepsShown(Merge(ts, i, n), i + 1, n);
      } else {
        PassKeepsShown(ts, i + 1, n);
      }
    }
  }

  /** After combining, every token whose value differs from its original text is a special character showing an operator. */
  lemma CombineKeepsShown(ts: seq<TokenView>)
    requires ShowsOriginal(ts)
    ensures ShowsOriginal(Combine(ts))
    ensures |Combine(ts)| <= |ts|
  {
    PassKeepsShown(ts, 0, 3);
    PassKeepsShown(Pass(ts, 0, 3), 0, 2);
    PassShrinks(ts, 0, 3);
    PassShrinks(Pass(ts, 0, 3), 0, 2);
  }

  /** A one-character special token on line 1, as the lexer makes it. */
  function Sp(c: string): TokenView {
    TokenView(SpecialChar, c, c, 1)
  }

  /** The longest shift-assign is built in two passes: the triple first, then the pair. */
  lemma ShiftAssignCombines()
    ensures Combine([Sp(">"), Sp(">"), Sp(">"), Sp("=")]) == [TokenView(SpecialChar, ">>>=", ">", 1)]
  {
    var ts := [Sp(">"), Sp(">"), Sp(">"), Sp("=")];
    assert Candidate(ts, 0, 3) == ">>>" == COMBINED_SPECIAL_CHAR[22];
    var ts1 := [TokenView(SpecialChar, ">>>", ">", 1), Sp("=")];
    assert Merge(ts, 0, 3) == ts1;
    assert Pass(ts, 0, 3) == Pass(ts1, 1, 3) == ts1;
    assert Candidate(ts1, 0, 2) == ">>>=" == COMBINED_SPECIAL_CHAR[16];
    var ts2 := [TokenView(SpecialChar, ">>>=", ">", 1)];
    assert Merge(ts1, 0, 2) == ts2;
    assert Pass(ts1, 0, 2) == Pass(ts2, 1, 2) == ts2;
  }

  /** Three plus signs give an increment followed by a plus: a merged token is not looked at again. */
  lemma TriplePlusCombines()
    ensures Combine([Sp("+"), Sp("+"), Sp("+")]) == [TokenView(SpecialChar, "++", "+", 1), Sp("+")]
  {
    var ts := [Sp("+"), Sp("+"), Sp("+")];
    assert Candidate(ts, 0, 3) == "+++";
    assert "+++" !in COMBINED_SPECIAL_CHAR;
    assert Pass(ts, 0, 3) == Pass(ts, 1, 3) == ts;
    assert Candidate(ts, 0, 2) == "++" == COMBINED_SPECIAL_CHAR[0];
    var ts1 := [TokenView(SpecialChar, "++", "+", 1), Sp("+")];
    assert Merge(ts, 0, 2) == ts1;
    assert Pass(ts, 0, 2) == Pass(ts1, 1, 2) == ts1;
  }

  /** Strict equality is one token. */
  lemma StrictEqualsCombines()
    ensures Combine([Sp("="), Sp("="), Sp("=")]) == [TokenView(SpecialChar, "===", "=", 1)]
  {
    var ts := [Sp("="), Sp("="), Sp("=")];
    assert Candidate(ts, 0, 3) == "===" == COMBINED_SPECIAL_CHAR[17];
    var ts1 := [TokenView(SpecialChar, "===", "=", 1)];
    assert Merge(ts, 0, 3) == ts1;
    assert Pass(ts, 0, 3) == Pass(ts1, 1, 3) == ts1;
    assert Pass(ts1, 0, 2) == ts1;
  }

  /** Two equals signs before a greater-than give "==" and ">", not "=" and "=>". */
  lemma EqualsArrowCombines()
    ensures Combine([Sp("="), Sp("="), Sp(">")]) == [TokenView(SpecialChar, "==", "=", 1), Sp(">")]
  {
    var ts := [Sp("="), Sp("="), Sp(">")];
    assert Candidate(ts, 0, 3) == "==>";
    assert "==>" !in COMBINED_SPECIAL_CHAR;
    assert Pass(ts, 0, 3) == Pass(ts, 1, 3) == ts;
    assert Candidate(ts, 0, 2) == "==" == COMBINED_SPECIAL_CHAR[4];
    var ts1 := [TokenView(SpecialChar, "==", "=", 1), Sp(">")];
    assert Merge(ts, 0, 2) == ts1;
    assert Pass(ts, 0, 2) == Pass(ts1, 1, 2) == ts1;
  }
}
