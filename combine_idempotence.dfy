/**
 * Combining twice gives the same tokens as combining once, for token lists whose
 * special-character tokens are single characters, as the lexer makes them.
 *
 * The argument follows the characters of each run of adjacent special tokens.
 * A merge never changes these characters, only how they are split into tokens.
 * After the three-token pass, no token of fewer than three characters starts a
 * run whose first three characters form an operator: the pass looked at every
 * such window and would have merged it. The two-token pass keeps this, and it
 * leaves no two adjacent tokens of odd length (the ones it did not build) that
 * form an operator. Every window a second combining would merge contradicts one
 * of these two facts.
 */
module CombineIdempotence {
  import opened Tokens
  import opened ParserUtil
  import opened CombineSpec

  /** The characters of the run of adjacent special tokens that starts at `k`. */
  function Stream(ts: seq<TokenView>, k: nat): string
    requires k <= |ts|
    decreases |ts| - k
  {
    if k < |ts| && ts[k].kind == SpecialChar then ts[k].value + Stream(ts, k + 1) else ""
  }

  /** A special-character token shorter than any three-character operator. */
  predicate Short(t: TokenView) {
    t.kind == SpecialChar && |t.value| < 3
  }

  /** A special token of one or three characters, as the three-token pass leaves them. */
  predicate OddLength(t: TokenView) {
    t.kind == SpecialChar && (|t.value| == 1 || |t.value| == 3)
  }

  /** From `i` on, every special token has a value of one or three characters. */
  predicate OddFrom(ts: seq<TokenView>, i: nat) {
    forall k :: i <= k < |ts| && ts[k].kind == SpecialChar ==> OddLength(ts[k])
  }

  /** No special token has an empty value. */
  predicate NonEmptySpecials(ts: seq<TokenView>) {
    forall k :: 0 <= k < |ts| && ts[k].kind == SpecialChar ==> ts[k].value != []
  }

  /** Before `i`, no short token starts a run whose first three characters form an operator. */
  predicate NoShortStartBefore(ts: seq<TokenView>, i: nat) {
    forall k :: 0 <= k < i && k < |ts| && Short(ts[k]) && |Stream(ts, k)| >= 3 ==>
      Stream(ts, k)[..3] !in COMBINED_SPECIAL_CHAR
  }

  /** Before `i`, no two adjacent special tokens of odd length form an operator. */
  predicate NoOddPairBefore(ts: seq<TokenView>, i: nat) {
    forall k :: 0 <= k < i && k + 1 < |ts| && OddLength(ts[k]) && OddLength(ts[k + 1]) ==>
      ts[k].value + ts[k + 1].value !in COMBINED_SPECIAL_CHAR
  }

  /** Every operator has two to four characters, and the first three characters of a longer one are an operator too. */
  lemma OperatorShape(e: string)
    requires e in COMBINED_SPECIAL_CHAR
    ensures 2 <= |e| <= 4
    ensures |e| >= 3 ==> e[..3] in COMBINED_SPECIAL_CHAR
  {
    var i :| 0 <= i < |COMBINED_SPECIAL_CHAR| && COMBINED_SPECIAL_CHAR[i] == e;
    if |e| == 3 {
      assert e[..3] == e;
    } else if |e| == 4 {
      assert i == 16;
      assert e[..3] == COMBINED_SPECIAL_CHAR[22];
    }
  }

  /** The run from a position depends only on the tokens from there on. */
  lemma {:induction false} StreamSuffix(ts: seq<TokenView>, k: nat, us: seq<TokenView>, m: nat)
    requires k <= |ts| && m <= |us| && ts[k..] == us[m..]
    ensures Stream(ts, k) == Stream(us, m)
    decreases |ts| - k
  {
    if k < |ts| {
      assert ts[k] == ts[k..][0] == us[m];
      assert ts[k + 1..] == ts[k..][1..] == us[m + 1..];
      StreamSuffix(ts, k + 1, us, m + 1);
    }
  }

  /** A merge keeps the run that starts at the merged token. */
  lemma StreamMergeAt(ts: seq<TokenView>, j: nat, n: nat)
    requires Width(n) && j + n <= |ts| && SpecialRun(ts, j, n)
    ensures Stream(Merge(ts, j, n), j) == Stream(ts, j)
  {
    var r := Merge(ts, j, n);
    assert r[j + 1..] == ts[j + n..];
    StreamSuffix(r, j + 1, ts, j + n);
    assert Stream(ts, j) == ts[j].value + (ts[j + 1].value + Stream(ts, j + 2));
    if n == 3 {
      assert Stream(ts, j + 2) == ts[j + 2].value + Stream(ts, j + 3);
    }
  }

  /** A merge keeps every run that starts at or before the merged token. */
  lemma {:induction false} StreamMergeBefore(ts: seq<TokenView>, j: nat, n: nat, k: nat)
    requires Width(n) && j + n <= |ts| && SpecialRun(ts, j, n) && k <= j
    ensures Stream(Merge(ts, j, n), k) == Stream(ts, k)
    decreases j - k
  {
    if k == j {
      StreamMergeAt(ts, j, n);
    } else {
      StreamMergeBefore(ts, j, n, k + 1);
    }
  }

  /** A merge shifts the runs that start after the merged token. */
  lemma StreamMergeAfter(ts: seq<TokenView>, j: nat, n: nat, k: nat)
    requires Width(n) && j + n <= |ts| && j < k <= |ts| - n + 1
    ensures Stream(Merge(ts, j, n), k) == Stream(ts, k + n - 1)
  {
    var r := Merge(ts, j, n);
    assert r[k..] == ts[k + n - 1..];
    StreamSuffix(r, k, ts, k + n - 1);
  }

  /** Runs made of one-character tokens have at most as many characters as tokens. */
  lemma {:induction false} StreamOfSingles(ts: seq<TokenView>, k: nat)
    requires k <= |ts|
    requires forall m :: k <= m < |ts| && ts[m].kind == SpecialChar ==> |ts[m].value| == 1
    ensures |Stream(ts, k)| <= |ts| - k
    decreases |ts| - k
  {
    if k < |ts| {
      StreamOfSingles(ts, k + 1);
    }
  }

  /** A merge of a special run keeps the fact that no short token starts an operator. */
  lemma MergeKeepsNoShortStart(ts: seq<TokenView>, j: nat, n: nat)
    requires Width(n) && j + n <= |ts| && SpecialRun(ts, j, n)
    requires NoShortStartBefore(ts, |ts|) && NonEmptySpecials(ts)
    ensures NoShortStartBefore(Merge(ts, j, n), |Merge(ts, j, n)|)
    ensures NonEmptySpecials(Merge(ts, j, n))
  {
    var r := Merge(ts, j, n);
    forall k | 0 <= k < |r| && Short(r[k]) && |Stream(r, k)| >= 3
      ensures Stream(r, k)[..3] !in COMBINED_SPECIAL_CHAR
    {
      if k < j {
        StreamMergeBefore(ts, j, n, k);
        assert r[k] == ts[k];
      } else if k == j {
        StreamMergeAt(ts, j, n);
        assert |ts[j].value| <= |r[j].value|;
      } else {
        StreamMergeAfter(ts, j, n, k);
        assert r[k] == ts[k + n - 1];
      }
    }
    forall k | 0 <= k < |r| && r[k].kind == SpecialChar
      ensures r[k].value != []
    {
      if k > j {
        assert r[k] == ts[k + n - 1];
      }
    }
  }

  /**
   * Where the three-token pass stands at `i`: no token it has passed that is
   * short starts an operator, the tokens it has passed have one or three
   * characters, and the tokens it has not reached are single characters.
   */
  predicate TripleStage(ts: seq<TokenView>, i: nat) {
    i <= |ts| && NoShortStartBefore(ts, i) &&
    (forall k :: 0 <= k < i && k < |ts| && ts[k].kind == SpecialChar ==> OddLength(ts[k])) &&
    (forall k :: i <= k < |ts| && ts[k].kind == SpecialChar ==> |ts[k].value| == 1)
  }

  /** Merging three tokens at `i` moves the three-token pass on by one. */
  lemma TripleMergeStep(ts: seq<TokenView>, i: nat)
    requires TripleStage(ts, i) && i + 3 <= |ts| && Combines(ts, i, 3)
    ensures TripleStage(Merge(ts, i, 3), i + 1)
  {
    var r := Merge(ts, i, 3);
    forall k | 0 <= k < i + 1 && k < |r| && Short(r[k]) && |Stream(r, k)| >= 3
      ensures Stream(r, k)[..3] !in COMBINED_SPECIAL_CHAR
    {
      StreamMergeBefore(ts, i, 3, k);
      assert r[k] == ts[k];
    }
    forall k | i + 1 <= k < |r|
      ensures r[k] == ts[k + 2]
    {
    }
  }

  /** A window of three single characters that is not merged does not start an operator. */
  lemma SkippedWindow(ts: seq<TokenView>, i: nat)
    requires i + 3 <= |ts| && !Combines(ts, i, 3)
    requires forall k :: i <= k < |ts| && ts[k].kind == SpecialChar ==> |ts[k].value| == 1
    ensures Short(ts[i]) && |Stream(ts, i)| >= 3 ==> Stream(ts, i)[..3] !in COMBINED_SPECIAL_CHAR
  {
    if Short(ts[i]) && |Stream(ts, i)| >= 3 {
      assert Stream(ts, i) == ts[i].value + Stream(ts, i + 1);
      assert ts[i + 1].kind == SpecialChar;
      assert Stream(ts, i + 1) == ts[i + 1].value + Stream(ts, i + 2);
      assert ts[i + 2].kind == SpecialChar;
      StreamStartsWith(ts, i, 3);
    }
  }

  /** A window of three that is not merged at `i` moves the three-token pass on by one. */
  lemma TripleSkipStep(ts: seq<TokenView>, i: nat)
    requires TripleStage(ts, i) && i + 3 <= |ts| && !Combines(ts, i, 3)
    ensures TripleStage(ts, i + 1)
  {
    SkippedWindow(ts, i);
  }

  /** When the three-token pass stops, no short token starts an operator anywhere. */
  lemma TripleEnd(ts: seq<TokenView>, i: nat)
    requires TripleStage(ts, i) && i + 3 > |ts|
    ensures NoShortStartBefore(ts, |ts|) && OddFrom(ts, 0)
  {
    forall k | i <= k < |ts| && Short(ts[k])
      ensures |Stream(ts, k)| < 3
    {
      StreamOfSingles(ts, k);
    }
  }

  /** The three-token pass leaves no short token starting an operator, and only tokens of one or three characters. */
  lemma {:induction false} TriplePassLeavesNoShortStart(ts: seq<TokenView>, i: nat)
    requires TripleStage(ts, i)
    ensures var p := Pass(ts, i, 3); NoShortStartBefore(p, |p|) && OddFrom(p, 0)
    decreases |ts| - i
  {
    if i + 3 > |ts| {
      TripleEnd(ts, i);
    } else if Combines(ts, i, 3) {
      TripleMergeStep(ts, i);
      TriplePassLeavesNoShortStart(Merge(ts, i, 3), i + 1);
    } else {
      TripleSkipStep(ts, i);
      TriplePassLeavesNoShortStart(ts, i + 1);
    }
  }

  /**
   * Where the two-token pass stands at `i`: no short token starts an operator,
   * no special value is empty, no two adjacent tokens of odd length it has
   * passed form an operator, and the tokens it has not reached have one or
   * three characters.
   */
  predicate PairStage(ts: seq<TokenView>, i: nat) {
    i <= |ts| && NoShortStartBefore(ts, |ts|) && NonEmptySpecials(ts) &&
    NoOddPairBefore(ts, i) && OddFrom(ts, i)
  }

  /** Merging two tokens at `i` moves the two-token pass on by one. */
  lemma PairMergeStep(ts: seq<TokenView>, i: nat)
    requires PairStage(ts, i) && i + 2 <= |ts| && Combines(ts, i, 2)
    ensures PairStage(Merge(ts, i, 2), i + 1)
  {
    var r := Merge(ts, i, 2);
    MergeKeepsNoShortStart(ts, i, 2);
    assert !OddLength(r[i]);
    forall k | 0 <= k < i
      ensures r[k] == ts[k]
    {
    }
    forall k | i + 1 <= k < |r|
      ensures r[k] == ts[k + 1]
    {
    }
  }

  /** A pair that is not merged at `i` moves the two-token pass on by one. */
  lemma PairSkipStep(ts: seq<TokenView>, i: nat)
    requires PairStage(ts, i) && i + 2 <= |ts| && !Combines(ts, i, 2)
    ensures PairStage(ts, i + 1)
  {
  }

  /** When the two-token pass stops, it has passed every pair of adjacent tokens. */
  lemma PairEnd(ts: seq<TokenView>, i: nat)
    requires PairStage(ts, i) && i + 2 > |ts|
    ensures NoShortStartBefore(ts, |ts|) && NoOddPairBefore(ts, |ts|) && NonEmptySpecials(ts)
  {
  }

  /** The two-token pass keeps the facts of its stage and ends with no two adjacent tokens of odd length forming an operator. */
  lemma {:induction false} PairPassLeavesNoOddPair(ts: seq<TokenView>, i: nat)
    requires PairStage(ts, i)
    ensures var c := Pass(ts, i, 2);
            NoShortStartBefore(c, |c|) && NoOddPairBefore(c, |c|) && NonEmptySpecials(c)
    decreases |ts| - i
  {
    if i + 2 > |ts| {
      PairEnd(ts, i);
    } else if Combines(ts, i, 2) {
      PairMergeStep(ts, i);
      PairPassLeavesNoOddPair(Merge(ts, i, 2), i + 1);
    } else {
      PairSkipStep(ts, i);
      PairPassLeavesNoOddPair(ts, i + 1);
    }
  }

  /** A pass with no window to merge leaves the list as it is. */
  lemma {:induction false} PassWithoutMatch(ts: seq<TokenView>, i: nat, n: nat)
    requires Width(n) && i <= |ts|
    requires forall k :: 0 <= k && k + n <= |ts| ==> !Combines(ts, k, n)
    ensures Pass(ts, i, n) == ts
    decreases |ts| - i
  {
    if i + n <= |ts| {
      PassWithoutMatch(ts, i + 1, n);
    }
  }

  /** A run of special tokens starts with their values. */
  lemma StreamStartsWith(cs: seq<TokenView>, k: nat, n: nat)
    requires Width(n) && k + n <= |cs| && SpecialRun(cs, k, n)
    ensures Stream(cs, k) == Candidate(cs, k, n) + Stream(cs, k + n)
    ensures |Candidate(cs, k, n)| >= 3 ==> Stream(cs, k)[..3] == Candidate(cs, k, n)[..3]
  {
    assert Stream(cs, k) == cs[k].value + (cs[k + 1].value + Stream(cs, k + 2));
    if n == 3 {
      assert Stream(cs, k + 2) == cs[k + 2].value + Stream(cs, k + 3);
    }
  }

  /** A short token that starts a run of special tokens does not start an operator there. */
  lemma ShortStartRulesOut(cs: seq<TokenView>, k: nat, n: nat)
    requires Width(n) && k + n <= |cs| && SpecialRun(cs, k, n)
    requires NoShortStartBefore(cs, |cs|) && Short(cs[k]) && |Candidate(cs, k, n)| >= 3
    ensures Candidate(cs, k, n)[..3] !in COMBINED_SPECIAL_CHAR
  {
    StreamStartsWith(cs, k, n);
  }

  /** The facts left by both passes rule out every window of two tokens. */
  lemma NoPairCombines(cs: seq<TokenView>, k: nat)
    requires k + 2 <= |cs| && NoShortStartBefore(cs, |cs|) && NoOddPairBefore(cs, |cs|) && NonEmptySpecials(cs)
    ensures !Combines(cs, k, 2)
  {
    if SpecialRun(cs, k, 2) {
      var c := Candidate(cs, k, 2);
      if c in COMBINED_SPECIAL_CHAR {
        OperatorShape(c);
        if |c| >= 3 && |cs[k].value| < 3 {
          ShortStartRulesOut(cs, k, 2);
        } else {
          assert cs[k].value != [] && cs[k + 1].value != [];
          assert OddLength(cs[k]) && OddLength(cs[k + 1]);
        }
      }
    }
  }

  /** The facts left by both passes rule out every window of three tokens. */
  lemma NoTripleCombines(cs: seq<TokenView>, k: nat)
    requires k + 3 <= |cs| && NoShortStartBefore(cs, |cs|) && NonEmptySpecials(cs)
    ensures !Combines(cs, k, 3)
  {
    if SpecialRun(cs, k, 3) {
      var c := Candidate(cs, k, 3);
      if c in COMBINED_SPECIAL_CHAR {
        OperatorShape(c);
        assert cs[k + 1].value != [] && cs[k + 2].value != [];
        ShortStartRulesOut(cs, k, 3);
      }
    }
  }

  /** A list of one-character special tokens, once combined, is left as it is by combining again. */
  lemma CombineIdempotent(ts: seq<TokenView>)
    requires forall k :: 0 <= k < |ts| && ts[k].kind == SpecialChar ==> |ts[k].value| == 1
    ensures Combine(Combine(ts)) == Combine(ts)
  {
    var p := Pass(ts, 0, 3);
    TriplePassLeavesNoShortStart(ts, 0);
    var c := Pass(p, 0, 2);
    PairPassLeavesNoOddPair(p, 0);
    forall k | 0 <= k && k + 3 <= |c|
      ensures !Combines(c, k, 3)
    {
      NoTripleCombines(c, k);
    }
    PassWithoutMatch(c, 0, 3);
    forall k | 0 <= k && k + 2 <= |c|
      ensures !Combines(c, k, 2)
    {
      NoPairCombines(c, k);
    }
    PassWithoutMatch(c, 0, 2);
  }
}
