/** The token estimate reported as usage: how it composes over pieces of a text. */
module TokenEstimate {
  import opened Text

  predicate IsCjk(c: char) {
    var n := c as int;
    || 0x3400 <= n <= 0x4DBF || 0x4E00 <= n <= 0x9FFF || 0xF900 <= n <= 0xFAFF
    || 0x20000 <= n <= 0x2A6DF || 0x2A700 <= n <= 0x2B73F || 0x2B740 <= n <= 0x2B81F || 0x2B820 <= n <= 0x2CEAF
  }

  /** `[A-Za-z0-9_]` */
  predicate IsWord(c: char) {
    'A' <= c <= 'Z' || 'a' <= c <= 'z' || '0' <= c <= '9' || c == '_'
  }

  predicate Blank(text: string) {
    forall k :: 0 <= k < |text| ==> IsSpace(text[k])
  }

  function CjkCount(text: string, from: nat := 0): nat
    requires from <= |text|
    decreases |text| - from
  {
    if from == |text| then 0 else (if IsCjk(text[from]) then 1 else 0) + CjkCount(text, from + 1)
  }

  function BlankOutCjk(text: string): (r: string)
    ensures |r| == |text|
    ensures forall k :: 0 <= k < |r| ==> r[k] == if IsCjk(text[k]) then ' ' else text[k]
  {
    seq(|text|, k requires 0 <= k < |text| => if IsCjk(text[k]) then ' ' else text[k])
  }

  /** The end of the run of word characters that starts at `from`. */
  function RunEnd(text: string, from: nat): (e: nat)
    requires from <= |text|
    ensures from <= e <= |text|
    ensures forall k :: from <= k < e ==> IsWord(text[k])
    ensures e < |text| ==> !IsWord(text[e])
    decreases |text| - from
  {
    if from < |text| && IsWord(text[from]) then RunEnd(text, from + 1) else from
  }

  /** How many matches `re.findall` of a word run or a single other non-space character
      returns: scanned from the left, each match greedy. */
  function MatchCount(text: string, from: nat): nat
    requires from <= |text|
    decreases |text| - from
  {
    if from == |text| then 0
    else if IsWord(text[from]) then 1 + MatchCount(text, RunEnd(text, from + 1))
    else (if IsSpace(text[from]) then 0 else 1) + MatchCount(text, from + 1)
  }

  function Estimate(text: string): nat {
    if Blank(text) then 0
    else
      var n := CjkCount(text) + MatchCount(BlankOutCjk(text), 0);
      if n < 1 then 1 else n
  }

  // ----- a character-by-character form -------------------------------------------------

  /** What character `k` adds: one for a CJK character, one for any other non-space
      character unless it continues a word. */
  function Weight(text: string, k: nat): nat
    requires k < |text|
  {
    if IsCjk(text[k]) then 1
    else if IsSpace(text[k]) || (IsWord(text[k]) && k > 0 && IsWord(text[k - 1])) then 0
    else 1
  }

  function Tokens(text: string, from: nat := 0): nat
    requires from <= |text|
    decreases |text| - from
  {
    if from == |text| then 0 else Weight(text, from) + Tokens(text, from + 1)
  }

  lemma {:induction false} RestOfWordIsFree(text: string, from: nat)
    requires 0 < from <= |text| && IsWord(text[from - 1])
    ensures Tokens(text, from) == Tokens(text, RunEnd(text, from))
    decreases |text| - from
  {
    if from < |text| && IsWord(text[from]) {
      RestOfWordIsFree(text, from + 1);
    }
  }

  /** The greedy scan counts one per word run and one per other non-space character. */
  lemma {:induction false} ScanCountsOpenings(text: string, from: nat)
    requires from <= |text|
    requires forall k :: 0 <= k < |text| ==> !IsCjk(text[k])
    requires 0 < from < |text| && IsWord(text[from]) ==> !IsWord(text[from - 1])
    ensures MatchCount(text, from) == Tokens(text, from)
    decreases |text| - from
  {
    if from < |text| {
      if IsWord(text[from]) {
        RestOfWordIsFree(text, from + 1);
        ScanCountsOpenings(text, RunEnd(text, from + 1));
      } else {
        ScanCountsOpenings(text, from + 1);
      }
    }
  }

  lemma {:induction false} CjkCountsApart(text: string, from: nat)
    requires from <= |text|
    ensures CjkCount(text, from) + Tokens(BlankOutCjk(text), from) == Tokens(text, from)
    decreases |text| - from
  {
    if from < |text| {
      CjkCountsApart(text, from + 1);
    }
  }

  lemma {:induction false} BlankMeansNoTokens(text: string, from: nat)
    requires from <= |text|
    requires 0 < from < |text| && IsWord(text[from]) ==> !IsWord(text[from - 1])
    ensures Tokens(text, from) == 0 <==> forall k :: from <= k < |text| ==> IsSpace(text[k])
    decreases |text| - from
  {
    if from < |text| {
      if IsWord(text[from]) {
        assert Weight(text, from) == 1 && !IsSpace(text[from]);
      } else {
        BlankMeansNoTokens(text, from + 1);
      }
    }
  }

  /** The estimate is the sum of the character weights; the `max(1, ...)` and the blank
      test never change it. */
  lemma EstimateIsTokens(text: string)
    ensures Estimate(text) == Tokens(text)
    ensures !Blank(text) ==> CjkCount(text) + MatchCount(BlankOutCjk(text), 0) >= 1
  {
    ScanCountsOpenings(BlankOutCjk(text), 0);
    CjkCountsApart(text, 0);
    BlankMeansNoTokens(text, 0);
  }

  // ----- the three kinds of text ---------------------------------------------------------

  lemma {:induction false} TokensOfOneWord(text: string, from: nat)
    requires 0 < from <= |text| && forall k :: 0 <= k < |text| ==> IsWord(text[k])
    ensures Tokens(text, from) == 0
    decreases |text| - from
  {
    if from < |text| {
      TokensOfOneWord(text, from + 1);
    }
  }

  /** A run of ASCII digits, letters and underscores is one token. */
  lemma WordIsOneToken(text: string)
    requires text != ""
    requires forall k :: 0 <= k < |text| ==>
               var n := text[k] as int; 48 <= n <= 57 || 65 <= n <= 90 || n == 95 || 97 <= n <= 122
    ensures Estimate(text) == 1
  {
    EstimateIsTokens(text);
    forall k | 0 <= k < |text| ensures IsWord(text[k]) && !IsCjk(text[k]) && !IsSpace(text[k]) {
    }
    TokensOfOneWord(text, 1);
  }

  lemma {:induction false} TokensOfSigns(text: string, from: nat)
    requires from <= |text| && forall k :: 0 <= k < |text| ==> Weight(text, k) == 1
    ensures Tokens(text, from) == |text| - from
    decreases |text| - from
  {
    if from < |text| {
      TokensOfSigns(text, from + 1);
    }
  }

  /** Every CJK ideograph is a token, and so is every other character that is neither white space
      nor an ASCII letter, digit or underscore. */
  lemma SignsAreOneEach(text: string)
    requires forall k :: 0 <= k < |text| ==>
               !IsSpace(text[k]) &&
               var n := text[k] as int; !(48 <= n <= 57 || 65 <= n <= 90 || n == 95 || 97 <= n <= 122)
    ensures Estimate(text) == |text|
  {
    EstimateIsTokens(text);
    TokensOfSigns(text, 0);
  }

  /** White space is no token; among it are the ASCII space and the controls 9 to 13. */
  lemma SpaceIsNoToken(text: string)
    requires forall k :: 0 <= k < |text| ==> var n := text[k] as int; n == 32 || 9 <= n <= 13
    ensures Estimate(text) == 0
  {
    assert Blank(text);
  }

  // ----- joining pieces ----------------------------------------------------------------

  /** A word runs across the joint between two pieces. */
  function Joint(a: string, b: string): nat {
    if a != "" && b != "" && IsWord(a[|a| - 1]) && IsWord(b[0]) then 1 else 0
  }

  lemma {:induction false} TokensOfPrefix(a: string, b: string, from: nat)
    requires from <= |a|
    ensures Tokens(a + b, from) == Tokens(a, from) + Tokens(a + b, |a|)
    decreases |a| - from
  {
    if from < |a| {
      TokensOfPrefix(a, b, from + 1);
    }
  }

  lemma {:induction false} TokensOfSuffix(a: string, b: string, from: nat)
    requires 0 < from <= |b|
    ensures Tokens(a + b, |a| + from) == Tokens(b, from)
    decreases |b| - from
  {
    if from < |b| {
      TokensOfSuffix(a, b, from + 1);
    }
  }

  /** The estimate adds up over two pieces, less one exactly when a word is split. */
  lemma EstimateOfJoin(a: string, b: string)
    ensures Estimate(a + b) + Joint(a, b) == Estimate(a) + Estimate(b)
  {
    EstimateIsTokens(a);
    EstimateIsTokens(b);
    EstimateIsTokens(a + b);
    TokensOfPrefix(a, b, 0);
    if b != "" {
      TokensOfSuffix(a, b, 1);
      assert (a + b)[|a|] == b[0];
    }
  }

  function SumOfEstimates(parts: seq<string>): nat {
    if parts == [] then 0 else SumOfEstimates(parts[..|parts| - 1]) + Estimate(parts[|parts| - 1])
  }

  function SplitWords(parts: seq<string>): nat {
    if |parts| <= 1 then 0 else SplitWords(parts[..|parts| - 1]) + Joint(parts[|parts| - 2], parts[|parts| - 1])
  }

  /** Summing the estimates of the deltas of a stream overcounts the estimate of the whole
      by exactly the number of words split between two deltas. */
  lemma {:induction false} DeltasOvercountSplitWords(parts: seq<string>)
    requires forall k :: 0 <= k < |parts| ==> parts[k] != ""
    ensures SumOfEstimates(parts) == Estimate(Concat(parts)) + SplitWords(parts)
  {
    if parts != [] {
      var init, last := parts[..|parts| - 1], parts[|parts| - 1];
      DeltasOvercountSplitWords(init);
      EstimateOfJoin(Concat(init), last);
      JointAfterConcat(init, last);
    }
  }

  lemma JointAfterConcat(init: seq<string>, last: string)
    requires forall k :: 0 <= k < |init| ==> init[k] != ""
    ensures Joint(Concat(init), last) == if init == [] then 0 else Joint(init[|init| - 1], last)
  {
    if init != [] {
      var before, tail := Concat(init[..|init| - 1]), init[|init| - 1];
      assert Concat(init) == before + tail && tail != "";
    }
  }
}
