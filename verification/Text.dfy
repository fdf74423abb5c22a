/** Text primitives the server relies on: substring search, concatenation of
    deltas, removal of a token, white space. */
module Text {
  predicate OccursAt(text: string, pat: string, i: int) {
    0 <= i && i + |pat| <= |text| && text[i..i + |pat|] == pat
  }

  /** `text.find(pat)`: the least index of an occurrence, or -1. */
  function Find(text: string, pat: string): (r: int)
    ensures -1 <= r
    ensures r == -1 ==> forall i :: !OccursAt(text, pat, i)
    ensures r >= 0 ==> OccursAt(text, pat, r) && forall i :: OccursAt(text, pat, i) ==> r <= i
  {
    FindFrom(text, pat, 0)
  }

  function FindFrom(text: string, pat: string, start: nat): (r: int)
    requires start <= |text|
    ensures -1 <= r
    ensures r == -1 ==> forall i :: start <= i ==> !OccursAt(text, pat, i)
    ensures r >= 0 ==> OccursAt(text, pat, r) && start <= r
    ensures r >= 0 ==> forall i :: start <= i && OccursAt(text, pat, i) ==> r <= i
    decreases |text| - start
  {
    if OccursAt(text, pat, start) then start
    else if start == |text| then -1
    else FindFrom(text, pat, start + 1)
  }

  /** `"".join(parts)`. */
  function Concat(parts: seq<string>): string {
    if parts == [] then "" else Concat(parts[..|parts| - 1]) + parts[|parts| - 1]
  }

  lemma {:induction false} ConcatAppend(parts: seq<string>, last: string)
    ensures Concat(parts + [last]) == Concat(parts) + last
  {
    assert (parts + [last])[..|parts|] == parts;
  }

  lemma {:induction false} ConcatTake(parts: seq<string>, k: nat)
    requires k <= |parts|
    ensures Concat(parts[..k]) <= Concat(parts)
    decreases |parts|
  {
    if k == |parts| {
      assert parts[..k] == parts;
    } else {
      ConcatTake(parts[..|parts| - 1], k);
      assert parts[..|parts| - 1][..k] == parts[..k];
    }
  }

  /** An occurrence seen in a prefix is an occurrence in the whole text, and back
      again when it ends inside the prefix. */
  lemma OccursInPrefix(text: string, cut: nat, pat: string, i: int)
    requires cut <= |text|
    ensures OccursAt(text[..cut], pat, i) <==> OccursAt(text, pat, i) && i + |pat| <= cut
  {
    if 0 <= i && i + |pat| <= cut {
      assert text[..cut][i..i + |pat|] == text[i..i + |pat|];
    }
  }

  /** The same for a suffix, with indices shifted. */
  lemma OccursInSuffix(text: string, from: nat, pat: string, i: int)
    requires from <= |text|
    ensures OccursAt(text[from..], pat, i) <==> OccursAt(text, pat, from + i) && 0 <= i
  {
    if 0 <= i && from + i + |pat| <= |text| {
      assert text[from..][i..i + |pat|] == text[from + i..from + i + |pat|];
    }
  }

  /** `text.replace(token, "")`. */
  function Remove(text: string, token: string): string
    requires token != ""
  {
    if text == "" then ""
    else if OccursAt(text, token, 0) then Remove(text[|token|..], token)
    else [text[0]] + Remove(text[1..], token)
  }

  lemma {:induction false} RemoveNothing(text: string, token: string)
    requires token != ""
    requires forall i :: !OccursAt(text, token, i)
    ensures Remove(text, token) == text
  {
    if text != "" {
      assert !OccursAt(text, token, 0);
      forall i ensures !OccursAt(text[1..], token, i) {
        OccursInSuffix(text, 1, token, i);
        assert !OccursAt(text, token, 1 + i);
      }
      RemoveNothing(text[1..], token);
    }
  }

  /** `sep.join(parts)` for at least one part. */
  function JoinBy(parts: seq<string>, sep: string): string {
    if parts == [] then ""
    else if |parts| == 1 then parts[0]
    else parts[0] + sep + JoinBy(parts[1..], sep)
  }

  ghost predicate EndsAtFirst(part: string, token: string) {
    forall i :: OccursAt(part + token, token, i) ==> i == |part|
  }

  ghost predicate Free(text: string, token: string) {
    forall i :: !OccursAt(text, token, i)
  }

  /** The text cut at the token from the left: each cut at the first occurrence in what is
      left, until none is. */
  ghost predicate IsSplit(text: string, token: string, parts: seq<string>) {
    && parts != []
    && JoinBy(parts, token) == text
    && (forall k :: 0 <= k < |parts| - 1 ==> EndsAtFirst(parts[k], token))
    && Free(parts[|parts| - 1], token)
  }

  lemma {:induction false} ConcatHead(first: string, parts: seq<string>)
    ensures Concat([first] + parts) == first + Concat(parts)
  {
    if parts == [] {
      assert [first] + parts == [first];
      assert Concat([first]) == Concat([first][..0]) + first;
    } else {
      var init, last := parts[..|parts| - 1], parts[|parts| - 1];
      ConcatHead(first, init);
      assert ([first] + parts)[..|parts|] == [first] + init;
      assert ([first] + parts)[|parts|] == last;
    }
  }

  lemma TailOfFirst(text: string, token: string, e: nat, tail: string)
    requires OccursAt(text, token, e) && e > 0 && tail == text[1..]
    requires forall i :: 0 <= i < e ==> !OccursAt(text, token, i)
    ensures OccursAt(tail, token, e - 1)
    ensures forall i :: 0 <= i < e - 1 ==> !OccursAt(tail, token, i)
  {
    OccursInSuffix(text, 1, token, e - 1);
    forall i | 0 <= i < e - 1 ensures !OccursAt(tail, token, i) {
      OccursInSuffix(text, 1, token, i);
      assert !OccursAt(text, token, 1 + i);
    }
  }

  lemma TailSlices(text: string, e: nat, n: nat, kept: string)
    requires 0 < e && e + n <= |text|
    ensures text[1..][e - 1 + n..] == text[e + n..]
    ensures [text[0]] + (text[1..][..e - 1] + kept) == text[..e] + kept
  {
    assert [text[0]] + text[1..][..e - 1] == text[..e];
  }

  lemma {:induction false} RemoveAtFirst(text: string, token: string, e: nat)
    requires token != "" && OccursAt(text, token, e)
    requires forall i :: 0 <= i < e ==> !OccursAt(text, token, i)
    ensures Remove(text, token) == text[..e] + Remove(text[e + |token|..], token)
  {
    if e > 0 {
      var tail := text[1..];
      TailOfFirst(text, token, e, tail);
      RemoveAtFirst(tail, token, e - 1);
      TailSlices(text, e, |token|, Remove(text[e + |token|..], token));
      assert !OccursAt(text, token, 0);
    } else {
      assert text[..0] + Remove(text[|token|..], token) == Remove(text[|token|..], token);
    }
  }

  lemma FirstPart(text: string, token: string, e: nat)
    requires token != "" && OccursAt(text, token, e)
    requires forall i :: OccursAt(text, token, i) ==> e <= i
    ensures EndsAtFirst(text[..e], token)
    ensures text == text[..e] + token + text[e + |token|..]
  {
    assert text[..e] + token == text[..e + |token|];
    forall i | OccursAt(text[..e] + token, token, i) ensures i == e {
      OccursInPrefix(text, e + |token|, token, i);
    }
  }

  lemma PrependPart(part: string, text: string, token: string, more: seq<string>)
    requires EndsAtFirst(part, token) && IsSplit(text, token, more)
    ensures IsSplit(part + token + text, token, [part] + more)
  {
    var parts := [part] + more;
    assert parts[1..] == more && parts[|parts| - 1] == more[|more| - 1];
    forall k | 0 <= k < |parts| - 1 ensures EndsAtFirst(parts[k], token) {
      assert k > 0 ==> parts[k] == more[k - 1];
    }
  }

  lemma {:induction false} JoinLength(parts: seq<string>, sep: string)
    requires parts != []
    ensures |JoinBy(parts, sep)| == |Concat(parts)| + (|parts| - 1) * |sep|
    decreases |parts|
  {
    var tail := parts[1..];
    assert parts == [parts[0]] + tail;
    ConcatHead(parts[0], tail);
    if tail != [] {
      JoinLength(tail, sep);
      assert (|parts| - 1) * |sep| == |sep| + (|tail| - 1) * |sep|;
    }
  }

  /** The removed text is what lies between the cuts: nothing else is lost. */
  lemma {:induction false} RemoveSplits(text: string, token: string) returns (parts: seq<string>)
    requires token != ""
    ensures IsSplit(text, token, parts) && Remove(text, token) == Concat(parts)
    decreases |text|
  {
    var e := Find(text, token);
    if e < 0 {
      parts := [text];
      RemoveNothing(text, token);
      ConcatHead(text, []);
    } else {
      var rest := text[e + |token|..];
      FirstPart(text, token, e);
      RemoveAtFirst(text, token, e);
      var more := RemoveSplits(rest, token);
      PrependPart(text[..e], rest, token, more);
      ConcatHead(text[..e], more);
      parts := [text[..e]] + more;
    }
  }

  /** Removing a token shortens the text by its length for each cut. */
  lemma RemoveLoses(text: string, token: string) returns (parts: seq<string>)
    requires token != ""
    ensures IsSplit(text, token, parts) && Remove(text, token) == Concat(parts)
    ensures |Remove(text, token)| == |text| - (|parts| - 1) * |token|
  {
    parts := RemoveSplits(text, token);
    JoinLength(parts, token);
  }

  /** There is only one way to cut, so `Remove` is the concatenation of any such parts. */
  lemma {:induction false} SplitGivesRemove(text: string, token: string, parts: seq<string>)
    requires token != "" && IsSplit(text, token, parts)
    ensures Remove(text, token) == Concat(parts)
    decreases |parts|
  {
    if |parts| == 1 {
      RemoveNothing(text, token);
      ConcatHead(text, []);
    } else {
      var e, rest := |parts[0]|, JoinBy(parts[1..], token);
      SplitHead(parts[0], token, rest, text);
      RemoveAtFirst(text, token, e);
      SplitTail(rest, token, parts);
      SplitGivesRemove(rest, token, parts[1..]);
      ConcatHead(parts[0], parts[1..]);
      assert parts == [parts[0]] + parts[1..];
    }
  }

  lemma SplitTail(rest: string, token: string, parts: seq<string>)
    requires |parts| > 1 && rest == JoinBy(parts[1..], token)
    requires forall k :: 0 <= k < |parts| - 1 ==> EndsAtFirst(parts[k], token)
    requires Free(parts[|parts| - 1], token)
    ensures IsSplit(rest, token, parts[1..])
  {
    var tail := parts[1..];
    assert tail[|tail| - 1] == parts[|parts| - 1];
    assert forall k :: 0 <= k < |tail| ==> tail[k] == parts[k + 1];
  }

  lemma SplitHead(part: string, token: string, rest: string, text: string)
    requires EndsAtFirst(part, token) && text == part + token + rest
    ensures OccursAt(text, token, |part|)
    ensures text[..|part|] == part && text[|part| + |token|..] == rest
    ensures forall i :: 0 <= i < |part| ==> !OccursAt(text, token, i)
  {
    var n := |part| + |token|;
    assert text[|part|..n] == token && text[..n] == part + token;
    forall i | 0 <= i < |part| ensures !OccursAt(text, token, i) {
      OccursInPrefix(text, n, token, i);
    }
  }

  ghost predicate IsRemoval(text: string, token: string, result: string) {
    exists parts :: IsSplit(text, token, parts) && result == Concat(parts)
  }

  lemma RemovalIff(text: string, token: string, result: string)
    requires token != ""
    ensures IsRemoval(text, token, result) <==> result == Remove(text, token)
  {
    var parts := RemoveSplits(text, token);
    if other :| IsSplit(text, token, other) && result == Concat(other) {
      SplitGivesRemove(text, token, other);
    }
  }

  /** Python's `str.isspace`, which both `strip()` and the regular expression `\s` use. */
  predicate IsSpace(c: char) {
    var n := c as int;
    || 0x09 <= n <= 0x0D || 0x1C <= n <= 0x20 || n == 0x85 || n == 0xA0 || n == 0x1680
    || 0x2000 <= n <= 0x200A || n == 0x2028 || n == 0x2029 || n == 0x202F || n == 0x205F || n == 0x3000
  }

  function StripLeft(s: string): string {
    if s != "" && IsSpace(s[0]) then StripLeft(s[1..]) else s
  }

  function StripRight(s: string): string {
    if s != "" && IsSpace(s[|s| - 1]) then StripRight(s[..|s| - 1]) else s
  }

  /** `s.strip()` */
  function Strip(s: string): string {
    StripRight(StripLeft(s))
  }

  lemma {:induction false} StripLeftCuts(s: string)
    ensures |StripLeft(s)| <= |s| && StripLeft(s) == s[|s| - |StripLeft(s)|..]
    ensures forall k :: 0 <= k < |s| - |StripLeft(s)| ==> IsSpace(s[k])
    ensures StripLeft(s) != "" ==> !IsSpace(StripLeft(s)[0])
  {
    if s != "" && IsSpace(s[0]) {
      var t := s[1..];
      StripLeftCuts(t);
      var r := StripLeft(t);
      assert StripLeft(s) == r;
      assert r == t[|t| - |r|..] == s[|s| - |r|..];
      forall k | 0 <= k < |s| - |r| ensures IsSpace(s[k]) {
        assert k > 0 ==> s[k] == t[k - 1];
      }
    }
  }

  lemma {:induction false} StripRightCuts(s: string)
    ensures StripRight(s) <= s
    ensures forall k :: |StripRight(s)| <= k < |s| ==> IsSpace(s[k])
    ensures StripRight(s) != "" ==> !IsSpace(StripRight(s)[|StripRight(s)| - 1])
  {
    if s != "" && IsSpace(s[|s| - 1]) {
      StripRightCuts(s[..|s| - 1]);
    }
  }
}
