/** Stop sequences: the one-shot cut of `_apply_stop_sequences` and the windowed
    streaming filter of `_filter_stream_delta`, for every text and every chunking. */
module StopSequences {
  import opened Wrappers
  import opened Text

  // ----- which stop wins ------------------------------------------------------------

  /** A stop found in a text: where it starts and which entry of the list it is. */
  datatype Match = Match(index: nat, which: nat)

  /** `m` is the earliest occurrence of any stop; ties go to the stop listed first. */
  ghost predicate IsFirst(text: string, stops: seq<string>, m: Match) {
    && m.which < |stops|
    && OccursAt(text, stops[m.which], m.index)
    && forall j, i :: 0 <= j < |stops| && OccursAt(text, stops[j], i) ==>
         m.index < i || (m.index == i && m.which <= j)
  }

  /** The winner among the first `n` stops, in the order the loop visits them. */
  function FirstAmong(text: string, stops: seq<string>, n: nat): (r: Option<Match>)
    requires n <= |stops|
    ensures r.Some? ==> r.value.which < n && OccursAt(text, stops[r.value.which], r.value.index)
  {
    if n == 0 then None
    else
      var before := FirstAmong(text, stops, n - 1);
      var index := Find(text, stops[n - 1]);
      if index >= 0 && (before.None? || index < before.value.index) then Some(Match(index, n - 1)) else before
  }

  lemma {:induction false} FirstAmongIsFirst(text: string, stops: seq<string>, n: nat)
    requires n <= |stops|
    ensures var r := FirstAmong(text, stops, n);
            && (r.None? ==> forall j, i :: 0 <= j < n ==> !OccursAt(text, stops[j], i))
            && (r.Some? ==> IsFirst(text, stops[..n], r.value))
  {
    if n > 0 {
      FirstAmongIsFirst(text, stops, n - 1);
    }
  }

  function First(text: string, stops: seq<string>): (r: Option<Match>)
    ensures r.Some? ==> r.value.which < |stops| && OccursAt(text, stops[r.value.which], r.value.index)
  {
    FirstAmong(text, stops, |stops|)
  }

  ghost predicate NoStop(text: string, stops: seq<string>) {
    forall j, i :: 0 <= j < |stops| ==> !OccursAt(text, stops[j], i)
  }

  /** `First` is the search it claims to be, and its answer is the only one. */
  lemma FirstIsFirst(text: string, stops: seq<string>)
    ensures First(text, stops).None? <==> NoStop(text, stops)
    ensures First(text, stops).Some? ==> IsFirst(text, stops, First(text, stops).value)
    ensures forall m :: IsFirst(text, stops, m) ==> First(text, stops) == Some(m)
  {
    FirstAmongIsFirst(text, stops, |stops|);
    assert stops[..|stops|] == stops;
  }

  predicate Hit(text: string, stops: seq<string>) {
    First(text, stops).Some?
  }

  /** What a request with these stops should answer for this text. */
  function Cut(text: string, stops: seq<string>): (string, Option<string>) {
    match First(text, stops)
    case None => (text, None)
    case Some(m) => (text[..m.index], Some(stops[m.which]))
  }

  predicate NonEmpty(stops: seq<string>) {
    forall k :: 0 <= k < |stops| ==> stops[k] != ""
  }

  /** The cut text is a prefix, holds no stop, and ends where one begins. */
  lemma CutIsClean(text: string, stops: seq<string>)
    requires NonEmpty(stops)
    ensures var (cut, matched) := Cut(text, stops);
            && cut <= text
            && !Hit(cut, stops)
            && (matched.None? <==> !Hit(text, stops))
            && (matched.None? ==> cut == text)
            && (matched.Some? ==> matched.value in stops && OccursAt(text, matched.value, |cut|))
            && (forall m :: IsFirst(text, stops, m) ==> (cut, matched) == (text[..m.index], Some(stops[m.which])))
  {
    FirstIsFirst(text, stops);
    if Hit(text, stops) {
      var m := First(text, stops).value;
      FirstIsFirst(text[..m.index], stops);
      forall j, i | 0 <= j < |stops| ensures !OccursAt(text[..m.index], stops[j], i) {
        OccursInPrefix(text, m.index, stops[j], i);
      }
    }
  }

  // ----- request validation ---------------------------------------------------------

  datatype StopField = Absent | One(s: string) | Many(ss: seq<string>)

  datatype StopError = InvalidStop

  /** The stop list used for the request, or the 400 answer. */
  method NormalizeStopSequences(field: StopField) returns (r: Result<seq<string>, StopError>)
    ensures r.Success? ==> NonEmpty(r.value)
    ensures field.Absent? ==> r == Success([])
    ensures field.One? ==> r == if field.s == "" then Failure(InvalidStop) else Success([field.s])
    ensures field.Many? ==> r == if "" in field.ss then Failure(InvalidStop) else Success(field.ss)
  {
    if field.Absent? {
      return Success([]);
    }
    var stops := if field.One? then [field.s] else field.ss;
    for k := 0 to |stops|
      invariant forall j :: 0 <= j < k ==> stops[j] != ""
    {
      if stops[k] == "" {
        return Failure(InvalidStop);
      }
    }
    assert field.One? ==> stops[0] == field.s;
    return Success(stops);
  }

  // ----- the one-shot cut -----------------------------------------------------------

  /** The search loop shared by the one-shot cut, the stream filter and the worker's
      end-marker scan. */
  method EarliestStop(text: string, stops: seq<string>) returns (earliest: Option<nat>, matched: Option<string>)
    ensures earliest.None? <==> First(text, stops).None?
    ensures matched.None? <==> earliest.None?
    ensures earliest.Some? ==>
              earliest.value == First(text, stops).value.index && matched.value == stops[First(text, stops).value.which]
  {
    earliest, matched := None, None;
    for k := 0 to |stops|
      invariant var f := FirstAmong(text, stops, k);
                && (earliest.None? <==> f.None?)
                && (matched.None? <==> f.None?)
                && (f.Some? ==> earliest.value == f.value.index && matched.value == stops[f.value.which])
    {
      var index := Find(text, stops[k]);
      if index >= 0 && (earliest.None? || index < earliest.value) {
        earliest, matched := Some(index), Some(stops[k]);
      }
    }
  }

  method ApplyStopSequences(text: string, stops: seq<string>) returns (cut: string, matched: Option<string>)
    ensures (cut, matched) == Cut(text, stops)
  {
    if |stops| == 0 {
      return text, None;
    }
    var earliest;
    earliest, matched := EarliestStop(text, stops);
    if earliest.None? {
      return text, None;
    }
    cut := text[..earliest.value];
  }

  // ----- the streaming filter -------------------------------------------------------

  function MaxLen(stops: seq<string>): (m: nat)
    ensures forall s :: s in stops ==> |s| <= m
    ensures stops != [] ==> exists s :: s in stops && |s| == m
  {
    if stops == [] then 0
    else
      var rest := MaxLen(stops[1..]);
      if |stops[0]| >= rest then |stops[0]| else rest
  }

  /** How many characters the filter holds back: one less than the longest stop. */
  function Keep(stops: seq<string>): nat {
    if MaxLen(stops) == 0 then 0 else MaxLen(stops) - 1
  }

  function Min(a: nat, b: nat): nat {
    if a <= b then a else b
  }

  datatype Filtered = Filtered(out: string, pending: string, matched: Option<string>)

  function FilterDelta(delta: string, stops: seq<string>, pending: string): Filtered {
    if stops == [] then Filtered(delta, "", None)
    else
      var combined := pending + delta;
      match First(combined, stops)
      case Some(m) => Filtered(combined[..m.index], "", Some(stops[m.which]))
      case None =>
        var safe := |combined| - Min(|combined|, Keep(stops));
        Filtered(combined[..safe], combined[safe..], None)
  }

  method FilterStreamDelta(delta: string, stops: seq<string>, pending: string)
    returns (out: string, rest: string, matched: Option<string>)
    ensures Filtered(out, rest, matched) == FilterDelta(delta, stops, pending)
  {
    if |stops| == 0 {
      return delta, "", None;
    }
    var combined := pending + delta;
    var earliest;
    earliest, matched := EarliestStop(combined, stops);
    if earliest.Some? {
      return combined[..earliest.value], "", matched;
    }
    var longest := MaxLen(stops);
    var keep := if longest - 1 > 0 then longest - 1 else 0;
    if keep <= 0 {
      assert combined[..|combined|] == combined && combined[|combined|..] == "";
      return combined, "", None;
    }
    var safe := if |combined| - keep > 0 then |combined| - keep else 0;
    return combined[..safe], combined[safe..], None;
  }

  /** The state of the streaming loop: deltas sent, text held back, stop matched. */
  datatype Stream = Stream(parts: seq<string>, pending: string, matched: Option<string>)

  function SendIfAny(parts: seq<string>, delta: string): seq<string> {
    if delta == "" then parts else parts + [delta]
  }

  /** One turn of the loop; after a match the backend is drained unread. */
  function Feed(s: Stream, delta: string, stops: seq<string>): Stream {
    if s.matched.Some? then s
    else
      var f := FilterDelta(delta, stops, s.pending);
      Stream(SendIfAny(s.parts, f.out), f.pending, f.matched)
  }

  function FeedAll(chunks: seq<string>, stops: seq<string>): Stream {
    if chunks == [] then Stream([], "", None)
    else Feed(FeedAll(chunks[..|chunks| - 1], stops), chunks[|chunks| - 1], stops)
  }

  /** Everything the client receives, with the final flush of the held-back text. */
  function Received(s: Stream): seq<string> {
    if s.matched.Some? then s.parts else SendIfAny(s.parts, s.pending)
  }

  function Answer(chunks: seq<string>, stops: seq<string>): (string, Option<string>) {
    var s := FeedAll(chunks, stops);
    (Concat(Received(s)), s.matched)
  }

  lemma {:induction false} FeedAllAppend(chunks: seq<string>, delta: string, stops: seq<string>)
    ensures FeedAll(chunks + [delta], stops) == Feed(FeedAll(chunks, stops), delta, stops)
  {
    assert (chunks + [delta])[..|chunks|] == chunks;
  }

  lemma SendConcat(parts: seq<string>, delta: string)
    ensures Concat(SendIfAny(parts, delta)) == Concat(parts) + delta
  {
    if delta != "" {
      ConcatAppend(parts, delta);
    } else {
      assert Concat(parts) + delta == Concat(parts);
    }
  }

  // ----- the window lemma -----------------------------------------------------------

  lemma WindowOccurs(sent: string, pending: string, delta: string, stops: seq<string>, j: nat, i: int)
    requires j < |stops| && stops[j] != ""
    requires NoStop(sent + pending, stops)
    requires |pending| == Min(|sent + pending|, Keep(stops))
    ensures OccursAt(sent + (pending + delta), stops[j], i) <==>
            |sent| <= i && OccursAt(pending + delta, stops[j], i - |sent|)
  {
    var all := sent + (pending + delta);
    assert all[..|sent + pending|] == sent + pending && pending + delta == all[|sent|..];
    OccursInPrefix(all, |sent + pending|, stops[j], i);
    OccursInSuffix(all, |sent|, stops[j], i - |sent|);
    assert stops[j] in stops;
  }

  /** Text already scanned and free of stops can be dropped up to the last `Keep`
      characters: the search of the window finds exactly what a search of the whole
      text would. */
  lemma WindowSearch(sent: string, pending: string, delta: string, stops: seq<string>)
    requires NonEmpty(stops)
    requires !Hit(sent + pending, stops)
    requires |pending| == Min(|sent + pending|, Keep(stops))
    ensures var whole := First(sent + (pending + delta), stops);
            var window := First(pending + delta, stops);
            && (whole.Some? <==> window.Some?)
            && (whole.Some? ==> whole.value == Match(window.value.index + |sent|, window.value.which))
  {
    FirstIsFirst(sent + pending, stops);
    forall j, i | 0 <= j < |stops|
      ensures OccursAt(sent + (pending + delta), stops[j], i) <==>
              |sent| <= i && OccursAt(pending + delta, stops[j], i - |sent|)
    {
      WindowOccurs(sent, pending, delta, stops, j, i);
    }
    ShiftedSearch(sent + (pending + delta), pending + delta, stops, |sent|);
  }

  lemma ShiftedSearch(all: string, window: string, stops: seq<string>, sent: nat)
    requires forall j, i :: 0 <= j < |stops| ==>
               (OccursAt(all, stops[j], i) <==> sent <= i && OccursAt(window, stops[j], i - sent))
    ensures var a, w := First(all, stops), First(window, stops);
            && (a.Some? <==> w.Some?)
            && (a.Some? ==> a.value == Match(w.value.index + sent, w.value.which))
  {
    FirstIsFirst(all, stops);
    FirstIsFirst(window, stops);
    var w := First(window, stops);
    if w.Some? {
      assert OccursAt(all, stops[w.value.which], w.value.index + sent);
      assert IsFirst(all, stops, Match(w.value.index + sent, w.value.which));
    }
  }

  /** While no stop has appeared, nothing is lost and at most `Keep` characters wait. */
  lemma {:induction false} NothingLostBeforeMatch(chunks: seq<string>, stops: seq<string>)
    requires NonEmpty(stops)
    requires !Hit(Concat(chunks), stops)
    ensures Exact(FeedAll(chunks, stops), Concat(chunks), stops)
  {
    if chunks != [] {
      var init, last := chunks[..|chunks| - 1], chunks[|chunks| - 1];
      HitGrows(Concat(init), Concat(chunks), stops);
      NothingLostBeforeMatch(init, stops);
      TurnIsExact(FeedAll(init, stops), Concat(init), last, stops);
    }
  }

  /** In plain terms: as long as no stop has appeared, what has been sent and what is held back
      make up the text received, and held back is one character less than the longest stop
      has, or everything if the text is shorter. */
  lemma HeldBackExactly(chunks: seq<string>, stops: seq<string>, longest: string)
    requires NonEmpty(stops) && longest in stops && forall t :: t in stops ==> |t| <= |longest|
    requires NoStop(Concat(chunks), stops)
    ensures var s, text := FeedAll(chunks, stops), Concat(chunks);
            && s.matched.None? && Concat(s.parts) + s.pending == text
            && |s.pending| == if |text| < |longest| - 1 then |text| else |longest| - 1
  {
    FirstIsFirst(Concat(chunks), stops);
    NothingLostBeforeMatch(chunks, stops);
    assert MaxLen(stops) == |longest|;
  }

  lemma EmptyTextHitsNothing(stops: seq<string>)
    requires NonEmpty(stops)
    ensures !Hit("", stops)
  {
    FirstIsFirst("", stops);
  }

  lemma HitGrows(prefix: string, text: string, stops: seq<string>)
    requires prefix <= text
    ensures Hit(prefix, stops) ==> Hit(text, stops)
  {
    FirstIsFirst(prefix, stops);
    FirstIsFirst(text, stops);
    if Hit(prefix, stops) {
      var m := First(prefix, stops).value;
      assert text[..|prefix|] == prefix;
      OccursInPrefix(text, |prefix|, stops[m.which], m.index);
    }
  }

  ghost predicate Exact(s: Stream, text: string, stops: seq<string>) {
    && s.matched.None?
    && Concat(s.parts) + s.pending == text
    && |s.pending| == Min(|text|, Keep(stops))
  }

  /** One call of the filter, `sent` being the text already passed on. */
  lemma FilterIsExact(sent: string, pending: string, delta: string, stops: seq<string>)
    requires NonEmpty(stops)
    requires !Hit(sent + pending, stops) && |pending| == Min(|sent + pending|, Keep(stops))
    ensures var text := sent + (pending + delta);
            var f := FilterDelta(delta, stops, pending);
            && (f.matched.Some? <==> Hit(text, stops))
            && (f.matched.Some? ==> (sent + f.out, f.matched) == Cut(text, stops))
            && (f.matched.None? ==> sent + (f.out + f.pending) == text && |f.pending| == Min(|text|, Keep(stops)))
  {
    var window := pending + delta;
    WindowCut(sent, pending, delta, window, stops);
    FilterSplits(delta, stops, pending);
    WindowKeeps(|sent|, |pending|, |window|, Keep(stops));
  }

  /** The cut of the window is the cut of the whole text, less the text already sent. */
  lemma WindowCut(sent: string, pending: string, delta: string, window: string, stops: seq<string>)
    requires NonEmpty(stops) && window == pending + delta
    requires !Hit(sent + pending, stops) && |pending| == Min(|sent + pending|, Keep(stops))
    ensures Hit(sent + window, stops) <==> Hit(window, stops)
    ensures Hit(window, stops) ==> Cut(sent + window, stops) == (sent + Cut(window, stops).0, Cut(window, stops).1)
  {
    WindowSearch(sent, pending, delta, stops);
    CutAfter(sent, window, stops);
  }

  lemma WindowKeeps(sent: nat, pending: nat, window: nat, keep: nat)
    requires pending == Min(sent + pending, keep) && pending <= window
    ensures Min(window, keep) == Min(sent + window, keep)
  {
  }

  /** The filter on its own: a cut of the window, or a split of it. */
  lemma FilterSplits(delta: string, stops: seq<string>, pending: string)
    requires |pending| <= Keep(stops)
    ensures var window := pending + delta;
            var f := FilterDelta(delta, stops, pending);
            && (f.matched.Some? <==> Hit(window, stops))
            && (f.matched.Some? ==> (f.out, f.matched) == Cut(window, stops))
            && (f.matched.None? ==> f.out + f.pending == window && |f.pending| == Min(|window|, Keep(stops)))
  {
    if stops == [] {
      assert pending + delta == delta;
    }
  }

  lemma CutAfter(sent: string, window: string, stops: seq<string>)
    requires var w, a := First(window, stops), First(sent + window, stops);
             w.Some? ==> a == Some(Match(w.value.index + |sent|, w.value.which))
    ensures First(window, stops).Some? ==>
              Cut(sent + window, stops) == (sent + Cut(window, stops).0, Cut(window, stops).1)
  {
    var w := First(window, stops);
    if w.Some? {
      assert (sent + window)[..w.value.index + |sent|] == sent + window[..w.value.index];
    }
  }

  /** One turn over text seen so far without a stop. */
  lemma TurnIsExact(s: Stream, seen: string, delta: string, stops: seq<string>)
    requires NonEmpty(stops)
    requires Exact(s, seen, stops) && !Hit(seen, stops)
    ensures var after := Feed(s, delta, stops);
            if Hit(seen + delta, stops) then (Concat(after.parts), after.matched) == Cut(seen + delta, stops)
            else Exact(after, seen + delta, stops)
  {
    var f := FilterDelta(delta, stops, s.pending);
    FilterIsExact(Concat(s.parts), s.pending, delta, stops);
    SplitAssoc(Concat(s.parts), s.pending, delta);
    SendConcat(s.parts, f.out);
    SplitAssoc(Concat(s.parts), f.out, f.pending);
  }

  lemma SplitAssoc(a: string, b: string, c: string)
    ensures a + b + c == a + (b + c)
  {
  }

  // ----- what streaming computes ----------------------------------------------------

  /** The number of chunks read when the first stop shows up, or all of them. */
  function HitPrefix(chunks: seq<string>, stops: seq<string>, from: nat := 0): (n: nat)
    requires from <= |chunks|
    requires forall k :: 0 <= k < from ==> !Hit(Concat(chunks[..k]), stops)
    ensures n <= |chunks|
    ensures forall k :: 0 <= k < n ==> !Hit(Concat(chunks[..k]), stops)
    ensures n < |chunks| ==> Hit(Concat(chunks[..n]), stops)
    decreases |chunks| - from
  {
    if from == |chunks| || Hit(Concat(chunks[..from]), stops) then from
    else HitPrefix(chunks, stops, from + 1)
  }

  /** With no condition on the stops but that they are non-empty: the stream answers
      the one-shot cut of the shortest chunk prefix that contains a stop, or of the
      whole text when there is none. */
  lemma {:induction false} StreamCutsShortestPrefix(chunks: seq<string>, stops: seq<string>)
    requires NonEmpty(stops)
    ensures Answer(chunks, stops) == Cut(Concat(chunks[..HitPrefix(chunks, stops)]), stops)
  {
    var n := HitPrefix(chunks, stops);
    if !Hit(Concat(chunks[..n]), stops) {
      assert chunks[..n] == chunks;
      NothingLostBeforeMatch(chunks, stops);
      var s := FeedAll(chunks, stops);
      SendConcat(s.parts, s.pending);
    } else {
      StreamAfterMatch(chunks, stops, n);
    }
  }

  lemma {:induction false} StreamAfterMatch(chunks: seq<string>, stops: seq<string>, n: nat)
    requires NonEmpty(stops)
    requires n <= |chunks|
    requires Hit(Concat(chunks[..n]), stops)
    requires forall k :: 0 <= k < n ==> !Hit(Concat(chunks[..k]), stops)
    ensures FeedAll(chunks, stops).matched.Some?
    ensures Answer(chunks, stops) == Cut(Concat(chunks[..n]), stops)
    decreases |chunks|
  {
    EmptyTextHitsNothing(stops);
    var init, last := chunks[..|chunks| - 1], chunks[|chunks| - 1];
    if n == |chunks| {
      assert chunks[..n] == chunks && chunks[..n - 1] == init;
      NothingLostBeforeMatch(init, stops);
      TurnIsExact(FeedAll(init, stops), Concat(init), last, stops);
    } else {
      assert init[..n] == chunks[..n];
      forall k | 0 <= k < n ensures !Hit(Concat(init[..k]), stops) {
        assert init[..k] == chunks[..k];
      }
      StreamAfterMatch(init, stops, n);
    }
  }

  /** What the client sees never contains a stop and is a prefix of the text. */
  lemma StreamIsClean(chunks: seq<string>, stops: seq<string>)
    requires NonEmpty(stops)
    ensures Answer(chunks, stops).0 <= Concat(chunks)
    ensures !Hit(Answer(chunks, stops).0, stops)
    ensures Answer(chunks, stops).1.Some? <==> Hit(Concat(chunks), stops)
  {
    var n := HitPrefix(chunks, stops);
    StreamCutsShortestPrefix(chunks, stops);
    CutIsClean(Concat(chunks[..n]), stops);
    ConcatTake(chunks, n);
    HitGrows(Concat(chunks[..n]), Concat(chunks), stops);
    if n == |chunks| {
      assert chunks[..n] == chunks;
    }
  }

  // ----- when streaming agrees with the one-shot cut ---------------------------------

  /** Stop `j` is complete inside stop `i`, from `p` on, before stop `i` itself is. */
  ghost predicate Interior(stops: seq<string>, i: int, j: int, p: int) {
    && 0 <= i < |stops| && 0 <= j < |stops|
    && OccursAt(stops[i], stops[j], p) && p + |stops[j]| < |stops[i]|
  }

  /** Some stop listed before `limit` is a beginning of stop `i` of at most `len` characters. */
  ghost predicate Shadowed(stops: seq<string>, i: nat, limit: nat, len: int)
    requires i < |stops| && limit <= |stops|
  {
    exists k :: 0 <= k < limit && stops[k] <= stops[i] && |stops[k]| <= len
  }

  /** Whenever a stop contains another one ending before its own last character, an
      earlier-listed stop has already matched at its first character by then. */
  ghost predicate Safe(stops: seq<string>) {
    forall i, j, p :: Interior(stops, i, j, p) ==> Shadowed(stops, i, i, p + |stops[j]|)
  }

  /** The same without the order of the list: enough for the text of the answer. */
  ghost predicate TextSafe(stops: seq<string>) {
    forall i, j, p :: Interior(stops, i, j, p) ==> Shadowed(stops, i, |stops|, p + |stops[j]|)
  }

  /** Streaming and one-shot disagree over some chunking exactly when they disagree on
      a text cut after a stop: the comparison of a prefix with the whole. */
  lemma CutOfPrefix(prefix: string, text: string, stops: seq<string>)
    requires prefix <= text
    requires Hit(prefix, stops)
    ensures TextSafe(stops) ==> Cut(prefix, stops).0 == Cut(text, stops).0
    ensures Safe(stops) ==> Cut(prefix, stops) == Cut(text, stops)
  {
    HitGrows(prefix, text, stops);
    FirstIsFirst(prefix, stops);
    FirstIsFirst(text, stops);
    assert text[..|prefix|] == prefix;
    var a, b := First(prefix, stops).value, First(text, stops).value;
    OccursInPrefix(text, |prefix|, stops[a.which], a.index);
    if b.index + |stops[b.which]| <= |prefix| {
      OccursInPrefix(text, |prefix|, stops[b.which], b.index);
      assert a == b;
    } else {
      PrefixCompletesAStop(prefix, text, stops, a, b);
    }
  }

  /** The winner `b` of the whole text is still incomplete in the prefix, whose own
      winner `a` lies inside it; a shadowing stop would have beaten `a` or `b`. */
  lemma PrefixCompletesAStop(prefix: string, text: string, stops: seq<string>, a: Match, b: Match)
    requires prefix <= text
    requires IsFirst(prefix, stops, a) && IsFirst(text, stops, b)
    requires b.index + |stops[b.which]| > |prefix|
    ensures b.index <= a.index
    ensures var len := a.index - b.index + |stops[a.which]|;
            && Interior(stops, b.which, a.which, a.index - b.index)
            && (Shadowed(stops, b.which, |stops|, len) ==> a.index == b.index)
            && !Shadowed(stops, b.which, b.which, len)
  {
    assert text[..|prefix|] == prefix;
    OccursInPrefix(text, |prefix|, stops[a.which], a.index);
    assert OccursAt(text, stops[a.which], a.index);
    var s, t, p := stops[b.which], stops[a.which], a.index - b.index;
    assert s[p..p + |t|] == text[a.index..a.index + |t|];
    forall k | 0 <= k < |stops| && stops[k] <= s && |stops[k]| <= p + |t|
      ensures OccursAt(text, stops[k], b.index) && OccursAt(prefix, stops[k], b.index)
    {
      assert text[b.index..b.index + |stops[k]|] == s[..|stops[k]|];
      OccursInPrefix(text, |prefix|, stops[k], b.index);
    }
  }

  ghost predicate Agrees(chunks: seq<string>, stops: seq<string>) {
    Answer(chunks, stops) == Cut(Concat(chunks), stops)
  }

  ghost predicate TextAgrees(chunks: seq<string>, stops: seq<string>) {
    Answer(chunks, stops).0 == Cut(Concat(chunks), stops).0
  }

  /** A chunking that separates the two answers when a stop is complete, unshadowed,
      inside another: the longer stop as text, split where the inner stop ends. */
  lemma InteriorStopBreaks(stops: seq<string>, i: nat, j: nat, p: int) returns (chunks: seq<string>)
    requires NonEmpty(stops)
    requires Interior(stops, i, j, p)
    ensures Concat(chunks) == stops[i]
    ensures !Shadowed(stops, i, |stops|, p + |stops[j]|) ==> !TextAgrees(chunks, stops)
    ensures !Shadowed(stops, i, i, p + |stops[j]|) ==> !Agrees(chunks, stops)
  {
    var s, q := stops[i], p + |stops[j]|;
    OccursInPrefix(s, q, stops[j], p);
    FirstIsFirst(s[..q], stops);
    chunks := TwoChunks(s, q, stops);
    FirstOfAStop(stops, i, q);
  }

  /** A stop as a text begins with its own match, unless an earlier-listed one does; so
      its cut is empty, and the cut of its first `q` characters is the same only if a
      stop of at most that length begins it. */
  lemma FirstOfAStop(stops: seq<string>, i: nat, q: nat)
    requires i < |stops| && q < |stops[i]| && Hit(stops[i][..q], stops)
    ensures Cut(stops[i][..q], stops).0 == Cut(stops[i], stops).0 ==> Shadowed(stops, i, |stops|, q)
    ensures Cut(stops[i][..q], stops) == Cut(stops[i], stops) ==> Shadowed(stops, i, i, q)
  {
    var s := stops[i];
    FirstIsFirst(s, stops);
    assert OccursAt(s, s, 0);
    var a, b := First(s[..q], stops).value, First(s, stops).value;
    assert b.index == 0 && b.which <= i;
    OccursInPrefix(s, q, stops[a.which], a.index);
    assert a.index == 0 ==> stops[a.which] <= s;
  }

  lemma TwoChunks(s: string, q: nat, stops: seq<string>) returns (chunks: seq<string>)
    requires NonEmpty(stops) && q <= |s| && Hit(s[..q], stops)
    ensures Concat(chunks) == s && Answer(chunks, stops) == Cut(s[..q], stops)
  {
    chunks := [s[..q], s[q..]];
    assert chunks[..0] == [] && chunks[..1] == [s[..q]] && [s[..q]][..0] == [];
    assert Concat([s[..q]]) == s[..q];
    EmptyTextHitsNothing(stops);
    StreamAfterMatch(chunks, stops, 1);
  }

  /** Streaming answers the one-shot cut, text and matched stop, over every chunking of
      every text exactly when the stop list is `Safe`. */
  lemma StreamEqualsOneShotIff(stops: seq<string>)
    requires NonEmpty(stops)
    ensures (forall chunks :: Agrees(chunks, stops)) <==> Safe(stops)
  {
    if Safe(stops) {
      forall chunks ensures Agrees(chunks, stops) {
        StreamOfSafeStops(chunks, stops);
      }
    } else {
      UnsafeStopsDisagree(stops);
    }
  }

  lemma UnsafeStopsDisagree(stops: seq<string>)
    requires NonEmpty(stops)
    ensures !Safe(stops) ==> exists chunks :: !Agrees(chunks, stops)
    ensures !TextSafe(stops) ==> exists chunks :: !TextAgrees(chunks, stops)
  {
    if i, j, p :| Interior(stops, i, j, p) && !Shadowed(stops, i, i, p + |stops[j]|) {
      var chunks := InteriorStopBreaks(stops, i, j, p);
    }
    if i, j, p :| Interior(stops, i, j, p) && !Shadowed(stops, i, |stops|, p + |stops[j]|) {
      var chunks := InteriorStopBreaks(stops, i, j, p);
    }
  }

  /** The text alone needs only `TextSafe`. */
  lemma StreamTextEqualsOneShotIff(stops: seq<string>)
    requires NonEmpty(stops)
    ensures (forall chunks :: TextAgrees(chunks, stops)) <==> TextSafe(stops)
  {
    if TextSafe(stops) {
      forall chunks ensures TextAgrees(chunks, stops) {
        StreamOfSafeStops(chunks, stops);
      }
    } else {
      UnsafeStopsDisagree(stops);
    }
  }

  lemma StreamOfSafeStops(chunks: seq<string>, stops: seq<string>)
    requires NonEmpty(stops)
    ensures Safe(stops) ==> Agrees(chunks, stops)
    ensures TextSafe(stops) ==> TextAgrees(chunks, stops)
  {
    var n := HitPrefix(chunks, stops);
    StreamCutsShortestPrefix(chunks, stops);
    if Hit(Concat(chunks[..n]), stops) {
      ConcatTake(chunks, n);
      CutOfPrefix(Concat(chunks[..n]), Concat(chunks), stops);
    } else {
      assert chunks[..n] == chunks;
    }
  }

  /** The usual case: a stop inside a different stop only at its very end. */
  ghost predicate OnlySuffixes(stops: seq<string>) {
    forall i, j, p :: 0 <= i < |stops| && 0 <= j < |stops| && stops[i] != stops[j]
                      && OccursAt(stops[i], stops[j], p) ==>
      p + |stops[j]| == |stops[i]|
  }

  lemma OnlySuffixesAreSafe(stops: seq<string>)
    requires OnlySuffixes(stops)
    ensures Safe(stops)
  {
  }

  /** With such stops, streaming and one-shot always agree. */
  lemma SuffixStopsAgree(chunks: seq<string>, stops: seq<string>)
    requires NonEmpty(stops) && OnlySuffixes(stops)
    ensures Answer(chunks, stops) == Cut(Concat(chunks), stops)
  {
    OnlySuffixesAreSafe(stops);
    StreamOfSafeStops(chunks, stops);
    assert Agrees(chunks, stops);
  }
}
