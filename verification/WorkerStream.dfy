/** The persistent text worker's end-marker scan (`generate_stream`) and its
    composition with the stop filter of the chat API. The model starts once the
    initial "LLM:" prefix has been stripped. */
module WorkerStream {
  import opened Wrappers
  import opened Text
  import opened StopSequences

  const END_MARKERS: seq<string> := ["<|im_end|>", "\r\nYou:", "\nYou:"]

  const CLEANING_TOKENS: seq<string> := [
    "<|im_end|>", "<|endoftext|>", "<think>", "</think>",
    "\U{FF1C}|End of Input|\U{FF1E}", "<|End of Input|>", "\r\nYou:", "\nYou:", "You:"
  ]

  /** The tokens, spelt out. */
  lemma TokenFreeIff(text: string)
    ensures NoStop(text, CLEANING_TOKENS) <==>
            && Free(text, "<|im_end|>") && Free(text, "<|endoftext|>")
            && Free(text, "<think>") && Free(text, "</think>")
            && Free(text, "\U{FF1C}|End of Input|\U{FF1E}") && Free(text, "<|End of Input|>")
            && Free(text, "\r\nYou:") && Free(text, "\nYou:") && Free(text, "You:")
  {
    var ts := CLEANING_TOKENS;
    assert |ts| == 9 && ts[0] == "<|im_end|>" && ts[1] == "<|endoftext|>" && ts[2] == "<think>" && ts[3] == "</think>"
        && ts[4] == "\U{FF1C}|End of Input|\U{FF1E}" && ts[5] == "<|End of Input|>" && ts[6] == "\r\nYou:"
        && ts[7] == "\nYou:" && ts[8] == "You:";
    NoneOfNine(text, ts);
  }

  lemma NoneOfNine(text: string, ts: seq<string>)
    requires |ts| == 9
    ensures NoStop(text, ts) <==>
            && Free(text, ts[0]) && Free(text, ts[1]) && Free(text, ts[2]) && Free(text, ts[3]) && Free(text, ts[4])
            && Free(text, ts[5]) && Free(text, ts[6]) && Free(text, ts[7]) && Free(text, ts[8])
  {
  }

  /** The text with each token of the list removed in turn. */
  function CleanWith(text: string, tokens: seq<string>): string
    requires NonEmpty(tokens)
    decreases tokens
  {
    if tokens == [] then text else CleanWith(Remove(text, tokens[0]), tokens[1..])
  }

  method CleanStreamDelta(text: string, tokens: seq<string>) returns (cleaned: string)
    requires NonEmpty(tokens)
    ensures cleaned == CleanWith(text, tokens)
  {
    cleaned := text;
    assert tokens[0..] == tokens;
    for k := 0 to |tokens|
      invariant CleanWith(cleaned, tokens[k..]) == CleanWith(text, tokens)
    {
      assert tokens[k..][1..] == tokens[k + 1..];
      cleaned := Remove(cleaned, tokens[k]);
    }
  }

  /** The tokens go one after the other, each by cutting at it from the left and joining what is
      between the cuts. */
  lemma {:induction false} CleanedStepByStep(text: string, tokens: seq<string>) returns (texts: seq<string>)
    requires NonEmpty(tokens)
    ensures |texts| == |tokens| + 1 && texts[0] == text && texts[|tokens|] == CleanWith(text, tokens)
    ensures forall k :: 0 <= k < |tokens| ==> IsRemoval(texts[k], tokens[k], texts[k + 1])
    decreases tokens
  {
    if tokens == [] {
      texts := [text];
    } else {
      var next := Remove(text, tokens[0]);
      RemovalIff(text, tokens[0], next);
      var more := CleanedStepByStep(next, tokens[1..]);
      texts := [text] + more;
      forall k | 0 <= k < |tokens| ensures IsRemoval(texts[k], tokens[k], texts[k + 1]) {
        assert k > 0 ==> texts[k] == more[k - 1] && tokens[k] == tokens[1..][k - 1];
      }
    }
  }

  /** The deltas the worker yields for its raw pieces. */
  function Cleaned(pieces: seq<string>, tokens: seq<string>): seq<string>
    requires NonEmpty(tokens)
  {
    if pieces == [] then []
    else SendIfAny(Cleaned(pieces[..|pieces| - 1], tokens), CleanWith(pieces[|pieces| - 1], tokens))
  }

  /** The scan is the chat API's window filter run over the end markers. */
  function Deltas(chunks: seq<string>, markers: seq<string>, tokens: seq<string>): seq<string>
    requires NonEmpty(tokens)
  {
    Cleaned(FeedAll(chunks, markers).parts, tokens)
  }

  lemma {:induction false} FeedAfterMatch(chunks: seq<string>, k: nat, stops: seq<string>)
    requires k <= |chunks| && FeedAll(chunks[..k], stops).matched.Some?
    ensures FeedAll(chunks, stops) == FeedAll(chunks[..k], stops)
    decreases |chunks|
  {
    if k == |chunks| {
      assert chunks[..k] == chunks;
    } else {
      assert chunks[..|chunks| - 1][..k] == chunks[..k];
      FeedAfterMatch(chunks[..|chunks| - 1], k, stops);
    }
  }

  lemma CleanedSend(pieces: seq<string>, piece: string, tokens: seq<string>)
    requires NonEmpty(tokens)
    ensures Cleaned(SendIfAny(pieces, piece), tokens) == SendIfAny(Cleaned(pieces, tokens), CleanWith(piece, tokens))
    ensures piece == "" ==> Cleaned(SendIfAny(pieces, piece), tokens) == Cleaned(pieces, tokens)
  {
    if piece == "" {
      assert NoStop("", tokens);
      NoTokenStays("", tokens);
    } else {
      assert (pieces + [piece])[..|pieces|] == pieces;
    }
  }

  /** One turn of the scan when a marker is complete in the window ... */
  lemma TurnWithMarker(before: Stream, chunk: string, combined: string, markers: seq<string>, tokens: seq<string>)
    requires NonEmpty(tokens) && before.matched.None? && combined == before.pending + chunk
    requires markers != [] && Hit(combined, markers)
    ensures var after := Feed(before, chunk, markers);
            && after.pending == "" && after.matched.Some?
            && Cleaned(after.parts, tokens)
               == SendIfAny(Cleaned(before.parts, tokens),
                            CleanWith(combined[..First(combined, markers).value.index], tokens))
  {
    CleanedSend(before.parts, FilterDelta(chunk, markers, before.pending).out, tokens);
  }

  /** ... and when none is: all but the last characters go out. */
  lemma TurnWithoutMarker(before: Stream, chunk: string, combined: string, safe: nat,
                          markers: seq<string>, tokens: seq<string>)
    requires NonEmpty(tokens) && before.matched.None? && combined == before.pending + chunk
    requires markers != [] && !Hit(combined, markers) && safe == |combined| - Min(|combined|, Keep(markers))
    ensures var after := Feed(before, chunk, markers);
            && after.pending == combined[safe..] && after.matched.None?
            && Cleaned(after.parts, tokens)
               == if safe == 0 then Cleaned(before.parts, tokens)
                  else SendIfAny(Cleaned(before.parts, tokens), CleanWith(combined[..safe], tokens))
  {
    CleanedSend(before.parts, FilterDelta(chunk, markers, before.pending).out, tokens);
  }

  /** Yields the cleaned piece unless nothing of it is left. */
  method YieldCleaned(deltas: seq<string>, piece: string, tokens: seq<string>) returns (r: seq<string>)
    requires NonEmpty(tokens)
    ensures r == SendIfAny(deltas, CleanWith(piece, tokens))
  {
    var delta := CleanStreamDelta(piece, tokens);
    r := if delta != "" then deltas + [delta] else deltas;
  }

  /** No marker in the window: yields all but its last `MaxLen(markers) - 1` characters. */
  method HoldBack(ghost s: Stream, deltas: seq<string>, ghost chunk: string, combined: string,
                  markers: seq<string>, tokens: seq<string>)
    returns (sent: seq<string>, rest: string)
    requires NonEmpty(tokens) && NonEmpty(markers) && markers != []
    requires s.matched.None? && combined == s.pending + chunk && deltas == Cleaned(s.parts, tokens)
    requires !Hit(combined, markers)
    ensures var after := Feed(s, chunk, markers);
            sent == Cleaned(after.parts, tokens) && rest == after.pending && after.matched.None?
  {
    var maxMarkerLen := MaxLen(markers);
    assert maxMarkerLen >= 1 by { assert markers[0] in markers; }
    var safe := if |combined| - (maxMarkerLen - 1) > 0 then |combined| - (maxMarkerLen - 1) else 0;
    TurnWithoutMarker(s, chunk, combined, safe, markers, tokens);
    if safe <= 0 {
      return deltas, combined;
    }
    sent := YieldCleaned(deltas, combined[..safe], tokens);
    rest := combined[safe..];
  }

  /** The loop body for one chunk of stdout; `s` is the scan so far. */
  method ScanChunk(ghost s: Stream, deltas: seq<string>, pending: string, chunk: string,
                   markers: seq<string>, tokens: seq<string>)
    returns (sent: seq<string>, rest: string, found: bool)
    requires NonEmpty(tokens) && NonEmpty(markers) && markers != []
    requires s.matched.None? && s.pending == pending && deltas == Cleaned(s.parts, tokens)
    ensures var after := Feed(s, chunk, markers);
            sent == Cleaned(after.parts, tokens) && rest == after.pending && (found <==> after.matched.Some?)
  {
    var combined := pending + chunk;
    var marker, matched := EarliestStop(combined, markers);
    if marker.Some? {
      TurnWithMarker(s, chunk, combined, markers, tokens);
      sent := YieldCleaned(deltas, combined[..marker.value], tokens);
      return sent, "", true;
    }
    sent, rest := HoldBack(s, deltas, chunk, combined, markers, tokens);
    found := false;
  }

  /** Reads stdout chunks until an end marker is complete; `completed` is false when the
      deadline passes first, which the source turns into a TimeoutError. */
  method GenerateStream(chunks: seq<string>, markers: seq<string>, tokens: seq<string>)
    returns (deltas: seq<string>, completed: bool)
    requires NonEmpty(tokens) && NonEmpty(markers) && markers != []
    ensures deltas == Deltas(chunks, markers, tokens)
    ensures completed <==> FeedAll(chunks, markers).matched.Some?
  {
    deltas, completed := [], false;
    var pending := "";
    ghost var scan := Stream([], "", None);
    var k := 0;
    while k < |chunks| && !completed
      invariant 0 <= k <= |chunks|
      invariant scan == FeedAll(chunks[..k], markers)
      invariant scan.pending == pending && deltas == Cleaned(scan.parts, tokens)
      invariant completed <==> scan.matched.Some?
    {
      ghost var before := scan;
      deltas, pending, completed := ScanChunk(before, deltas, pending, chunks[k], markers, tokens);
      scan := NextScan(chunks, k, markers);
      k := k + 1;
    }
    ScanSettled(chunks, k, markers);
  }

  ghost function NextScan(chunks: seq<string>, k: nat, markers: seq<string>): (s: Stream)
    requires k < |chunks|
    ensures s == Feed(FeedAll(chunks[..k], markers), chunks[k], markers)
  {
    assert chunks[..k + 1][..k] == chunks[..k];
    FeedAll(chunks[..k + 1], markers)
  }

  lemma ScanSettled(chunks: seq<string>, k: nat, markers: seq<string>)
    requires k == |chunks| || (k < |chunks| && FeedAll(chunks[..k], markers).matched.Some?)
    ensures FeedAll(chunks, markers) == FeedAll(chunks[..k], markers)
  {
    if k == |chunks| {
      assert chunks[..k] == chunks;
    } else {
      FeedAfterMatch(chunks, k, markers);
    }
  }

  // ----- the raw pieces -------------------------------------------------------------

  lemma EndMarkersAreSafe()
    ensures NonEmpty(END_MARKERS) && Safe(END_MARKERS)
  {
    forall i, j, p | 0 <= i < |END_MARKERS| && 0 <= j < |END_MARKERS| && END_MARKERS[i] != END_MARKERS[j]
                     && OccursAt(END_MARKERS[i], END_MARKERS[j], p)
      ensures p + |END_MARKERS[j]| == |END_MARKERS[i]|
    {
      var s, t := END_MARKERS[i], END_MARKERS[j];
      assert s[p] == s[p..p + |t|][0] == t[0];
    }
    OnlySuffixesAreSafe(END_MARKERS);
  }

  /** A reply is over when its text holds one of the three markers the worker prints. */
  lemma ReplyIsOverIff(text: string)
    ensures Hit(text, END_MARKERS) <==>
            exists i :: OccursAt(text, "<|im_end|>", i) || OccursAt(text, "\r\nYou:", i) || OccursAt(text, "\nYou:", i)
  {
    FirstIsFirst(text, END_MARKERS);
    assert |END_MARKERS| == 3 && END_MARKERS[0] == "<|im_end|>" && END_MARKERS[1] == "\r\nYou:"
        && END_MARKERS[2] == "\nYou:";
    if Hit(text, END_MARKERS) {
      var m := First(text, END_MARKERS).value;
      assert OccursAt(text, END_MARKERS[m.which], m.index);
    }
  }

  /** For every chunking, the raw pieces spell the text before the earliest end marker. */
  lemma RawPiecesSpellTheReply(chunks: seq<string>)
    requires Hit(Concat(chunks), END_MARKERS)
    ensures FeedAll(chunks, END_MARKERS).matched.Some?
    ensures Concat(FeedAll(chunks, END_MARKERS).parts) == Cut(Concat(chunks), END_MARKERS).0
  {
    EndMarkersAreSafe();
    StreamOfSafeStops(chunks, END_MARKERS);
    CutIsClean(Concat(chunks), END_MARKERS);
  }

  // ----- cleaning -------------------------------------------------------------------

  lemma {:induction false} NoTokenStays(text: string, tokens: seq<string>)
    requires NonEmpty(tokens)
    requires NoStop(text, tokens)
    ensures CleanWith(text, tokens) == text
    decreases tokens
  {
    if tokens != [] {
      forall i ensures !OccursAt(text, tokens[0], i) {
      }
      RemoveNothing(text, tokens[0]);
      forall j, i | 0 <= j < |tokens| - 1 ensures !OccursAt(text, tokens[1..][j], i) {
        assert tokens[1..][j] == tokens[j + 1];
      }
      NoTokenStays(text, tokens[1..]);
    }
  }

  lemma NoStopInHalves(left: string, right: string, stops: seq<string>)
    requires NoStop(left + right, stops)
    ensures NoStop(left, stops) && NoStop(right, stops)
  {
    assert (left + right)[..|left|] == left && (left + right)[|left|..] == right;
    forall j, i | 0 <= j < |stops| ensures !OccursAt(left, stops[j], i) && !OccursAt(right, stops[j], i) {
      OccursInPrefix(left + right, |left|, stops[j], i);
      OccursInSuffix(left + right, |left|, stops[j], i);
    }
  }

  /** Pieces of a token-free text pass the cleaning untouched. */
  lemma {:induction false} TokenFreePieces(pieces: seq<string>, tokens: seq<string>)
    requires NonEmpty(tokens)
    requires forall k :: 0 <= k < |pieces| ==> pieces[k] != ""
    requires NoStop(Concat(pieces), tokens)
    ensures Cleaned(pieces, tokens) == pieces
  {
    if pieces != [] {
      var init, last := pieces[..|pieces| - 1], pieces[|pieces| - 1];
      NoStopInHalves(Concat(init), last, tokens);
      TokenFreePieces(init, tokens);
      NoTokenStays(last, tokens);
      assert pieces == init + [last];
    }
  }

  lemma {:induction false} PartsAreNonEmpty(chunks: seq<string>, stops: seq<string>)
    ensures forall k :: 0 <= k < |FeedAll(chunks, stops).parts| ==> FeedAll(chunks, stops).parts[k] != ""
  {
    if chunks != [] {
      PartsAreNonEmpty(chunks[..|chunks| - 1], stops);
    }
  }

  // ----- both scanners in a row -----------------------------------------------------

  /** Whatever the chunking of the worker's output, the chat client of a completed,
      token-free reply receives the one-shot stop cut of that reply. */
  lemma ClientSeesOneShotCut(chunks: seq<string>, stops: seq<string>)
    requires Hit(Concat(chunks), END_MARKERS)
    requires NoStop(Cut(Concat(chunks), END_MARKERS).0, CLEANING_TOKENS)
    requires NonEmpty(stops)
    ensures var reply := Cut(Concat(chunks), END_MARKERS).0;
            var deltas := Deltas(chunks, END_MARKERS, CLEANING_TOKENS);
            && (Safe(stops) ==> Answer(deltas, stops) == Cut(reply, stops))
            && (TextSafe(stops) ==> Answer(deltas, stops).0 == Cut(reply, stops).0)
  {
    RawPiecesSpellTheReply(chunks);
    PartsAreNonEmpty(chunks, END_MARKERS);
    TokenFreePieces(FeedAll(chunks, END_MARKERS).parts, CLEANING_TOKENS);
    StreamOfSafeStops(Deltas(chunks, END_MARKERS, CLEANING_TOKENS), stops);
  }
}
