/** The streaming chat generator: which events the client gets and what happens to the
    two leases, for every way the generator can end. */
module ChatStream {
  import opened Wrappers
  import opened Text
  import opened StopSequences
  import opened Gates
  import opened Handlers

  datatype Event =
    | Role
    | Content(delta: string)
    | Final(matched: Option<string>, completion: string)  // its usage is the estimate of `completion`
    | Error
    | Done

  /** After its chunks the backend ends, raises, or the request task is cancelled there. */
  datatype BackendEnd = Ends | Raises | TaskCancelled

  /** One run of the generator: the backend's chunks, its end, and the yield, if any, at
      which the consumer closes the generator instead of resuming it. */
  datatype Script = Script(chunks: seq<string>, end: BackendEnd, closeAt: Option<nat>)

  /** The opening role event and one content event per delta. */
  function Said(parts: seq<string>): seq<Event> {
    if parts == [] then [Role] else Said(parts[..|parts| - 1]) + [Content(parts[|parts| - 1])]
  }

  /** The events of the `try` body when nobody closes the generator. */
  function BodyPlan(sc: Script, stops: seq<string>): seq<Event> {
    var s := FeedAll(sc.chunks, stops);
    if sc.end == Ends then Said(Received(s)) + [Final(s.matched, Concat(Received(s))), Done]
    else Said(s.parts)
  }

  function Plan(sc: Script, stops: seq<string>): seq<Event> {
    BodyPlan(sc, stops) + (if sc.end == Raises then [Error, Done] else [])
  }

  predicate ClosedWithin(sc: Script, plan: seq<Event>) {
    sc.closeAt.Some? && sc.closeAt.value < |plan|
  }

  function Delivered(sc: Script, plan: seq<Event>): seq<Event> {
    if ClosedWithin(sc, plan) then plan[..sc.closeAt.value + 1] else plan
  }

  lemma {:induction false} SaidGrows(parts: seq<string>, k: nat)
    requires k <= |parts|
    ensures Said(parts[..k]) <= Said(parts)
    ensures |Said(parts)| == |parts| + 1
    decreases |parts|
  {
    if k == |parts| {
      assert parts[..k] == parts;
      if k > 0 {
        SaidGrows(parts[..k - 1], 0);
      }
    } else {
      assert parts[..|parts| - 1][..k] == parts[..k];
      SaidGrows(parts[..|parts| - 1], k);
    }
  }

  lemma SaidAppend(parts: seq<string>, delta: string)
    ensures Said(parts + [delta]) == Said(parts) + [Content(delta)]
  {
    assert (parts + [delta])[..|parts|] == parts;
  }

  lemma {:induction false} PartsGrow(chunks: seq<string>, k: nat, stops: seq<string>)
    requires k <= |chunks|
    ensures FeedAll(chunks[..k], stops).parts <= FeedAll(chunks, stops).parts
    decreases |chunks|
  {
    if k == |chunks| {
      assert chunks[..k] == chunks;
    } else {
      assert chunks[..|chunks| - 1][..k] == chunks[..k];
      PartsGrow(chunks[..|chunks| - 1], k, stops);
    }
  }

  /** What has been sent after `k` chunks begins the plan for the whole script. */
  lemma DeltasStart(chunks: seq<string>, k: nat, stops: seq<string>)
    requires k <= |chunks|
    ensures Said(FeedAll(chunks[..k], stops).parts) <= Said(FeedAll(chunks, stops).parts)
  {
    var early := FeedAll(chunks[..k], stops).parts;
    PartsGrow(chunks, k, stops);
    assert FeedAll(chunks, stops).parts[..|early|] == early;
    SaidGrows(FeedAll(chunks, stops).parts, |early|);
  }

  lemma BodyPlanStarts(sc: Script, stops: seq<string>)
    ensures Said(FeedAll(sc.chunks, stops).parts) <= BodyPlan(sc, stops)
  {
    var s := FeedAll(sc.chunks, stops);
    assert Received(s)[..|s.parts|] == s.parts;
    SaidGrows(Received(s), |s.parts|);
  }

  /** Every plan opens with the role; a raising backend's ends with the error and [DONE]. */
  lemma PlanOpensAndEnds(sc: Script, stops: seq<string>)
    ensures var plan := Plan(sc, stops);
            && plan != [] && plan[0] == Role
            && (sc.end == Raises ==> |plan| >= 3 && plan[|plan| - 2..] == [Error, Done])
  {
    BodyPlanStarts(sc, stops);
    var parts := FeedAll(sc.chunks, stops).parts;
    SaidGrows(parts, 0);
    assert Said(parts[..0]) == [Role];
    assert Said(parts)[0] == Role;
  }

  /** Closing at the last event of a beginning of the plan delivers that beginning. */
  lemma ClosedHere(sc: Script, plan: seq<Event>, events: seq<Event>)
    requires events <= plan && events != [] && sc.closeAt == Some(|events| - 1)
    ensures ClosedWithin(sc, plan) && Delivered(sc, plan) == events
  {
  }

  /** The state of the loop after `k` chunks, as long as nobody closes the generator. */
  ghost predicate Fed(chunks: seq<string>, k: nat, stops: seq<string>, events: seq<Event>, s: Stream) {
    k <= |chunks| && s == FeedAll(chunks[..k], stops) && events == Said(s.parts) && events != []
  }

  lemma NothingFed(chunks: seq<string>, k: nat, stops: seq<string>, none: seq<string>)
    requires k == 0 && none == []
    ensures Fed(chunks, k, stops, [Role], Stream(none, "", None))
  {
  }

  lemma FeedsOn(chunks: seq<string>, k: nat, stops: seq<string>, s: Stream)
    requires k < |chunks| && s == FeedAll(chunks[..k], stops)
    ensures FeedAll(chunks[..k + 1], stops) == Feed(s, chunks[k], stops)
  {
    FeedAllAppend(chunks[..k], chunks[k], stops);
    assert chunks[..k] + [chunks[k]] == chunks[..k + 1];
  }

  /** Records a delta and yields its event, unless it is empty. */
  method SendDelta(said: seq<Event>, parts: seq<string>, delta: string)
    returns (events: seq<Event>, parts': seq<string>)
    requires said == Said(parts)
    ensures parts' == SendIfAny(parts, delta) && events == Said(parts')
    ensures events == if delta == "" then said else said + [Content(delta)]
  {
    if delta == "" {
      return said, parts;
    }
    SaidAppend(parts, delta);
    return said + [Content(delta)], parts + [delta];
  }

  /** One turn of the loop over the backend's chunks. */
  method StreamTurn(chunk: string, stops: seq<string>,
                    said: seq<Event>, parts: seq<string>, pending: string, matched: Option<string>)
    returns (events: seq<Event>, parts': seq<string>, pending': string, matched': Option<string>)
    requires said == Said(parts)
    ensures Stream(parts', pending', matched') == Feed(Stream(parts, pending, matched), chunk, stops)
    ensures events == Said(parts') && (events == said || |events| == |said| + 1)
  {
    if matched.Some? {
      return said, parts, pending, matched;
    }
    var delta;
    delta, pending', matched' := FilterStreamDelta(chunk, stops, pending);
    events, parts' := SendDelta(said, parts, delta);
  }

  /** Where a turn leaves the consumer, who may close the generator at the event it yields. */
  predicate Open(sc: Script, before: nat, after: nat) {
    after == before || sc.closeAt != Some(after - 1)
  }

  lemma OpenOrClosed(sc: Script, said: seq<Event>, events: seq<Event>)
    requires !ClosedWithin(sc, said) && (events == said || |events| == |said| + 1)
    ensures if Open(sc, |said|, |events|) then !ClosedWithin(sc, events) else sc.closeAt == Some(|events| - 1)
  {
  }

  /** The loop over the backend's chunks. `open` turns false at the yield where the
      consumer closes the generator. */
  method StreamDeltas(sc: Script, stops: seq<string>, ghost plan: seq<Event>)
    returns (events: seq<Event>, parts: seq<string>, pending: string, matched: Option<string>, open: bool)
    requires Said(FeedAll(sc.chunks, stops).parts) <= plan
    ensures open ==> Stream(parts, pending, matched) == FeedAll(sc.chunks, stops)
    ensures open ==> events == Said(parts) && !ClosedWithin(sc, events)
    ensures !open ==> ClosedWithin(sc, plan) && events == Delivered(sc, plan)
  {
    events, parts, pending, matched := [Role], [], "", None;
    open := sc.closeAt != Some(0);
    var k := 0;
    NothingFed(sc.chunks, k, stops, parts);
    while k < |sc.chunks| && open
      invariant Fed(sc.chunks, k, stops, events, Stream(parts, pending, matched))
      invariant if open then !ClosedWithin(sc, events) else sc.closeAt == Some(|events| - 1)
    {
      ghost var said := events;
      var before := |events|;
      FeedsOn(sc.chunks, k, stops, Stream(parts, pending, matched));
      events, parts, pending, matched := StreamTurn(sc.chunks[k], stops, events, parts, pending, matched);
      OpenOrClosed(sc, said, events);
      open := Open(sc, before, |events|);
      k := k + 1;
    }
    DeltasEnd(sc, stops, plan, k, events);
  }

  lemma DeltasEnd(sc: Script, stops: seq<string>, plan: seq<Event>, k: nat, events: seq<Event>)
    requires Said(FeedAll(sc.chunks, stops).parts) <= plan
    requires k <= |sc.chunks| && events == Said(FeedAll(sc.chunks[..k], stops).parts) && events != []
    ensures k == |sc.chunks| ==> FeedAll(sc.chunks[..k], stops) == FeedAll(sc.chunks, stops)
    ensures sc.closeAt == Some(|events| - 1) ==> ClosedWithin(sc, plan) && events == Delivered(sc, plan)
  {
    DeltasStart(sc.chunks, k, stops);
    if k == |sc.chunks| {
      assert sc.chunks[..k] == sc.chunks;
    }
    if sc.closeAt == Some(|events| - 1) {
      ClosedHere(sc, plan, events);
    }
  }

  /** The end of the body when the backend has delivered everything: the flush of the
      held-back text, the final event and [DONE]. */
  method StreamEnding(sc: Script, said: seq<Event>, parts: seq<string>, pending: string, matched: Option<string>)
    returns (events: seq<Event>, open: bool)
    requires said == Said(parts) && !ClosedWithin(sc, said)
    ensures var all := Received(Stream(parts, pending, matched));
            var plan := Said(all) + [Final(matched, Concat(all)), Done];
            events == Delivered(sc, plan) && (open <==> !ClosedWithin(sc, plan))
  {
    if matched.None? && pending != "" {
      var all := parts + [pending];
      SaidAppend(parts, pending);
      events := said + [Content(pending)];
      ghost var plan := events + [Final(matched, Concat(all)), Done];
      assert plan[..|events|] == events;
      if sc.closeAt == Some(|events| - 1) {
        ClosedHere(sc, plan, events);
        return events, false;
      }
      events, open := LastEvents(sc, events, Final(matched, Concat(all)));
    } else {
      events, open := LastEvents(sc, said, Final(matched, Concat(parts)));
    }
  }

  method LastEvents(sc: Script, said: seq<Event>, final: Event) returns (events: seq<Event>, open: bool)
    requires !ClosedWithin(sc, said)
    ensures events == Delivered(sc, said + [final, Done])
    ensures open <==> !ClosedWithin(sc, said + [final, Done])
  {
    events := said + [final];
    assert (said + [final, Done])[..|events|] == events;
    if sc.closeAt == Some(|events| - 1) {
      return events, false;
    }
    events := events + [Done];
    assert events == said + [final, Done];
    return events, sc.closeAt != Some(|events| - 1);
  }

  datatype Exit = Completed | Closed | Failed | Cancelled

  /** The `try` body of the generator. */
  method StreamBody(sc: Script, stops: seq<string>) returns (events: seq<Event>, exit: Exit)
    ensures events == Delivered(sc, BodyPlan(sc, stops))
    ensures exit == if ClosedWithin(sc, BodyPlan(sc, stops)) then Closed
                    else match sc.end case Ends => Completed case Raises => Failed case TaskCancelled => Cancelled
  {
    var parts, pending, matched, open;
    BodyPlanStarts(sc, stops);
    events, parts, pending, matched, open := StreamDeltas(sc, stops, BodyPlan(sc, stops));
    if !open {
      return events, Closed;
    }
    match sc.end {
      case Raises =>
        return events, Failed;
      case TaskCancelled =>
        return events, Cancelled;
      case Ends =>
        events, open := StreamEnding(sc, events, parts, pending, matched);
        return events, if open then Completed else Closed;
    }
  }

  /** The error payload and [DONE], which the consumer may also close at. */
  method ErrorEvents(sc: Script, stops: seq<string>, said: seq<Event>) returns (events: seq<Event>)
    requires sc.end == Raises && said == BodyPlan(sc, stops) && !ClosedWithin(sc, said)
    ensures events == Delivered(sc, Plan(sc, stops))
  {
    events := said + [Error];
    assert Plan(sc, stops) == events + [Done];
    if sc.closeAt == Some(|events| - 1) {
      ClosedHere(sc, Plan(sc, stops), events);
      return;
    }
    events := events + [Done];
  }

  /** Which of the two locks are held. */
  datatype Locks = Locks(guard: bool, queue: bool)

  /** A consumer that closes at a yield has got everything up to it; any other gets it all. */
  lemma DeliveredIs(sc: Script, plan: seq<Event>)
    ensures Delivered(sc, plan) <= plan
    ensures |Delivered(sc, plan)|
            == if sc.closeAt.Some? && sc.closeAt.value < |plan| then sc.closeAt.value + 1 else |plan|
  {
  }

  /** The whole generator, once started: whatever ends it, both leases are finished
      exactly once, the guard's before the queue's, and as a success only when [DONE] was
      taken on the normal path. `seen` records the locks after each finish that had one to
      release. */
  method StreamChatEvents(sc: Script, stops: seq<string>, queue: Gate<string>, guard: Gate<NpuHolder>,
                          lease: Lease, npuLease: Lease)
    returns (events: seq<Event>, success: bool, ghost seen: seq<Locks>)
    requires queue.Valid() && guard.Valid() && queue.leases !! guard.leases
    requires lease in queue.leases && !lease.released
    requires npuLease in guard.leases && !npuLease.released
    modifies queue, guard, lease, npuLease
    ensures queue.Valid() && guard.Valid() && lease.released && npuLease.released
    ensures queue.leases == old(queue.leases) && guard.leases == old(guard.leases)
    ensures guard.View() == old(guard.View()).Finish(success)
    ensures queue.View() == old(queue.View()).Finish(success)
    ensures seen == [Locks(false, true), Locks(false, false)]
    ensures events == Delivered(sc, Plan(sc, stops))
    ensures success <==> sc.end == Ends && !ClosedWithin(sc, Plan(sc, stops))
    ensures events != [] && events[0] == Role
    ensures sc.closeAt.None? && sc.end == Raises ==> |events| >= 3 && events[|events| - 2..] == [Error, Done]
  {
    PlanOpensAndEnds(sc, stops);
    var exit;
    success, seen := false, [];
    events, exit := StreamBody(sc, stops);
    match exit {
      case Completed =>
        success := true;
        seen := FinishBoth(queue, guard, lease, npuLease, None);
      case Cancelled =>
        seen := FinishBoth(queue, guard, lease, npuLease, Some("cancelled"));
      case Failed =>
        seen := FinishBoth(queue, guard, lease, npuLease, Some("backend failed"));
        events := ErrorEvents(sc, stops, events);
      case Closed =>
    }
    if !success {
      if !npuLease.released {
        guard.FinishLease(npuLease, Some("stream closed before completion"));
        seen := seen + [Locks(guard.locked, queue.locked)];
      }
      if !lease.released {
        queue.FinishLease(lease, Some("stream closed before completion"));
        seen := seen + [Locks(guard.locked, queue.locked)];
      }
    }
  }

  /** `npu_lease.finish_...` and then `lease.finish_...`. */
  method FinishBoth(queue: Gate<string>, guard: Gate<NpuHolder>, lease: Lease, npuLease: Lease, error: Option<string>)
    returns (ghost seen: seq<Locks>)
    requires queue.Valid() && guard.Valid() && queue.leases !! guard.leases
    requires lease in queue.leases && !lease.released
    requires npuLease in guard.leases && !npuLease.released
    modifies queue, guard, lease, npuLease
    ensures queue.Valid() && guard.Valid() && lease.released && npuLease.released
    ensures queue.leases == old(queue.leases) && guard.leases == old(guard.leases)
    ensures guard.View() == old(guard.View()).Finish(error.None?)
    ensures queue.View() == old(queue.View()).Finish(error.None?)
    ensures seen == [Locks(false, true), Locks(false, false)]
  {
    guard.FinishLease(npuLease, error);
    seen := [Locks(guard.locked, queue.locked)];
    queue.FinishLease(lease, error);
    seen := seen + [Locks(guard.locked, queue.locked)];
  }

  datatype Unsupported = Unsupported

  /** `_stream_chat_completion` and the response it returns. A backend that cannot stream is the
      400 answer before any gate is tried. A response whose body is never iterated leaves both
      leases unfinished. */
  method StreamChatCompletion(sc: Script, stops: seq<string>, queue: Gate<string>, guard: Gate<NpuHolder>,
                              model: string, who: NpuHolder, supportsStream: bool, iterated: bool)
    returns (reply: Result<Reply, Unsupported>, events: seq<Event>)
    requires queue.Valid() && guard.Valid() && queue.leases !! guard.leases
    modifies queue, queue.leases, guard, guard.leases
    ensures queue.Valid() && guard.Valid() && queue.leases !! guard.leases
    ensures reply == if !supportsStream then Failure(Unsupported)
                     else if old(queue.locked) then Success(QueueBusy)
                     else if old(guard.locked) then Success(NpuBusy)
                     else Success(Answered)
    ensures var ok := sc.end == Ends && !ClosedWithin(sc, Plan(sc, stops));
            (queue.View(), guard.View()) ==
            if !supportsStream then (old(queue.View()), old(guard.View()))
            else if reply == Success(Answered) && !iterated then
              (old(queue.View()).Acquire(), old(guard.View()).Acquire())
            else
              var (q, g, _) := Served(old(queue.View()), old(guard.View()), if ok then Returned else Raised);
              (q, g)
    ensures events == if reply == Success(Answered) && iterated then Delivered(sc, Plan(sc, stops)) else []
  {
    events := [];
    if !supportsStream {
      return Failure(Unsupported), [];
    }
    var entered := queue.AcquireNowait(model);
    if entered.Failure? {
      return Success(QueueBusy), [];
    }
    var acquired := guard.AcquireNowait(who);
    if acquired.Failure? {
      if !entered.value.released {
        queue.FinishLease(entered.value, Some("NPU resource is busy"));
      }
      return Success(NpuBusy), [];
    }
    if iterated {
      var success;
      ghost var seen;
      events, success, seen := StreamChatEvents(sc, stops, queue, guard, entered.value, acquired.value);
    }
    return Success(Answered), events;
  }

  // ----- what a completed stream says ---------------------------------------------------

  function Spoken(events: seq<Event>): string {
    if events == [] then ""
    else
      var e := events[|events| - 1];
      Spoken(events[..|events| - 1]) + (if e.Content? then e.delta else "")
  }

  lemma {:induction false} SpokenSaid(parts: seq<string>)
    ensures Spoken(Said(parts)) == Concat(parts)
  {
    if parts == [] {
      assert [Role][..0] == [];
    } else {
      var init := parts[..|parts| - 1];
      assert Said(parts)[..|Said(parts)| - 1] == Said(init);
      SpokenSaid(init);
    }
  }

  /** The completed stream reports its own answer. */
  lemma PlanReportsAnswer(sc: Script, stops: seq<string>)
    requires sc.end == Ends
    ensures var plan := Plan(sc, stops);
            var (text, matched) := Answer(sc.chunks, stops);
            && |plan| >= 3 && plan[|plan| - 1] == Done
            && plan[|plan| - 2] == Final(matched, text)
            && Spoken(plan) == text
  {
    var parts := Received(FeedAll(sc.chunks, stops));
    var plan := Plan(sc, stops);
    SaidGrows(parts, 0);
    SpokenSaid(parts);
    var most := plan[..|plan| - 1];
    assert most[..|most| - 1] == Said(parts);
    assert Spoken(most) == Concat(parts) + "";
  }

  /** A backend that raises before any stop has appeared leaves its client with what had been
      sent: the text so far, less the characters held back. */
  lemma FailedStreamSays(sc: Script, stops: seq<string>, longest: string)
    requires sc.end == Raises && NonEmpty(stops) && NoStop(Concat(sc.chunks), stops)
    requires longest in stops && forall t :: t in stops ==> |t| <= |longest|
    ensures var text := Concat(sc.chunks);
            var held := if |text| < |longest| - 1 then |text| else |longest| - 1;
            Spoken(Plan(sc, stops)) == text[..|text| - held]
  {
    var parts := FeedAll(sc.chunks, stops).parts;
    HeldBackExactly(sc.chunks, stops, longest);
    SpokenWithError(parts, Plan(sc, stops));
  }

  lemma SpokenWithError(parts: seq<string>, plan: seq<Event>)
    requires plan == Said(parts) + [Error, Done]
    ensures Spoken(plan) == Concat(parts)
  {
    SpokenSaid(parts);
    var most := plan[..|plan| - 1];
    assert most[..|most| - 1] == Said(parts);
    assert Spoken(most) == Concat(parts) + "" && Spoken(plan) == Spoken(most) + "";
  }

  /** A stream that ends normally says the stop cut of the backend's text, names the stop
      that cut it and reports the usage of exactly that cut: for every chunking when the
      stops are safe, and for any stops over the chunks up to the first hit. */
  lemma CompletedStreamSaysTheCut(sc: Script, stops: seq<string>)
    requires sc.end == Ends && NonEmpty(stops)
    ensures var plan := Plan(sc, stops);
            var seen := if Safe(stops) then sc.chunks else sc.chunks[..HitPrefix(sc.chunks, stops)];
            var (cut, matched) := Cut(Concat(seen), stops);
            && |plan| >= 3 && plan[|plan| - 1] == Done
            && plan[|plan| - 2] == Final(matched, cut)
            && Spoken(plan) == cut
  {
    PlanReportsAnswer(sc, stops);
    if Safe(stops) {
      StreamOfSafeStops(sc.chunks, stops);
      assert Agrees(sc.chunks, stops);
    } else {
      StreamCutsShortestPrefix(sc.chunks, stops);
    }
  }
}
