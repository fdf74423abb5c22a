/** The server's side of the persistent Qwen3-VL worker: start, one request, its reply, and
    the decision to keep or to kill the process. Each method runs under the worker's lock. */
module QwenWorker {
  import opened Wrappers
  import opened QwenFrames

  const READY := "EDGEINFER_VLM_WORKER_READY"

  /** What one turn of a reading loop meets; the deadline passes after the last event. */
  datatype Event = NothingReady | Line(text: string) | ProcessExited

  datatype StartOutcome = Ready | StartFailed | StartTimeout

  datatype InferOutcome = NotStarted(why: StartOutcome) | WriteFailed | Done(outcome: Outcome)

  /** The lines that arrive before the process exits or the deadline passes. */
  function Seen(events: seq<Event>): seq<string> {
    if events == [] || events[0].ProcessExited? then []
    else if events[0].Line? then [events[0].text] + Seen(events[1..])
    else Seen(events[1..])
  }

  ghost predicate Exits(events: seq<Event>) {
    exists k :: 0 <= k < |events| && events[k].ProcessExited?
  }

  /** What a call makes of the lines it sees. */
  function Verdict(p: Parse, lines: seq<string>, numeric: string -> bool): Outcome {
    match Reply(p, lines, numeric)
    case Some((outcome, _)) => outcome
    case None => TimeoutOrExit(After(p, lines).sawBegin)
  }

  lemma VerdictStep(p: Parse, lines: seq<string>, numeric: string -> bool)
    requires lines != [] && !IsTerminator(lines[0])
    ensures Verdict(p, lines, numeric) == Verdict(Step(p, lines[0]), lines[1..], numeric)
  {
  }

  function LastChars(s: string, n: nat): string {
    if |s| <= n then s else s[|s| - n..]
  }

  /** `last_error` after a call that wrote its request. */
  function ErrorAfter(o: Outcome, before: Option<string>): Option<string> {
    match o
    case Answered(_, _) => None
    case EmptyAnswer => Some("empty_answer")
    case BadLatency => before
    case RuntimeError(lines) => Some(LastChars(JoinLines(lines), 300))
    case TimeoutOrExit(_) => Some("timeout_or_worker_exit")
  }

  /** The last error of a failed reply is the end of its joined lines, at most 300 characters. */
  lemma ErrorIsTail(lines: seq<string>, before: Option<string>) returns (front: string)
    ensures ErrorAfter(RuntimeError(lines), before).Some?
    ensures var tail := ErrorAfter(RuntimeError(lines), before).value;
            front + tail == JoinLines(lines) && |tail| <= 300 && (front != "" ==> |tail| == 300)
  {
    var all := JoinLines(lines);
    front := if |all| <= 300 then "" else all[..|all| - 300];
  }

  /** What is seen: every line, in order, up to the exit of the process. */
  lemma {:induction false} SeenGrows(events: seq<Event>, event: Event)
    ensures Seen(events + [event])
            == if Exits(events) || !event.Line? then Seen(events) else Seen(events) + [event.text]
  {
    if events == [] {
      assert [event][1..] == [];
    } else {
      var tail := events[1..];
      assert (events + [event])[1..] == tail + [event];
      SeenGrows(tail, event);
      assert Exits(events) <==> events[0].ProcessExited? || Exits(tail) by {
        assert forall k :: 0 <= k < |tail| ==> tail[k] == events[k + 1];
      }
    }
  }

  class PersistentWorker {
    var alive: bool
    var input: string                  // everything written to the current process
    var requestCount: nat
    var failedRequestCount: nat
    var restartCount: nat
    var lastError: Option<string>

    constructor ()
      ensures !alive && requestCount == 0 && failedRequestCount == 0 && restartCount == 0 && lastError == None
    {
      alive, input, lastError := false, "", None;
      requestCount, failedRequestCount, restartCount := 0, 0, 0;
    }

    /** Leaves a live process alone; otherwise spawns one and waits for its ready line. A
        process that did not become ready is not left running. */
    method StartLocked(events: seq<Event>) returns (r: StartOutcome)
      modifies this
      ensures requestCount == old(requestCount) && failedRequestCount == old(failedRequestCount)
      ensures old(alive) ==> r == Ready && restartCount == old(restartCount)
      ensures old(alive) ==> input == old(input) && lastError == old(lastError)
      ensures !old(alive) ==> input == "" && lastError == None && restartCount == old(restartCount) + 1
      ensures !old(alive) ==> (r == Ready <==> READY in Seen(events))
      ensures !old(alive) && r != Ready ==> (r == StartFailed <==> Exits(events))
      ensures alive <==> r == Ready
    {
      if alive {
        return Ready;
      }
      alive, input, lastError := true, "", None;
      restartCount := restartCount + 1;
      var k := 0;
      while k < |events|
        invariant 0 <= k <= |events| && alive
        invariant READY in Seen(events) <==> READY in Seen(events[k..])
        invariant forall j :: 0 <= j < k ==> !events[j].ProcessExited?
      {
        assert events[k..][1..] == events[k + 1..];
        if events[k].ProcessExited? {
          alive := false;
          return StartFailed;
        }
        if events[k] == Line(READY) {
          return Ready;
        }
        k := k + 1;
      }
      alive := false;
      r := StartTimeout;
    }

    /** `infer`: the outcome is what the lines seen amount to, and the process survives only
        if the reply was read to its terminator. */
    method Infer(image: string, prompt: string, startup: seq<Event>, writable: bool, writeError: string,
                 events: seq<Event>, numeric: string -> bool)
      returns (r: InferOutcome)
      modifies this
      ensures r.NotStarted? <==> !old(alive) && READY !in Seen(startup)
      ensures r == WriteFailed <==> !r.NotStarted? && !writable
      ensures r.Done? ==> r.outcome == Verdict(START, Seen(events), numeric)
      ensures r.Done? ==> input == (if old(alive) then old(input) else "") + RequestLine(image, prompt)
      ensures alive <==> r.Done? && Reply(START, Seen(events), numeric).Some?
      ensures requestCount == old(requestCount)
                + (if r.Done? && (r.outcome.Answered? || r.outcome.EmptyAnswer?) then 1 else 0)
      ensures failedRequestCount == old(failedRequestCount)
                + (if r.NotStarted? || (r.Done? && (r.outcome.Answered? || r.outcome.BadLatency?)) then 0 else 1)
      ensures r.Done? ==> lastError == ErrorAfter(r.outcome, if old(alive) then old(lastError) else None)
      ensures r == WriteFailed ==> lastError == Some("write_failed: " + writeError)
    {
      var started := StartLocked(startup);
      if started != Ready {
        return NotStarted(started);
      }
      if !writable {
        FailWrite(writeError);
        return WriteFailed;
      }
      Write(RequestLine(image, prompt));
      var outcome := ReadReply(events, numeric);
      r := Done(outcome);
    }

    method Write(line: string)
      modifies this`input
      ensures input == old(input) + line
    {
      input := input + line;
    }

    method FailWrite(error: string)
      modifies this`alive, this`failedRequestCount, this`lastError
      ensures !alive && failedRequestCount == old(failedRequestCount) + 1
      ensures lastError == Some("write_failed: " + error)
    {
      alive := false;
      failedRequestCount := failedRequestCount + 1;
      lastError := Some("write_failed: " + error);
    }

    /** The reading loop of `infer`. */
    method ReadReply(events: seq<Event>, numeric: string -> bool) returns (r: Outcome)
      requires alive
      modifies this
      ensures r == Verdict(START, Seen(events), numeric)
      ensures alive <==> Reply(START, Seen(events), numeric).Some?
      ensures input == old(input) && restartCount == old(restartCount)
      ensures requestCount == old(requestCount) + (if r.Answered? || r.EmptyAnswer? then 1 else 0)
      ensures failedRequestCount == old(failedRequestCount) + (if r.Answered? || r.BadLatency? then 0 else 1)
      ensures lastError == ErrorAfter(r, old(lastError))
    {
      var p := START;
      var k := 0;
      while k < |events| && !events[k].ProcessExited?
        invariant 0 <= k <= |events|
        invariant Verdict(p, Seen(events[k..]), numeric) == Verdict(START, Seen(events), numeric)
        invariant Reply(p, Seen(events[k..]), numeric).Some? <==> Reply(START, Seen(events), numeric).Some?
        invariant unchanged(this)
      {
        assert events[k..][1..] == events[k + 1..];
        if events[k].Line? {
          var line := events[k].text;
          ghost var seen := Seen(events[k..]);
          assert seen[0] == line && seen[1..] == Seen(events[k + 1..]);
          if IsTerminator(line) {
            r := Finish(p, line, numeric);
            Settle(r);
            return;
          }
          VerdictStep(p, seen, numeric);
          p := Step(p, line);
        }
        k := k + 1;
      }
      assert Seen(events[k..]) == [];
      r := TimeoutOrExit(p.sawBegin);
      Settle(r);
      alive := false;
    }

    method Settle(o: Outcome)
      modifies this`requestCount, this`failedRequestCount, this`lastError
      ensures requestCount == old(requestCount) + (if o.Answered? || o.EmptyAnswer? then 1 else 0)
      ensures failedRequestCount == old(failedRequestCount) + (if o.Answered? || o.BadLatency? then 0 else 1)
      ensures lastError == ErrorAfter(o, old(lastError))
    {
      if o.Answered? || o.EmptyAnswer? {
        requestCount := requestCount + 1;
      }
      if !o.Answered? && !o.BadLatency? {
        failedRequestCount := failedRequestCount + 1;
      }
      lastError := ErrorAfter(o, lastError);
    }
  }
}
