/** The YOLO client's reader of the worker's stdout: a growing buffer cut into lines,
    with arbitrary chunking, log lines in between and time-outs between calls. */
module LineReader {
  import opened Wrappers
  import opened Text

  const PREFIX := "__EDGEINFER_JSON__ "
  const LOG_LIMIT := 80

  /** A protocol message; what JSON it was is left to `parse`. */
  datatype Message = Message(kind: string, id: Option<string>, body: string)

  /** What one turn of the read loop meets. */
  datatype Event = NothingReady | Chunk(text: string) | DeadlinePassed | WorkerExited

  datatype ReadError = TimedOut | Exited

  // ----- lines ----------------------------------------------------------------------

  predicate OneLine(s: string) {
    forall k :: 0 <= k < |s| ==> s[k] != '\n'
  }

  ghost predicate AllOneLine(lines: seq<string>) {
    forall k :: 0 <= k < |lines| ==> OneLine(lines[k])
  }

  /** The lines joined back, each with its newline. */
  function Joined(lines: seq<string>): string {
    if lines == [] then "" else lines[0] + "\n" + Joined(lines[1..])
  }

  function LineEnd(text: string): (e: nat)
    ensures e <= |text| && OneLine(text[..e]) && (e < |text| ==> text[e] == '\n')
  {
    if text == "" || text[0] == '\n' then 0 else 1 + LineEnd(text[1..])
  }

  /** The complete lines of a text; what follows the last newline is not one. */
  function Lines(text: string): seq<string>
    decreases |text|
  {
    var e := LineEnd(text);
    if e == |text| then [] else [text[..e]] + Lines(text[e + 1..])
  }

  lemma {:induction false} JoinedAppend(lines: seq<string>, line: string)
    ensures Joined(lines + [line]) == Joined(lines) + line + "\n"
  {
    if lines == [] {
      assert lines + [line] == [line];
    } else {
      assert (lines + [line])[1..] == lines[1..] + [line];
      JoinedAppend(lines[1..], line);
      assert Joined(lines + [line]) == lines[0] + "\n" + (Joined(lines[1..]) + line + "\n");
    }
  }

  lemma {:induction false} FirstLine(line: string, tail: string)
    requires OneLine(line)
    ensures LineEnd(line + "\n" + tail) == |line|
  {
    if line != "" {
      FirstLine(line[1..], tail);
      assert (line + "\n" + tail)[1..] == line[1..] + "\n" + tail;
    }
  }

  lemma LinesOfLine(line: string, tail: string)
    requires OneLine(line)
    ensures Lines(line + "\n" + tail) == [line] + Lines(tail)
  {
    FirstLine(line, tail);
    var text := line + "\n" + tail;
    assert text[..|line|] == line && text[|line| + 1..] == tail;
  }

  lemma JoinedHead(lines: seq<string>, rest: string, tail: string)
    requires lines != [] && tail == Joined(lines[1..]) + rest
    ensures Joined(lines) + rest == lines[0] + "\n" + tail
  {
  }

  lemma HeadAndTail(lines: seq<string>, more: seq<string>)
    requires lines != []
    ensures [lines[0]] + (lines[1..] + more) == lines + more
  {
  }

  /** There is only one way to cut a text into complete lines and a remainder: lines taken
      off the front are the first lines of the text, and the remainder holds the others. */
  lemma {:induction false} LinesOfJoined(lines: seq<string>, rest: string)
    requires AllOneLine(lines)
    ensures Lines(Joined(lines) + rest) == lines + Lines(rest)
  {
    if lines == [] {
      assert Joined(lines) + rest == rest;
    } else {
      var tail := Joined(lines[1..]) + rest;
      JoinedHead(lines, rest, tail);
      LinesOfLine(lines[0], tail);
      LinesOfJoined(lines[1..], rest);
      HeadAndTail(lines, Lines(rest));
    }
  }

  /** Cutting a text at its first newline. */
  lemma CutAtNewline(text: string, e: nat)
    requires Find(text, "\n") == e
    ensures e < |text| && OneLine(text[..e]) && text == text[..e] + "\n" + text[e + 1..]
  {
    forall k | 0 <= k < e ensures text[k] != '\n' {
      assert text[k..k + 1] == [text[k]];
      assert !OccursAt(text, "\n", k);
    }
    assert text[e..e + 1] == "\n";
  }

  lemma JoinedTakes(lines: seq<string>, line: string, rest: string)
    ensures Joined(lines) + (line + "\n" + rest) == Joined(lines + [line]) + rest
  {
    JoinedAppend(lines, line);
  }

  // ----- one line -------------------------------------------------------------------

  function StripCr(s: string): string {
    if s != "" && s[|s| - 1] == '\r' then StripCr(s[..|s| - 1]) else s
  }

  /** The message a line carries, if it is a protocol line of the type and id awaited. */
  function Awaited(line: string, parse: string -> Option<Message>, kind: string, id: Option<string>): Option<Message> {
    var clean := StripCr(line);
    if !(PREFIX <= clean) then None
    else
      match parse(clean[|PREFIX|..])
      case None => None
      case Some(m) => if m.kind == kind && (id.Some? ==> m.id == id) then Some(m) else None
  }

  /** The line is the prefix and `raw`, perhaps followed by carriage returns. */
  ghost predicate Carries(line: string, raw: string) {
    var text := PREFIX + raw;
    && text <= line
    && (forall k :: |text| <= k < |line| ==> line[k] == '\r')
    && (raw != "" ==> raw[|raw| - 1] != '\r')
  }

  /** `m` is what the line says, of the type awaited and, if an id is awaited, with that id. */
  ghost predicate IsAwaited(line: string, m: Message,
                            parse: string -> Option<Message>, kind: string, id: Option<string>) {
    m.kind == kind && (id.Some? ==> m.id == id) && exists raw :: Carries(line, raw) && parse(raw) == Some(m)
  }

  ghost predicate NotAwaited(line: string, parse: string -> Option<Message>, kind: string, id: Option<string>) {
    forall raw :: Carries(line, raw) && parse(raw).Some? ==>
      parse(raw).value.kind != kind || (id.Some? && parse(raw).value.id != id)
  }

  /** None of the lines from `from` up to `to` is awaited. */
  ghost predicate Passed(lines: seq<string>, from: nat, to: int,
                         parse: string -> Option<Message>, kind: string, id: Option<string>) {
    to <= |lines| && forall k :: from <= k < to ==> NotAwaited(lines[k], parse, kind, id)
  }

  lemma PassedJoins(before: seq<string>, after: seq<string>, from: nat, to: int,
                    parse: string -> Option<Message>, kind: string, id: Option<string>)
    requires before <= after && Passed(before, from, |before|, parse, kind, id)
    requires Passed(after, |before|, to, parse, kind, id)
    ensures Passed(after, from, to, parse, kind, id)
  {
    forall k | from <= k < to ensures NotAwaited(after[k], parse, kind, id) {
      assert k < |before| ==> after[k] == before[k];
    }
  }

  lemma {:induction false} StripCrCuts(line: string)
    ensures StripCr(line) <= line
    ensures forall k :: |StripCr(line)| <= k < |line| ==> line[k] == '\r'
    ensures StripCr(line) != "" ==> StripCr(line)[|StripCr(line)| - 1] != '\r'
  {
    if line != "" && line[|line| - 1] == '\r' {
      StripCrCuts(line[..|line| - 1]);
    }
  }

  lemma CutIsUnique(line: string, s: string, t: string)
    requires s <= line && forall k :: |s| <= k < |line| ==> line[k] == '\r'
    requires t <= line && forall k :: |t| <= k < |line| ==> line[k] == '\r'
    requires s != "" ==> s[|s| - 1] != '\r'
    requires t != "" ==> t[|t| - 1] != '\r'
    ensures s == t
  {
    assert |s| == |t| by {
      assert |s| > 0 ==> line[|s| - 1] == s[|s| - 1];
      assert |t| > 0 ==> line[|t| - 1] == t[|t| - 1];
    }
    assert s == line[..|s|] && t == line[..|t|];
  }

  lemma CarriesIff(line: string, raw: string)
    ensures Carries(line, raw) <==> StripCr(line) == PREFIX + raw
  {
    var text := PREFIX + raw;
    assert text[|text| - 1] == if raw == "" then PREFIX[|PREFIX| - 1] else raw[|raw| - 1];
    StripCrCuts(line);
    if Carries(line, raw) {
      CutIsUnique(line, StripCr(line), text);
    }
  }

  /** A protocol line is its prefix and the JSON text. */
  lemma ProtocolLine(raw: string)
    requires raw != "" ==> raw[|raw| - 1] != '\r'
    ensures Carries("__EDGEINFER_JSON__ " + raw, raw) && Carries("__EDGEINFER_JSON__ " + raw + "\r", raw)
  {
  }

  lemma AwaitedIs(line: string, parse: string -> Option<Message>, kind: string, id: Option<string>)
    ensures var r := Awaited(line, parse, kind, id);
            && (r.Some? ==> IsAwaited(line, r.value, parse, kind, id))
            && (r.None? ==> NotAwaited(line, parse, kind, id))
  {
    var clean := StripCr(line);
    forall raw | Carries(line, raw) ensures clean == PREFIX + raw && clean[|PREFIX|..] == raw {
      CarriesIff(line, raw);
    }
    if PREFIX <= clean {
      assert clean == PREFIX + clean[|PREFIX|..];
      CarriesIff(line, clean[|PREFIX|..]);
    }
  }

  function Brings(event: Event): string {
    if event.Chunk? then event.text else ""
  }

  /** The text the events bring in. */
  function Arrived(events: seq<Event>): string {
    if events == [] then ""
    else
      var last := events[|events| - 1];
      Arrived(events[..|events| - 1]) + Brings(last)
  }

  lemma ArrivedOneMore(events: seq<Event>, k: nat)
    requires k < |events|
    ensures Arrived(events[..k + 1]) == Arrived(events[..k]) + Brings(events[k])
  {
    assert events[..k + 1][..k] == events[..k];
  }

  predicate Stops(event: Event) {
    event.DeadlinePassed? || event.WorkerExited?
  }

  /** The first event from `from` on that ends the loop, or the end of the list. */
  function FirstStop(events: seq<Event>, from: nat): (n: nat)
    requires from <= |events|
    ensures from <= n <= |events| && (n < |events| ==> Stops(events[n]))
    decreases |events| - from
  {
    if from == |events| || Stops(events[from]) then from else FirstStop(events, from + 1)
  }

  lemma {:induction false} NoneStopsBefore(events: seq<Event>, from: nat)
    requires from <= |events|
    ensures forall j :: from <= j < FirstStop(events, from) ==> !Stops(events[j])
    decreases |events| - from
  {
    if from < |events| && !Stops(events[from]) {
      NoneStopsBefore(events, from + 1);
    }
  }

  /** What the first `used` turns brought in is what has been received since `start`. */
  ghost predicate Came(events: seq<Event>, used: nat, start: string, received: string) {
    used <= |events| && received == start + Arrived(events[..used])
  }

  lemma MoreCame(events: seq<Event>, used: nat, start: string, received: string, more: string)
    requires Came(events, used, start, received) && used < |events|
    requires more == received + Brings(events[used])
    ensures Came(events, used + 1, start, more)
  {
    ArrivedOneMore(events, used);
  }

  /** The lines are all the complete lines of the text. */
  ghost predicate AllOf(lines: seq<string>, text: string) {
    exists tail :: OneLine(tail) && text == Joined(lines) + tail
  }

  lemma AllOfIsLines(lines: seq<string>, text: string)
    requires AllOf(lines, text) && AllOneLine(lines)
    ensures lines == Lines(text)
  {
    var tail :| OneLine(tail) && text == Joined(lines) + tail;
    LinesOfJoined(lines, tail);
    assert Lines(tail) == [];
  }

  /** Every line that had arrived before the last turn was looked at. */
  ghost predicate LookedAt(events: seq<Event>, used: nat, start: string, lines: seq<string>) {
    0 < used <= |events| ==> AllOf(lines, start + Arrived(events[..used - 1]))
  }

  lemma LooksOn(events: seq<Event>, used: nat, start: string, text: string, lines: seq<string>)
    requires Came(events, used, start, text) && AllOf(lines, text)
    ensures LookedAt(events, used + 1, start, lines)
  {
  }

  class Client {
    var buffer: string
    var logTail: seq<string>
    ghost var received: string         // all stdout text read from this worker process
    ghost var examined: seq<string>    // all lines looked at, in order

    ghost predicate Valid()
      reads this
    {
      && AllOneLine(examined)
      && received == Joined(examined) + buffer
      && |logTail| <= LOG_LIMIT
    }

    /** In every state the client can be in, between calls, after time-outs or answers, the
        lines examined so far are the first lines of the whole text read from the process,
        and the buffer holds exactly the lines that follow. */
    lemma ExaminedAreFirstLines()
      requires Valid()
      ensures Lines(received) == examined + Lines(buffer)
    {
      LinesOfJoined(examined, buffer);
    }

    /** A new worker process: the buffer and the log start empty. */
    method Restart()
      modifies this
      ensures Valid() && received == "" && examined == [] && buffer == "" && logTail == []
    {
      buffer, logTail := "", [];
      received, examined := "", [];
    }

    method RecordLogLine(line: string)
      requires |logTail| <= LOG_LIMIT
      modifies this`logTail
      ensures |logTail| <= 80
      ensures logTail == if Strip(line) == "" then old(logTail)
                         else if |old(logTail)| < 80 then old(logTail) + [Strip(line)]
                         else old(logTail)[1..] + [Strip(line)]
    {
      var clean := Strip(line);
      if clean == "" {
        return;
      }
      logTail := logTail + [clean];
      if |logTail| > LOG_LIMIT {
        logTail := logTail[|logTail| - LOG_LIMIT..];
      }
    }

    /** Takes complete lines off the buffer until the awaited message or none is left. */
    method DrainLines(parse: string -> Option<Message>, kind: string, id: Option<string>) returns (r: Option<Message>)
      requires Valid()
      modifies this
      ensures Valid() && received == old(received) && old(examined) <= examined
      ensures Passed(examined, |old(examined)|, |examined| - (if r.Some? then 1 else 0), parse, kind, id)
      ensures r.Some? ==>
                |old(examined)| < |examined| && IsAwaited(examined[|examined| - 1], r.value, parse, kind, id)
      ensures r.None? ==> AllOf(examined, received)
    {
      while Find(buffer, "\n") >= 0
        invariant Valid() && received == old(received) && old(examined) <= examined
        invariant Passed(examined, |old(examined)|, |examined|, parse, kind, id)
        decreases |buffer|
      {
        var line := TakeLine();
        AwaitedIs(line, parse, kind, id);
        r := Awaited(line, parse, kind, id);
        if r.Some? {
          return;
        }
        RecordLogLine(line);
      }
      assert forall k :: 0 <= k < |buffer| && buffer[k] == '\n' ==> OccursAt(buffer, "\n", k);
      assert OneLine(buffer);
      return None;
    }

    /** `line, buffer = buffer.split("\n", 1)` */
    method TakeLine() returns (line: string)
      requires Valid() && Find(buffer, "\n") >= 0
      modifies this
      ensures Valid() && received == old(received) && examined == old(examined) + [line]
      ensures |buffer| < |old(buffer)| && logTail == old(logTail)
    {
      var e := Find(buffer, "\n");
      CutAtNewline(buffer, e);
      line := buffer[..e];
      JoinedTakes(examined, line, buffer[e + 1..]);
      buffer := buffer[e + 1..];
      examined := examined + [line];
    }

    method Append(text: string)
      requires Valid()
      modifies this`buffer, this`received
      ensures Valid() && buffer == old(buffer) + text && received == old(received) + text
    {
      buffer := buffer + text;
      received := received + text;
    }

    /** One turn of the loop: the lines in the buffer, then what has come in. */
    method Turn(event: Event, parse: string -> Option<Message>, kind: string, id: Option<string>)
      returns (r: Option<Message>)
      requires Valid() && !Stops(event)
      modifies this
      ensures Valid() && old(examined) <= examined
      ensures Passed(examined, |old(examined)|, |examined| - (if r.Some? then 1 else 0), parse, kind, id)
      ensures r.Some? ==>
                |old(examined)| < |examined| && IsAwaited(examined[|examined| - 1], r.value, parse, kind, id)
      ensures received == if r.Some? then old(received) else old(received) + Brings(event)
      ensures r.None? ==> AllOf(examined, old(received))
    {
      r := DrainLines(parse, kind, id);
      if r.None? {
        Append(Brings(event));
      }
    }

    /** A turn, with the account of where the loop stands: `text` has been received since `start`
        and `lines` have been examined. */
    method CountedTurn(events: seq<Event>, used: nat, ghost start: string, ghost from: nat, ghost text: string,
                       ghost lines: seq<string>, parse: string -> Option<Message>, kind: string, id: Option<string>)
      returns (found: Option<Message>, ghost text': string, ghost lines': seq<string>)
      requires Valid() && text == received && lines == examined
      requires used < |events| && !Stops(events[used])
      requires Came(events, used, start, text) && Passed(lines, from, |lines|, parse, kind, id)
      modifies this
      ensures Valid() && text' == received && lines' == examined && lines <= lines'
      ensures Passed(lines', from, |lines'| - (if found.Some? then 1 else 0), parse, kind, id)
      ensures found.Some? ==> text' == text && |lines| < |lines'|
      ensures found.Some? ==> IsAwaited(lines'[|lines'| - 1], found.value, parse, kind, id)
      ensures found.None? ==> Came(events, used + 1, start, text') && LookedAt(events, used + 1, start, lines')
    {
      found := Turn(events[used], parse, kind, id);
      text', lines' := received, examined;
      PassedJoins(lines, lines', from, |lines'| - (if found.Some? then 1 else 0), parse, kind, id);
      if found.None? {
        LooksOn(events, used, start, text, lines');
        MoreCame(events, used, start, text, text');
      }
    }

    /** The loop of `_read_json_message`, up to the event that ends it. */
    method ReadLoop(events: seq<Event>, parse: string -> Option<Message>, kind: string, id: Option<string>)
      returns (found: Option<Message>, used: nat)
      requires Valid()
      modifies this
      ensures Valid() && old(examined) <= examined
      ensures Came(events, used, old(received), received)
      ensures Passed(examined, |old(examined)|, |examined| - (if found.Some? then 1 else 0), parse, kind, id)
      ensures found.Some? ==>
                |old(examined)| < |examined| && IsAwaited(examined[|examined| - 1], found.value, parse, kind, id)
      ensures found.None? ==> LookedAt(events, used, old(received), examined)
      ensures if found.Some? then used < FirstStop(events, 0) else used == FirstStop(events, 0)
    {
      used, found := 0, None;
      ghost var start, from := received, |examined|;
      ghost var text, lines := received, examined;
      while used < |events| && !Stops(events[used])
        invariant used <= |events| && FirstStop(events, used) == FirstStop(events, 0)
        invariant Valid() && found.None? && text == received && lines == examined && old(examined) <= lines
        invariant Came(events, used, start, text) && LookedAt(events, used, start, lines)
        invariant Passed(lines, from, |lines|, parse, kind, id)
      {
        found, text, lines := CountedTurn(events, used, start, from, text, lines, parse, kind, id);
        if found.Some? {
          return;
        }
        used := used + 1;
      }
    }

    /** `_read_json_message`: examines lines until the awaited message, the deadline or the
        worker's exit; lines passed over before it are not the awaited message. When it comes back
        without one, it has looked at every line that had arrived before its last turn. */
    method ReadJsonMessage(events: seq<Event>, parse: string -> Option<Message>, kind: string, id: Option<string>)
      returns (r: Result<Message, ReadError>, ghost used: nat)
      requires Valid()
      modifies this
      ensures Valid() && old(examined) <= examined
      ensures used <= |events| && received == old(received) + Arrived(events[..used])
      ensures Passed(examined, |old(examined)|, |examined| - (if r.Success? then 1 else 0), parse, kind, id)
      ensures r.Success? ==>
                |old(examined)| < |examined| && IsAwaited(examined[|examined| - 1], r.value, parse, kind, id)
      ensures r.Failure? && used > 0 ==> examined == Lines(old(received) + Arrived(events[..used - 1]))
      ensures forall k :: 0 <= k < used ==> events[k].NothingReady? || events[k].Chunk?
      ensures r == Failure(Exited) <==> used < |events| && events[used].WorkerExited?
      ensures r == Failure(TimedOut) <==> used == |events| || events[used].DeadlinePassed?
    {
      var found, turns := ReadLoop(events, parse, kind, id);
      used := turns;
      NoneStopsBefore(events, 0);
      if found.None? && used > 0 {
        AllOfIsLines(examined, old(received) + Arrived(events[..used - 1]));
      }
      if found.Some? {
        return Success(found.value), used;
      }
      if turns < |events| && events[turns].WorkerExited? {
        return Failure(Exited), used;
      }
      return Failure(TimedOut), used;
    }
  }
}
