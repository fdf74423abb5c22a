/** Server and Qwen3-VL worker over their pipes, any number of calls. Frames carry no request
    id: the two sides stay in step because the server kills a worker whose reply it did not
    read to the end. Two things get past that, and the runs show both. */
module QwenProtocol {
  import opened Wrappers
  import opened QwenFrames
  import QwenWorker
  import Text

  datatype Phase = Free | Starting(call: nat) | Reading(call: nat)

  /** `due`, `frames` and `results` record history. */
  datatype State = State(
    calls: nat,                        // calls made so far; the next one has this number
    phase: Phase,                      // who holds the lock
    alive: bool,
    input: seq<nat>,                   // requests written and not yet taken by the worker
    printing: seq<string>,             // lines of the current reply the worker has yet to print
    output: seq<string>,               // lines printed and not yet read by the server
    due: nat,                          // lines still to read up to the last marker of the latest reply
    parse: Parse,                      // the locals of the server's reading loop
    frames: map<nat, seq<string>>,     // the reply the worker chose for each request it took
    results: seq<(nat, Outcome)>)      // how each call that read a reply ended

  const INIT := State(0, Free, false, [], [], [], 0, START, map[], [])

  datatype Action =
    | Call                             // `infer` takes the lock; writes at once if a worker is alive
    | ReadLine                         // the server reads the next line
    | GiveUp                           // deadline, worker gone, or write failed: the worker is terminated
    | ReadRaises(lost: nat)            // reading raises on undecodable output and drops it; nobody kills the worker
    | Log(line: string)                // the worker prints a line outside a reply
    | Take(frame: seq<string>)         // the worker takes a request and decides on its reply
    | Print                            // the worker prints the next line of its reply
    | Exit                             // the worker process ends by itself

  /** What the worker prints for a request is any list of lines: most of them are the model's
      text, so an end marker may be among them, or may never come. It is a frame if no marker
      follows a terminator. */
  ghost predicate IsFrame(frame: seq<string>) {
    forall i, j :: 0 <= i < j < |frame| && IsTerminator(frame[i]) ==> !IsMarker(frame[j])
  }

  /** The number of lines up to the last marker. */
  function ToLastMarker(lines: seq<string>): (n: nat)
    ensures n <= |lines|
    ensures n > 0 ==> IsMarker(lines[n - 1])
    ensures NoMarker(lines[n..])
  {
    if lines == [] then 0
    else if IsMarker(lines[|lines| - 1]) then |lines|
    else ToLastMarker(lines[..|lines| - 1])
  }

  predicate Enabled(s: State, a: Action) {
    match a
    case Call => s.phase.Free?
    case ReadLine => !s.phase.Free? && s.output != []
    case GiveUp => !s.phase.Free?
    case ReadRaises(lost) => !s.phase.Free? && 0 < lost <= |s.output|
    case Log(_) => s.alive && s.printing == []
    case Take(_) => s.alive && s.printing == [] && s.input != []
    case Print => s.alive && s.printing != []
    case Exit => s.alive
  }

  function Less(a: nat, b: nat): nat {
    if a <= b then 0 else a - b
  }

  function Write(s: State, call: nat): State {
    s.(phase := Reading(call), input := s.input + [call], parse := START)
  }

  function Next(s: State, a: Action, numeric: string -> bool): State
    requires Enabled(s, a)
  {
    match a
    case Call =>
      var t := s.(calls := s.calls + 1);
      if s.alive then Write(t, s.calls)
      else t.(phase := Starting(s.calls), alive := true, input := [], printing := [], output := [], due := 0)
    case ReadLine =>
      var line := s.output[0];
      var t := s.(output := s.output[1..], due := Less(s.due, 1));
      if s.phase.Starting? then
        if line == QwenWorker.READY then Write(t, s.phase.call) else t
      else if IsTerminator(line) then
        t.(phase := Free, results := s.results + [(s.phase.call, Finish(s.parse, line, numeric))])
      else t.(parse := Step(s.parse, line))
    case GiveUp => s.(phase := Free, alive := false)
    case ReadRaises(lost) => s.(phase := Free, output := s.output[lost..], due := Less(s.due, lost))
    case Log(line) => s.(output := s.output + [line])
    case Take(frame) =>
      var n := ToLastMarker(frame);
      s.(input := s.input[1..], printing := frame, due := if n == 0 then 0 else |s.output| + n,
         frames := s.frames[s.input[0] := frame])
    case Print => s.(output := s.output + [s.printing[0]], printing := s.printing[1..])
    case Exit => s.(alive := false)
  }

  function Run(schedule: seq<Action>, numeric: string -> bool): Option<State> {
    if schedule == [] then Some(INIT)
    else
      match Run(schedule[..|schedule| - 1], numeric)
      case None => None
      case Some(s) =>
        var a := schedule[|schedule| - 1];
        if Enabled(s, a) then Some(Next(s, a, numeric)) else None
  }

  // ----- in step, and the two ways out of it --------------------------------------------

  /** Everything the worker has printed or will print of its current reply, not yet read. */
  function Pending(s: State): seq<string> { s.output + s.printing }

  /** No request is waiting and no marker line of a reply is left. Lines that are no markers are
      passed over by the next call like log lines. */
  ghost predicate Quiet(s: State) {
    s.input == [] && NoMarker(Pending(s))
  }

  /** The step leaves markers of a reply to a worker that lives on: the read raised before the
      last marker of the call's reply was read or dropped, or the call ended at a terminator of
      a reply in which another marker follows. */
  ghost predicate Abandons(s: State, a: Action) {
    && Enabled(s, a) && s.alive && s.phase.Reading?
    && match a
       case ReadRaises(lost) => s.input != [] || lost < s.due
       case ReadLine => IsTerminator(s.output[0]) && s.phase.call in s.frames && !IsFrame(s.frames[s.phase.call])
       case _ => false
  }

  /** No call of the run abandoned its reply. */
  ghost predicate Orderly(schedule: seq<Action>, numeric: string -> bool) {
    forall n :: 0 <= n < |schedule| && Run(schedule[..n], numeric).Some? ==>
                  !Abandons(Run(schedule[..n], numeric).value, schedule[n])
  }

  /** In every state of the run: when the lock is free and the worker lives, no request is
      waiting and no marker of any reply is left in the pipe or still to be printed. */
  ghost predicate AlwaysInStep(schedule: seq<Action>, numeric: string -> bool) {
    forall n :: 0 <= n <= |schedule| && Run(schedule[..n], numeric).Some? ==>
                  var s := Run(schedule[..n], numeric).value;
                  s.phase.Free? && s.alive ==> Quiet(s)
  }

  /** Outside its replies the worker logs no marker line. */
  ghost predicate CleanLogs(schedule: seq<Action>) {
    forall k :: 0 <= k < |schedule| && schedule[k].Log? ==> !IsMarker(schedule[k].line)
  }

  // ----- the invariant --------------------------------------------------------------

  /** The call's request is unread and no marker is ahead of its reply. */
  ghost predicate Asked(s: State, call: nat) {
    s.input == [call] && NoMarker(Pending(s)) && s.due == 0 && s.parse == START && call !in s.frames
  }

  /** The last pending marker is the one that is due. */
  ghost predicate Due(s: State) {
    && s.due <= |Pending(s)|
    && (s.due > 0 ==> IsMarker(Pending(s)[s.due - 1]))
    && NoMarker(Pending(s)[s.due..])
  }

  /** What the reader makes of what is due is what it makes of the reply chosen for the call. */
  ghost predicate Answering(s: State, call: nat, numeric: string -> bool) {
    && s.input == []
    && Due(s)
    && call in s.frames
    && Agree(Reply(s.parse, Pending(s)[..s.due], numeric), Reply(START, s.frames[call], numeric))
    && (Reply(s.parse, Pending(s)[..s.due], numeric).Some? ==>
          (NoMarker(Reply(s.parse, Pending(s)[..s.due], numeric).value.1) <==> IsFrame(s.frames[call])))
  }

  /** Neither is over, or both are, with the same outcome. */
  predicate Agree(a: Option<(Outcome, seq<string>)>, b: Option<(Outcome, seq<string>)>) {
    (a.Some? <==> b.Some?) && (a.Some? ==> a.value.0 == b.value.0)
  }

  ghost predicate InStep(s: State, numeric: string -> bool) {
    match s.phase
    case Free => s.alive ==> Quiet(s) && s.due == 0
    case Starting(call) => Quiet(s) && s.due == 0 && call !in s.frames && call < s.calls
    case Reading(call) => call < s.calls && (Asked(s, call) || Answering(s, call, numeric))
  }

  ghost predicate Faithful(s: State, numeric: string -> bool) {
    && (forall call :: call in s.frames ==> call < s.calls)
    && (forall k :: 0 <= k < |s.results| ==>
          && s.results[k].0 in s.frames
          && Reply(START, s.frames[s.results[k].0], numeric).Some?
          && Reply(START, s.frames[s.results[k].0], numeric).value.0 == s.results[k].1)
  }

  ghost predicate Inv(s: State, numeric: string -> bool) {
    InStep(s, numeric) && Faithful(s, numeric)
  }

  // ----- every step keeps it ----------------------------------------------------------

  /** Lines are read to their first terminator, if they have one; no marker is left behind
      exactly when they are a frame. */
  lemma {:induction false} NoMarkerLeftIff(p: Parse, lines: seq<string>, numeric: string -> bool)
    ensures Reply(p, lines, numeric).Some? <==> !NoTerminator(lines)
    ensures Reply(p, lines, numeric).Some? ==>
              (NoMarker(Reply(p, lines, numeric).value.1) <==> IsFrame(lines))
    decreases lines
  {
    if lines != [] {
      var rest := lines[1..];
      assert lines == [lines[0]] + rest;
      if IsTerminator(lines[0]) {
        NoMarkerBehind(lines);
      } else {
        NoMarkerLeftIff(Step(p, lines[0]), rest, numeric);
        SameFrame(lines);
      }
    }
  }

  lemma NoMarkerBehind(lines: seq<string>)
    requires lines != [] && IsTerminator(lines[0])
    ensures NoMarker(lines[1..]) <==> IsFrame(lines)
  {
    assert forall k :: 0 <= k < |lines| - 1 ==> lines[1..][k] == lines[k + 1];
    if IsFrame(lines) {
      forall k | 0 <= k < |lines| - 1 ensures !IsMarker(lines[1..][k]) {
        assert !IsMarker(lines[k + 1]);
      }
    } else {
      var i, j :| 0 <= i < j < |lines| && IsTerminator(lines[i]) && IsMarker(lines[j]);
      assert lines[1..][j - 1] == lines[j];
    }
  }

  lemma SameFrame(lines: seq<string>)
    requires lines != [] && !IsTerminator(lines[0])
    ensures IsFrame(lines) <==> IsFrame(lines[1..])
    ensures NoTerminator(lines) <==> NoTerminator(lines[1..])
  {
    var rest := lines[1..];
    assert forall k :: 1 <= k < |lines| ==> lines[k] == rest[k - 1];
    if !IsFrame(lines) {
      var i, j :| 0 <= i < j < |lines| && IsTerminator(lines[i]) && IsMarker(lines[j]);
      assert IsTerminator(rest[i - 1]) && IsMarker(rest[j - 1]);
    }
    if !IsFrame(rest) {
      var i, j :| 0 <= i < j < |rest| && IsTerminator(rest[i]) && IsMarker(rest[j]);
      assert IsTerminator(lines[i + 1]) && IsMarker(lines[j + 1]);
    }
  }

  lemma {:induction false} UnmarkedIsUnfinished(p: Parse, lines: seq<string>, numeric: string -> bool)
    requires NoMarker(lines)
    ensures Reply(p, lines, numeric).None?
  {
    assert NoTerminator(lines);
    NoMarkerLeftIff(p, lines, numeric);
  }

  /** Unmarked lines at the end add nothing but themselves. */
  lemma UnmarkedTail(p: Parse, lines: seq<string>, tail: seq<string>, numeric: string -> bool)
    requires NoMarker(tail)
    ensures Agree(Reply(p, lines, numeric), Reply(p, lines + tail, numeric))
  {
    NoMarkerLeftIff(p, lines, numeric);
    if NoTerminator(lines) {
      NoMarkerLeftIff(p, lines + tail, numeric);
      assert NoTerminator(tail);
    } else {
      ReplyOfLonger(p, lines, tail, numeric);
    }
  }

  lemma UnmarkedTailOfFrame(lines: seq<string>, tail: seq<string>, all: seq<string>)
    requires NoMarker(tail) && all == lines + tail
    ensures IsFrame(all) <==> IsFrame(lines)
  {
    if !IsFrame(lines) {
      var i, j :| 0 <= i < j < |lines| && IsTerminator(lines[i]) && IsMarker(lines[j]);
      assert all[i] == lines[i] && all[j] == lines[j];
    }
    if IsFrame(lines) {
      forall i, j | 0 <= i < j < |all| && IsTerminator(all[i]) ensures !IsMarker(all[j]) {
        if j < |lines| {
          assert all[i] == lines[i] && all[j] == lines[j];
        } else {
          assert all[j] == tail[j - |lines|];
        }
      }
    }
  }

  /** A reply as it is taken: what is due of it is read like the whole of it. */
  lemma DueOfReply(logs: seq<string>, frame: seq<string>, numeric: string -> bool)
    requires NoMarker(logs)
    ensures var core := frame[..ToLastMarker(frame)];
            && Agree(Reply(START, logs + core, numeric), Reply(START, frame, numeric))
            && (Reply(START, logs + core, numeric).Some? ==>
                  (NoMarker(Reply(START, logs + core, numeric).value.1) <==> IsFrame(frame)))
  {
    var n := ToLastMarker(frame);
    var core := frame[..n];
    assert core + frame[n..] == frame;
    LogLinesAreSkipped(logs, core, numeric);
    UnmarkedTail(START, core, frame[n..], numeric);
    UnmarkedTailOfFrame(core, frame[n..], frame);
    NoMarkerLeftIff(START, core, numeric);
  }

  lemma TakeKeepsInv(s: State, frame: seq<string>, numeric: string -> bool)
    requires Inv(s, numeric) && Enabled(s, Take(frame))
    ensures Inv(Next(s, Take(frame), numeric), numeric)
  {
    var call, t, n := s.input[0], Next(s, Take(frame), numeric), ToLastMarker(frame);
    assert s.phase == Reading(call) && Asked(s, call) && Pending(s) == s.output;
    DueOfReply(s.output, frame, numeric);
    TakenIsDue(s.output, frame, Pending(t), t.due);
    if n == 0 {
      assert s.output + frame[..0] == s.output && Pending(t)[..0] == [];
      UnmarkedIsUnfinished(START, s.output, numeric);
    }
    assert Answering(t, call, numeric);
  }

  lemma TakenIsDue(logs: seq<string>, frame: seq<string>, pending: seq<string>, due: nat)
    requires NoMarker(logs) && pending == logs + frame
    requires var n := ToLastMarker(frame); due == if n == 0 then 0 else |logs| + n
    ensures due <= |pending| && NoMarker(pending[due..])
    ensures due > 0 ==> IsMarker(pending[due - 1]) && pending[..due] == logs + frame[..ToLastMarker(frame)]
  {
    var n := ToLastMarker(frame);
    assert frame[n..] == frame[n..];
    if n == 0 {
      assert frame[0..] == frame && pending[0..] == logs + frame;
    } else {
      assert pending[due..] == frame[n..];
    }
  }

  lemma LogKeepsInv(s: State, line: string, numeric: string -> bool)
    requires Inv(s, numeric) && Enabled(s, Log(line)) && !IsMarker(line)
    ensures Inv(Next(s, Log(line), numeric), numeric)
  {
    var t := Next(s, Log(line), numeric);
    assert Pending(s) == s.output && Pending(t) == s.output + [line];
    if s.phase.Reading? && Answering(s, s.phase.call, numeric) {
      assert Pending(t)[..t.due] == Pending(s)[..s.due];
      assert Pending(t)[t.due..] == Pending(s)[s.due..] + [line];
      assert Answering(t, s.phase.call, numeric);
    }
  }

  lemma PrintKeepsInv(s: State, numeric: string -> bool)
    requires Inv(s, numeric) && Enabled(s, Print)
    ensures Inv(Next(s, Print, numeric), numeric)
  {
    assert Pending(Next(s, Print, numeric)) == Pending(s);
  }

  /** The last due line is read or dropped exactly when no marker is left. */
  lemma NothingDueIff(s: State, n: nat)
    requires Due(s) && n <= |s.output|
    ensures NoMarker(s.output[n..] + s.printing) <==> s.due <= n
  {
    var left := s.output[n..] + s.printing;
    assert left == Pending(s)[n..];
    if s.due <= n {
      assert forall k :: 0 <= k < |left| ==> left[k] == Pending(s)[s.due..][n - s.due + k];
    } else {
      assert left[s.due - 1 - n] == Pending(s)[s.due - 1];
    }
  }

  lemma MarkerInFront(lines: seq<string>)
    requires lines != [] && IsMarker(lines[0])
    ensures !NoMarker(lines[0..])
  {
    assert lines[0..][0] == lines[0];
  }

  /** The server reads a terminator: the outcome is that of the call's own reply, and no marker
      is left exactly when that is a frame. */
  lemma ReadTerminator(s: State, numeric: string -> bool)
    requires Inv(s, numeric) && s.phase.Reading? && s.output != [] && IsTerminator(s.output[0])
    requires Answering(s, s.phase.call, numeric)
    ensures Faithful(Next(s, ReadLine, numeric), numeric)
    ensures s.due <= 1 <==> IsFrame(s.frames[s.phase.call])
  {
    var pending, due := Pending(s), Pending(s)[..s.due];
    assert pending[0] == s.output[0];
    MarkerInFront(pending);
    assert due[0] == s.output[0];
    assert Reply(s.parse, due, numeric) == Some((Finish(s.parse, s.output[0], numeric), due[1..]));
    if s.due > 1 {
      assert due[1..][s.due - 2] == pending[s.due - 1];
    }
  }

  lemma ReadFrameLine(s: State, numeric: string -> bool)
    requires Inv(s, numeric) && s.phase.Reading? && s.output != [] && Answering(s, s.phase.call, numeric)
    requires !Abandons(s, ReadLine)
    ensures Inv(Next(s, ReadLine, numeric), numeric)
  {
    if IsTerminator(s.output[0]) {
      ReadTerminator(s, numeric);
      NothingDueIff(s, 1);
    } else {
      ReadTextLine(s, numeric);
    }
  }

  lemma ReadTextLine(s: State, numeric: string -> bool)
    requires Inv(s, numeric) && s.phase.Reading? && s.output != [] && Answering(s, s.phase.call, numeric)
    requires !IsTerminator(s.output[0])
    ensures Inv(Next(s, ReadLine, numeric), numeric)
  {
    var t, pending := Next(s, ReadLine, numeric), Pending(s);
    assert pending[0] == s.output[0] && Pending(t) == pending[1..];
    if s.due == 0 {
      assert pending[0..] == pending && Pending(t)[0..] == pending[1..] && Pending(t)[..0] == [];
      assert pending[..0] == [];
    } else {
      assert Pending(t)[..t.due] == pending[..s.due][1..];
      assert Pending(t)[t.due..] == pending[s.due..];
    }
    assert Answering(t, s.phase.call, numeric);
  }

  /** The server reads a log line, before the reply begins or while the worker starts. */
  lemma ReadLogLine(s: State, numeric: string -> bool)
    requires Inv(s, numeric) && !s.phase.Free? && s.output != []
    requires s.phase.Reading? ==> Asked(s, s.phase.call)
    ensures Inv(Next(s, ReadLine, numeric), numeric)
  {
    var line := s.output[0];
    assert Pending(s)[0] == line && Pending(Next(s, ReadLine, numeric)) == Pending(s)[1..];
    assert !IsMarker(line) && NoMarker(Pending(s)[1..]);
    if s.phase.Reading? {
      assert Step(START, line) == START;
      assert Asked(Next(s, ReadLine, numeric), s.phase.call);
    } else if line == QwenWorker.READY {
      assert Asked(Next(s, ReadLine, numeric), s.phase.call);
    }
  }

  lemma RaiseKeepsInv(s: State, lost: nat, numeric: string -> bool)
    requires Inv(s, numeric) && Enabled(s, ReadRaises(lost)) && !Abandons(s, ReadRaises(lost))
    ensures Inv(Next(s, ReadRaises(lost), numeric), numeric)
  {
    var left := s.output[lost..] + s.printing;
    if s.phase.Starting? || Asked(s, s.phase.call) {
      assert forall k :: 0 <= k < |left| ==> left[k] == Pending(s)[lost + k];
    } else {
      NothingDueIff(s, lost);
    }
  }

  lemma CallKeepsInv(s: State, numeric: string -> bool)
    requires Inv(s, numeric) && Enabled(s, Call)
    ensures Inv(Next(s, Call, numeric), numeric)
  {
    if s.alive {
      assert Asked(Next(s, Call, numeric), s.calls);
    }
  }

  lemma StepKeepsInv(s: State, a: Action, numeric: string -> bool)
    requires Inv(s, numeric) && Enabled(s, a) && !Abandons(s, a)
    requires a.Log? ==> !IsMarker(a.line)
    ensures Inv(Next(s, a, numeric), numeric)
  {
    match a
    case Call => CallKeepsInv(s, numeric);
    case ReadLine =>
      if s.phase.Reading? && Answering(s, s.phase.call, numeric) {
        ReadFrameLine(s, numeric);
      } else {
        ReadLogLine(s, numeric);
      }
    case GiveUp =>
    case ReadRaises(lost) => RaiseKeepsInv(s, lost, numeric);
    case Log(line) => LogKeepsInv(s, line, numeric);
    case Take(frame) => TakeKeepsInv(s, frame, numeric);
    case Print => PrintKeepsInv(s, numeric);
    case Exit =>
  }

  /** A reply that is abandoned shows at once. */
  lemma AbandonedIsNotQuiet(s: State, a: Action, numeric: string -> bool)
    requires Inv(s, numeric) && Abandons(s, a)
    ensures Next(s, a, numeric).phase.Free? && Next(s, a, numeric).alive && !Quiet(Next(s, a, numeric))
  {
    if Answering(s, s.phase.call, numeric) {
      if a == ReadLine {
        ReadTerminator(s, numeric);
      }
      NothingDueIff(s, if a == ReadLine then 1 else a.lost);
    }
  }

  // ----- whole runs ---------------------------------------------------------------------

  lemma OrderlyPrefix(schedule: seq<Action>, numeric: string -> bool, n: nat)
    requires Orderly(schedule, numeric) && n <= |schedule|
    ensures Orderly(schedule[..n], numeric)
  {
    forall k | 0 <= k < n ensures schedule[..n][..k] == schedule[..k] {
    }
  }

  /** Over every run in which no call abandoned its reply, at any moment the pipes hold what
      the phase of the current call says. */
  lemma {:induction false} RunKeepsInv(schedule: seq<Action>, numeric: string -> bool)
    requires Orderly(schedule, numeric) && CleanLogs(schedule)
    ensures Run(schedule, numeric).Some? ==> Inv(Run(schedule, numeric).value, numeric)
  {
    var n := |schedule| - 1;
    if schedule != [] && Run(schedule, numeric).Some? {
      OrderlyPrefix(schedule, numeric, n);
      RunKeepsInv(schedule[..n], numeric);
      StepKeepsInv(Run(schedule[..n], numeric).value, schedule[n], numeric);
    }
  }

  lemma OrderlyIsInStep(schedule: seq<Action>, numeric: string -> bool)
    requires Orderly(schedule, numeric) && CleanLogs(schedule)
    ensures AlwaysInStep(schedule, numeric)
  {
    forall n | 0 <= n <= |schedule| && Run(schedule[..n], numeric).Some?
      ensures Inv(Run(schedule[..n], numeric).value, numeric)
    {
      OrderlyPrefix(schedule, numeric, n);
      RunKeepsInv(schedule[..n], numeric);
    }
  }

  /** The first abandoned reply shows at once. */
  lemma AbandonedIsOutOfStep(schedule: seq<Action>, numeric: string -> bool, n: nat)
    requires n < |schedule| && Orderly(schedule[..n], numeric) && CleanLogs(schedule)
    requires Run(schedule[..n], numeric).Some? && Abandons(Run(schedule[..n], numeric).value, schedule[n])
    ensures !AlwaysInStep(schedule, numeric)
  {
    RunKeepsInv(schedule[..n], numeric);
    var s := Run(schedule[..n], numeric).value;
    AbandonedIsNotQuiet(s, schedule[n], numeric);
    assert schedule[..n + 1][..n] == schedule[..n];
    assert Run(schedule[..n + 1], numeric) == Some(Next(s, schedule[n], numeric));
  }

  lemma {:induction false} FirstAbandoned(schedule: seq<Action>, numeric: string -> bool) returns (n: nat)
    requires !Orderly(schedule, numeric)
    ensures n < |schedule| && Orderly(schedule[..n], numeric)
    ensures Run(schedule[..n], numeric).Some? && Abandons(Run(schedule[..n], numeric).value, schedule[n])
    decreases |schedule|
  {
    var m := |schedule| - 1;
    if Orderly(schedule[..m], numeric) {
      forall k | 0 <= k < m ensures schedule[..m][..k] == schedule[..k] {
      }
      n := m;
    } else {
      n := FirstAbandoned(schedule[..m], numeric);
      assert schedule[..m][..n] == schedule[..n];
    }
  }

  /** Server and worker are in step throughout a run exactly when no call abandoned its reply:
      neither by an exception of the read before the last line of the reply, nor by stopping
      at a terminator inside it. Time-outs, exits, failed writes, log lines and malformed
      latencies never part them. */
  lemma InStepIffOrderly(schedule: seq<Action>, numeric: string -> bool)
    requires CleanLogs(schedule)
    ensures AlwaysInStep(schedule, numeric) <==> Orderly(schedule, numeric)
  {
    if Orderly(schedule, numeric) {
      OrderlyIsInStep(schedule, numeric);
    } else {
      var n := FirstAbandoned(schedule, numeric);
      AbandonedIsOutOfStep(schedule, numeric, n);
    }
  }

  // ----- what it means for callers -------------------------------------------------------

  /** In every run without abandoned replies, a call that read a reply got the outcome of the
      reply the worker chose for that call's own request, though frames carry no id. */
  lemma ResultIsOwnFrame(schedule: seq<Action>, numeric: string -> bool, k: nat)
    requires Orderly(schedule, numeric) && CleanLogs(schedule)
    requires Run(schedule, numeric).Some? && k < |Run(schedule, numeric).value.results|
    ensures var s := Run(schedule, numeric).value;
            var (call, outcome) := s.results[k];
            && call in s.frames
            && Reply(START, s.frames[call], numeric).Some?
            && Reply(START, s.frames[call], numeric).value.0 == outcome
  {
    RunKeepsInv(schedule, numeric);
  }

  /** In particular the text a call hands back is the text of the answer to its own request. */
  lemma ResultIsOwnAnswer(schedule: seq<Action>, numeric: string -> bool, k: nat,
                          header: seq<string>, body: seq<string>)
    requires Orderly(schedule, numeric) && CleanLogs(schedule)
    requires Run(schedule, numeric).Some? && k < |Run(schedule, numeric).value.results|
    requires var s := Run(schedule, numeric).value;
             s.results[k].0 in s.frames && s.frames[s.results[k].0] == AnswerFrame(header, body)
    requires NoMarker(header) && ANSWER !in header && NoMarker(body)
    ensures var outcome := Run(schedule, numeric).value.results[k].1;
            var text := Text.Strip(JoinLines(Without(body, ANSWER)));
            outcome == if !GoodLatency(Metadata(header), numeric) then BadLatency
                       else if text == "" then EmptyAnswer
                       else Answered(text, Metadata(header))
  {
    ResultIsOwnFrame(schedule, numeric, k);
    AnswerParsesBack([], header, body, [], numeric);
    assert [] + AnswerFrame(header, body) + [] == AnswerFrame(header, body);
  }

  lemma StepKeepsFrames(s: State, a: Action, numeric: string -> bool, call: nat)
    requires Inv(s, numeric) && Enabled(s, a) && call in s.frames
    ensures call in Next(s, a, numeric).frames && Next(s, a, numeric).frames[call] == s.frames[call]
  {
  }

  /** A call's reply never changes once chosen, so there is one reply it can be. */
  lemma {:induction false} FramesArePermanent(schedule: seq<Action>, numeric: string -> bool, n: nat, call: nat)
    requires Orderly(schedule, numeric) && CleanLogs(schedule) && n <= |schedule|
    requires Run(schedule[..n], numeric).Some? && call in Run(schedule[..n], numeric).value.frames
    requires Run(schedule, numeric).Some?
    ensures call in Run(schedule, numeric).value.frames
    ensures Run(schedule, numeric).value.frames[call] == Run(schedule[..n], numeric).value.frames[call]
    decreases |schedule|
  {
    var m := |schedule| - 1;
    if n == |schedule| {
      assert schedule[..n] == schedule;
    } else {
      assert schedule[..m][..n] == schedule[..n];
      OrderlyPrefix(schedule, numeric, m);
      FramesArePermanent(schedule[..m], numeric, n, call);
      RunKeepsInv(schedule[..m], numeric);
      StepKeepsFrames(Run(schedule[..m], numeric).value, schedule[m], numeric, call);
    }
  }

  // ----- which replies are safe -----------------------------------------------------------

  /** Nothing raises, the worker logs no marker, and its replies are `good`. */
  predicate Allowed(a: Action, good: seq<string> -> bool) {
    && !a.ReadRaises?
    && (a.Log? ==> !IsMarker(a.line))
    && (a.Take? ==> good(a.frame))
  }

  ghost predicate Undisturbed(schedule: seq<Action>, good: seq<string> -> bool) {
    forall k :: 0 <= k < |schedule| ==> Allowed(schedule[k], good)
  }

  ghost predicate KeepInStep(good: seq<string> -> bool, numeric: string -> bool) {
    forall schedule :: Undisturbed(schedule, good) ==> AlwaysInStep(schedule, numeric)
  }

  lemma {:induction false} RepliesAreGood(schedule: seq<Action>, good: seq<string> -> bool, numeric: string -> bool)
    requires Undisturbed(schedule, good) && Run(schedule, numeric).Some?
    ensures var s := Run(schedule, numeric).value;
            forall call :: call in s.frames ==> good(s.frames[call])
  {
    if schedule != [] {
      RepliesAreGood(schedule[..|schedule| - 1], good, numeric);
    }
  }

  lemma FramesAreOrderly(schedule: seq<Action>, good: seq<string> -> bool, numeric: string -> bool)
    requires Undisturbed(schedule, good) && forall f :: good(f) ==> IsFrame(f)
    ensures Orderly(schedule, numeric) && CleanLogs(schedule)
  {
    forall n | 0 <= n < |schedule| && Run(schedule[..n], numeric).Some?
      ensures !Abandons(Run(schedule[..n], numeric).value, schedule[n])
    {
      RepliesAreGood(schedule[..n], good, numeric);
    }
  }

  /** Whatever calls, time-outs and exits come, a worker whose replies are of a given kind is
      always in step with the server if and only if in every reply of the kind no marker follows
      a terminator. */
  lemma InStepIffFrames(good: seq<string> -> bool, numeric: string -> bool)
    ensures KeepInStep(good, numeric) <==> forall f :: good(f) ==> IsFrame(f)
  {
    if forall f :: good(f) ==> IsFrame(f) {
      forall schedule | Undisturbed(schedule, good) ensures AlwaysInStep(schedule, numeric) {
        FramesAreOrderly(schedule, good, numeric);
        OrderlyIsInStep(schedule, numeric);
      }
    } else {
      var f :| good(f) && !IsFrame(f);
      var schedule := UnframedReplyBreaks(f, good, numeric);
    }
  }

  /** An answer is such a frame exactly when none of its lines is a terminator. */
  lemma AnswerIsFrameIff(header: seq<string>, body: seq<string>)
    requires NoTerminator(header)
    ensures IsFrame(AnswerFrame(header, body)) <==> NoTerminator(body)
  {
    MarkersDiffer();
    var frame := AnswerFrame(header, body);
    var n := |header| + 2;
    if NoTerminator(body) {
      FrontHasNoTerminator(header, body);
      assert frame[..|frame| - 1] == [BEGIN] + header + [ANSWER] + body;
    } else {
      var k :| 0 <= k < |body| && IsTerminator(body[k]);
      assert frame[n + k] == body[k] && frame[|frame| - 1] == END;
    }
  }

  predicate EndsInTerminator(frame: seq<string>) {
    frame != [] && IsTerminator(frame[|frame| - 1])
  }

  ghost predicate AllEnd(schedule: seq<Action>) {
    forall k :: 0 <= k < |schedule| && schedule[k].Take? ==> EndsInTerminator(schedule[k].frame)
  }

  /** In an orderly run of a worker whose replies end with a terminator, as the documented ones
      do, a free lock and a live worker mean that every line of every reply has been read. */
  lemma AllRepliesAreRead(schedule: seq<Action>, s: State, numeric: string -> bool)
    requires Orderly(schedule, numeric) && CleanLogs(schedule) && AllEnd(schedule)
    requires Run(schedule, numeric) == Some(s)
    ensures s.phase.Free? && s.alive ==> s.input == [] && s.printing == [] && NoMarker(s.output)
  {
    RunKeepsInv(schedule, numeric);
    PrintingEnds(schedule, numeric);
    AllReadWhenFree(s, numeric);
  }

  lemma AllReadWhenFree(s: State, numeric: string -> bool)
    requires Inv(s, numeric) && (s.printing != [] ==> EndsInTerminator(s.printing))
    ensures s.phase.Free? && s.alive ==> s.input == [] && s.printing == [] && NoMarker(s.output)
  {
    if s.phase.Free? && s.alive {
      AllRead(s.output, s.printing);
    }
  }

  lemma AllRead(output: seq<string>, printing: seq<string>)
    requires NoMarker(output + printing) && (printing != [] ==> EndsInTerminator(printing))
    ensures printing == [] && NoMarker(output)
  {
    if printing != [] {
      TerminatorIsMarker(output, printing);
    } else {
      assert output + printing == output;
    }
  }

  lemma TerminatorIsMarker(output: seq<string>, printing: seq<string>)
    requires EndsInTerminator(printing)
    ensures !NoMarker(output + printing)
  {
    var all := output + printing;
    assert all[|all| - 1] == printing[|printing| - 1];
  }


  lemma {:induction false} PrintingEnds(schedule: seq<Action>, numeric: string -> bool)
    requires AllEnd(schedule) && Run(schedule, numeric).Some?
    ensures var printing := Run(schedule, numeric).value.printing; printing != [] ==> EndsInTerminator(printing)
  {
    if schedule != [] {
      var m := |schedule| - 1;
      PrintingEnds(schedule[..m], numeric);
      assert schedule[m].Take? ==> EndsInTerminator(schedule[m].frame);
    }
  }

  // ----- building runs ----------------------------------------------------------------------

  lemma OneMore(schedule: seq<Action>, s: State, a: Action, good: seq<string> -> bool, numeric: string -> bool)
    returns (longer: seq<Action>, t: State)
    requires Run(schedule, numeric) == Some(s) && Enabled(s, a)
    ensures longer == schedule + [a] && t == Next(s, a, numeric) && Run(longer, numeric) == Some(t)
    ensures Undisturbed(schedule, good) && Allowed(a, good) ==> Undisturbed(longer, good)
  {
    longer, t := schedule + [a], Next(s, a, numeric);
    assert longer[..|schedule|] == schedule;
  }

  /** The first call has started the worker and written its request. */
  lemma FirstCallAsks(ready: string, good: seq<string> -> bool, numeric: string -> bool)
    returns (schedule: seq<Action>, s: State)
    requires ready == QwenWorker.READY
    ensures schedule == [Call, Log(ready), ReadLine] && Undisturbed(schedule, good)
    ensures s == INIT.(calls := 1, phase := Reading(0), alive := true, input := [0])
    ensures Run(schedule, numeric) == Some(s)
  {
    ReadyIsNoMarker();
    schedule, s := OneMore([], INIT, Call, good, numeric);
    schedule, s := OneMore(schedule, s, Log(ready), good, numeric);
    schedule, s := OneMore(schedule, s, ReadLine, good, numeric);
    assert ([] + [ready])[1..] == [] && [] + [0] == [0];
  }

  lemma ReadyIsNoMarker()
    ensures !IsMarker(QwenWorker.READY)
  {
    assert |QwenWorker.READY| == 26 && |BEGIN| == 19 && |END| == 17 && |ERROR_BEGIN| == 25 && |ERROR_END| == 23;
  }

  function Printed(s: State): State {
    s.(output := Pending(s), printing := [])
  }

  lemma PrintedAfterPrint(s: State, t: State, numeric: string -> bool)
    requires s.alive && s.printing != [] && t == Next(s, Print, numeric)
    ensures t.alive && |t.printing| < |s.printing| && Printed(t) == Printed(s)
  {
    assert Pending(t) == Pending(s);
  }

  lemma {:induction false} PrintAll(schedule: seq<Action>, s: State, good: seq<string> -> bool, numeric: string -> bool)
    returns (longer: seq<Action>)
    requires Run(schedule, numeric) == Some(s) && s.alive
    ensures Undisturbed(schedule, good) ==> Undisturbed(longer, good)
    ensures Run(longer, numeric) == Some(Printed(s))
    decreases |s.printing|
  {
    if s.printing == [] {
      longer := schedule;
      assert Pending(s) == s.output;
    } else {
      var t;
      longer, t := OneMore(schedule, s, Print, good, numeric);
      PrintedAfterPrint(s, t, numeric);
      longer := PrintAll(longer, t, good, numeric);
    }
  }

  /** The state once the server has read `lines` and the terminator after them. */
  function ReadTo(s: State, lines: seq<string>, last: string, rest: seq<string>, numeric: string -> bool): State
    requires s.phase.Reading? && IsTerminator(last)
  {
    var p := After(s.parse, lines);
    s.(phase := Free, output := rest, due := Less(s.due, |lines| + 1), parse := p,
       results := s.results + [(s.phase.call, Finish(p, last, numeric))])
  }

  lemma ReadToAfterLine(s: State, t: State, lines: seq<string>, last: string, rest: seq<string>,
                        numeric: string -> bool)
    requires s.phase.Reading? && s.output == lines + [last] + rest && NoTerminator(lines) && IsTerminator(last)
    requires t == Next(s, ReadLine, numeric)
    ensures lines == [] ==> t == ReadTo(s, lines, last, rest, numeric)
    ensures lines != [] ==> t.phase.Reading? && t.output == lines[1..] + [last] + rest
    ensures lines != [] ==> ReadTo(t, lines[1..], last, rest, numeric) == ReadTo(s, lines, last, rest, numeric)
  {
    if lines == [] {
      assert s.output[1..] == rest;
    } else {
      assert s.output[1..] == lines[1..] + [last] + rest;
      assert s.output[0] == lines[0];
    }
  }

  /** The server reads up to the first terminator in the pipe. */
  lemma {:induction false} ReadAll(schedule: seq<Action>, s: State, lines: seq<string>, last: string, rest: seq<string>,
                                   good: seq<string> -> bool, numeric: string -> bool)
    returns (longer: seq<Action>)
    requires Run(schedule, numeric) == Some(s) && NoTerminator(lines) && IsTerminator(last)
    requires s.phase.Reading? && s.output == lines + [last] + rest
    ensures Undisturbed(schedule, good) ==> Undisturbed(longer, good)
    ensures Run(longer, numeric) == Some(ReadTo(s, lines, last, rest, numeric))
    decreases lines
  {
    var t;
    longer, t := OneMore(schedule, s, ReadLine, good, numeric);
    ReadToAfterLine(s, t, lines, last, rest, numeric);
    if lines != [] {
      longer := ReadAll(longer, t, lines[1..], last, rest, good, numeric);
    }
  }

  /** The state once the worker has printed `f` for the oldest request. */
  function Taken(s: State, f: seq<string>): State
    requires s.input != []
  {
    s.(input := s.input[1..], output := f, printing := [], due := ToLastMarker(f), frames := s.frames[s.input[0] := f])
  }

  /** The state once the worker has answered the oldest request with `f` and the server has
      read that up to its first terminator. */
  function Exchanged(s: State, f: seq<string>, lines: seq<string>, last: string, rest: seq<string>,
                     numeric: string -> bool): State
    requires s.phase.Reading? && s.input != [] && IsTerminator(last)
  {
    ReadTo(Taken(s, f), lines, last, rest, numeric)
  }

  lemma TakenAndPrinted(s: State, t: State, f: seq<string>, numeric: string -> bool)
    requires Enabled(s, Take(f)) && s.output == [] && t == Next(s, Take(f), numeric)
    ensures Printed(t) == Taken(s, f) && t.alive
  {
    assert [] + f == f;
  }

  lemma Exchange(schedule: seq<Action>, s: State, f: seq<string>, lines: seq<string>, last: string, rest: seq<string>,
                 good: seq<string> -> bool, numeric: string -> bool)
    returns (longer: seq<Action>)
    requires Run(schedule, numeric) == Some(s) && f == lines + [last] + rest && good(f)
    requires NoTerminator(lines) && IsTerminator(last)
    requires s.alive && s.phase.Reading? && s.input != [] && s.printing == [] && s.output == []
    ensures Undisturbed(schedule, good) ==> Undisturbed(longer, good)
    ensures Run(longer, numeric) == Some(Exchanged(s, f, lines, last, rest, numeric))
  {
    var t;
    longer, t := OneMore(schedule, s, Take(f), good, numeric);
    TakenAndPrinted(s, t, f, numeric);
    longer := PrintAll(longer, t, good, numeric);
    longer := ReadAll(longer, Taken(s, f), lines, last, rest, good, numeric);
  }

  /** One call whose reply has a terminator inside: the rest of the reply stays behind. */
  lemma UnframedReplyBreaks(f: seq<string>, good: seq<string> -> bool, numeric: string -> bool)
    returns (schedule: seq<Action>)
    requires good(f) && !IsFrame(f)
    ensures Undisturbed(schedule, good) && !AlwaysInStep(schedule, numeric)
  {
    var lines, last, rest := SplitReply(f);
    var s;
    schedule, s := FirstCallAsks(QwenWorker.READY, good, numeric);
    schedule := Exchange(schedule, s, f, lines, last, rest, good, numeric);
    s := Exchanged(s, f, lines, last, rest, numeric);
    assert Pending(s) == rest;
    EndsOutOfStep(schedule, s, numeric);
  }

  lemma EndsOutOfStep(schedule: seq<Action>, s: State, numeric: string -> bool)
    requires Run(schedule, numeric) == Some(s) && s.phase.Free? && s.alive && !Quiet(s)
    ensures !AlwaysInStep(schedule, numeric)
  {
    assert schedule[..|schedule|] == schedule;
  }

  lemma SplitReply(f: seq<string>) returns (lines: seq<string>, last: string, rest: seq<string>)
    requires !NoTerminator(f)
    ensures f == lines + [last] + rest && NoTerminator(lines) && IsTerminator(last)
    ensures !IsFrame(f) ==> !NoMarker(rest)
  {
    var k := FirstTerminator(f);
    lines, last, rest := f[..k], f[k], f[k + 1..];
    if !IsFrame(f) {
      var i, j :| 0 <= i < j < |f| && IsTerminator(f[i]) && IsMarker(f[j]);
      assert forall m :: 0 <= m < k ==> lines[m] == f[m];
      assert rest[j - k - 1] == f[j];
    }
  }

  // ----- replies that reach the wrong call ----------------------------------------------------

  /** A reply that ends twice, after which the second call has read the leftover end marker as
      an empty answer while its own request waits. */
  lemma LeftoverEndIsEmptyAnswer(front: seq<string>, f: seq<string>, good: seq<string> -> bool, numeric: string -> bool)
    returns (schedule: seq<Action>, s: State)
    requires NoTerminator(front) && f == front + [END] + [END] && good(f)
    ensures Undisturbed(schedule, good) && Run(schedule, numeric) == Some(s)
    ensures s == INIT.(calls := 2, alive := true, input := [1], frames := map[0 := f],
                       results := [(0, Finish(After(START, front), END, numeric)), (1, EmptyAnswer)])
  {
    schedule, s := FirstCallAsks(QwenWorker.READY, good, numeric);
    schedule := Exchange(schedule, s, f, front, END, [END], good, numeric);
    s := Exchanged(s, f, front, END, [END], numeric);
    var left := s;
    schedule, s := OneMore(schedule, s, Call, good, numeric);
    assert [END] == [] + [END] + [] && [0][1..] + [1] == [1];
    schedule := ReadAll(schedule, s, [], END, [], good, numeric);
    s := ReadTo(s, [], END, [], numeric);
    LeftoverState(left.results, front, f, numeric);
  }

  lemma LeftoverState(results: seq<(nat, Outcome)>, front: seq<string>, f: seq<string>, numeric: string -> bool)
    requires results == [] + [(0, Finish(After(START, front), END, numeric))]
    ensures results + [(1, Finish(START, END, numeric))] == [results[0], (1, EmptyAnswer)]
    ensures map[][0 := f] == map[0 := f]
  {
  }

  /** A reply that holds a terminator is read with its own outcome. */
  lemma ExchangeReply(schedule: seq<Action>, s: State, f: seq<string>, good: seq<string> -> bool,
                      numeric: string -> bool)
    returns (longer: seq<Action>, t: State)
    requires Run(schedule, numeric) == Some(s) && !NoTerminator(f) && good(f)
    requires s.alive && s.phase.Reading? && s.input != [] && s.printing == [] && s.output == [] && s.parse == START
    ensures Undisturbed(schedule, good) ==> Undisturbed(longer, good)
    ensures Run(longer, numeric) == Some(t) && Reply(START, f, numeric).Some?
    ensures t.frames == s.frames[s.input[0] := f]
    ensures t.results == s.results + [(s.phase.call, Reply(START, f, numeric).value.0)]
  {
    var lines, last, rest := SplitReply(f);
    longer := Exchange(schedule, s, f, lines, last, rest, good, numeric);
    t := Exchanged(s, f, lines, last, rest, numeric);
    ReplyEndsAtTerminator(START, lines, last, rest, numeric);
  }

  /** The worker answers the second call's request while a third call is reading. */
  lemma ReplyGoesToThirdCall(front: seq<string>, f0: seq<string>, f: seq<string>,
                             good: seq<string> -> bool, numeric: string -> bool)
    returns (schedule: seq<Action>, s: State)
    requires NoTerminator(front) && f0 == front + [END] + [END] && good(f0) && good(f) && !NoTerminator(f)
    ensures Undisturbed(schedule, good) && Run(schedule, numeric) == Some(s) && Reply(START, f, numeric).Some?
    ensures s.frames == map[0 := f0, 1 := f]
    ensures s.results == [(0, Finish(After(START, front), END, numeric)), (1, EmptyAnswer)]
                         + [(2, Reply(START, f, numeric).value.0)]
  {
    schedule, s := LeftoverEndIsEmptyAnswer(front, f0, good, numeric);
    schedule, s := OneMore(schedule, s, Call, good, numeric);
    schedule, s := ExchangeReply(schedule, s, f, good, numeric);
  }

  /** Nothing raises, yet replies reach the wrong call: call 0 is answered with a text whose
      second line is the end marker, call 1 fails as an empty answer, and call 2 is handed the
      reply, whatever it is, that the worker gave to the request of call 1. */
  lemma InnerEndShiftsReplies(f: seq<string>, numeric: string -> bool) returns (schedule: seq<Action>)
    requires !NoTerminator(f)
    ensures Undisturbed(schedule, _ => true) && Run(schedule, numeric).Some?
    ensures var s := Run(schedule, numeric).value;
            && s.frames == map[0 := AnswerFrame([], ["a", END]), 1 := f]
            && Reply(START, f, numeric).Some?
            && |s.results| == 3 && s.results[0].0 == 0
            && s.results[1] == (1, EmptyAnswer) && s.results[2] == (2, Reply(START, f, numeric).value.0)
  {
    MarkersDiffer();
    var front := [BEGIN, ANSWER, "a"];
    assert |"a"| == 1 && |END| == 17 && |ERROR_END| == 23;
    assert front + [END] + [END] == AnswerFrame([], ["a", END]);
    var s;
    schedule, s := ReplyGoesToThirdCall(front, AnswerFrame([], ["a", END]), f, _ => true, numeric);
  }

  /** `CleanLogs` is needed: a log line that is an end marker is taken for a reply. */
  lemma MarkerLogBreaks(numeric: string -> bool) returns (schedule: seq<Action>)
    ensures schedule == [Call, Log(QwenWorker.READY), ReadLine, Log(END), ReadLine]
    ensures Run(schedule, numeric).Some? && !AlwaysInStep(schedule, numeric)
  {
    var s;
    schedule, s := FirstCallAsks(QwenWorker.READY, _ => true, numeric);
    schedule, s := OneMore(schedule, s, Log(END), _ => true, numeric);
    schedule, s := OneMore(schedule, s, ReadLine, _ => true, numeric);
    EndsOutOfStep(schedule, s, numeric);
  }

  /** Call 0 has written its request when a log line that cannot be decoded ends it. */
  lemma FirstCallAbandoned(log: string, numeric: string -> bool) returns (schedule: seq<Action>, s: State)
    requires !IsMarker(log)
    ensures s == INIT.(calls := 1, alive := true, input := [0]) && Run(schedule, numeric) == Some(s)
  {
    schedule, s := FirstCallAsks(QwenWorker.READY, _ => true, numeric);
    schedule, s := OneMore(schedule, s, Log(log), _ => true, numeric);
    schedule, s := OneMore(schedule, s, ReadRaises(1), _ => true, numeric);
    assert ([] + [log])[1..] == [];
  }

  /** After an abandoned call the next one can be handed the reply, whatever it is, to the
      abandoned request. */
  lemma AbandonedReplyGoesToNextCall(log: string, f: seq<string>, numeric: string -> bool)
    returns (schedule: seq<Action>)
    requires !IsMarker(log) && !NoTerminator(f)
    ensures Run(schedule, numeric).Some? && Reply(START, f, numeric).Some?
    ensures var s := Run(schedule, numeric).value;
            s.results == [(1, Reply(START, f, numeric).value.0)] && s.frames == map[0 := f]
  {
    var s;
    schedule, s := FirstCallAbandoned(log, numeric);
    schedule, s := OneMore(schedule, s, Call, _ => true, numeric);
    schedule, s := ExchangeReply(schedule, s, f, _ => true, numeric);
  }
}
