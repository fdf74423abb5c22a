/** The text protocol between the server and the Qwen3-VL worker: how a request becomes one
    line, and how the lines of a reply become an answer. */
module QwenFrames {
  import opened Wrappers
  import opened Text
  import opened LineReader

  // ----- requests -------------------------------------------------------------------

  /** `value.replace(c, " ")` for one character. */
  function Blanked(value: string, c: char): string {
    if value == "" then "" else [if value[0] == c then ' ' else value[0]] + Blanked(value[1..], c)
  }

  lemma {:induction false} BlankedAt(value: string, c: char)
    ensures |Blanked(value, c)| == |value|
    ensures forall k :: 0 <= k < |value| ==> Blanked(value, c)[k] == if value[k] == c then ' ' else value[k]
  {
    if value != "" {
      BlankedAt(value[1..], c);
    }
  }

  function AllBlanked(value: string): string {
    Blanked(Blanked(Blanked(value, '\r'), '\n'), '\t')
  }

  function SanitizeRequestField(value: string): string {
    Strip(AllBlanked(value))
  }

  function RequestLine(image: string, prompt: string): string {
    SanitizeRequestField(image) + "\t" + SanitizeRequestField(prompt) + "\n"
  }

  /** What the worker makes of a line: the fields before and after its first tab. */
  function SplitRequest(line: string): Option<(string, string)> {
    var e := Find(line, "\t");
    if e < 0 then None else Some((line[..e], line[e + 1..]))
  }

  /** Everything written to one worker process. */
  function Sent(requests: seq<(string, string)>): string {
    if requests == [] then ""
    else RequestLine(requests[0].0, requests[0].1) + Sent(requests[1..])
  }

  ghost predicate Lacks(s: string, c: char) {
    forall k :: 0 <= k < |s| ==> s[k] != c
  }

  ghost predicate Trimmed(s: string) {
    s != "" ==> !IsSpace(s[0]) && !IsSpace(s[|s| - 1])
  }

  /** Text the sanitiser has no reason to change. */
  ghost predicate IsField(s: string) {
    Lacks(s, '\r') && Lacks(s, '\n') && Lacks(s, '\t') && Trimmed(s)
  }

  lemma StripTrims(s: string)
    ensures Trimmed(Strip(s))
    ensures Trimmed(s) ==> Strip(s) == s
  {
    var u := StripLeft(s);
    var t := StripRight(u);
    StripLeftCuts(s);
    StripRightCuts(u);
    assert t != "" ==> t[0] == u[0];
  }

  lemma StripAddsNothing(s: string, c: char)
    requires Lacks(s, c)
    ensures Lacks(Strip(s), c)
  {
    var u := StripLeft(s);
    StripLeftCuts(s);
    StripRightCuts(u);
    assert Lacks(u, c);
  }

  lemma BlankedLacks(s: string, c: char, d: char)
    requires c != ' '
    ensures Lacks(Blanked(s, c), c)
    ensures d != ' ' && Lacks(s, d) ==> Lacks(Blanked(s, c), d)
    ensures Lacks(s, c) ==> Blanked(s, c) == s
  {
    BlankedAt(s, c);
  }

  /** The sanitiser changes exactly the texts that hold a carriage return, a newline or a
      tab, or begin or end with white space; what it returns it would not change again. */
  lemma SanitizeChangesIff(value: string)
    ensures IsField(SanitizeRequestField(value))
    ensures SanitizeRequestField(value) == value <==> IsField(value)
  {
    var b1 := Blanked(value, '\r');
    var b2 := Blanked(b1, '\n');
    var b3 := Blanked(b2, '\t');
    BlankedLacks(value, '\r', '\n');
    BlankedLacks(value, '\r', '\t');
    BlankedLacks(b1, '\n', '\r');
    BlankedLacks(b1, '\n', '\t');
    BlankedLacks(b2, '\t', '\r');
    BlankedLacks(b2, '\t', '\n');
    StripAddsNothing(b3, '\r');
    StripAddsNothing(b3, '\n');
    StripAddsNothing(b3, '\t');
    StripTrims(b3);
  }

  /** What a character becomes: a carriage return, a newline and a tab become a space. */
  function Spaced(c: char): char {
    if c == '\r' || c == '\n' || c == '\t' then ' ' else c
  }

  lemma BlankedIsSpaced(value: string)
    ensures |AllBlanked(value)| == |value|
    ensures forall k :: 0 <= k < |value| ==> AllBlanked(value)[k] == Spaced(value[k])
  {
    BlankedAt(value, '\r');
    BlankedAt(Blanked(value, '\r'), '\n');
    BlankedAt(Blanked(Blanked(value, '\r'), '\n'), '\t');
  }

  lemma SpacedKeepsInk(c: char)
    ensures IsSpace(Spaced(c)) <==> IsSpace(c)
  {
  }

  lemma StripIsSlice(s: string) returns (lo: nat, hi: nat)
    ensures lo <= hi <= |s| && Strip(s) == s[lo..hi]
    ensures forall k :: 0 <= k < |s| && !(lo <= k < hi) ==> IsSpace(s[k])
  {
    StripLeftCuts(s);
    var u := StripLeft(s);
    StripRightCuts(u);
    lo := |s| - |u|;
    hi := lo + |Strip(s)|;
    assert u[..|Strip(s)|] == Strip(s);
    forall k | hi <= k < |s| ensures IsSpace(s[k]) {
      assert s[k] == u[k - lo];
    }
  }

  /** The sanitised field is the value with each carriage return, newline and tab turned into a
      space, less white space at its ends: nothing in between is lost. */
  lemma SanitizedIs(value: string) returns (lo: nat, hi: nat)
    ensures lo <= hi <= |value| && |SanitizeRequestField(value)| == hi - lo
    ensures forall k :: lo <= k < hi ==> SanitizeRequestField(value)[k - lo] == Spaced(value[k])
    ensures forall k :: 0 <= k < |value| && !(lo <= k < hi) ==> IsSpace(value[k])
    ensures Trimmed(SanitizeRequestField(value))
  {
    var b := AllBlanked(value);
    BlankedIsSpaced(value);
    lo, hi := StripIsSlice(b);
    assert SanitizeRequestField(value) == b[lo..hi];
    forall k | 0 <= k < |value| && !(lo <= k < hi) ensures IsSpace(value[k]) {
      SpacedKeepsInk(value[k]);
    }
    StripTrims(b);
  }

  lemma SplitsAtOnlyTab(a: string, b: string)
    requires Lacks(a, '\t')
    ensures SplitRequest(a + "\t" + b) == Some((a, b))
  {
    var line := a + "\t" + b;
    assert line[|a|..|a| + 1] == "\t";
    assert OccursAt(line, "\t", |a|);
    var e := Find(line, "\t");
    assert line[e..e + 1] == [line[e]];
    assert line[..|a|] == a && line[|a| + 1..] == b;
  }

  /** Whatever the caller passes, a request is one line with one tab, so it cannot be taken
      for two requests or for the `exit` command, and it splits back into its fields. */
  lemma RequestSplitsBack(image: string, prompt: string, tail: string)
    ensures var a, b := SanitizeRequestField(image), SanitizeRequestField(prompt);
            && SplitRequest(a + "\t" + b) == Some((a, b))
            && Lines(RequestLine(image, prompt) + tail) == [a + "\t" + b] + Lines(tail)
            && Lacks(a, '\t') && Lacks(b, '\t')
  {
    var a, b := SanitizeRequestField(image), SanitizeRequestField(prompt);
    SanitizeChangesIff(image);
    SanitizeChangesIff(prompt);
    SplitsAtOnlyTab(a, b);
    OneRequestLine(a, b, tail);
  }

  lemma OneRequestLine(a: string, b: string, tail: string)
    requires Lacks(a, '\n') && Lacks(b, '\n')
    ensures Lines(a + "\t" + b + "\n" + tail) == [a + "\t" + b] + Lines(tail)
  {
    var line := a + "\t" + b;
    assert OneLine(line);
    LinesOfLine(line, tail);
  }

  function Sanitized(request: (string, string)): (string, string) {
    (SanitizeRequestField(request.0), SanitizeRequestField(request.1))
  }

  lemma SentHead(requests: seq<(string, string)>) returns (line: string)
    requires requests != []
    ensures Lines(Sent(requests)) == [line] + Lines(Sent(requests[1..]))
    ensures SplitRequest(line) == Some(Sanitized(requests[0]))
  {
    var (image, prompt) := requests[0];
    line := SanitizeRequestField(image) + "\t" + SanitizeRequestField(prompt);
    RequestSplitsBack(image, prompt, Sent(requests[1..]));
  }

  function AllSplit(lines: seq<string>): seq<Option<(string, string)>> {
    if lines == [] then [] else [SplitRequest(lines[0])] + AllSplit(lines[1..])
  }

  function AllSanitized(requests: seq<(string, string)>): seq<Option<(string, string)>> {
    if requests == [] then [] else [Some(Sanitized(requests[0]))] + AllSanitized(requests[1..])
  }

  lemma AllSplitHead(line: string, lines: seq<string>)
    ensures AllSplit([line] + lines) == [SplitRequest(line)] + AllSplit(lines)
  {
    assert ([line] + lines)[1..] == lines;
  }

  /** The whole input of a worker process splits back into the requests: as many, and in
      the same order. */
  lemma {:induction false} SentSplitsBack(requests: seq<(string, string)>)
    ensures AllSplit(Lines(Sent(requests))) == AllSanitized(requests)
  {
    if requests != [] {
      var line := SentHead(requests);
      AllSplitHead(line, Lines(Sent(requests[1..])));
      SentSplitsBack(requests[1..]);
    }
  }

  // ----- replies --------------------------------------------------------------------

  const BEGIN := "EDGEINFER_VLM_BEGIN"
  const END := "EDGEINFER_VLM_END"
  const ERROR_BEGIN := "EDGEINFER_VLM_ERROR_BEGIN"
  const ERROR_END := "EDGEINFER_VLM_ERROR_END"
  const ANSWER := "answer:"

  /** The local variables of the reading loop. */
  datatype Parse = Parse(
    sawBegin: bool,
    inAnswer: bool,
    sawError: bool,
    answerLines: seq<string>,
    errorLines: seq<string>,
    metadata: map<string, string>)

  const START := Parse(false, false, false, [], [], map[])

  /** How a call ends: `BadLatency` is the `ValueError` of `float(latency)`. */
  datatype Outcome =
    | Answered(text: string, metadata: map<string, string>)
    | EmptyAnswer
    | BadLatency
    | RuntimeError(lines: seq<string>)
    | TimeoutOrExit(sawBegin: bool)

  predicate IsTerminator(line: string) { line == END || line == ERROR_END }

  predicate IsMarker(line: string) { IsTerminator(line) || line == BEGIN || line == ERROR_BEGIN }

  function JoinLines(lines: seq<string>): string {
    if lines == [] then ""
    else if |lines| == 1 then lines[0]
    else JoinLines(lines[..|lines| - 1]) + "\n" + lines[|lines| - 1]
  }

  lemma {:induction false} JoinedIsJoin(lines: seq<string>)
    requires lines != []
    ensures Joined(lines) == JoinLines(lines) + "\n"
  {
    var init, last := lines[..|lines| - 1], lines[|lines| - 1];
    assert lines == init + [last];
    JoinedAppend(init, last);
    if init != [] {
      JoinedIsJoin(init);
    }
  }

  /** The join of lines, closed by a newline, splits back into them. */
  lemma JoinSplitsBack(lines: seq<string>)
    requires lines != [] && AllOneLine(lines)
    ensures Lines(JoinLines(lines) + "\n") == lines
  {
    JoinedIsJoin(lines);
    LinesOfJoined(lines, "");
    assert Joined(lines) + "" == Joined(lines);
    assert lines + Lines("") == lines;
  }

  /** One line that does not end the reply. */
  function Step(p: Parse, line: string): Parse {
    if line == BEGIN then p.(sawBegin := true, inAnswer := false)
    else if line == ERROR_BEGIN then p.(sawError := true, errorLines := [])
    else if p.sawError then p.(errorLines := p.errorLines + [line])
    else if p.sawBegin && line == ANSWER then p.(inAnswer := true)
    else if p.sawBegin && p.inAnswer then p.(answerLines := p.answerLines + [line])
    else if p.sawBegin && Find(line, ":") >= 0 then
      var e := Find(line, ":");
      p.(metadata := p.metadata[Strip(line[..e]) := Strip(line[e + 1..])])
    else p
  }

  /** The line that ends the reply; `numeric` tells which texts `float` accepts. */
  function Finish(p: Parse, line: string, numeric: string -> bool): Outcome
    requires IsTerminator(line)
  {
    if line == END then
      var latency := if "latency_ms" in p.metadata then p.metadata["latency_ms"] else "";
      var text := Strip(JoinLines(p.answerLines));
      if latency != "" && !numeric(latency) then BadLatency
      else if text == "" then EmptyAnswer
      else Answered(text, p.metadata)
    else RuntimeError(p.errorLines)
  }

  /** The outcome of a reply and the lines that follow it, if the lines hold a whole reply. */
  function Reply(p: Parse, lines: seq<string>, numeric: string -> bool): Option<(Outcome, seq<string>)>
    decreases lines
  {
    if lines == [] then None
    else if IsTerminator(lines[0]) then Some((Finish(p, lines[0], numeric), lines[1..]))
    else Reply(Step(p, lines[0]), lines[1..], numeric)
  }

  function After(p: Parse, lines: seq<string>): Parse
    decreases lines
  {
    if lines == [] then p else After(Step(p, lines[0]), lines[1..])
  }

  ghost predicate NoTerminator(lines: seq<string>) {
    forall k :: 0 <= k < |lines| ==> !IsTerminator(lines[k])
  }

  ghost predicate NoMarker(lines: seq<string>) {
    forall k :: 0 <= k < |lines| ==> !IsMarker(lines[k])
  }

  /** A reply is over at its first terminator, and only there. */
  lemma {:induction false} ReplyEndsAtTerminator(p: Parse, lines: seq<string>, last: string, rest: seq<string>,
                                                 numeric: string -> bool)
    requires NoTerminator(lines) && IsTerminator(last)
    ensures Reply(p, lines + [last] + rest, numeric) == Some((Finish(After(p, lines), last, numeric), rest))
    decreases lines
  {
    var all := lines + [last] + rest;
    if lines == [] {
      assert all[1..] == rest;
    } else {
      assert all[1..] == lines[1..] + [last] + rest;
      ReplyEndsAtTerminator(Step(p, lines[0]), lines[1..], last, rest, numeric);
    }
  }

  lemma {:induction false} ReplyOfLonger(p: Parse, lines: seq<string>, more: seq<string>, numeric: string -> bool)
    requires Reply(p, lines, numeric).Some?
    ensures Reply(p, lines + more, numeric)
            == Some((Reply(p, lines, numeric).value.0, Reply(p, lines, numeric).value.1 + more))
    decreases lines
  {
    assert (lines + more)[1..] == lines[1..] + more;
    if !IsTerminator(lines[0]) {
      ReplyOfLonger(Step(p, lines[0]), lines[1..], more, numeric);
    }
  }

  /** Log lines printed before a reply begins leave no trace in it. */
  lemma {:induction false} LogLinesAreSkipped(logs: seq<string>, lines: seq<string>, numeric: string -> bool)
    requires NoMarker(logs)
    ensures Reply(START, logs + lines, numeric) == Reply(START, lines, numeric)
  {
    if logs == [] {
      assert logs + lines == lines;
    } else {
      assert (logs + lines)[1..] == logs[1..] + lines;
      LogLinesAreSkipped(logs[1..], lines, numeric);
    }
  }

  // ----- an answer comes back as it was sent ----------------------------------------------

  /** A successful reply as the worker prints it. */
  function AnswerFrame(header: seq<string>, body: seq<string>): seq<string> {
    [BEGIN] + header + [ANSWER] + body + [END]
  }

  function Without(lines: seq<string>, line: string): seq<string> {
    if lines == [] then []
    else Without(lines[..|lines| - 1], line) + (if lines[|lines| - 1] == line then [] else [lines[|lines| - 1]])
  }

  lemma {:induction false} AfterAppend(p: Parse, lines: seq<string>, more: seq<string>)
    ensures After(p, lines + more) == After(After(p, lines), more)
    decreases lines
  {
    if lines == [] {
      assert lines + more == more;
    } else {
      assert (lines + more)[1..] == lines[1..] + more;
      AfterAppend(Step(p, lines[0]), lines[1..], more);
    }
  }

  lemma {:induction false} AfterBody(p: Parse, body: seq<string>)
    requires p.sawBegin && p.inAnswer && !p.sawError && NoMarker(body)
    ensures After(p, body) == p.(answerLines := p.answerLines + Without(body, ANSWER))
  {
    if body != [] {
      var init, last := body[..|body| - 1], body[|body| - 1];
      AfterBody(p, init);
      AfterAppend(p, init, [last]);
      assert init + [last] == body;
      assert !IsMarker(last);
      var q := After(p, init);
      assert After(q, [last]) == Step(q, last);
    }
  }

  lemma {:induction false} AfterHeader(p: Parse, header: seq<string>)
    requires p.sawBegin && !p.inAnswer && !p.sawError && NoMarker(header) && ANSWER !in header
    ensures After(p, header) == p.(metadata := After(p, header).metadata)
    decreases header
  {
    if header != [] {
      assert !IsMarker(header[0]) && header[0] != ANSWER;
      AfterHeader(Step(p, header[0]), header[1..]);
    }
  }

  /** The metadata a header announces. */
  function Metadata(header: seq<string>): map<string, string> {
    After(START.(sawBegin := true), header).metadata
  }

  /** The frames as the worker's documentation prints them. */
  lemma FramesAsPrinted(header: seq<string>, body: seq<string>)
    ensures AnswerFrame(header, body)
            == ["EDGEINFER_VLM_BEGIN"] + header + ["answer:"] + body + ["EDGEINFER_VLM_END"]
    ensures ERROR_BEGIN == "EDGEINFER_VLM_ERROR_BEGIN" && ERROR_END == "EDGEINFER_VLM_ERROR_END"
  {
  }

  /** A call that runs out of time says whether its reply had begun. */
  lemma {:induction false} SawBeginIff(p: Parse, lines: seq<string>)
    requires NoTerminator(lines)
    ensures After(p, lines).sawBegin <==> p.sawBegin || BEGIN in lines
    decreases lines
  {
    if lines != [] {
      SawBeginIff(Step(p, lines[0]), lines[1..]);
      assert lines == [lines[0]] + lines[1..];
    }
  }

  lemma MarkersDiffer()
    ensures !IsTerminator(BEGIN) && !IsTerminator(ERROR_BEGIN) && IsTerminator(END) && IsTerminator(ERROR_END)
    ensures !IsMarker(ANSWER) && ERROR_BEGIN != BEGIN && ERROR_END != END
  {
    assert |BEGIN| == 19 && |END| == 17 && |ERROR_BEGIN| == 25 && |ERROR_END| == 23 && |ANSWER| == 7;
  }

  lemma AfterOne(p: Parse, line: string)
    ensures After(p, [line]) == Step(p, line)
  {
  }

  lemma AfterFrame(begin: string, header: seq<string>, mark: string, body: seq<string>)
    requires begin == BEGIN && mark == ANSWER
    requires NoMarker(header) && ANSWER !in header && NoMarker(body)
    ensures After(START, [begin] + header + [mark] + body)
            == START.(sawBegin := true, inAnswer := true, metadata := Metadata(header),
                      answerLines := Without(body, ANSWER))
  {
    MarkersDiffer();
    AfterAppend(START, [begin] + header + [mark], body);
    AfterAppend(START, [begin] + header, [mark]);
    AfterAppend(START, [begin], header);
    AfterOne(START, begin);
    var begun := Step(START, begin);
    AfterHeader(begun, header);
    var mid := After(begun, header);
    AfterOne(mid, mark);
    AfterBody(Step(mid, mark), body);
  }

  /** What `float` makes of the latency entry: nothing to convert, or a number. */
  predicate GoodLatency(metadata: map<string, string>, numeric: string -> bool) {
    "latency_ms" in metadata ==> metadata["latency_ms"] == "" || numeric(metadata["latency_ms"])
  }

  /** An answer whose lines avoid the four markers is read in full, up to its end marker and no
      further: its text is the stripped join of its lines, less the lines that are exactly
      `answer:`. A latency that is no number, or else an empty text, fails the call. */
  lemma AnswerParsesBack(logs: seq<string>, header: seq<string>, body: seq<string>, rest: seq<string>,
                         numeric: string -> bool)
    requires NoMarker(logs) && NoMarker(header) && ANSWER !in header && NoMarker(body)
    ensures Reply(START, logs + AnswerFrame(header, body) + rest, numeric)
            == Some((var text := Strip(JoinLines(Without(body, ANSWER)));
                     if !GoodLatency(Metadata(header), numeric) then BadLatency
                     else if text == "" then EmptyAnswer
                     else Answered(text, Metadata(header)),
                     rest))
  {
    MarkersDiffer();
    var front := [BEGIN] + header + [ANSWER] + body;
    assert logs + AnswerFrame(header, body) + rest == logs + (front + [END] + rest);
    LogLinesAreSkipped(logs, front + [END] + rest, numeric);
    FrontHasNoTerminator(header, body);
    ReplyEndsAtTerminator(START, front, END, rest, numeric);
    AfterFrame(BEGIN, header, ANSWER, body);
  }

  lemma FrontHasNoTerminator(header: seq<string>, body: seq<string>)
    requires NoTerminator(header) && NoTerminator(body)
    ensures NoTerminator([BEGIN] + header + [ANSWER] + body)
  {
    MarkersDiffer();
  }

  lemma {:induction false} AfterErrorLines(p: Parse, lines: seq<string>)
    requires p.sawError && NoMarker(lines)
    ensures After(p, lines) == p.(errorLines := p.errorLines + lines)
    decreases lines
  {
    if lines == [] {
      assert p.errorLines + lines == p.errorLines;
    } else {
      assert !IsMarker(lines[0]);
      AfterErrorLines(Step(p, lines[0]), lines[1..]);
      assert p.errorLines + [lines[0]] + lines[1..] == p.errorLines + lines;
    }
  }

  /** An error reply comes back as its own lines, in order. */
  lemma ErrorParsesBack(logs: seq<string>, begin: string, lines: seq<string>, rest: seq<string>,
                        numeric: string -> bool)
    requires begin == ERROR_BEGIN && NoMarker(logs) && NoMarker(lines)
    ensures Reply(START, logs + [begin] + lines + [ERROR_END] + rest, numeric) == Some((RuntimeError(lines), rest))
  {
    MarkersDiffer();
    var front := [begin] + lines;
    assert logs + [begin] + lines + [ERROR_END] + rest == logs + (front + [ERROR_END] + rest);
    LogLinesAreSkipped(logs, front + [ERROR_END] + rest, numeric);
    ReplyEndsAtTerminator(START, front, ERROR_END, rest, numeric);
    AfterAppend(START, [begin], lines);
    AfterOne(START, begin);
    AfterErrorLines(Step(START, begin), lines);
    assert [] + lines == lines;
  }

  /** The reader stops inside an answer exactly when one of its lines is a terminator; then
      what follows that line is left in the pipe. */
  lemma ReadsWholeFrameIff(p: Parse, header: seq<string>, body: seq<string>, numeric: string -> bool)
    requires NoTerminator(header)
    ensures Reply(p, AnswerFrame(header, body), numeric).Some?
    ensures Reply(p, AnswerFrame(header, body), numeric).value.1 == [] <==> NoTerminator(body)
  {
    MarkersDiffer();
    if NoTerminator(body) {
      FrontHasNoTerminator(header, body);
      var front := [BEGIN] + header + [ANSWER] + body;
      ReplyEndsAtTerminator(p, front, END, [], numeric);
      assert front + [END] + [] == AnswerFrame(header, body);
    } else {
      StopsInsideBody(p, header, body, numeric);
    }
  }

  lemma StopsInsideBody(p: Parse, header: seq<string>, body: seq<string>, numeric: string -> bool)
    requires NoTerminator(header) && !NoTerminator(body)
    ensures Reply(p, AnswerFrame(header, body), numeric).Some?
    ensures Reply(p, AnswerFrame(header, body), numeric).value.1 != []
  {
    var k := FirstTerminator(body);
    var front, rest := [BEGIN] + header + [ANSWER] + body[..k], body[k + 1..] + [END];
    FrontHasNoTerminator(header, body[..k]);
    ReplyEndsAtTerminator(p, front, body[k], rest, numeric);
    assert body == body[..k] + [body[k]] + body[k + 1..];
    assert front + [body[k]] + rest == AnswerFrame(header, body);
  }

  lemma {:induction false} FirstTerminator(lines: seq<string>) returns (k: nat)
    requires !NoTerminator(lines)
    ensures k < |lines| && IsTerminator(lines[k]) && NoTerminator(lines[..k])
  {
    k := 0;
    while !IsTerminator(lines[k])
      invariant k < |lines| && NoTerminator(lines[..k])
      invariant exists j :: k <= j < |lines| && IsTerminator(lines[j])
      decreases |lines| - k
    {
      k := k + 1;
    }
  }

  // ----- the exact condition on `answer:` lines --------------------------------------------

  /** The characters of a text that are not white space, counted. */
  function Ink(s: string): nat {
    if s == "" then 0 else Ink(s[..|s| - 1]) + (if IsSpace(s[|s| - 1]) then 0 else 1)
  }

  lemma {:induction false} InkOfSum(s: string, t: string)
    ensures Ink(s + t) == Ink(s) + Ink(t)
  {
    if t == "" {
      assert s + t == s;
    } else {
      assert (s + t)[..|s + t| - 1] == s + t[..|t| - 1];
      InkOfSum(s, t[..|t| - 1]);
    }
  }

  lemma {:induction false} InkOfSpace(s: string)
    requires forall k :: 0 <= k < |s| ==> IsSpace(s[k])
    ensures Ink(s) == 0
  {
    if s != "" {
      InkOfSpace(s[..|s| - 1]);
    }
  }

  lemma InkOfParts(s: string, t: string, whole: string)
    requires whole == s + t
    ensures Ink(whole) == Ink(s) + Ink(t)
  {
    InkOfSum(s, t);
  }

  lemma InkOfStripLeft(s: string)
    ensures Ink(StripLeft(s)) == Ink(s)
  {
    StripLeftCuts(s);
    var n := |s| - |StripLeft(s)|;
    InkOfSpace(s[..n]);
    InkOfParts(s[..n], s[n..], s);
  }

  lemma InkOfStripRight(s: string)
    ensures Ink(StripRight(s)) == Ink(s)
  {
    StripRightCuts(s);
    var n := |StripRight(s)|;
    InkOfSpace(s[n..]);
    InkOfParts(s[..n], s[n..], s);
  }

  lemma InkOfStrip(s: string)
    ensures Ink(Strip(s)) == Ink(s)
  {
    InkOfStripLeft(s);
    InkOfStripRight(StripLeft(s));
  }

  lemma InkOfJoin(lines: seq<string>, last: string)
    ensures Ink(JoinLines(lines + [last])) == Ink(JoinLines(lines)) + Ink(last)
  {
    assert (lines + [last])[..|lines|] == lines;
    if lines != [] {
      InkOfSum(JoinLines(lines) + "\n", last);
      InkOfSum(JoinLines(lines), "\n");
      InkOfSpace("\n");
    }
  }

  lemma WithoutAppend(lines: seq<string>, last: string, mark: string)
    ensures Without(lines + [last], mark)
            == if last == mark then Without(lines, mark) else Without(lines, mark) + [last]
  {
    assert (lines + [last])[..|lines|] == lines;
  }

  lemma {:induction false} WithoutDropsInk(lines: seq<string>, mark: string)
    requires Ink(mark) > 0
    ensures Ink(JoinLines(Without(lines, mark))) <= Ink(JoinLines(lines))
    ensures mark in lines ==> Ink(JoinLines(Without(lines, mark))) < Ink(JoinLines(lines))
    ensures mark !in lines ==> Without(lines, mark) == lines
  {
    if lines != [] {
      var init, last := lines[..|lines| - 1], lines[|lines| - 1];
      assert lines == init + [last];
      WithoutDropsInk(init, mark);
      WithoutAppend(init, last, mark);
      InkOfJoin(init, last);
      InkOfJoin(Without(init, mark), last);
    }
  }

  /** The text handed back is the stripped join of the answer's own lines exactly when none of
      them is `answer:`. */
  lemma AnswerIsVerbatimIff(body: seq<string>)
    ensures Strip(JoinLines(Without(body, ANSWER))) == Strip(JoinLines(body)) <==> ANSWER !in body
  {
    assert ANSWER[|ANSWER| - 1] == ':';
    WithoutDropsInk(body, ANSWER);
    InkOfStrip(JoinLines(body));
    InkOfStrip(JoinLines(Without(body, ANSWER)));
  }

  /** A header line `key: value` is read back as that entry. */
  lemma HeaderLineReadsBack(p: Parse, key: string, value: string)
    requires p.sawBegin && !p.inAnswer && !p.sawError
    requires Strip(key) == key && Strip(value) == value && (forall k :: 0 <= k < |key| ==> key[k] != ':')
    requires var line := key + ": " + value; !IsMarker(line) && line != ANSWER
    ensures Step(p, key + ": " + value) == p.(metadata := p.metadata[key := value])
  {
    var line := key + ": " + value;
    assert line[|key|..|key| + 1] == ":";
    assert OccursAt(line, ":", |key|);
    var e := Find(line, ":");
    assert line[e..e + 1] == [line[e]];
    assert line[..e] == key && line[e + 1..] == " " + value;
    assert (" " + value)[1..] == value;
  }
}
