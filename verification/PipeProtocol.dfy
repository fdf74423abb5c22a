/** The YOLO client and its worker process over two FIFO pipes: any number of calls,
    time-outs, late answers, log lines, worker exits and restarts. */
module PipeProtocol {
  import opened Wrappers

  /** What the worker prints: its ready message, an answer carrying the request's id, or
      anything the client cannot use. */
  datatype Message = Ready | Response(id: nat, body: string) | Noise

  datatype Client = Idle | Starting(id: nat) | Waiting(id: nat)

  /** `sent`, `answers` and `returned` record history; `sent` and `late` start over with
      each worker process. */
  datatype State = State(
    alive: bool,
    ready: bool,                       // the worker has printed its ready message
    client: Client,
    requests: seq<nat>,                // written by the client, not yet read by the worker
    pipe: seq<Message>,                // printed by the worker, not yet read by the client
    used: set<nat>,                    // ids drawn so far, over all processes
    sent: seq<nat>,                    // ids written to this process
    late: nat,                         // calls that timed out since the last answered one
    answers: map<nat, string>,         // what the worker computed for each id
    returned: seq<(nat, string)>)      // what `detect` handed to its callers

  const INIT := State(false, false, Idle, [], [], {}, [], 0, map[], [])

  datatype Action =
    | Call(id: nat)            // `detect`: starts a worker if none is alive, else writes the request
    | ReadLine                 // the client examines the next line
    | TimeOut                  // the client's deadline passes
    | SeeExit                  // the client finds the worker gone
    | Print(m: Message)        // the worker prints its ready message or a log line
    | Serve(body: string)      // the worker reads a request and prints its answer
    | Exit                     // the worker process ends

  predicate Enabled(s: State, a: Action) {
    match a
    case Call(id) => s.client.Idle? && id !in s.used      // a fresh uuid, under the request lock
    case ReadLine => !s.client.Idle? && s.pipe != []
    case TimeOut => !s.client.Idle?
    case SeeExit => !s.client.Idle? && !s.alive
    case Print(m) => s.alive && (m == Noise || (m == Ready && !s.ready))
    case Serve(_) => s.alive && s.ready && s.requests != []
    case Exit => s.alive
  }

  function Write(s: State, id: nat): State {
    s.(client := Waiting(id), requests := s.requests + [id], sent := s.sent + [id])
  }

  function Next(s: State, a: Action): State
    requires Enabled(s, a)
  {
    match a
    case Call(id) =>
      var t := s.(used := s.used + {id});
      if s.alive then Write(t, id)
      else t.(alive := true, ready := false, client := Starting(id), requests := [], pipe := [], sent := [], late := 0)
    case ReadLine =>
      var t := s.(pipe := s.pipe[1..]);
      if s.client.Starting? then
        if s.pipe[0] == Ready then Write(t, s.client.id) else t
      else if s.pipe[0].Response? && s.pipe[0].id == s.client.id then
        t.(client := Idle, late := 0, returned := s.returned + [(s.client.id, s.pipe[0].body)])
      else t
    case TimeOut => s.(client := Idle, late := if s.client.Waiting? then s.late + 1 else s.late)
    case SeeExit => s.(client := Idle)
    case Print(m) => s.(pipe := s.pipe + [m], ready := s.ready || m == Ready)
    case Serve(body) =>
      var id := s.requests[0];
      s.(requests := s.requests[1..], pipe := s.pipe + [Response(id, body)], answers := s.answers[id := body])
    case Exit => s.(alive := false)
  }

  function Run(schedule: seq<Action>): Option<State> {
    if schedule == [] then Some(INIT)
    else
      match Run(schedule[..|schedule| - 1])
      case None => None
      case Some(s) =>
        var a := schedule[|schedule| - 1];
        if Enabled(s, a) then Some(Next(s, a)) else None
  }

  // ----- the invariant --------------------------------------------------------------

  /** The ids of the answers in a pipe, in order. */
  function Ids(pipe: seq<Message>): seq<nat> {
    if pipe == [] then []
    else
      var last := pipe[|pipe| - 1];
      Ids(pipe[..|pipe| - 1]) + (if last.Response? then [last.id] else [])
  }

  /** Requests written to this process whose answers the client has not read. */
  function Outstanding(s: State): seq<nat> {
    Ids(s.pipe) + s.requests
  }

  ghost predicate Distinct(ids: seq<nat>) {
    forall i, j :: 0 <= i < j < |ids| ==> ids[i] != ids[j]
  }

  /** Requests and answers form one queue: what is outstanding is the tail of what was sent. */
  ghost predicate IsTail(tail: seq<nat>, all: seq<nat>) {
    |tail| <= |all| && tail == all[|all| - |tail|..]
  }

  ghost predicate QueueInv(s: State) {
    && IsTail(Outstanding(s), s.sent)
    && Distinct(s.sent)
    && (forall k :: 0 <= k < |s.sent| ==> s.sent[k] in s.used)
  }

  /** Unread stale answers and requests never exceed the number of calls that timed out. */
  ghost predicate LateInv(s: State) {
    s.alive ==> |Outstanding(s)| <= s.late + (if s.client.Waiting? then 1 else 0)
  }

  ghost predicate ClientInv(s: State) {
    && (s.client.Waiting? ==> Outstanding(s) != [] && Outstanding(s)[|Outstanding(s)| - 1] == s.client.id)
    && (s.client.Starting? ==> s.client.id in s.used && s.client.id !in s.sent && s.client.id !in s.answers)
  }

  ghost predicate AnswerInv(s: State) {
    && (forall k :: 0 <= k < |s.requests| ==> s.requests[k] !in s.answers)
    && s.answers.Keys <= s.used
    && (forall k :: 0 <= k < |s.pipe| && s.pipe[k].Response? ==>
          s.pipe[k].id in s.answers && s.answers[s.pipe[k].id] == s.pipe[k].body)
    && (forall k :: 0 <= k < |s.returned| ==>
          s.returned[k].0 in s.answers && s.answers[s.returned[k].0] == s.returned[k].1)
  }

  ghost predicate Inv(s: State) {
    QueueInv(s) && LateInv(s) && ClientInv(s) && AnswerInv(s)
  }

  lemma IdsAppend(pipe: seq<Message>, m: Message)
    ensures Ids(pipe + [m]) == Ids(pipe) + (if m.Response? then [m.id] else [])
  {
    assert (pipe + [m])[..|pipe|] == pipe;
  }

  lemma {:induction false} IdsHead(pipe: seq<Message>)
    requires pipe != []
    ensures Ids(pipe) == (if pipe[0].Response? then [pipe[0].id] else []) + Ids(pipe[1..])
  {
    var n := |pipe| - 1;
    if n > 0 {
      IdsHead(pipe[..n]);
      assert pipe[..n][1..] == pipe[1..][..n - 1];
    }
  }

  // ----- how each step moves the queue ------------------------------------------------

  lemma OutstandingAfterWrite(s: State, id: nat)
    ensures Outstanding(Write(s, id)) == Outstanding(s) + [id]
  {
  }

  lemma OutstandingAfterServe(s: State, body: string)
    requires Enabled(s, Serve(body))
    ensures Outstanding(Next(s, Serve(body))) == Outstanding(s)
  {
    IdsAppend(s.pipe, Response(s.requests[0], body));
  }

  lemma OutstandingAfterPrint(s: State, m: Message)
    requires Enabled(s, Print(m))
    ensures Outstanding(Next(s, Print(m))) == Outstanding(s)
  {
    IdsAppend(s.pipe, m);
  }

  /** Reading a line takes the oldest outstanding id away if the line is an answer. */
  lemma OutstandingAfterPop(s: State)
    requires s.pipe != []
    ensures s.pipe[0].Response? ==> Outstanding(s) == [s.pipe[0].id] + Outstanding(s.(pipe := s.pipe[1..]))
    ensures !s.pipe[0].Response? ==> Outstanding(s) == Outstanding(s.(pipe := s.pipe[1..]))
  {
    IdsHead(s.pipe);
  }

  lemma TailFacts(tail: seq<nat>, all: seq<nat>)
    requires IsTail(tail, all) && Distinct(all)
    ensures Distinct(tail)
    ensures forall k :: 0 <= k < |tail| ==> tail[k] in all
    ensures tail != [] ==> IsTail(tail[1..], all)
    ensures tail != [] && tail[0] == tail[|tail| - 1] ==> |tail| == 1
  {
  }

  lemma TailGrows(tail: seq<nat>, all: seq<nat>, id: nat)
    requires IsTail(tail, all) && Distinct(all) && id !in all
    ensures IsTail(tail + [id], all + [id]) && Distinct(all + [id])
  {
  }

  // ----- every step keeps the invariant -------------------------------------------------

  lemma WriteKeepsInv(s: State, id: nat)
    requires QueueInv(s) && AnswerInv(s) && id in s.used && id !in s.sent && id !in s.answers
    requires s.alive ==> |Outstanding(s)| <= s.late
    ensures Inv(Write(s, id))
  {
    OutstandingAfterWrite(s, id);
    TailGrows(Outstanding(s), s.sent, id);
  }

  lemma CallKeepsInv(s: State, id: nat)
    requires Inv(s) && Enabled(s, Call(id))
    ensures Inv(Next(s, Call(id)))
  {
    var t := s.(used := s.used + {id});
    if s.alive {
      assert Outstanding(t) == Outstanding(s);
      WriteKeepsInv(t, id);
    }
  }

  function Popped(s: State): State
    requires s.pipe != []
  {
    s.(pipe := s.pipe[1..])
  }

  lemma PopKeepsQueue(s: State)
    requires QueueInv(s) && s.pipe != []
    ensures QueueInv(Popped(s))
    ensures s.pipe[0].Response? ==> Outstanding(s) != [] && Outstanding(s)[0] == s.pipe[0].id
    ensures Outstanding(Popped(s)) == if s.pipe[0].Response? then Outstanding(s)[1..] else Outstanding(s)
  {
    OutstandingAfterPop(s);
    TailFacts(Outstanding(s), s.sent);
    if s.pipe[0].Response? {
      assert Outstanding(Popped(s)) == Outstanding(s)[1..];
    }
  }

  lemma PopKeepsAnswers(s: State)
    requires AnswerInv(s) && s.pipe != []
    ensures AnswerInv(Popped(s))
  {
  }

  /** The client discards the line it read, or reads the ready message. */
  lemma DiscardKeepsInv(s: State)
    requires Inv(s) && s.pipe != []
    requires s.client.Waiting? && s.pipe[0].Response? ==> s.pipe[0].id != s.client.id
    ensures Inv(Popped(s))
  {
    PopKeepsQueue(s);
    PopKeepsAnswers(s);
  }

  lemma ReadyKeepsInv(s: State)
    requires Inv(s) && s.client.Starting? && s.pipe != [] && s.pipe[0] == Ready
    ensures Inv(Write(Popped(s), s.client.id))
  {
    PopKeepsQueue(s);
    PopKeepsAnswers(s);
    WriteKeepsInv(Popped(s), s.client.id);
  }

  /** The awaited answer is the last thing outstanding. */
  lemma OwnAnswerEmptiesQueue(s: State)
    requires Inv(s) && s.client.Waiting? && s.pipe != [] && s.pipe[0].Response? && s.pipe[0].id == s.client.id
    ensures Outstanding(Popped(s)) == []
  {
    PopKeepsQueue(s);
    TailFacts(Outstanding(s), s.sent);
  }

  lemma AcceptKeepsInv(s: State)
    requires Inv(s) && s.client.Waiting? && s.pipe != [] && s.pipe[0].Response? && s.pipe[0].id == s.client.id
    ensures Inv(Next(s, ReadLine))
  {
    PopKeepsQueue(s);
    OwnAnswerEmptiesQueue(s);
    assert Outstanding(Next(s, ReadLine)) == Outstanding(Popped(s));
  }

  lemma ReadKeepsInv(s: State)
    requires Inv(s) && Enabled(s, ReadLine)
    ensures Inv(Next(s, ReadLine))
  {
    if s.client.Starting? && s.pipe[0] == Ready {
      ReadyKeepsInv(s);
    } else if s.client.Waiting? && s.pipe[0].Response? && s.pipe[0].id == s.client.id {
      AcceptKeepsInv(s);
    } else {
      DiscardKeepsInv(s);
    }
  }

  /** The last entries of a list without repetition do not repeat either. */
  lemma BackIsDistinct(front: seq<nat>, back: seq<nat>, all: seq<nat>)
    requires IsTail(front + back, all) && Distinct(all) && back != []
    ensures forall k :: 1 <= k < |back| ==> back[k] != back[0]
    ensures back[0] in all
  {
    var tail, n := front + back, |front|;
    var m := |all| - |tail|;
    assert forall k :: 0 <= k < |back| ==> back[k] == tail[n + k] == all[m + n + k];
  }

  lemma ServedIsNew(s: State)
    requires QueueInv(s) && s.requests != []
    ensures forall k :: 1 <= k < |s.requests| ==> s.requests[k] != s.requests[0]
    ensures s.requests[0] in s.sent
  {
    BackIsDistinct(Ids(s.pipe), s.requests, s.sent);
  }

  lemma ServeKeepsAnswers(s: State, body: string)
    requires QueueInv(s) && AnswerInv(s) && Enabled(s, Serve(body))
    ensures AnswerInv(Next(s, Serve(body)))
  {
    ServedIsNew(s);
  }

  lemma ServeKeepsInv(s: State, body: string)
    requires Inv(s) && Enabled(s, Serve(body))
    ensures Inv(Next(s, Serve(body)))
  {
    ServeKeepsAnswers(s, body);
    OutstandingAfterServe(s, body);
    ServedIsNew(s);
  }

  lemma StepKeepsInv(s: State, a: Action)
    requires Inv(s) && Enabled(s, a)
    ensures Inv(Next(s, a))
  {
    match a
    case Call(id) => CallKeepsInv(s, id);
    case ReadLine => ReadKeepsInv(s);
    case Serve(body) => ServeKeepsInv(s, body);
    case Print(m) => OutstandingAfterPrint(s, m);
    case _ => assert Outstanding(Next(s, a)) == Outstanding(s);
  }

  lemma {:induction false} RunKeepsInv(schedule: seq<Action>)
    requires Run(schedule).Some?
    ensures Inv(Run(schedule).value)
  {
    if schedule != [] {
      RunKeepsInv(schedule[..|schedule| - 1]);
      StepKeepsInv(Run(schedule[..|schedule| - 1]).value, schedule[|schedule| - 1]);
    }
  }

  // ----- what it means for callers ---------------------------------------------------------

  /** No cross-talk: in every run, whatever `detect` returned for an id is what the worker
      computed for that id. */
  lemma ReturnedIsOwnAnswer(schedule: seq<Action>, k: nat)
    requires Run(schedule).Some? && k < |Run(schedule).value.returned|
    ensures var s := Run(schedule).value;
            var (id, body) := s.returned[k];
            id in s.answers && s.answers[id] == body
  {
    RunKeepsInv(schedule);
  }

  lemma StepKeepsAnswers(s: State, a: Action, id: nat)
    requires Inv(s) && Enabled(s, a) && id in s.answers
    ensures id in Next(s, a).answers && Next(s, a).answers[id] == s.answers[id]
  {
  }

  /** An answer, once computed, never changes. */
  lemma {:induction false} AnswersArePermanent(schedule: seq<Action>, n: nat, id: nat)
    requires n <= |schedule| && Run(schedule[..n]).Some? && id in Run(schedule[..n]).value.answers
    requires Run(schedule).Some?
    ensures id in Run(schedule).value.answers
    ensures Run(schedule).value.answers[id] == Run(schedule[..n]).value.answers[id]
    decreases |schedule|
  {
    var m := |schedule| - 1;
    if n == |schedule| {
      assert schedule[..n] == schedule;
    } else {
      assert schedule[..m][..n] == schedule[..n];
      AnswersArePermanent(schedule[..m], n, id);
      RunKeepsInv(schedule[..m]);
      StepKeepsAnswers(Run(schedule[..m]).value, schedule[m], id);
    }
  }

  lemma {:induction false} PrefixRuns(schedule: seq<Action>, n: nat)
    requires Run(schedule).Some? && n <= |schedule|
    ensures Run(schedule[..n]).Some?
    ensures n < |schedule| ==> Enabled(Run(schedule[..n]).value, schedule[n])
    decreases |schedule|
  {
    var m := |schedule| - 1;
    if n == |schedule| {
      assert schedule[..n] == schedule;
    } else if n < m {
      PrefixRuns(schedule[..m], n);
      assert schedule[..m][..n] == schedule[..n];
    }
  }

  /** The worker answers no request twice: two answers in a run are to different ids, so the
      answer returned for an id is the only one. */
  lemma AnsweredAtMostOnce(schedule: seq<Action>, m: nat, n: nat)
    requires Run(schedule).Some? && m < n < |schedule| && schedule[m].Serve? && schedule[n].Serve?
    ensures Run(schedule[..m]).Some? && Run(schedule[..m]).value.requests != []
    ensures Run(schedule[..n]).Some? && Run(schedule[..n]).value.requests != []
    ensures Run(schedule[..m]).value.requests[0] != Run(schedule[..n]).value.requests[0]
  {
    PrefixRuns(schedule, m);
    PrefixRuns(schedule, m + 1);
    PrefixRuns(schedule, n);
    var id := Run(schedule[..m]).value.requests[0];
    assert schedule[..m + 1][..m] == schedule[..m];
    assert id in Run(schedule[..m + 1]).value.answers;
    assert schedule[..n][..m + 1] == schedule[..m + 1];
    AnswersArePermanent(schedule[..n], m + 1, id);
    RunKeepsInv(schedule[..n]);
  }

  function ReadLines(n: nat): seq<Action> {
    if n == 0 then [] else ReadLines(n - 1) + [ReadLine]
  }

  lemma RunOneMore(schedule: seq<Action>, s: State, a: Action)
    requires Run(schedule) == Some(s) && Enabled(s, a)
    ensures Run(schedule + [a]) == Some(Next(s, a))
  {
    assert (schedule + [a])[..|schedule|] == schedule;
  }

  /** Lines ahead of the awaited answer are passed over. */
  lemma {:induction false} PassesOver(schedule: seq<Action>, s: State, n: nat)
    requires Run(schedule) == Some(s) && s.client.Waiting? && n <= |s.pipe|
    requires forall k :: 0 <= k < n ==> !(s.pipe[k].Response? && s.pipe[k].id == s.client.id)
    ensures Run(schedule + ReadLines(n)) == Some(s.(pipe := s.pipe[n..]))
  {
    if n == 0 {
      assert schedule + ReadLines(0) == schedule;
    } else {
      PassesOver(schedule, s, n - 1);
      var t := s.(pipe := s.pipe[n - 1..]);
      RunOneMore(schedule + ReadLines(n - 1), t, ReadLine);
      assert schedule + ReadLines(n) == schedule + ReadLines(n - 1) + [ReadLine];
      assert t.pipe[1..] == s.pipe[n..];
    }
  }

  /** A call whose answer is in the pipe returns it once it has read up to there, whatever late
      answers, log lines and other messages are ahead of it. */
  lemma AnsweredCallReturns(schedule: seq<Action>, s: State, n: nat, body: string)
    requires Run(schedule) == Some(s) && s.client.Waiting? && n < |s.pipe|
    requires s.pipe[n] == Response(s.client.id, body)
    requires forall k :: 0 <= k < n ==> !(s.pipe[k].Response? && s.pipe[k].id == s.client.id)
    ensures var longer := schedule + ReadLines(n + 1);
            && Run(longer).Some?
            && Run(longer).value.client == Idle
            && Run(longer).value.returned == s.returned + [(s.client.id, body)]
  {
    PassesOver(schedule, s, n);
    RunOneMore(schedule + ReadLines(n), s.(pipe := s.pipe[n..]), ReadLine);
    assert schedule + ReadLines(n + 1) == schedule + ReadLines(n) + [ReadLine];
  }

  /** Between calls on a live worker the unread stale answers and unserved requests are at
      most as many as the calls that timed out since the last answered one. */
  lemma StaleAreLate(schedule: seq<Action>)
    requires Run(schedule).Some?
    ensures var s := Run(schedule).value;
            s.alive && s.client.Idle? ==> |Outstanding(s)| <= s.late
  {
    RunKeepsInv(schedule);
  }

  /** The step at which a call reads its own answer leaves no other answer in the pipe and
      no request unserved. */
  lemma OwnAnswerIsLast(schedule: seq<Action>)
    requires Run(schedule).Some? && Enabled(Run(schedule).value, ReadLine)
    requires Next(Run(schedule).value, ReadLine).returned != Run(schedule).value.returned
    ensures Outstanding(Next(Run(schedule).value, ReadLine)) == []
  {
    RunKeepsInv(schedule);
    OwnAnswerEmptiesQueue(Run(schedule).value);
  }
}
