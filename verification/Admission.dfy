/** All interleavings of chat, streaming chat, vision and VLM requests over the LLM
    queue, the vision queue and the global NPU guard. A step is one critical section or
    one stretch of the event loop; a threaded finish is two steps, first the lease is
    marked released and later the lock is freed. */
module Admission {
  import opened Wrappers
  import opened Gates
  import Handlers

  datatype Kind = Chat | ChatStream | Vision | Vlm

  /** How a task's turn at the guard ended. */
  datatype Ending = Returned | TimedOut | Raised | NoGuard

  datatype Stage =
    | Arrived
    | Queued                                // queue lease held, guard not yet tried
    | Handed                                // stream: both leases held, generator not started
    | Running                               // guard lease held
    | Marked(e: Ending)                     // guard lease marked released, guard lock not yet freed
    | Unguarded(e: Ending)                  // done with the guard, queue lease still held
    | QueueMarked(e: Ending)                // vision queue lease marked released, lock not yet freed
    | Refused                               // turned away by its queue
    | Finished(e: Ending)
    | Abandoned(queue: bool, guard: bool)   // cancelled; the leases it left unfinished

  datatype Task = Task(kind: Kind, stage: Stage)

  datatype GateId = Guard | LlmQueue | VisionQueue

  datatype State = State(guard: Books, llm: Books, vision: Books, tasks: seq<Task>)

  const INIT := State(CLOSED_BOOKS, CLOSED_BOOKS, CLOSED_BOOKS, [])

  predicate UsesQueue(k: Kind, g: GateId) {
    match g
    case Guard => false
    case LlmQueue => k == Chat || k == ChatStream
    case VisionQueue => k == Vision
  }

  // ----- steps ----------------------------------------------------------------------

  datatype Action =
    | Arrive(kind: Kind)
    | TryQueue(i: nat)
    | TryGuard(i: nat)
    | StartStream(i: nat)
    | BackendEnds(i: nat, e: Ending)
    | ReleaseGuard(i: nat)
    | FinishQueue(i: nat)
    | ReleaseQueue(i: nat)
    | WaitForTimeout(i: nat)   // `asyncio.wait_for` cancels the guarded call of a chat
    | Cancel(i: nat)           // a chat task is cancelled, or a stream response is dropped unstarted

  predicate Enabled(s: State, a: Action) {
    a.Arrive? || (a.i < |s.tasks| && EnabledFor(s.tasks[a.i], a))
  }

  predicate EnabledFor(t: Task, a: Action)
    requires !a.Arrive?
  {
    match a
    case TryQueue(_) => t.stage.Arrived? && t.kind != Vlm
    case TryGuard(_) => t.stage.Queued? || (t.stage.Arrived? && t.kind == Vlm)
    case StartStream(_) => t.stage.Handed?
    case BackendEnds(_, e) => t.stage.Running? && e != NoGuard && (e == TimedOut ==> t.kind == Chat || t.kind == Vision)
    case ReleaseGuard(_) => t.stage.Marked?
    case FinishQueue(_) => t.stage.Unguarded?
    case ReleaseQueue(_) => t.stage.QueueMarked?
    case WaitForTimeout(_) => t.kind == Chat && (t.stage.Queued? || t.stage.Running?)
    case Cancel(_) =>
      (t.kind == Chat && (t.stage.Queued? || t.stage.Running?)) || (t.kind == ChatStream && t.stage.Handed?)
  }

  function BooksOf(s: State, g: GateId): Books {
    match g
    case Guard => s.guard
    case LlmQueue => s.llm
    case VisionQueue => s.vision
  }

  function QueueLocked(s: State, k: Kind): bool {
    if k == Vision then s.vision.locked else s.llm.locked
  }

  /** The stage a task moves to, given whether its queue and the guard are taken. */
  function NextStage(queueLocked: bool, guardLocked: bool, t: Task, a: Action): Stage
    requires !a.Arrive? && EnabledFor(t, a)
  {
    match a
    case TryQueue(_) =>
      if queueLocked then Refused else Queued
    case TryGuard(_) =>
      if !guardLocked then (if t.kind == ChatStream then Handed else Running)
      else if t.kind == Vlm then Finished(NoGuard)
      else Unguarded(NoGuard)
    case StartStream(_) => Running
    case BackendEnds(_, e) => Marked(e)
    case ReleaseGuard(_) => if t.kind == Vlm then Finished(t.stage.e) else Unguarded(t.stage.e)
    case FinishQueue(_) => if t.kind == Vision then QueueMarked(t.stage.e) else Finished(t.stage.e)
    case ReleaseQueue(_) => Finished(t.stage.e)
    case WaitForTimeout(_) => Abandoned(false, t.stage.Running?)
    case Cancel(_) => Abandoned(true, !t.stage.Queued?)
  }

  /** What the step does to one set of books. */
  function NextBooks(b: Books, g: GateId, t: Task, a: Action): Books
    requires !a.Arrive? && EnabledFor(t, a)
  {
    match a
    case TryQueue(_) => if UsesQueue(t.kind, g) then b.Acquire() else b
    case TryGuard(_) => if g == Guard then b.Acquire() else b
    case ReleaseGuard(_) => if g == Guard then b.Finish(t.stage.e == Returned) else b
    case FinishQueue(_) =>
      if !UsesQueue(t.kind, g) then b
      else
        var counted := if t.stage.e == TimedOut then b.Timeout() else b;
        if t.kind == Vision then counted else counted.Finish(t.stage.e == Returned)
    case ReleaseQueue(_) => if UsesQueue(t.kind, g) then b.Finish(t.stage.e == Returned) else b
    case WaitForTimeout(_) => if g == LlmQueue then b.Timeout().Finish(false) else b
    case _ => b
  }

  function Moves(s: State, t: Task, a: Action): Task
    requires !a.Arrive? && EnabledFor(t, a)
  {
    Task(t.kind, NextStage(QueueLocked(s, t.kind), s.guard.locked, t, a))
  }

  function Next(s: State, a: Action): State
    requires Enabled(s, a)
  {
    if a.Arrive? then s.(tasks := s.tasks + [Task(a.kind, Arrived)])
    else
      var t := s.tasks[a.i];
      State(NextBooks(s.guard, Guard, t, a), NextBooks(s.llm, LlmQueue, t, a), NextBooks(s.vision, VisionQueue, t, a),
            s.tasks[a.i := Moves(s, t, a)])
  }

  /** The state after a schedule, if every action in it was possible when its turn came. */
  function Run(schedule: seq<Action>): Option<State> {
    if schedule == [] then Some(INIT)
    else
      match Run(schedule[..|schedule| - 1])
      case None => None
      case Some(s) =>
        var a := schedule[|schedule| - 1];
        if Enabled(s, a) then Some(Next(s, a)) else None
  }

  // ----- a request that nothing interleaves -----------------------------------------

  /** The state after further actions. */
  function Steps(s: State, actions: seq<Action>): Option<State> {
    if actions == [] then Some(s)
    else
      match Steps(s, actions[..|actions| - 1])
      case None => None
      case Some(t) =>
        var a := actions[|actions| - 1];
        if Enabled(t, a) then Some(Next(t, a)) else None
  }

  lemma OneMoreStep(s: State, actions: seq<Action>, a: Action) returns (longer: seq<Action>)
    requires Steps(s, actions).Some? && Enabled(Steps(s, actions).value, a)
    ensures longer == actions + [a] && Steps(s, longer) == Some(Next(Steps(s, actions).value, a))
  {
    longer := actions + [a];
    assert longer[..|actions|] == actions;
  }

  function QueueBooks(s: State, k: Kind): Books {
    if k == Vision then s.vision else s.llm
  }

  function OtherBooks(s: State, k: Kind): Books {
    if k == Vision then s.llm else s.vision
  }

  function EndingOf(o: Handlers.Outcome): Ending {
    match o
    case Returned => Returned
    case TimedOut => TimedOut
    case Raised => Raised
  }

  function StageOf(reply: Handlers.Reply): Stage {
    match reply
    case Answered => Finished(Returned)
    case QueueBusy => Refused
    case NpuBusy => Finished(NoGuard)
    case GatewayTimeout => Finished(TimedOut)
    case BackendError => Finished(Raised)
  }

  lemma EnterQueue(s: State, before: seq<Action>, i: nat) returns (actions: seq<Action>)
    requires Steps(s, before).Some?
    requires var t := Steps(s, before).value; i < |t.tasks| && t.tasks[i].stage.Arrived? && t.tasks[i].kind != Vlm
    ensures Steps(s, actions).Some?
    ensures var t, u := Steps(s, before).value, Steps(s, actions).value;
            var kind := t.tasks[i].kind;
            && u.tasks == t.tasks[i := Task(kind, if QueueLocked(t, kind) then Refused else Queued)]
            && QueueBooks(u, kind) == QueueBooks(t, kind).Acquire()
            && u.guard == t.guard && OtherBooks(u, kind) == OtherBooks(t, kind)
  {
    actions := OneMoreStep(s, before, TryQueue(i));
  }

  lemma UpdateLast(ts: seq<Task>, t: Task, u: Task)
    ensures (ts + [t])[|ts| := u] == ts + [u]
  {
  }

  lemma Arrives(s: State, none: seq<Action>, kind: Kind) returns (actions: seq<Action>)
    requires none == []
    ensures Steps(s, actions) == Some(s.(tasks := s.tasks + [Task(kind, Arrived)]))
  {
    actions := OneMoreStep(s, none, Arrive(kind));
  }

  lemma Admit(s: State, kind: Kind) returns (actions: seq<Action>)
    requires kind != Vlm
    ensures Steps(s, actions).Some?
    ensures var t := Steps(s, actions).value;
            && t.tasks == s.tasks + [Task(kind, if QueueLocked(s, kind) then Refused else Queued)]
            && QueueBooks(t, kind) == QueueBooks(s, kind).Acquire()
            && t.guard == s.guard && OtherBooks(t, kind) == OtherBooks(s, kind)
  {
    actions := Arrives(s, [], kind);
    actions := EnterQueue(s, actions, |s.tasks|);
    UpdateLast(s.tasks, Task(kind, Arrived), Task(kind, if QueueLocked(s, kind) then Refused else Queued));
  }

  lemma EnterGuard(s: State, before: seq<Action>, i: nat) returns (actions: seq<Action>)
    requires Steps(s, before).Some?
    requires var t := Steps(s, before).value; i < |t.tasks| && t.tasks[i].stage.Queued?
    requires Steps(s, before).value.tasks[i].kind != Vlm
    ensures var t := Steps(s, before).value;
            var stage := if t.guard.locked then Unguarded(NoGuard) else Running;
            Steps(s, actions) == Some(t.(guard := t.guard.Acquire(),
                                         tasks := t.tasks[i := Task(t.tasks[i].kind, stage)]))
  {
    var t := Steps(s, before).value;
    actions := OneMoreStep(s, before, TryGuard(i));
    if !t.guard.locked && t.tasks[i].kind == ChatStream {
      actions := OneMoreStep(s, actions, StartStream(i));
      assert Steps(s, actions).value.tasks == t.tasks[i := Task(ChatStream, Running)];
    }
  }

  lemma LeaveGuard(s: State, before: seq<Action>, i: nat, e: Ending) returns (actions: seq<Action>)
    requires Steps(s, before).Some?
    requires var t := Steps(s, before).value; i < |t.tasks| && EnabledFor(t.tasks[i], BackendEnds(i, e))
    requires Steps(s, before).value.tasks[i].kind != Vlm
    ensures var t := Steps(s, before).value;
            Steps(s, actions) == Some(t.(guard := t.guard.Finish(e == Returned),
                                         tasks := t.tasks[i := Task(t.tasks[i].kind, Unguarded(e))]))
  {
    actions := OneMoreStep(s, before, BackendEnds(i, e));
    actions := OneMoreStep(s, actions, ReleaseGuard(i));
    var tasks := Steps(s, before).value.tasks;
    assert Steps(s, actions).value.tasks == tasks[i := Task(tasks[i].kind, Unguarded(e))];
  }

  lemma LeaveQueue(s: State, before: seq<Action>, i: nat) returns (actions: seq<Action>)
    requires Steps(s, before).Some?
    requires var t := Steps(s, before).value; i < |t.tasks| && t.tasks[i].stage.Unguarded? && t.tasks[i].kind != Vlm
    ensures Steps(s, actions).Some?
    ensures var t, last := Steps(s, before).value, Steps(s, actions).value;
            var (kind, e) := (t.tasks[i].kind, t.tasks[i].stage.e);
            && last.tasks == t.tasks[i := Task(kind, Finished(e))]
            && QueueBooks(last, kind) ==
               (if e == TimedOut then QueueBooks(t, kind).Timeout() else QueueBooks(t, kind)).Finish(e == Returned)
            && last.guard == t.guard && OtherBooks(last, kind) == OtherBooks(t, kind)
  {
    actions := OneMoreStep(s, before, FinishQueue(i));
    if Steps(s, before).value.tasks[i].kind == Vision {
      actions := OneMoreStep(s, actions, ReleaseQueue(i));
    }
  }

  /** A request that its queue let in, up to its end. */
  lemma LoneEntrant(s: State, before: seq<Action>, i: nat, o: Handlers.Outcome) returns (actions: seq<Action>)
    requires Steps(s, before).Some?
    requires var t := Steps(s, before).value; i < |t.tasks| && t.tasks[i].stage.Queued? && t.tasks[i].kind != Vlm
    requires Steps(s, before).value.tasks[i].kind == ChatStream ==> o != Handlers.TimedOut
    ensures Steps(s, actions).Some?
    ensures var t, last := Steps(s, before).value, Steps(s, actions).value;
            var (kind, e) := (t.tasks[i].kind, if t.guard.locked then NoGuard else EndingOf(o));
            && last.tasks == t.tasks[i := Task(kind, Finished(e))]
            && QueueBooks(last, kind) ==
               (if e == TimedOut then QueueBooks(t, kind).Timeout() else QueueBooks(t, kind)).Finish(e == Returned)
            && last.guard == (if t.guard.locked then t.guard.Acquire() else t.guard.Acquire().Finish(e == Returned))
            && OtherBooks(last, kind) == OtherBooks(t, kind)
  {
    actions := EnterGuard(s, before, i);
    if !Steps(s, before).value.guard.locked {
      actions := LeaveGuard(s, actions, i, EndingOf(o));
    }
    actions := LeaveQueue(s, actions, i);
  }

  /** The steps of one request in a row write the books that the handlers write: the step
      model refines `Handlers.Served` when nothing comes in between. */
  lemma LoneRequestIsServed(s: State, kind: Kind, o: Handlers.Outcome) returns (actions: seq<Action>)
    requires kind != Vlm && (kind == ChatStream ==> o != Handlers.TimedOut)
    ensures Steps(s, actions).Some?
    ensures var last := Steps(s, actions).value;
            var (queue, guard, reply) := Handlers.Served(QueueBooks(s, kind), s.guard, o);
            && QueueBooks(last, kind) == queue && last.guard == guard
            && OtherBooks(last, kind) == OtherBooks(s, kind)
            && last.tasks == s.tasks + [Task(kind, StageOf(reply))]
  {
    actions := Admit(s, kind);
    if !QueueLocked(s, kind) {
      actions := LoneEntrant(s, actions, |s.tasks|, o);
    }
  }

  /** The same for a VLM request, which passes no queue; a time-out of its backend is an
      exception like any other to the guard. */
  lemma LoneVlmIsServed(s: State, o: Handlers.Outcome) returns (actions: seq<Action>)
    ensures Steps(s, actions).Some?
    ensures var last := Steps(s, actions).value;
            && last.guard == Handlers.ServedVlm(s.guard, o) && last.llm == s.llm && last.vision == s.vision
            && last.tasks == s.tasks + [Task(Vlm, Finished(if s.guard.locked then NoGuard
                                                           else if o == Handlers.Returned then Returned else Raised))]
  {
    var i, e := |s.tasks|, if o == Handlers.Returned then Returned else Raised;
    actions := Arrives(s, [], Vlm);
    actions := OneMoreStep(s, actions, TryGuard(i));
    UpdateLast(s.tasks, Task(Vlm, Arrived), Steps(s, actions).value.tasks[i]);
    if !s.guard.locked {
      actions := VlmLeaves(s, actions, i, e);
      UpdateLast(s.tasks, Task(Vlm, Running), Task(Vlm, Finished(e)));
    }
  }

  lemma VlmLeaves(s: State, before: seq<Action>, i: nat, e: Ending) returns (actions: seq<Action>)
    requires Steps(s, before).Some? && (e == Returned || e == Raised)
    requires var t := Steps(s, before).value; i < |t.tasks| && t.tasks[i] == Task(Vlm, Running)
    ensures var t := Steps(s, before).value;
            Steps(s, actions) == Some(t.(guard := t.guard.Finish(e == Returned),
                                         tasks := t.tasks[i := Task(Vlm, Finished(e))]))
  {
    actions := OneMoreStep(s, before, BackendEnds(i, e));
    actions := OneMoreStep(s, actions, ReleaseGuard(i));
    var tasks := Steps(s, before).value.tasks;
    assert Steps(s, actions).value.tasks == tasks[i := Task(Vlm, Finished(e))];
  }

  // ----- the ledger -----------------------------------------------------------------

  /** What one task, or a list of tasks, has done and is holding at a gate. */
  datatype Tally = Tally(tried: nat, accepted: nat, rejected: nat, holds: nat,
                         completed: nat, failed: nat, timeouts: nat)
  {
    function Plus(o: Tally): Tally {
      Tally(tried + o.tried, accepted + o.accepted, rejected + o.rejected, holds + o.holds,
            completed + o.completed, failed + o.failed, timeouts + o.timeouts)
    }
  }

  const NOTHING := Tally(0, 0, 0, 0, 0, 0, 0)
  const HOLDING := Tally(1, 1, 0, 1, 0, 0, 0)

  function AtGuard(stage: Stage): Tally {
    match stage
    case Arrived | Queued | Refused => NOTHING
    case Handed | Running | Marked(_) => HOLDING
    case Abandoned(_, guard) => if guard then HOLDING else NOTHING
    case Unguarded(e) => GuardEnded(e)
    case QueueMarked(e) => GuardEnded(e)
    case Finished(e) => GuardEnded(e)
  }

  function GuardEnded(e: Ending): Tally {
    match e
    case Returned => Tally(1, 1, 0, 0, 1, 0, 0)
    case TimedOut | Raised => Tally(1, 1, 0, 0, 0, 1, 0)
    case NoGuard => Tally(1, 0, 1, 0, 0, 0, 0)
  }

  function AtQueue(stage: Stage): Tally {
    match stage
    case Arrived => NOTHING
    case Refused => Tally(1, 0, 1, 0, 0, 0, 0)
    case Queued | Handed | Running | Marked(_) | Unguarded(_) => HOLDING
    case QueueMarked(e) => if e == TimedOut then HOLDING.(timeouts := 1) else HOLDING
    case Finished(e) =>
      if e == Returned then Tally(1, 1, 0, 0, 1, 0, 0) else Tally(1, 1, 0, 0, 0, 1, if e == TimedOut then 1 else 0)
    case Abandoned(queue, _) => if queue then HOLDING else Tally(1, 1, 0, 0, 0, 1, 1)
  }

  function At(t: Task, g: GateId): Tally {
    if g == Guard then AtGuard(t.stage) else if UsesQueue(t.kind, g) then AtQueue(t.stage) else NOTHING
  }

  predicate Holds(t: Task, g: GateId) {
    At(t, g).holds > 0
  }

  function Sum(es: seq<Tally>): Tally {
    if es == [] then NOTHING else Sum(es[..|es| - 1]).Plus(es[|es| - 1])
  }

  function Entries(ts: seq<Task>, g: GateId): (es: seq<Tally>)
    ensures |es| == |ts| && forall i :: 0 <= i < |ts| ==> es[i] == At(ts[i], g)
  {
    seq(|ts|, i requires 0 <= i < |ts| => At(ts[i], g))
  }

  function Ledger(ts: seq<Task>, g: GateId): Tally {
    Sum(Entries(ts, g))
  }

  /** The books say what the tasks account for, and at most one task holds the lock. */
  predicate Agree(b: Books, l: Tally) {
    && b == Books(l.holds == 1, l.tried, l.accepted, l.rejected, l.completed, l.failed, l.timeouts)
    && l.holds <= 1
  }

  /** Stages a task of this kind can be in. */
  predicate Plausible(t: Task) {
    && (t.kind == Vlm ==> t.stage.Arrived? || t.stage.Running? || t.stage.Marked? || t.stage.Finished?)
    && (t.stage.QueueMarked? ==> t.kind == Vision)
    && (t.stage.Handed? ==> t.kind == ChatStream)
    && (t.stage.Abandoned? ==> t.kind == Chat || (t.kind == ChatStream && t.stage == Abandoned(true, true)))
    && (t.stage.Marked? ==> t.stage.e != NoGuard)
  }

  ghost predicate Inv(s: State) {
    && (forall i :: 0 <= i < |s.tasks| ==> Plausible(s.tasks[i]))
    && (forall g :: Agree(BooksOf(s, g), Ledger(s.tasks, g)))
  }

  lemma PlusSwaps(a: Tally, b: Tally, c: Tally)
    ensures a.Plus(b).Plus(c) == a.Plus(c).Plus(b)
  {
  }

  lemma {:induction false} SumUpdate(es: seq<Tally>, i: nat, e: Tally)
    requires i < |es|
    ensures Sum(es[i := e]).Plus(es[i]) == Sum(es).Plus(e)
  {
    var init := es[..|es| - 1];
    if i == |es| - 1 {
      assert es[i := e][..|es| - 1] == init;
      PlusSwaps(Sum(init), e, es[i]);
    } else {
      assert es[i := e][..|es| - 1] == init[i := e];
      SumUpdate(init, i, e);
      PlusSwaps(Sum(init[i := e]), es[|es| - 1], es[i]);
      PlusSwaps(Sum(init), es[|es| - 1], e);
    }
  }

  lemma {:induction false} SumCounts(es: seq<Tally>, i: nat)
    requires i < |es|
    ensures Sum(es).holds >= es[i].holds
  {
    SumUpdate(es, i, NOTHING);
  }

  lemma {:induction false} SumCountsTwo(es: seq<Tally>, i: nat, j: nat)
    requires i < |es| && j < |es| && i != j
    ensures Sum(es).holds >= es[i].holds + es[j].holds
  {
    SumUpdate(es, i, NOTHING);
    SumCounts(es[i := NOTHING], j);
  }

  lemma {:induction false} SumHasHolder(es: seq<Tally>)
    requires Sum(es).holds > 0
    ensures exists i :: 0 <= i < |es| && es[i].holds > 0
  {
    var last := |es| - 1;
    if es[last].holds == 0 {
      SumHasHolder(es[..last]);
      var i :| 0 <= i < last && es[..last][i].holds > 0;
      assert es[i].holds > 0;
    }
  }

  lemma LedgerUpdate(ts: seq<Task>, i: nat, t: Task, g: GateId)
    requires i < |ts|
    ensures Ledger(ts[i := t], g).Plus(At(ts[i], g)) == Ledger(ts, g).Plus(At(t, g))
  {
    assert Entries(ts[i := t], g) == Entries(ts, g)[i := At(t, g)];
    SumUpdate(Entries(ts, g), i, At(t, g));
  }

  lemma LedgerAppend(ts: seq<Task>, t: Task, g: GateId)
    ensures Ledger(ts + [t], g) == Ledger(ts, g).Plus(At(t, g))
  {
    assert Entries(ts + [t], g)[..|ts|] == Entries(ts, g);
  }

  // ----- every step keeps the ledger -------------------------------------------------

  /** A step replaces the moving task's entry `At(t)` by `At(t')` in the guard's ledger;
      the books the step writes are the books of the new ledger. */
  lemma GuardMoves(b: Books, l: Tally, l': Tally, queueLocked: bool, t: Task, a: Action)
    requires !a.Arrive? && EnabledFor(t, a) && Plausible(t)
    requires Agree(b, l) && AtGuard(t.stage).holds <= l.holds
    requires l'.Plus(AtGuard(t.stage)) == l.Plus(AtGuard(NextStage(queueLocked, b.locked, t, a)))
    ensures Agree(NextBooks(b, Guard, t, a), l')
  {
  }

  lemma QueueMoves(b: Books, l: Tally, l': Tally, guardLocked: bool, t: Task, a: Action, g: GateId)
    requires !a.Arrive? && EnabledFor(t, a) && Plausible(t) && UsesQueue(t.kind, g)
    requires Agree(b, l) && AtQueue(t.stage).holds <= l.holds
    requires l'.Plus(AtQueue(t.stage)) == l.Plus(AtQueue(NextStage(b.locked, guardLocked, t, a)))
    ensures Agree(NextBooks(b, g, t, a), l')
  {
  }

  lemma LedgerMove(s: State, a: Action, g: GateId)
    requires Enabled(s, a) && !a.Arrive? && Inv(s)
    ensures Agree(BooksOf(Next(s, a), g), Ledger(s.tasks[a.i := Moves(s, s.tasks[a.i], a)], g))
  {
    var t := s.tasks[a.i];
    var t' := Moves(s, t, a);
    LedgerUpdate(s.tasks, a.i, t', g);
    SumCounts(Entries(s.tasks, g), a.i);
    assert Agree(BooksOf(s, g), Ledger(s.tasks, g)) && Plausible(t);
    BooksMove(s, t, a, Ledger(s.tasks, g), Ledger(s.tasks[a.i := t'], g), g);
  }

  lemma BooksMove(s: State, t: Task, a: Action, l: Tally, l': Tally, g: GateId)
    requires !a.Arrive? && EnabledFor(t, a) && Plausible(t)
    requires Agree(BooksOf(s, g), l) && At(t, g).holds <= l.holds
    requires l'.Plus(At(t, g)) == l.Plus(At(Moves(s, t, a), g))
    ensures Agree(NextBooks(BooksOf(s, g), g, t, a), l')
  {
    if g == Guard {
      GuardMoves(s.guard, l, l', QueueLocked(s, t.kind), t, a);
    } else if UsesQueue(t.kind, g) {
      QueueMoves(BooksOf(s, g), l, l', s.guard.locked, t, a, g);
    }
  }

  lemma StepKeepsInv(s: State, a: Action)
    requires Enabled(s, a) && Inv(s)
    ensures Inv(Next(s, a))
  {
    forall g ensures Agree(BooksOf(Next(s, a), g), Ledger(Next(s, a).tasks, g)) {
      if a.Arrive? {
        LedgerAppend(s.tasks, Task(a.kind, Arrived), g);
        assert Agree(BooksOf(s, g), Ledger(s.tasks, g));
      } else {
        LedgerMove(s, a, g);
      }
    }
    StagesStayPlausible(s, a);
  }

  lemma StagesStayPlausible(s: State, a: Action)
    requires Enabled(s, a)
    requires forall i :: 0 <= i < |s.tasks| ==> Plausible(s.tasks[i])
    ensures forall i :: 0 <= i < |Next(s, a).tasks| ==> Plausible(Next(s, a).tasks[i])
  {
  }

  lemma {:induction false} RunKeepsInv(schedule: seq<Action>)
    ensures Run(schedule).Some? ==> Inv(Run(schedule).value)
  {
    if schedule != [] && Run(schedule).Some? {
      RunKeepsInv(schedule[..|schedule| - 1]);
      StepKeepsInv(Run(schedule[..|schedule| - 1]).value, schedule[|schedule| - 1]);
    }
  }

  // ----- safety over every schedule --------------------------------------------------

  /** At most one task is past guard acquisition and unreleased, whatever the schedule;
      the same holds of each queue. */
  lemma MutualExclusion(schedule: seq<Action>, i: nat, j: nat, g: GateId)
    requires Run(schedule).Some?
    requires var ts := Run(schedule).value.tasks;
             i < |ts| && j < |ts| && Holds(ts[i], g) && Holds(ts[j], g)
    ensures i == j
  {
    RunKeepsInv(schedule);
    var s := Run(schedule).value;
    assert Agree(BooksOf(s, g), Ledger(s.tasks, g));
    if i != j {
      SumCountsTwo(Entries(s.tasks, g), i, j);
    }
  }

  /** The lock of a gate is held exactly while some task has an unfinished lease on it. */
  lemma LockedIffHeld(schedule: seq<Action>, g: GateId)
    requires Run(schedule).Some?
    ensures var s := Run(schedule).value;
            BooksOf(s, g).locked <==> exists i :: 0 <= i < |s.tasks| && Holds(s.tasks[i], g)
  {
    RunKeepsInv(schedule);
    var s := Run(schedule).value;
    assert Agree(BooksOf(s, g), Ledger(s.tasks, g));
    if i :| 0 <= i < |s.tasks| && Holds(s.tasks[i], g) {
      SumCounts(Entries(s.tasks, g), i);
    }
    if BooksOf(s, g).locked {
      SumHasHolder(Entries(s.tasks, g));
    }
  }

  /** `wait_for` expired for task `i` while its backend was running. */
  ghost predicate TimedOutRunning(schedule: seq<Action>, i: nat) {
    exists n :: TimedOutAt(schedule, i, n)
  }

  predicate TimedOutAt(schedule: seq<Action>, i: nat, n: int) {
    && 0 <= n < |schedule| && schedule[n] == WaitForTimeout(i)
    && Run(schedule[..n]).Some?
    && i < |Run(schedule[..n]).value.tasks| && Run(schedule[..n]).value.tasks[i].stage.Running?
  }

  predicate KeptGuardOnly(s: State, i: nat) {
    i < |s.tasks| && s.tasks[i].stage == Abandoned(false, true)
  }

  lemma TimedOutGrows(schedule: seq<Action>, i: nat)
    requires schedule != []
    ensures var m := |schedule| - 1;
            TimedOutRunning(schedule, i) <==> TimedOutRunning(schedule[..m], i) || TimedOutAt(schedule, i, m)
  {
    var m := |schedule| - 1;
    forall n | 0 <= n < m ensures TimedOutAt(schedule[..m], i, n) <==> TimedOutAt(schedule, i, n) {
      assert schedule[..m][..n] == schedule[..n];
    }
  }

  lemma StepKeepsGuardOnly(s: State, a: Action, i: nat)
    requires Enabled(s, a)
    ensures KeptGuardOnly(Next(s, a), i) <==>
            KeptGuardOnly(s, i) || (a == WaitForTimeout(i) && s.tasks[i].stage.Running?)
  {
  }

  /** Only that step makes a task lose its queue and keep the guard. */
  lemma {:induction false} GuardOnlyIffTimedOut(schedule: seq<Action>, i: nat)
    requires Run(schedule).Some?
    ensures KeptGuardOnly(Run(schedule).value, i) <==> TimedOutRunning(schedule, i)
  {
    if schedule != [] {
      var m := |schedule| - 1;
      GuardOnlyIffTimedOut(schedule[..m], i);
      StepKeepsGuardOnly(Run(schedule[..m]).value, schedule[m], i);
      TimedOutGrows(schedule, i);
    }
  }

  /** Guard inside queue: whoever holds the guard and came through a queue still holds that
      queue, exactly unless `wait_for` expired for it while its backend was running. */
  lemma GuardNestsInQueue(schedule: seq<Action>, i: nat, g: GateId)
    requires Run(schedule).Some?
    requires i < |Run(schedule).value.tasks|
    requires var t := Run(schedule).value.tasks[i]; UsesQueue(t.kind, g) && Holds(t, Guard)
    ensures var s := Run(schedule).value;
            && s.guard.locked
            && (Holds(s.tasks[i], g) <==> !TimedOutRunning(schedule, i))
            && (Holds(s.tasks[i], g) ==> BooksOf(s, g).locked)
            && (g == VisionQueue ==> Holds(s.tasks[i], g))
  {
    RunKeepsInv(schedule);
    LockedIffHeld(schedule, Guard);
    LockedIffHeld(schedule, g);
    GuardOnlyIffTimedOut(schedule, i);
    assert Plausible(Run(schedule).value.tasks[i]);
  }

  /** While a task is queued, another task of the same queue holds the guard exactly if it is
      a chat for which `wait_for` expired while its backend was running. */
  lemma BusyNpuComesFromElsewhere(schedule: seq<Action>, i: nat, j: nat, g: GateId)
    requires Run(schedule).Some?
    requires var ts := Run(schedule).value.tasks;
             && i < |ts| && j < |ts| && ts[i].stage.Queued?
             && UsesQueue(ts[i].kind, g) && UsesQueue(ts[j].kind, g)
    ensures var t := Run(schedule).value.tasks[j];
            && (Holds(t, Guard) <==> TimedOutRunning(schedule, j))
            && (Holds(t, Guard) ==> t.kind == Chat && g == LlmQueue)
  {
    var s := Run(schedule).value;
    RunKeepsInv(schedule);
    GuardOnlyIffTimedOut(schedule, j);
    assert Plausible(s.tasks[j]);
    if Holds(s.tasks[j], Guard) && s.tasks[j].stage != Abandoned(false, true) {
      MutualExclusion(schedule, i, j, g);
    }
  }

  /** So as long as `wait_for` does not expire, and for vision requests always: a request that
      got through its queue and finds the guard taken finds it taken by work of another kind.
      A chat is never told `npu_resource_busy` because of a chat, nor a vision request because
      of a vision request. */
  lemma NpuBusyMeansOtherKind(schedule: seq<Action>, i: nat, g: GateId) returns (j: nat)
    requires Run(schedule).Some?
    requires var s := Run(schedule).value;
             i < |s.tasks| && UsesQueue(s.tasks[i].kind, g) && s.tasks[i].stage.Queued? && s.guard.locked
    requires g == VisionQueue || forall n :: 0 <= n < |schedule| ==> !schedule[n].WaitForTimeout?
    ensures var ts := Run(schedule).value.tasks;
            j < |ts| && Holds(ts[j], Guard) && !UsesQueue(ts[j].kind, g)
  {
    LockedIffHeld(schedule, Guard);
    j :| 0 <= j < |Run(schedule).value.tasks| && Holds(Run(schedule).value.tasks[j], Guard);
    if UsesQueue(Run(schedule).value.tasks[j].kind, g) {
      BusyNpuComesFromElsewhere(schedule, i, j, g);
    }
  }

  /** Each gate's own books balance in every reachable state. */
  lemma BooksBalance(schedule: seq<Action>, g: GateId)
    requires Run(schedule).Some?
    ensures BooksOf(Run(schedule).value, g).Balanced()
  {
    RunKeepsInv(schedule);
    var s := Run(schedule).value;
    assert Agree(BooksOf(s, g), Ledger(s.tasks, g));
    LedgerBalances(s.tasks, g);
  }

  predicate Balanced(e: Tally) {
    e.tried == e.accepted + e.rejected && e.accepted == e.completed + e.failed + e.holds
  }

  lemma LedgerBalances(ts: seq<Task>, g: GateId)
    ensures Balanced(Ledger(ts, g))
  {
    SumBalances(Entries(ts, g));
  }

  lemma {:induction false} SumBalances(es: seq<Tally>)
    requires forall i :: 0 <= i < |es| ==> Balanced(es[i])
    ensures Balanced(Sum(es))
  {
    if es != [] {
      SumBalances(es[..|es| - 1]);
    }
  }

  // ----- conservation across the gates ------------------------------------------------

  /** Tasks on their way between two bookings, and the VLM tasks, which pass no queue. */
  datatype Transit = Transit(
    notYetAtGuard: nat,   // queue accepted, guard never tried so far
    owesSuccess: nat,     // guard completed, queue not yet
    owesFailure: nat,     // guard failed or refused, queue not yet
    lostByTimeout: nat,   // queue failed by `wait_for`, nothing recorded at the guard
    vlmTried: nat,
    vlmCompleted: nat,
    vlmFailed: nat)       // failed or refused
  {
    function Plus(o: Transit): Transit {
      Transit(notYetAtGuard + o.notYetAtGuard, owesSuccess + o.owesSuccess, owesFailure + o.owesFailure,
              lostByTimeout + o.lostByTimeout, vlmTried + o.vlmTried, vlmCompleted + o.vlmCompleted,
              vlmFailed + o.vlmFailed)
    }
  }

  const SETTLED := Transit(0, 0, 0, 0, 0, 0, 0)

  function TransitOf(t: Task): Transit {
    if t.kind == Vlm then
      match t.stage
      case Running | Marked(_) => SETTLED.(vlmTried := 1)
      case Finished(e) =>
        if e == Returned then SETTLED.(vlmTried := 1, vlmCompleted := 1) else SETTLED.(vlmTried := 1, vlmFailed := 1)
      case _ => SETTLED
    else
      match t.stage
      case Queued => SETTLED.(notYetAtGuard := 1)
      case Unguarded(e) => if e == Returned then SETTLED.(owesSuccess := 1) else SETTLED.(owesFailure := 1)
      case QueueMarked(e) => if e == Returned then SETTLED.(owesSuccess := 1) else SETTLED.(owesFailure := 1)
      case Abandoned(queue, guard) =>
        SETTLED.(notYetAtGuard := if guard then 0 else 1, lostByTimeout := if queue then 0 else 1)
      case _ => SETTLED
  }

  function InTransit(ts: seq<Task>): Transit {
    if ts == [] then SETTLED else InTransit(ts[..|ts| - 1]).Plus(TransitOf(ts[|ts| - 1]))
  }

  /** Every request a queue let in, and every VLM request, is booked at the guard exactly
      once and on the same side, up to the tasks that are between the two bookings. */
  predicate Conserved(guard: Books, llm: Books, vision: Books, x: Transit) {
    && guard.total + x.notYetAtGuard == llm.accepted + vision.accepted + x.vlmTried
    && guard.completed == llm.completed + vision.completed + x.vlmCompleted + x.owesSuccess
    && guard.failed + guard.rejected + x.lostByTimeout == llm.failed + vision.failed + x.vlmFailed + x.owesFailure
  }

  lemma Conservation(schedule: seq<Action>)
    requires Run(schedule).Some?
    ensures var s := Run(schedule).value;
            Conserved(s.guard, s.llm, s.vision, InTransit(s.tasks))
  {
    RunKeepsInv(schedule);
    var s := Run(schedule).value;
    LedgersBalance(s.tasks);
    assert Agree(BooksOf(s, Guard), Ledger(s.tasks, Guard));
    assert Agree(BooksOf(s, LlmQueue), Ledger(s.tasks, LlmQueue));
    assert Agree(BooksOf(s, VisionQueue), Ledger(s.tasks, VisionQueue));
    BooksConserve(s, Ledger(s.tasks, Guard), Ledger(s.tasks, LlmQueue), Ledger(s.tasks, VisionQueue),
                  InTransit(s.tasks));
  }

  lemma BooksConserve(s: State, guard: Tally, llm: Tally, vision: Tally, x: Transit)
    requires Agree(s.guard, guard) && Agree(s.llm, llm) && Agree(s.vision, vision)
    requires Balance(guard, llm, vision, x)
    ensures Conserved(s.guard, s.llm, s.vision, x)
  {
  }

  predicate Balance(guard: Tally, llm: Tally, vision: Tally, x: Transit) {
    && guard.tried + x.notYetAtGuard == llm.accepted + vision.accepted + x.vlmTried
    && guard.completed == llm.completed + vision.completed + x.vlmCompleted + x.owesSuccess
    && guard.failed + guard.rejected + x.lostByTimeout == llm.failed + vision.failed + x.vlmFailed + x.owesFailure
  }

  lemma TaskBalances(t: Task)
    requires Plausible(t)
    ensures Balance(At(t, Guard), At(t, LlmQueue), At(t, VisionQueue), TransitOf(t))
  {
  }

  lemma BalancesAdd(g: Tally, l: Tally, v: Tally, x: Transit, g': Tally, l': Tally, v': Tally, x': Transit)
    requires Balance(g, l, v, x) && Balance(g', l', v', x')
    ensures Balance(g.Plus(g'), l.Plus(l'), v.Plus(v'), x.Plus(x'))
  {
  }

  lemma {:induction false} LedgersBalance(ts: seq<Task>)
    requires forall i :: 0 <= i < |ts| ==> Plausible(ts[i])
    ensures Balance(Ledger(ts, Guard), Ledger(ts, LlmQueue), Ledger(ts, VisionQueue), InTransit(ts))
  {
    if ts == [] {
      NoTasksBalance(ts);
    } else {
      var init, t := ts[..|ts| - 1], ts[|ts| - 1];
      LedgersBalance(init);
      AppendBalances(init, t, ts);
    }
  }

  lemma NoTasksBalance(ts: seq<Task>)
    requires ts == []
    ensures Balance(Ledger(ts, Guard), Ledger(ts, LlmQueue), Ledger(ts, VisionQueue), InTransit(ts))
  {
    forall g ensures Ledger(ts, g) == NOTHING {
      assert Entries(ts, g) == [];
    }
  }

  lemma AppendBalances(init: seq<Task>, t: Task, ts: seq<Task>)
    requires ts == init + [t] && Plausible(t)
    ensures Balance(Ledger(init, Guard), Ledger(init, LlmQueue), Ledger(init, VisionQueue), InTransit(init)) ==>
              Balance(Ledger(ts, Guard), Ledger(ts, LlmQueue), Ledger(ts, VisionQueue), InTransit(ts))
  {
    TaskBalances(t);
    LedgerAppend(init, t, Guard);
    LedgerAppend(init, t, LlmQueue);
    LedgerAppend(init, t, VisionQueue);
    assert ts[..|ts| - 1] == init;
    if Balance(Ledger(init, Guard), Ledger(init, LlmQueue), Ledger(init, VisionQueue), InTransit(init)) {
      BalancesAdd(Ledger(init, Guard), Ledger(init, LlmQueue), Ledger(init, VisionQueue), InTransit(init),
                  At(t, Guard), At(t, LlmQueue), At(t, VisionQueue), TransitOf(t));
    }
  }

  // ----- release, and where it fails ---------------------------------------------------

  predicate AtRest(t: Task) {
    t.stage.Arrived? || t.stage.Refused? || t.stage.Finished? || t.stage.Abandoned?
  }

  predicate LeftLocked(t: Task, g: GateId) {
    t.stage.Abandoned? && (if g == Guard then t.stage.guard else t.stage.queue && UsesQueue(t.kind, g))
  }

  /** The step cancels a request past the point where `except Exception` would have let go of
      the gate: the guard when the backend runs or the stream was handed out, the LLM queue
      when it is not `wait_for` itself that cancels. */
  predicate Drops(s: State, a: Action, g: GateId) {
    match a
    case WaitForTimeout(i) => g == Guard && i < |s.tasks| && s.tasks[i].stage.Running?
    case Cancel(i) =>
      g == LlmQueue || (g == Guard && i < |s.tasks| && (s.tasks[i].stage.Running? || s.tasks[i].stage.Handed?))
    case _ => false
  }

  /** Some step of the schedule did so. */
  ghost predicate Dropped(schedule: seq<Action>, g: GateId) {
    exists n :: DroppedAt(schedule, g, n)
  }

  predicate DroppedAt(schedule: seq<Action>, g: GateId, n: int) {
    0 <= n < |schedule| && Run(schedule[..n]).Some? && Drops(Run(schedule[..n]).value, schedule[n], g)
  }

  ghost predicate SomeLeftLocked(s: State, g: GateId) {
    exists i :: 0 <= i < |s.tasks| && LeftLocked(s.tasks[i], g)
  }

  lemma StepLeaves(s: State, a: Action, g: GateId)
    requires Enabled(s, a)
    ensures SomeLeftLocked(Next(s, a), g) <==> SomeLeftLocked(s, g) || Drops(s, a, g)
  {
    var t := Next(s, a);
    if i :| 0 <= i < |s.tasks| && LeftLocked(s.tasks[i], g) {
      assert t.tasks[i] == s.tasks[i];
    }
    if Drops(s, a, g) {
      assert LeftLocked(t.tasks[a.i], g);
    }
    if i :| 0 <= i < |t.tasks| && LeftLocked(t.tasks[i], g) {
      assert i < |s.tasks| && (t.tasks[i] == s.tasks[i] || Drops(s, a, g));
    }
  }

  lemma DroppedGrows(schedule: seq<Action>, g: GateId)
    requires schedule != []
    ensures var m := |schedule| - 1;
            Dropped(schedule, g) <==> Dropped(schedule[..m], g) || DroppedAt(schedule, g, m)
  {
    var m := |schedule| - 1;
    forall n | 0 <= n < m ensures DroppedAt(schedule[..m], g, n) <==> DroppedAt(schedule, g, n) {
      assert schedule[..m][..n] == schedule[..n];
    }
  }

  lemma {:induction false} LeftLockedIffDropped(schedule: seq<Action>, g: GateId)
    requires Run(schedule).Some?
    ensures SomeLeftLocked(Run(schedule).value, g) <==> Dropped(schedule, g)
  {
    if schedule != [] {
      var m := |schedule| - 1;
      LeftLockedIffDropped(schedule[..m], g);
      StepLeaves(Run(schedule[..m]).value, schedule[m], g);
      DroppedGrows(schedule, g);
    }
  }

  /** Once no request is in flight, a gate is locked exactly when some step of the schedule
      dropped it: the guard when a chat was timed out by `wait_for` or cancelled while its
      backend ran, or a stream was dropped after it was handed out; the LLM queue when a chat
      was cancelled or such a stream dropped at all; the vision queue never. */
  lemma AllReleasedIff(schedule: seq<Action>, g: GateId)
    requires Run(schedule).Some?
    requires forall i :: 0 <= i < |Run(schedule).value.tasks| ==> AtRest(Run(schedule).value.tasks[i])
    ensures BooksOf(Run(schedule).value, g).locked <==> Dropped(schedule, g)
    ensures g == VisionQueue ==> !BooksOf(Run(schedule).value, g).locked
  {
    LockedIffHeld(schedule, g);
    LeftLockedIffDropped(schedule, g);
    var s := Run(schedule).value;
    assert forall i :: 0 <= i < |s.tasks| ==> (Holds(s.tasks[i], g) <==> LeftLocked(s.tasks[i], g));
  }

  /** Such a lock is never freed again: from then on every request that reaches the gate
      is refused. */
  lemma {:induction false} LeftLockedForever(before: seq<Action>, after: seq<Action>, i: nat, g: GateId)
    requires Run(before).Some? && i < |Run(before).value.tasks| && LeftLocked(Run(before).value.tasks[i], g)
    requires Run(before + after).Some?
    ensures var s := Run(before + after).value;
            && i < |s.tasks| && s.tasks[i] == Run(before).value.tasks[i]
            && BooksOf(s, g).locked
            && BooksOf(s, g).accepted == BooksOf(Run(before).value, g).accepted
  {
    if after == [] {
      assert before + after == before;
    } else {
      var a := after[|after| - 1];
      var shorter := before + after[..|after| - 1];
      assert (before + after)[..|before + after| - 1] == shorter;
      LeftLockedForever(before, after[..|after| - 1], i, g);
      StepWhileLocked(Run(shorter).value, a, i, g);
    }
    HeldMeansLocked(before + after, i, g);
  }

  /** So one dropped lease closes its gate for good. */
  lemma DroppedStaysLocked(before: seq<Action>, after: seq<Action>, g: GateId)
    requires Run(before).Some? && Dropped(before, g) && Run(before + after).Some?
    ensures BooksOf(Run(before + after).value, g).locked
    ensures BooksOf(Run(before + after).value, g).accepted == BooksOf(Run(before).value, g).accepted
  {
    LeftLockedIffDropped(before, g);
    var i :| 0 <= i < |Run(before).value.tasks| && LeftLocked(Run(before).value.tasks[i], g);
    LeftLockedForever(before, after, i, g);
  }

  lemma HeldMeansLocked(schedule: seq<Action>, i: nat, g: GateId)
    requires Run(schedule).Some?
    requires i < |Run(schedule).value.tasks| && LeftLocked(Run(schedule).value.tasks[i], g)
    ensures BooksOf(Run(schedule).value, g).locked
  {
    LockedIffHeld(schedule, g);
    assert Holds(Run(schedule).value.tasks[i], g);
  }

  /** An abandoned task never moves again and a locked gate lets nobody in. */
  lemma StepWhileLocked(s: State, a: Action, i: nat, g: GateId)
    requires Enabled(s, a) && i < |s.tasks| && LeftLocked(s.tasks[i], g) && BooksOf(s, g).locked
    ensures i < |Next(s, a).tasks| && Next(s, a).tasks[i] == s.tasks[i]
    ensures BooksOf(Next(s, a), g).accepted == BooksOf(s, g).accepted
  {
  }

  lemma RunOneMore(schedule: seq<Action>, a: Action)
    requires Run(schedule).Some? && Enabled(Run(schedule).value, a)
    ensures Run(schedule + [a]) == Some(Next(Run(schedule).value, a))
  {
    assert (schedule + [a])[..|schedule|] == schedule;
  }

  lemma OneEntered(kind: Kind) returns (schedule: seq<Action>)
    requires kind == Chat || kind == ChatStream
    ensures schedule == [Arrive(kind), TryQueue(0), TryGuard(0)]
    ensures Run(schedule).Some?
    ensures var s := Run(schedule).value;
            s.tasks == [Task(kind, if kind == Chat then Running else Handed)] && s.guard.locked && s.llm.locked
  {
    schedule := [];
    RunOneMore(schedule, Arrive(kind));
    schedule := schedule + [Arrive(kind)];
    RunOneMore(schedule, TryQueue(0));
    schedule := schedule + [TryQueue(0)];
    assert Run(schedule).value.tasks == [Task(kind, Queued)];
    RunOneMore(schedule, TryGuard(0));
    schedule := schedule + [TryGuard(0)];
  }

  /** The leak is reachable: one chat whose `wait_for` expires while the model runs ... */
  lemma TimeoutLeavesGuardLocked() returns (schedule: seq<Action>)
    ensures schedule == [Arrive(Chat), TryQueue(0), TryGuard(0), WaitForTimeout(0)]
    ensures Run(schedule).Some?
    ensures var s := Run(schedule).value;
            s.tasks == [Task(Chat, Abandoned(false, true))] && s.guard.locked && !s.llm.locked
  {
    schedule := OneEntered(Chat);
    RunOneMore(schedule, WaitForTimeout(0));
    schedule := schedule + [WaitForTimeout(0)];
  }

  /** ... one chat that is cancelled there ... */
  lemma CancelledChatLeavesBothLocked() returns (schedule: seq<Action>)
    ensures schedule == [Arrive(Chat), TryQueue(0), TryGuard(0), Cancel(0)]
    ensures Run(schedule).Some?
    ensures var s := Run(schedule).value;
            s.tasks == [Task(Chat, Abandoned(true, true))] && s.guard.locked && s.llm.locked
  {
    schedule := OneEntered(Chat);
    RunOneMore(schedule, Cancel(0));
    schedule := schedule + [Cancel(0)];
  }

  /** ... and one streaming response that is dropped before its generator starts. */
  lemma DroppedStreamLeavesBothLocked() returns (schedule: seq<Action>)
    ensures schedule == [Arrive(ChatStream), TryQueue(0), TryGuard(0), Cancel(0)]
    ensures Run(schedule).Some?
    ensures var s := Run(schedule).value;
            s.tasks == [Task(ChatStream, Abandoned(true, true))] && s.guard.locked && s.llm.locked
  {
    schedule := OneEntered(ChatStream);
    RunOneMore(schedule, Cancel(0));
    schedule := schedule + [Cancel(0)];
  }
}
