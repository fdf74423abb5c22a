/** What the guard is for: no two backends compute on the NPU at once. `Admission` says who
    holds the guard; here every task also has a backend, which may go on computing after the
    call to it was cancelled or timed out. */
module NpuUse {
  import opened Wrappers
  import A = Admission

  /** `computing` holds the tasks whose backend is at work. */
  datatype State = State(base: A.State, computing: set<nat>)

  const INIT := State(A.INIT, {})

  datatype Action =
    | Step(a: A.Action, lingers: bool)   // an admission step; `lingers` if the backend goes on without its caller
    | Settle(i: nat)                     // a backend without a caller is done

  /** A backend outlives its call when the call is cancelled, times out or fails first. */
  predicate CanLinger(s: A.State, a: A.Action) {
    match a
    case BackendEnds(_, e) => e != A.Returned
    case WaitForTimeout(i) => i < |s.tasks| && s.tasks[i].stage.Running?
    case Cancel(i) => i < |s.tasks| && s.tasks[i].stage.Running?
    case _ => false
  }

  predicate Runs(s: A.State, i: nat) {
    i < |s.tasks| && s.tasks[i].stage.Running?
  }

  predicate Enabled(s: State, a: Action) {
    match a
    case Step(b, lingers) => A.Enabled(s.base, b) && (lingers ==> CanLinger(s.base, b))
    case Settle(i) => i in s.computing && !Runs(s.base, i)
  }

  /** The backend starts when its task gets to run, and stops when the task ceases to, unless
      it lingers. */
  function Computing(s: State, t: A.State, i: nat, lingers: bool): set<nat> {
    if Runs(t, i) then s.computing + {i}
    else if Runs(s.base, i) && !lingers then s.computing - {i}
    else s.computing
  }

  function Next(s: State, a: Action): State
    requires Enabled(s, a)
  {
    match a
    case Step(b, lingers) =>
      var t := A.Next(s.base, b);
      State(t, if b.Arrive? then s.computing else Computing(s, t, b.i, lingers))
    case Settle(i) => s.(computing := s.computing - {i})
  }

  function Run(schedule: seq<Action>): Option<State> {
    if schedule == [] then Some(INIT)
    else
      match Run(schedule[..|schedule| - 1])
      case None => None
      case Some(s) =>
        var a := schedule[|schedule| - 1];
        if Enabled(s, a) then Some(Next(s, a)) else None
  }

  /** The admission steps of a schedule. */
  function Steps(schedule: seq<Action>): seq<A.Action> {
    if schedule == [] then []
    else
      var a := schedule[|schedule| - 1];
      Steps(schedule[..|schedule| - 1]) + (if a.Step? then [a.a] else [])
  }

  lemma {:induction false} StepsRun(schedule: seq<Action>)
    requires Run(schedule).Some?
    ensures A.Run(Steps(schedule)) == Some(Run(schedule).value.base)
  {
    if schedule != [] {
      var m := |schedule| - 1;
      StepsRun(schedule[..m]);
      if schedule[m].Step? {
        A.RunOneMore(Steps(schedule[..m]), schedule[m].a);
      } else {
        assert Steps(schedule) == Steps(schedule[..m]);
      }
    }
  }

  // ----- when a free guard means an idle NPU -------------------------------------------------

  ghost predicate IdleWhenFree(s: State) {
    !s.base.guard.locked ==> s.computing == {}
  }

  ghost predicate AlwaysIdleWhenFree(schedule: seq<Action>) {
    forall n :: 0 <= n <= |schedule| && Run(schedule[..n]).Some? ==> IdleWhenFree(Run(schedule[..n]).value)
  }

  /** The guard is released for a task whose backend is still at work. */
  predicate Overlooks(s: State, a: Action) {
    Enabled(s, a) && a.Step? && a.a.ReleaseGuard? && a.a.i in s.computing
  }

  ghost predicate Careful(schedule: seq<Action>) {
    forall n :: 0 <= n < |schedule| && Run(schedule[..n]).Some? ==> !Overlooks(Run(schedule[..n]).value, schedule[n])
  }

  /** Whoever computes holds the guard. */
  ghost predicate Covered(s: State) {
    forall i :: i in s.computing ==> i < |s.base.tasks| && A.Holds(s.base.tasks[i], A.Guard)
  }

  lemma StepKeepsCovered(s: State, a: Action)
    requires Covered(s) && Enabled(s, a) && !Overlooks(s, a)
    ensures Covered(Next(s, a))
  {
  }

  lemma CarefulPrefix(schedule: seq<Action>, n: nat)
    requires Careful(schedule) && n <= |schedule|
    ensures Careful(schedule[..n])
  {
    forall k | 0 <= k < n ensures schedule[..n][..k] == schedule[..k] {
    }
  }

  lemma {:induction false} CarefulIsCovered(schedule: seq<Action>)
    requires Careful(schedule) && Run(schedule).Some?
    ensures Covered(Run(schedule).value)
  {
    if schedule != [] {
      var m := |schedule| - 1;
      CarefulPrefix(schedule, m);
      CarefulIsCovered(schedule[..m]);
      StepKeepsCovered(Run(schedule[..m]).value, schedule[m]);
    }
  }

  lemma CoveredIsIdleWhenFree(schedule: seq<Action>)
    requires Run(schedule).Some? && Covered(Run(schedule).value)
    ensures IdleWhenFree(Run(schedule).value)
  {
    var s := Run(schedule).value;
    StepsRun(schedule);
    A.LockedIffHeld(Steps(schedule), A.Guard);
    if i :| i in s.computing {
      assert A.Holds(s.base.tasks[i], A.Guard);
    }
  }

  /** At most one backend computes at a time, in every run in which the guard is never released
      for a task whose backend is still at work. */
  lemma OneBackendAtATime(schedule: seq<Action>, i: nat, j: nat)
    requires Careful(schedule) && Run(schedule).Some?
    requires i in Run(schedule).value.computing && j in Run(schedule).value.computing
    ensures i == j
  {
    CarefulIsCovered(schedule);
    StepsRun(schedule);
    A.MutualExclusion(Steps(schedule), i, j, A.Guard);
  }

  lemma OverlookedShows(schedule: seq<Action>, n: nat)
    requires n < |schedule| && Run(schedule[..n]).Some? && Overlooks(Run(schedule[..n]).value, schedule[n])
    ensures !AlwaysIdleWhenFree(schedule)
  {
    var s, a := Run(schedule[..n]).value, schedule[n];
    assert schedule[..n + 1][..n] == schedule[..n];
    assert Run(schedule[..n + 1]) == Some(Next(s, a));
    assert a.a.i in Next(s, a).computing && !Next(s, a).base.guard.locked;
  }

  /** A free guard means an idle NPU throughout a run exactly when the guard is never released
      for a task whose backend is still at work. */
  lemma IdleIffCareful(schedule: seq<Action>)
    ensures AlwaysIdleWhenFree(schedule) <==> Careful(schedule)
  {
    if Careful(schedule) {
      forall n | 0 <= n <= |schedule| && Run(schedule[..n]).Some? ensures IdleWhenFree(Run(schedule[..n]).value) {
        CarefulPrefix(schedule, n);
        CarefulIsCovered(schedule[..n]);
        CoveredIsIdleWhenFree(schedule[..n]);
      }
    } else {
      var n :| 0 <= n < |schedule| && Run(schedule[..n]).Some? && Overlooks(Run(schedule[..n]).value, schedule[n]);
      OverlookedShows(schedule, n);
    }
  }

  /** In particular when no backend outlives an ordinary end of its call. A cancelled or timed
      out chat may leave its backend at work: it keeps the guard. */
  lemma NoLingeringIsCareful(schedule: seq<Action>)
    requires forall n :: 0 <= n < |schedule| && schedule[n].Step? && schedule[n].a.BackendEnds? ==> !schedule[n].lingers
    ensures Careful(schedule)
  {
    forall n | 0 <= n < |schedule| && Run(schedule[..n]).Some?
      ensures !Overlooks(Run(schedule[..n]).value, schedule[n])
    {
      MarkedIsDone(schedule[..n]);
    }
  }

  /** A task at work is running, or was abandoned while it ran. */
  predicate AtWork(s: A.State, i: nat) {
    i < |s.tasks| && (s.tasks[i].stage.Running? || s.tasks[i].stage.Abandoned?)
  }

  lemma {:induction false} MarkedIsDone(schedule: seq<Action>)
    requires forall n :: 0 <= n < |schedule| && schedule[n].Step? && schedule[n].a.BackendEnds? ==> !schedule[n].lingers
    requires Run(schedule).Some?
    ensures var s := Run(schedule).value;
            forall i :: i in s.computing ==> AtWork(s.base, i)
  {
    if schedule != [] {
      var m := |schedule| - 1;
      MarkedIsDone(schedule[..m]);
      StaysAtWork(Run(schedule[..m]).value, schedule[m]);
    }
  }

  lemma StaysAtWork(s: State, a: Action)
    requires Enabled(s, a) && (a.Step? && a.a.BackendEnds? ==> !a.lingers)
    requires forall i :: i in s.computing ==> AtWork(s.base, i)
    ensures var t := Next(s, a); forall i :: i in t.computing ==> AtWork(t.base, i)
  {
  }

  lemma RunOneMore(schedule: seq<Action>, s: State, a: Action) returns (longer: seq<Action>, t: State)
    requires Run(schedule) == Some(s) && Enabled(s, a)
    ensures longer == schedule + [a] && t == Next(s, a) && Run(longer) == Some(t)
  {
    longer, t := schedule + [a], Next(s, a);
    assert longer[..|schedule|] == schedule;
  }

  /** It does happen: a stream is cancelled while its backend computes, the guard is released,
      and a VLM request that comes next computes beside it. */
  lemma CancelledStreamComputesOn() returns (schedule: seq<Action>)
    ensures Run(schedule).Some? && Run(schedule).value.computing == {0, 1}
    ensures Run(schedule).value.base.tasks == [A.Task(A.ChatStream, A.Unguarded(A.Raised)), A.Task(A.Vlm, A.Running)]
  {
    var s;
    schedule, s := StreamRuns();
    schedule, s := RunOneMore(schedule, s, Step(A.BackendEnds(0, A.Raised), true));
    assert s.base.tasks == [A.Task(A.ChatStream, A.Marked(A.Raised))] && s.computing == {0};
    schedule, s := RunOneMore(schedule, s, Step(A.ReleaseGuard(0), false));
    assert s.base.tasks == [A.Task(A.ChatStream, A.Unguarded(A.Raised))];
    schedule, s := RunOneMore(schedule, s, Step(A.Arrive(A.Vlm), false));
    schedule, s := RunOneMore(schedule, s, Step(A.TryGuard(1), false));
  }

  lemma StreamRuns() returns (schedule: seq<Action>, s: State)
    ensures Run(schedule) == Some(s) && s.computing == {0}
    ensures s.base.tasks == [A.Task(A.ChatStream, A.Running)] && s.base.guard.locked
  {
    schedule, s := StreamQueued([]);
    schedule, s := RunOneMore(schedule, s, Step(A.TryGuard(0), false));
    assert s.base.tasks == [A.Task(A.ChatStream, A.Handed)];
    schedule, s := RunOneMore(schedule, s, Step(A.StartStream(0), false));
  }

  lemma StreamQueued(none: seq<Action>) returns (schedule: seq<Action>, s: State)
    requires none == []
    ensures Run(schedule) == Some(s) && s.computing == {}
    ensures s.base.tasks == [A.Task(A.ChatStream, A.Queued)] && !s.base.guard.locked
  {
    schedule, s := RunOneMore(none, INIT, Step(A.Arrive(A.ChatStream), false));
    assert s.base.tasks == [A.Task(A.ChatStream, A.Arrived)];
    schedule, s := RunOneMore(schedule, s, Step(A.TryQueue(0), false));
  }
}
