/** The request handlers as one uninterrupted call each: a per-kind queue nested
    around the global NPU guard. `Admission` interleaves the same steps. */
module Handlers {
  import opened Wrappers
  import opened Gates

  datatype NpuHolder = NpuHolder(task: string, owner: string, model: string)

  /** How the backend call ends: a result, a TimeoutError, or any other exception. */
  datatype Outcome = Returned | TimedOut | Raised

  datatype Reply = Answered | QueueBusy | NpuBusy | GatewayTimeout | BackendError

  /** The two sets of books and the reply after one request that nothing interleaves. */
  function Served(queue: Books, guard: Books, o: Outcome): (r: (Books, Books, Reply)) {
    if queue.locked then (queue.Acquire(), guard, QueueBusy)
    else if guard.locked then (queue.Acquire().Finish(false), guard.Acquire(), NpuBusy)
    else
      var entered := if o == TimedOut then queue.Acquire().Timeout() else queue.Acquire();
      (entered.Finish(o == Returned), guard.Acquire().Finish(o == Returned),
       match o case Returned => Answered case TimedOut => GatewayTimeout case Raised => BackendError)
  }

  /** One request leaves both locks as it found them and is booked once on each gate it
      reached, on the same side of both. */
  lemma ServedIsNeutral(queue: Books, guard: Books, o: Outcome)
    requires queue.Balanced() && guard.Balanced()
    ensures var (q, g, reply) := Served(queue, guard, o);
            && q.Balanced() && g.Balanced()
            && q.locked == queue.locked && g.locked == guard.locked
            && q.accepted - queue.accepted == g.total - guard.total
            && q.completed - queue.completed == g.completed - guard.completed
            && q.failed - queue.failed == (g.failed - guard.failed) + (g.rejected - guard.rejected)
            && q.timeouts == queue.timeouts + (if reply == GatewayTimeout then 1 else 0) && g.timeouts == guard.timeouts
            && (reply == GatewayTimeout <==> !queue.locked && !guard.locked && o == TimedOut)
            && (reply == BackendError <==> !queue.locked && !guard.locked && o == Raised)
            && (reply == Answered <==> q.completed == queue.completed + 1)
            && (reply == QueueBusy <==> q.rejected == queue.rejected + 1)
            && (reply == NpuBusy <==> g.rejected == guard.rejected + 1)
  {
  }

  /** `_run_backend_with_npu_guard` and `_generate_with_npu_guard`. */
  method RunGuarded(guard: Gate<NpuHolder>, who: NpuHolder, o: Outcome) returns (r: Result<Outcome, Busy>)
    requires guard.Valid()
    modifies guard, guard.leases
    ensures guard.Valid() && fresh(guard.leases - old(guard.leases))
    ensures r == if old(guard.locked) then Failure(Busy) else Success(o)
    ensures guard.View() == if old(guard.locked) then old(guard.View()).Acquire()
                            else old(guard.View()).Acquire().Finish(o == Returned)
  {
    var acquired := guard.AcquireNowait(who);
    if acquired.Failure? {
      return Failure(Busy);
    }
    guard.FinishLease(acquired.value, if o == Returned then None else Some("backend failed"));
    return Success(o);
  }

  /** `run_nowait` of either queue with the guarded backend call as its task. */
  method RunNowait(queue: Gate<string>, guard: Gate<NpuHolder>, model: string, who: NpuHolder, o: Outcome)
    returns (reply: Reply)
    requires queue.Valid() && guard.Valid() && queue.leases !! guard.leases
    modifies queue, queue.leases, guard, guard.leases
    ensures queue.Valid() && guard.Valid() && queue.leases !! guard.leases
    ensures (queue.View(), guard.View(), reply) == Served(old(queue.View()), old(guard.View()), o)
  {
    var entered := queue.AcquireNowait(model);
    if entered.Failure? {
      return QueueBusy;
    }
    var lease := entered.value;
    var result := RunGuarded(guard, who, o);
    if result.Failure? {
      queue.FinishLease(lease, Some("NPU resource is busy"));
      return NpuBusy;
    }
    match result.value {
      case Returned =>
        queue.FinishLease(lease, None);
        return Answered;
      case TimedOut =>
        queue.CountTimeout();
        queue.FinishLease(lease, Some("timeout"));
        return GatewayTimeout;
      case Raised =>
        queue.FinishLease(lease, Some("backend failed"));
        return BackendError;
    }
  }

  /** The guard's books after one VLM request that nothing interleaves. */
  function ServedVlm(guard: Books, o: Outcome): Books {
    if guard.locked then guard.Acquire() else guard.Acquire().Finish(o == Returned)
  }

  /** `Qwen3VLBackend.generate`: no queue, and a failure while building the answer after
      a successful inference finds the lease already released. */
  method GenerateVlm(guard: Gate<NpuHolder>, who: NpuHolder, o: Outcome, buildFails: bool) returns (reply: Reply)
    requires guard.Valid()
    modifies guard, guard.leases
    ensures guard.Valid()
    ensures guard.View() == ServedVlm(old(guard.View()), o)
    ensures reply == if old(guard.locked) then NpuBusy
                     else if o == TimedOut then GatewayTimeout
                     else if o == Raised || buildFails then BackendError
                     else Answered
  {
    var acquired := guard.AcquireNowait(who);
    if acquired.Failure? {
      return NpuBusy;
    }
    var lease := acquired.value;
    if o == TimedOut {
      guard.FinishLease(lease, Some("timeout"));
      return GatewayTimeout;
    }
    if o == Returned {
      guard.FinishLease(lease, None);
      if !buildFails {
        return Answered;
      }
    }
    if !lease.released {
      guard.FinishLease(lease, Some("VLM request failed"));
    }
    return BackendError;
  }
}
