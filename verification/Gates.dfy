/** The NPU resource guard and the two request queues keep the same books around a
    lock of capacity one. `Gate` is their common form: the LLM queue keeps it on the
    event loop, the vision queue and the guard under a statistics lock. */
module Gates {
  import opened Wrappers

  /** The counters a gate reports, and whether its lock is held. */
  datatype Books = Books(locked: bool, total: nat, accepted: nat, rejected: nat,
                         completed: nat, failed: nat, timeouts: nat)
  {
    function Acquire(): Books {
      if locked then this.(total := total + 1, rejected := rejected + 1)
      else this.(total := total + 1, accepted := accepted + 1, locked := true)
    }

    function Finish(ok: bool): Books {
      if ok then this.(completed := completed + 1, locked := false)
      else this.(failed := failed + 1, locked := false)
    }

    function Timeout(): Books {
      this.(timeouts := timeouts + 1)
    }

    predicate Balanced() {
      && total == accepted + rejected
      && accepted == completed + failed + (if locked then 1 else 0)
    }
  }

  const CLOSED_BOOKS := Books(false, 0, 0, 0, 0, 0, 0)

  datatype Busy = Busy

  class Lease {
    var released: bool

    constructor ()
      ensures !released
    {
      released := false;
    }
  }

  /** `H` describes the current holder: task, model and owner for the guard, the model
      for a queue. */
  class Gate<H> {
    var locked: bool
    var total: nat
    var accepted: nat
    var rejected: nat
    var completed: nat
    var failed: nat
    var timeouts: nat
    var current: Option<H>
    var lastError: Option<string>
    ghost var leases: set<Lease>  // every lease handed out
    ghost var holder: Lease?      // the one not yet finished

    /** The lock is held exactly while one handed-out lease is unreleased. */
    ghost predicate Valid()
      reads this, leases
    {
      && View().Balanced()
      && locked == (holder != null)
      && (holder != null ==> holder in leases)
      && (forall l :: l in leases ==> (!l.released <==> l == holder))
      && (current.Some? ==> locked)
    }

    function View(): Books
      reads this
    {
      Books(locked, total, accepted, rejected, completed, failed, timeouts)
    }

    constructor ()
      ensures leases == {}
      ensures Valid() && View() == CLOSED_BOOKS && holder == null
    {
      locked := false;
      total, accepted, rejected, completed, failed, timeouts := 0, 0, 0, 0, 0, 0;
      current, lastError := None, None;
      leases, holder := {}, null;
    }

    method AcquireNowait(who: H) returns (r: Result<Lease, Busy>)
      requires Valid()
      modifies this
      ensures Valid() && View() == old(View()).Acquire()
      ensures r.Success? <==> !old(locked)
      ensures r.Success? ==>
                fresh(r.value) && holder == r.value && leases == old(leases) + {r.value}
                && current == Some(who) && lastError == None
      ensures r.Failure? ==>
                holder == old(holder) && leases == old(leases) && current == old(current) && lastError.Some?
    {
      total := total + 1;
      if locked {
        rejected := rejected + 1;
        lastError := Some("busy");
        return Failure(Busy);
      }
      locked := true;
      accepted := accepted + 1;
      current, lastError := Some(who), None;
      var lease := new Lease();
      leases, holder := leases + {lease}, lease;
      return Success(lease);
    }

    /** Finishing a lease again, or after it was finished, changes nothing at all. */
    method FinishLease(lease: Lease, error: Option<string>)
      requires Valid() && lease in leases
      modifies this, lease
      ensures Valid() && leases == old(leases) && lease.released
      ensures old(lease.released) ==> unchanged(this) && unchanged(lease)
      ensures !old(lease.released) ==>
                View() == old(View()).Finish(error.None?) && holder == null && current == None && lastError == error
    {
      if lease.released {
        return;
      }
      lease.released := true;
      if error.None? {
        completed := completed + 1;
      } else {
        failed := failed + 1;
      }
      lastError := error;
      current := None;
      if locked {
        locked := false;
      }
      holder := null;
    }

    method CountTimeout()
      requires Valid()
      modifies this`timeouts
      ensures Valid() && View() == old(View()).Timeout()
    {
      timeouts := timeouts + 1;
    }
  }
}
