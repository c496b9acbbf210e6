/**
 The persister and the save of a transition as the code runs them
 (payjoin/src/core/persist.rs): calls that append to `events`, set `isClosed` and may fail.
 */
module Persisters {
  import opened Wrappers
  import opened Persist
  import Spec = Persist

  /** A persister whose n-th call behaves as `fault(n)` says. */
  class Persister<E> {
    var events: seq<E>
    var isClosed: bool
    var calls: nat
    const fault: nat -> Fault

    constructor (fault: nat -> Fault)
      ensures Abs() == Log([], false) && calls == 0 && this.fault == fault
    {
      events, isClosed, calls, this.fault := [], false, 0, fault;
    }

    /** The in-memory persister: no call ever fails. */
    constructor InMemory()
      ensures Abs() == Log([], false) && forall n :: fault(n) == Works
    {
      events, isClosed, calls, fault := [], false, 0, n => Works;
    }

    function Abs(): Log<E>
      reads this
    {
      Log(events, isClosed)
    }

    method SaveEvent(event: E) returns (ok: bool)
      modifies this
      ensures (Abs(), ok) == Spec.SaveEvent(old(Abs()), event, fault(old(calls)))
      ensures calls == old(calls) + 1
    {
      var f := fault(calls);
      calls := calls + 1;
      if !f.FailsBefore? {
        events := events + [event];
      }
      return f.Works?;
    }

    method Close() returns (ok: bool)
      modifies this
      ensures (Abs(), ok) == Spec.Close(old(Abs()), fault(old(calls)))
      ensures calls == old(calls) + 1
    {
      var f := fault(calls);
      calls := calls + 1;
      if !f.FailsBefore? {
        isClosed := true;
      }
      return f.Works?;
    }
  }

  /** Stops at the first call that reports failure: a failed save is never followed by a close. */
  method Execute<E>(actions: PersistActions<E>, persister: Persister<E>) returns (ok: bool)
    modifies persister
    ensures (persister.Abs(), ok) == Spec.Execute(old(persister.Abs()), actions,
      persister.fault(old(persister.calls)), persister.fault(old(persister.calls) + 1))
  {
    match actions
    case NoOp =>
      return true;
    case Save(event) =>
      ok := persister.SaveEvent(event);
    case SaveAndClose(event) =>
      ok := persister.SaveEvent(event);
      if !ok {
        return false;
      }
      ok := persister.Close();
  }

  method SaveTo<E, S, V, X>(t: Transition<E, S, V, X>, persister: Persister<E>) returns (saved: Saved<S, V, X>)
    modifies persister
    ensures (persister.Abs(), saved) == SaveTransition(old(persister.Abs()), t,
      persister.fault(old(persister.calls)), persister.fault(old(persister.calls) + 1))
  {
    var (actions, outcome) := Deconstruct(t);
    var ok := Execute(actions, persister);
    if !ok {
      return StorageError;
    }
    return Saved.Outcome(outcome);
  }
}
