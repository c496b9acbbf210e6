/** The size of the mailbox store over every run. */
module MailboxBounds {
  import opened Wrappers
  import opened Disk
  import opened MailboxSpec
  import opened MailboxRuns
  import opened MailboxSteps
  import opened Basics

  lemma {:induction false} IdsOfSize(q: Queue)
    ensures |IdsOf(q)| <= |q|
    decreases |q|
  {
    if q != [] {
      var n := |q| - 1;
      IdsOfSize(q[..n]);
      IdsOfNext(q, n);
      assert q[..n + 1] == q;
    }
  }

  lemma PruneShrinks(s: Store, w: Handles, now: Time)
    ensures Len(Prune(s, w, now)) <= Len(s)
    ensures Prune(s, w, now).capacity == s.capacity
  {
    var d := DropWaits(s, w);
    assert d.v2.Keys == s.v2.Keys - Abandoned(s, w);
    SubsetSize(d.v2.Keys, s.v2.Keys);
  }

  // Room left means the operation may fill the store up to its capacity, and no further.
  function Ceiling(s: Store): nat {
    if HasRoom(s) then s.capacity else Len(s)
  }

  lemma JoinSize(s: Store, id: ShortId)
    ensures Len(JoinWait(s, id).0) <= Ceiling(s)
  {}

  lemma MailSize(s: Store, id: ShortId, payload: Bytes, now: Time)
    ensures Len(StoreMail(s, id, payload, now).0) <= Ceiling(s)
  {
    if id in s.v2 {
      assert (s.v2 - {id}).Keys == s.v2.Keys - {id};
    }
  }

  lemma OfferSize(s: Store, id: ShortId, payload: Bytes)
    ensures Len(OfferV1(s, id, payload).0) <= Ceiling(s)
  {
    if HasRoom(s) {
      var (claimed, _) := ClaimSlot(s, id, payload);
      assert |claimed.v1| <= |s.v1| + 1;
      if id in claimed.v2 {
        var notified := Notify(claimed, id, payload);
        assert notified.v2.Keys == claimed.v2.Keys - {id};
        assert TakePayload(notified, id).v1.Keys == claimed.v1.Keys;
      }
    }
  }

  lemma RemoveSize<K, V>(m: map<K, V>, k: K)
    ensures |m - {k}| <= |m|
  {
    SubsetSize((m - {k}).Keys, m.Keys);
  }

  lemma ReadSize(s: Store, id: ShortId)
    ensures Len(MailboxSpec.Read(s, id).0) == Len(s)
  {
    assert MailboxSpec.Read(s, id).0.v1.Keys == s.v1.Keys;
  }

  lemma CleanWaitSize(s: Store, w: Handles, id: ShortId)
    ensures Len(CleanWait(s, w, id)) <= Len(s)
  {
    RemoveSize(s.v2, id);
  }

  lemma FreeSlotSize(s: Store, live: set<nat>, id: ShortId, payload: Bytes)
    ensures Len(PostV1Res(s, live, id, payload).0) <= Len(s)
    ensures Len(CleanSlot(s, id)) <= Len(s)
  {
    RemoveSize(s.v1, id);
  }

  lemma PostSize(s: Sys, step: Step)
    requires Enabled(s, step) && (step.V2Post? || step.V1Post?)
    ensures Len(Exec(s, step).store) <= Ceiling(PruneSys(s, step.now).store)
  {
    var p := PruneSys(s, step.now);
    if step.V2Post? {
      PostStore(s, step.id, step.payload, step.now);
      MailSize(p.store, step.id, step.payload, step.now);
    } else {
      OfferStore(s, step.t, step.id, step.payload, step.now);
      OfferSize(p.store, step.id, step.payload);
    }
  }

  lemma EnterSize(s: Sys, step: Step)
    requires Enabled(s, step) && step.ReaderEnter?
    ensures Len(Exec(s, step).store) <= Ceiling(PruneSys(s, step.now).store)
            || Len(Exec(s, step).store) == Len(s.store)
  {
    ReadSize(s.store, step.id);
    JoinSize(PruneSys(s, step.now).store, step.id);
  }

  lemma ReleaseSize(s: Sys, step: Step)
    requires Enabled(s, step) && !step.ReaderEnter? && !step.V2Post? && !step.V1Post? && !step.PruneTick?
    ensures Len(Exec(s, step).store) <= Len(s.store)
  {
    match step
    case ReaderClean(t) => CleanWaitSize(s.store, HandlesOf(s.tasks), s.tasks[t].id);
    case SenderClean(t) => FreeSlotSize(s.store, {}, s.tasks[t].id, []);
    case V1Respond(id, payload) => FreeSlotSize(s.store, LiveSenders(s.tasks), id, payload);
    case _ =>
  }

  lemma CapacityFixed(s: Sys, step: Step)
    requires Enabled(s, step)
    ensures Exec(s, step).store.capacity == s.store.capacity
  {
    if step.V2Post? {
      PostStore(s, step.id, step.payload, step.now);
      PostCapacity(PruneSys(s, step.now).store, step.id, step.payload, step.now);
    } else {
      OtherStepsMail(s, step);
    }
  }

  lemma PostCapacity(s: Store, id: ShortId, payload: Bytes, now: Time)
    ensures StoreMail(s, id, payload, now).0.capacity == s.capacity
  {}

  lemma ExecSize(s: Sys, step: Step)
    requires Enabled(s, step)
    ensures Exec(s, step).store.capacity == s.store.capacity
    ensures var before, after := s.store, Exec(s, step).store;
            || |after.order| + |after.v1| + |after.v2| <= |before.order| + |before.v1| + |before.v2|
            || |after.order| + |after.v1| + |after.v2| <= before.capacity
  {
    CapacityFixed(s, step);
    if step.ReaderEnter? || step.V2Post? || step.V1Post? || step.PruneTick? {
      PruneShrinks(s.store, HandlesOf(s.tasks), step.now);
      if step.ReaderEnter? {
        EnterSize(s, step);
      } else if !step.PruneTick? {
        PostSize(s, step);
      }
    } else {
      ReleaseSize(s, step);
    }
  }

  lemma {:induction false} RunSize(s: Sys, steps: seq<Step>)
    requires IsRun(s, steps)
    ensures Len(End(s, steps).store) <= Len(s.store) || Len(End(s, steps).store) <= s.store.capacity
    decreases |steps|
  {
    if steps != [] {
      ExecSize(s, steps[0]);
      RunSize(Exec(s, steps[0]), steps[1..]);
    }
  }

  /**
   Every reachable store is bounded by its capacity or by what was on disk at start-up,
   whichever is larger, and the mailboxes on disk obey the same bound.
   */
  lemma StoreBounded(s: Sys, steps: seq<Step>)
    requires Start(s) && IsRun(s, steps)
    ensures var e := End(s, steps).store;
            var bound := if s.store.capacity < |s.store.order| then |s.store.order| else s.store.capacity;
            |e.order| + |e.v1| + |e.v2| <= bound && |e.files| <= bound
  {
    StartInv(s);
    RunKeeps(s, steps);
    RunSize(s, steps);
    var e := End(s, steps).store;
    SubsetSize(e.files.Keys, IdsOf(e.order));
    IdsOfSize(e.order);
  }
}
