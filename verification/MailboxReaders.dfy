/**
 Readers and v1 requests over every run of the mailbox store: no reader is stranded, readers
 get accepted payloads only, plaintext leaves memory once, and no entry outlives its request.
 */
module MailboxReaders {
  import opened Wrappers
  import opened Disk
  import opened MailboxSpec
  import opened MailboxRuns
  import opened MailboxSteps

  // ----- readers -----

  /**
   In every interleaving a task still waiting on an id either holds the very channel stored
   for that id, or its channel already carries a payload accepted for that id. A waiter's
   channel is never closed without a payload.
   */
  lemma NoReaderStranded(e: Sys, t: nat)
    requires Reachable(e) && t in e.tasks && e.tasks[t].ReaderWaiting?
    ensures var ReaderWaiting(id, c) := e.tasks[t];
            && c < |e.store.cells2|
            && !e.store.cells2[c].Dropped?
            && (e.store.cells2[c].Empty? ==> id in e.store.v2 && e.store.v2[id] == c)
            && (e.store.cells2[c].Sent? ==> (id, e.store.cells2[c].value) in e.accepted)
  {
    ReachableInv(e);
    assert TaskInv(e, e.tasks[t]);
  }

  /** An id waited on has no v1 slot and no stored mailbox. */
  lemma PendingKeysDisjoint(e: Sys)
    requires Reachable(e)
    ensures e.store.v2.Keys !! e.store.v1.Keys && e.store.v2.Keys !! e.store.files.Keys
  {
    ReachableInv(e);
  }

  /** A reader only ever returns a payload that was accepted for the id it asked for. */
  lemma ReadersGetAcceptedPayloads(e: Sys, t: nat)
    requires Reachable(e) && t in e.tasks && e.tasks[t].ReaderDone? && e.tasks[t].got.Payload?
    ensures (e.tasks[t].id, e.tasks[t].got.bytes) in e.accepted
  {
    ReachableInv(e);
    assert TaskInv(e, e.tasks[t]);
  }

  lemma OfferToTakenSlot(s: Store, id: ShortId, payload: Bytes)
    requires id in s.v1 && id !in s.v2
    ensures OfferV1(s, id, payload) == (s, if HasRoom(s) then Ok(None) else Err(OverCapacity))
  {}

  /**
   A second v1 request on a claimed slot is turned away and its payload goes nowhere: apart
   from the pruning every request begins with, the store is unchanged.
   */
  lemma RejectedOfferGoesNowhere(e: Sys, t: nat, id: ShortId, payload: Bytes, now: Time)
    requires Reachable(e) && Enabled(e, V1Post(t, id, payload, now)) && id in e.store.v1
    ensures Exec(e, V1Post(t, id, payload, now)) == Move(PruneSys(e, now), t, SenderDone(id, Rejected))
  {
    ReachableInv(e);
    OfferToTakenSlot(PruneSys(e, now).store, id, payload);
  }

  /** A post that is accepted leaves no reader of that id waiting on an empty channel. */
  lemma AcceptedPostServesEveryReader(e: Sys, id: ShortId, payload: Bytes, now: Time, t: nat)
    requires Reachable(e) && Enabled(e, V2Post(id, payload, now))
    requires PostV2(e.store, HandlesOf(e.tasks), id, payload, now).1 == Ok(Some(()))
    requires t in e.tasks && e.tasks[t].ReaderWaiting? && e.tasks[t].id == id
    ensures Enabled(Exec(e, V2Post(id, payload, now)), ReaderReceive(t))
  {
    ReachableInv(e);
    PruneKeeps(e, now);
    var p := PruneSys(e, now);
    PostStore(e, id, payload, now);
    assert TaskInv(p, p.tasks[t]);
    PostServes(p.store, id, payload, now, e.tasks[t].chan);
  }

  lemma PostServes(s: Store, id: ShortId, payload: Bytes, now: Time, c: nat)
    requires StoreMail(s, id, payload, now).1 == Ok(Some(()))
    requires c < |s.cells2| && !s.cells2[c].Dropped?
    requires s.cells2[c].Empty? ==> id in s.v2 && s.v2[id] == c
    ensures c < |StoreMail(s, id, payload, now).0.cells2|
    ensures StoreMail(s, id, payload, now).0.cells2[c].Sent?
  {
    StoreMailSplit(s, id, payload, now);
  }

  lemma OfferServes(s: Store, id: ShortId, payload: Bytes, c: nat)
    requires HasRoom(s) && c < |s.cells2| && !s.cells2[c].Dropped?
    requires s.cells2[c].Empty? ==> id in s.v2 && s.v2[id] == c
    ensures c < |OfferV1(s, id, payload).0.cells2|
    ensures OfferV1(s, id, payload).0.cells2[c].Sent?
  {}

  lemma OfferServesReader(s: Sys, u: nat, id: ShortId, payload: Bytes, t: nat)
    requires HasRoom(s.store) && u !in s.tasks
    requires t in s.tasks && s.tasks[t].ReaderWaiting? && s.tasks[t].id == id && TaskInv(s, s.tasks[t])
    ensures Enabled(OfferSys(s, u, id, payload), ReaderReceive(t))
  {
    OfferServes(s.store, id, payload, s.tasks[t].chan);
    OfferSysStore(s, u, id, payload);
  }

  /** So does a v1 request that finds room: its plaintext goes to the readers waiting on its id. */
  lemma AcceptedOfferServesEveryReader(e: Sys, u: nat, id: ShortId, payload: Bytes, now: Time, t: nat)
    requires Reachable(e) && Enabled(e, V1Post(u, id, payload, now))
    requires PostV1(e.store, HandlesOf(e.tasks), id, payload, now).1.Ok?
    requires t in e.tasks && e.tasks[t].ReaderWaiting? && e.tasks[t].id == id
    ensures Enabled(Exec(e, V1Post(u, id, payload, now)), ReaderReceive(t))
  {
    ReachableInv(e);
    PruneKeeps(e, now);
    var p := PruneSys(e, now);
    assert TaskInv(p, p.tasks[t]);
    OfferServesReader(p, u, id, payload, t);
  }

  // ----- plaintext -----

  /**
   After an empty-handed read the wait can be refused for lack of room only: the branch that
   refuses because a plaintext is present is never taken.
   */
  lemma WaitAfterEmptyRead(s: Store, w: Handles, id: ShortId, now: Time)
    requires MailboxSpec.Read(s, id).1.None?
    ensures MailboxSpec.Read(s, id).0 == s
    ensures WaitV2(s, w, id, now).1 == Err(OverCapacity) <==> !HasRoom(Prune(s, w, now))
    ensures WaitV2(s, w, id, now).1 == Err(AlreadyRead) <==>
      HasRoom(Prune(s, w, now)) && id in s.v1
  {}

  /**
   Over any run, the plaintext of each v1 request leaves memory at most once, and exactly the
   slots whose plaintext has left are empty.
   */
  lemma PlaintextLeavesOnce(e: Sys, c: nat)
    requires Reachable(e)
    ensures e.released[c] <= 1
    ensures forall id :: id in e.store.v1 && e.store.v1[id].chan == c ==>
      (e.store.v1[id].payload.None? <==> e.released[c] == 1)
  {
    ReachableInv(e);
  }

  lemma ReleasedGrows(s: Sys, step: Step)
    requires Enabled(s, step)
    ensures s.released <= Exec(s, step).released
  {}

  lemma {:induction false} ReleasedGrowsOverRun(s: Sys, steps: seq<Step>)
    requires IsRun(s, steps)
    ensures s.released <= End(s, steps).released
    decreases |steps|
  {
    if steps != [] {
      ReleasedGrows(s, steps[0]);
      ReleasedGrowsOverRun(Exec(s, steps[0]), steps[1..]);
    }
  }

  /** Once emptied, a slot stays empty while it lives. */
  lemma EmptiedSlotStaysEmpty(e: Sys, steps: seq<Step>, id: ShortId)
    requires Reachable(e) && IsRun(e, steps)
    requires id in e.store.v1 && e.store.v1[id].payload.None?
    requires id in End(e, steps).store.v1 && End(e, steps).store.v1[id].chan == e.store.v1[id].chan
    ensures End(e, steps).store.v1[id].payload.None?
  {
    ReachableInv(e);
    RunKeeps(e, steps);
    ReleasedGrowsOverRun(e, steps);
  }

  /**
   A read that finds the slot emptied gets the stored mailbox if there is one and is refused
   otherwise: it never gets the plaintext again, and it never waits.
   */
  lemma ReadOfEmptiedSlot(e: Sys, id: ShortId, t: nat, now: Time)
    requires Enabled(e, ReaderEnter(t, id, now)) && id in e.store.v1 && e.store.v1[id].payload.None?
    ensures var e' := Exec(e, ReaderEnter(t, id, now));
            && e'.tasks[t] == ReaderDone(id,
                 match Lookup(e.store.key, e.store.files, id)
                 case Some(file) => Payload(file.1)
                 case None => Refused(if HasRoom(PruneSys(e, now).store) then AlreadyRead else OverCapacity))
            && e'.released == e.released
  {
    if Lookup(e.store.key, e.store.files, id).None? {
      assert Exec(e, ReaderEnter(t, id, now)) == JoinSys(PruneSys(e, now), t, id);
    }
  }

  // ----- who keeps an entry alive -----

  /** After pruning, every wait entry still has a task waiting on its channel. */
  lemma PrunedWaitsHaveWaiters(s: Sys, now: Time, id: ShortId)
    requires id in PruneSys(s, now).store.v2
    ensures exists t :: t in s.tasks && s.tasks[t].ReaderWaiting? && s.tasks[t].chan == s.store.v2[id]
  {
    var w := HandlesOf(s.tasks);
    assert id !in Abandoned(s.store, w);
    var t :| t in w && w[t] == s.store.v2[id];
    assert t in s.tasks && s.tasks[t].ReaderWaiting?;
  }

  /** When the last reader of an id has cleaned up, its wait entry is gone. */
  lemma CleanedWaitHasWaiter(s: Sys, t: nat)
    requires Enabled(s, ReaderClean(t))
    ensures var id := s.tasks[t].id;
            id in Exec(s, ReaderClean(t)).store.v2 <==>
              id in s.store.v2 && exists u :: u in s.tasks && s.tasks[u].ReaderWaiting? && s.tasks[u].chan == s.store.v2[id]
  {
    var id, w := s.tasks[t].id, HandlesOf(s.tasks);
    if id in s.store.v2 {
      assert forall u :: u in s.tasks && s.tasks[u].ReaderWaiting? && s.tasks[u].chan == s.store.v2[id] ==>
        u in w && w[u] == s.store.v2[id];
      if u :| u in w && w[u] == s.store.v2[id] {
        assert s.tasks[u].ReaderWaiting? && s.tasks[u].chan == s.store.v2[id];
      }
    }
  }

  /** A request that still waits on the v1 slot of `id` on channel `c`, or timed out and has it to clean up. */
  predicate Owns(k: Task, id: ShortId, c: nat) {
    k == SenderWaiting(id, c) || k == SenderCleanup(id, SendTimeout)
  }

  ghost predicate SlotsOwned(s: Sys) {
    forall id :: id in s.store.v1 ==> exists t :: t in s.tasks && Owns(s.tasks[t], id, s.store.v1[id].chan)
  }

  ghost predicate SlotsFrom(s: Store, s': Store) {
    forall id :: id in s'.v1 ==> id in s.v1 && s'.v1[id].chan == s.v1[id].chan
  }

  /** Every request of `s` is still there, except that `t` may have moved on. */
  lemma OwnersStay(s: Sys, s': Sys, t: nat)
    requires SlotsOwned(s) && SlotsFrom(s.store, s'.store)
    requires forall u :: u in s.tasks && u != t ==> u in s'.tasks && s'.tasks[u] == s.tasks[u]
    requires t in s.tasks ==> t in s'.tasks && forall id :: id in s'.store.v1 ==>
      (Owns(s.tasks[t], id, s'.store.v1[id].chan) ==> Owns(s'.tasks[t], id, s'.store.v1[id].chan))
    ensures SlotsOwned(s')
  {
    forall id | id in s'.store.v1
      ensures exists u :: u in s'.tasks && Owns(s'.tasks[u], id, s'.store.v1[id].chan)
    {
      var u :| u in s.tasks && Owns(s.tasks[u], id, s.store.v1[id].chan);
      assert Owns(s'.tasks[u], id, s'.store.v1[id].chan);
    }
  }

  lemma OfferOwned(s: Sys, t: nat, id: ShortId, payload: Bytes)
    requires Inv(s) && SlotsOwned(s) && t !in s.tasks
    ensures SlotsOwned(OfferSys(s, t, id, payload))
  {
    var s' := OfferSys(s, t, id, payload);
    if HasRoom(s.store) && id !in s.store.v1 {
      OfferSplit(s, t, id, payload);
      assert Owns(s'.tasks[t], id, s'.store.v1[id].chan);
      forall other | other in s'.store.v1 && other != id
        ensures exists u :: u in s'.tasks && Owns(s'.tasks[u], other, s'.store.v1[other].chan)
      {
        assert other in s.store.v1;
        var u :| u in s.tasks && Owns(s.tasks[u], other, s.store.v1[other].chan);
        assert s'.tasks[u] == s.tasks[u];
      }
    } else {
      assert s' == Move(s, t, SenderDone(id, Rejected));
      OwnersStay(s, s', t);
    }
  }

  lemma EnterKeepsSlots(s: Store, w: Handles, id: ShortId)
    ensures SlotsFrom(s, MailboxSpec.Read(s, id).0)
    ensures SlotsFrom(s, JoinWait(s, id).0)
    ensures SlotsFrom(s, CleanWait(s, w, id))
  {}

  lemma PruneKeepsSlots(s: Store, w: Handles, now: Time)
    ensures Prune(s, w, now).v1 == s.v1
  {}

  lemma MailKeepsSlots(s: Store, id: ShortId, payload: Bytes, now: Time)
    ensures StoreMail(s, id, payload, now).0.v1 == s.v1
  {}

  lemma ResponseKeepsSlots(s: Store, live: set<nat>, id: ShortId, payload: Bytes)
    ensures SlotsFrom(s, PostV1Res(s, live, id, payload).0)
  {}

  lemma EnterOwned(s: Sys, t: nat, id: ShortId, now: Time)
    requires SlotsOwned(s) && Enabled(s, ReaderEnter(t, id, now))
    ensures SlotsOwned(Exec(s, ReaderEnter(t, id, now)))
  {
    var w, p := HandlesOf(s.tasks), PruneSys(s, now);
    if MailboxSpec.Read(s.store, id).1.Some? {
      EnterKeepsSlots(s.store, w, id);
      OwnersStay(s, TakeSys(s.(clock := now), t, id), t);
    } else {
      PruneKeepsSlots(s.store, w, now);
      TasklessOwned(s, p);
      EnterKeepsSlots(p.store, w, id);
      OwnersStay(p, JoinSys(p, t, id), t);
    }
  }

  lemma SenderOwned(s: Sys, step: Step)
    requires Inv(s) && SlotsOwned(s) && Enabled(s, step)
    requires step.SenderReceive? || step.SenderTimeout? || step.SenderFail? || step.SenderClean?
    ensures SlotsOwned(Exec(s, step))
  {
    assert TaskInv(s, s.tasks[step.t]);
    OwnersStay(s, Exec(s, step), step.t);
  }

  lemma ReaderOwned(s: Sys, step: Step)
    requires SlotsOwned(s) && Enabled(s, step)
    requires step.ReaderReceive? || step.ReaderTimeout? || step.ReaderClean?
    ensures SlotsOwned(Exec(s, step))
  {
    EnterKeepsSlots(s.store, HandlesOf(s.tasks), s.tasks[step.t].id);
    OwnersStay(s, Exec(s, step), step.t);
  }

  lemma TasklessOwned(s: Sys, s': Sys)
    requires SlotsOwned(s) && s'.tasks == s.tasks && SlotsFrom(s.store, s'.store)
    ensures SlotsOwned(s')
  {
    OwnersStay(s, s', 0);
  }

  lemma ExecOwned(s: Sys, step: Step)
    requires Inv(s) && SlotsOwned(s) && Enabled(s, step)
    ensures SlotsOwned(Exec(s, step))
  {
    var w := HandlesOf(s.tasks);
    match step
    case V1Post(t, id, payload, now) =>
      PruneKeeps(s, now);
      PruneKeepsSlots(s.store, w, now);
      TasklessOwned(s, PruneSys(s, now));
      OfferOwned(PruneSys(s, now), t, id, payload);
    case V2Post(id, payload, now) =>
      PostStore(s, id, payload, now);
      PruneKeepsSlots(s.store, w, now);
      MailKeepsSlots(PruneSys(s, now).store, id, payload, now);
      TasklessOwned(s, Exec(s, step));
    case V1Respond(id, payload) =>
      ResponseKeepsSlots(s.store, LiveSenders(s.tasks), id, payload);
      TasklessOwned(s, Exec(s, step));
    case PruneTick(now) =>
      PruneKeepsSlots(s.store, w, now);
      TasklessOwned(s, Exec(s, step));
    case ReaderEnter(t, id, now) => EnterOwned(s, t, id, now);
    case ReaderReceive(_) => ReaderOwned(s, step);
    case ReaderTimeout(_) => ReaderOwned(s, step);
    case ReaderClean(_) => ReaderOwned(s, step);
    case _ => SenderOwned(s, step);
  }

  lemma {:induction false} RunOwned(s: Sys, steps: seq<Step>)
    requires Inv(s) && SlotsOwned(s) && IsRun(s, steps)
    ensures SlotsOwned(End(s, steps))
    decreases |steps|
  {
    if steps != [] {
      ExecOwned(s, steps[0]);
      ExecKeeps(s, steps[0]);
      RunOwned(Exec(s, steps[0]), steps[1..]);
    }
  }

  /** No v1 slot outlives its request: it still waits, or it has timed out and is about to clean up. */
  lemma NoOrphanedSlot(e: Sys, id: ShortId)
    requires Reachable(e) && id in e.store.v1
    ensures exists t :: t in e.tasks && Owns(e.tasks[t], id, e.store.v1[id].chan)
  {
    var s, steps :| Start(s) && IsRun(s, steps) && End(s, steps) == e;
    StartInv(s);
    RunOwned(s, steps);
  }

  /** A response reaches the request that waits for it. */
  lemma ResponseReachesSender(e: Sys, t: nat, response: Bytes)
    requires Reachable(e) && t in e.tasks && e.tasks[t].SenderWaiting?
    requires CellAt(e.store.cells1, e.tasks[t].chan).Empty?
    ensures var SenderWaiting(id, c) := e.tasks[t];
            var e' := Exec(e, V1Respond(id, response));
            && PostV1Res(e.store, LiveSenders(e.tasks), id, response).1 == Ok(())
            && Enabled(e', SenderReceive(t))
            && Exec(e', SenderReceive(t)).tasks[t] == SenderCleanup(id, Response(response))
  {
    ReachableInv(e);
    assert TaskInv(e, e.tasks[t]);
    assert e.tasks[t].chan in LiveSenders(e.tasks);
    ResponseSent(e.store, LiveSenders(e.tasks), e.tasks[t].id, response);
    ReceivesResponse(Exec(e, V1Respond(e.tasks[t].id, response)), t, response);
  }

  /** A request waits on `id` and has not been answered. */
  predicate Awaits(s: Sys, t: nat, id: ShortId) {
    && t in s.tasks && s.tasks[t].SenderWaiting? && s.tasks[t].id == id
    && CellAt(s.store.cells1, s.tasks[t].chan).Empty?
  }

  /** The caller is told that it was delivered exactly when a request waits for it. */
  lemma ResponseAcceptedIff(e: Sys, id: ShortId, response: Bytes)
    requires Reachable(e)
    ensures PostV1Res(e.store, LiveSenders(e.tasks), id, response).1 == Ok(())
            <==> exists t: nat :: Awaits(e, t, id)
  {
    ReachableInv(e);
    if t: nat :| Awaits(e, t, id) {
      ResponseReachesSender(e, t, response);
    }
    if id in e.store.v1 && e.store.v1[id].chan in LiveSenders(e.tasks) {
      var t :| t in e.tasks && e.tasks[t].SenderWaiting? && e.tasks[t].chan == e.store.v1[id].chan;
      assert TaskInv(e, e.tasks[t]);
      assert Awaits(e, t, id);
    }
  }

  lemma ReceivesResponse(s: Sys, t: nat, response: Bytes)
    requires t in s.tasks && s.tasks[t].SenderWaiting?
    requires CellAt(s.store.cells1, s.tasks[t].chan) == Sent(response)
    ensures Enabled(s, SenderReceive(t))
    ensures Exec(s, SenderReceive(t)).tasks[t] == SenderCleanup(s.tasks[t].id, Response(response))
  {}

  lemma ResponseSent(s: Store, live: set<nat>, id: ShortId, response: Bytes)
    requires StoreInv(s) && id in s.v1 && s.v1[id].chan in live
    ensures PostV1Res(s, live, id, response).1 == Ok(())
    ensures CellAt(PostV1Res(s, live, id, response).0.cells1, s.v1[id].chan) == Sent(response)
  {}
}
