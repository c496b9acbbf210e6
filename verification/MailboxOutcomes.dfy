/**
 What every kind of request is told and leaves behind, written out in the fields of the store:
 who waits on which channel, what is refused and why, and which payload a reader ends with.
 */
module MailboxOutcomes {
  import opened Wrappers
  import opened Disk
  import opened MailboxSpec
  import opened MailboxRuns
  import opened MailboxSteps
  import opened MailboxReaders

  // ----- pruning -----

  /** Some reader waits on the wait entry of `id`. */
  ghost predicate Attended(s: Sys, id: ShortId)
    requires id in s.store.v2
  {
    exists t :: t in s.tasks && s.tasks[t].ReaderWaiting? && s.tasks[t].chan == s.store.v2[id]
  }

  /** Pruning drops the expired entries at the front of the queue with their files, and unattended waits. */
  lemma PruneLeaves(e: Sys, now: Time) returns (k: nat)
    ensures var s, p := e.store, PruneSys(e, now).store;
            && k <= |s.order| && p.order == s.order[k..]
            && (forall i :: 0 <= i < k ==> s.order[i].0 + s.ttl < now)
            && (k < |s.order| ==> s.order[k].0 + s.ttl >= now)
            && (forall id :: id in p.files <==> id in s.files && forall i :: 0 <= i < k ==> s.order[i].1 != id)
            && (forall id :: id in p.files ==> p.files[id] == s.files[id])
            && (forall id :: id in p.v2 <==> id in s.v2 && Attended(e, id))
            && (forall id :: id in p.v2 ==> p.v2[id] == s.v2[id])
            && p.v1 == s.v1 && p.capacity == s.capacity && p.ttl == s.ttl && p.key == s.key
    ensures PruneSys(e, now).tasks == e.tasks && PruneSys(e, now).clock == now
  {
    var s := e.store;
    k := ExpiredCount(s.order, s.ttl, now);
    forall id ensures id in IdsOf(s.order[..k]) <==> exists i :: 0 <= i < k && s.order[i].1 == id {
      if i :| 0 <= i < k && s.order[i].1 == id { assert s.order[..k][i].1 == id; }
    }
    forall id | id in s.v2 ensures id in Abandoned(s, HandlesOf(e.tasks)) <==> !Attended(e, id) {
      AttendedIff(e, id);
    }
  }

  lemma AttendedIff(e: Sys, id: ShortId)
    requires id in e.store.v2
    ensures StrongCount(HandlesOf(e.tasks), e.store.v2[id]) > 1 <==> Attended(e, id)
  {
    var w := HandlesOf(e.tasks);
    if Attended(e, id) {
      var t :| t in e.tasks && e.tasks[t].ReaderWaiting? && e.tasks[t].chan == e.store.v2[id];
      assert t in w && w[t] == e.store.v2[id];
    }
    if t :| t in w && w[t] == e.store.v2[id] {
      assert t in e.tasks && e.tasks[t].ReaderWaiting?;
    }
  }

  // ----- readers -----

  /** Another reader waits on `id` and has been sent nothing. */
  predicate WaitsUnsent(s: Sys, u: nat, id: ShortId) {
    && u in s.tasks && s.tasks[u].ReaderWaiting? && s.tasks[u].id == id
    && s.tasks[u].chan < |s.store.cells2| && s.store.cells2[s.tasks[u].chan].Empty?
  }

  /** Channel `c` is the one any such reader waits on, or else a new one. */
  ghost predicate ChannelFor(s: Sys, id: ShortId, c: nat) {
    && (forall u: nat :: WaitsUnsent(s, u, id) ==> s.tasks[u].chan == c)
    && ((forall u: nat :: !WaitsUnsent(s, u, id)) ==> c == |s.store.cells2|)
  }

  lemma JoinedChannel(s: Store, id: ShortId)
    requires id !in s.v1 && |s.order| + |s.v1| + |s.v2| < s.capacity
    ensures var c := if id in s.v2 then s.v2[id] else |s.cells2|;
            && JoinWait(s, id).1 == Ok(c)
            && JoinWait(s, id).0 ==
                 if id in s.v2 then s else s.(v2 := s.v2[id := c], cells2 := s.cells2 + [Empty])
  {}

  /** After pruning, the entry of `id` is on the channel of its readers, or there is none. */
  lemma PrunedChannel(e: Sys, id: ShortId, now: Time)
    requires Reachable(e)
    ensures var p := PruneSys(e, now).store;
            && StoreInv(p) && |p.cells2| == |e.store.cells2| && p.v1 == e.store.v1
            && ChannelFor(e, id, if id in p.v2 then p.v2[id] else |p.cells2|)
  {
    var p := PruneSys(e, now);
    ReachableInv(e);
    PruneKeeps(e, now);
    forall u: nat | WaitsUnsent(e, u, id) ensures id in p.store.v2 && p.store.v2[id] == e.tasks[u].chan {
      assert TaskInv(e, e.tasks[u]);
      assert u in HandlesOf(e.tasks) && HandlesOf(e.tasks)[u] == e.tasks[u].chan;
      HeldSurvives(e.store, HandlesOf(e.tasks), u, id);
    }
    if id in p.store.v2 {
      PrunedWaitsHaveWaiters(e, now, id);
      var t :| t in e.tasks && e.tasks[t].ReaderWaiting? && e.tasks[t].chan == e.store.v2[id];
      assert TaskInv(e, e.tasks[t]);
      assert WaitsUnsent(e, t, id);
    }
  }

  lemma JoinedWaits(p: Sys, t: nat, id: ShortId)
    requires StoreInv(p.store) && id !in p.store.v1 && t !in p.tasks
    requires |p.store.order| + |p.store.v1| + |p.store.v2| < p.store.capacity
    ensures var e', c := JoinSys(p, t, id), if id in p.store.v2 then p.store.v2[id] else |p.store.cells2|;
            && e'.tasks == p.tasks[t := ReaderWaiting(id, c)] && WaitsUnsent(e', t, id)
            && id in e'.store.v2 && e'.store.v2[id] == c
  {
    JoinedChannel(p.store, id);
  }

  /**
   A reader that finds no v1 slot and no stored mailbox waits, if there is room once the store is
   pruned: on the channel of the readers already waiting on that id, or else on a new one.
   */
  lemma ReaderWaits(e: Sys, t: nat, id: ShortId, now: Time)
    requires Reachable(e) && t !in e.tasks && e.clock <= now
    requires id !in e.store.v1 && id !in e.store.files
    requires var p := PruneSys(e, now).store; |p.order| + |p.v1| + |p.v2| < p.capacity
    ensures Enabled(e, ReaderEnter(t, id, now))
    ensures var e' := Exec(e, ReaderEnter(t, id, now));
            && e'.tasks.Keys == e.tasks.Keys + {t} && e'.tasks[t].ReaderWaiting? && e'.tasks[t].id == id
            && ChannelFor(e, id, e'.tasks[t].chan)
            && WaitsUnsent(e', t, id)
            && id in e'.store.v2 && e'.store.v2[id] == e'.tasks[t].chan
  {
    PrunedChannel(e, id, now);
    JoinedWaits(PruneSys(e, now), t, id);
    assert Exec(e, ReaderEnter(t, id, now)) == JoinSys(PruneSys(e, now), t, id);
  }

  /** Otherwise it is refused: for lack of room, or because the plaintext has been read already. */
  lemma ReaderRefused(e: Sys, t: nat, id: ShortId, now: Time)
    requires t !in e.tasks && e.clock <= now
    requires id !in e.store.files && (id in e.store.v1 ==> e.store.v1[id].payload.None?)
    ensures Enabled(e, ReaderEnter(t, id, now))
    ensures var p, got := PruneSys(e, now).store, Exec(e, ReaderEnter(t, id, now)).tasks[t];
            && (|p.order| + |p.v1| + |p.v2| >= p.capacity <==> got == ReaderDone(id, Refused(OverCapacity)))
            && (|p.order| + |p.v1| + |p.v2| < p.capacity && id in e.store.v1 <==> got == ReaderDone(id, Refused(AlreadyRead)))
            && (|p.order| + |p.v1| + |p.v2| < p.capacity && id !in e.store.v1 <==> got.ReaderWaiting?)
  {
    var p := PruneSys(e, now);
    PruneKeepsSlots(e.store, HandlesOf(e.tasks), now);
    assert Exec(e, ReaderEnter(t, id, now)) == JoinSys(p, t, id);
    if |p.store.order| + |p.store.v1| + |p.store.v2| < p.store.capacity && id !in p.store.v1 {
      JoinedChannel(p.store, id);
    }
  }

  /** The plaintext of a v1 request goes to the first reader that comes, and leaves memory with it. */
  lemma ReaderTakesPlaintext(e: Sys, t: nat, id: ShortId, now: Time)
    requires t !in e.tasks && e.clock <= now
    requires id in e.store.v1 && e.store.v1[id].payload.Some?
    ensures Enabled(e, ReaderEnter(t, id, now))
    ensures var e', entry := Exec(e, ReaderEnter(t, id, now)), e.store.v1[id];
            && e'.tasks == e.tasks[t := ReaderDone(id, Payload(entry.payload.value))]
            && e'.store == e.store.(v1 := e.store.v1[id := V1Entry(None, entry.chan)])
            && e'.released == e.released + multiset{entry.chan}
  {}

  /** A stored mailbox is handed to every reader, and nothing changes. */
  lemma ReaderGetsMail(e: Sys, t: nat, id: ShortId, now: Time)
    requires t !in e.tasks && e.clock <= now
    requires id in e.store.files && (id in e.store.v1 ==> e.store.v1[id].payload.None?)
    ensures Enabled(e, ReaderEnter(t, id, now))
    ensures var e' := Exec(e, ReaderEnter(t, id, now));
            && e'.tasks == e.tasks[t := ReaderDone(id, Payload(Xored(e.store.key, e.store.files[id].data)))]
            && e'.store == e.store && e'.released == e.released
  {}

  // ----- posts -----

  lemma MailResult(s: Store, id: ShortId, payload: Bytes, now: Time)
    ensures var r := StoreMail(s, id, payload, now).1;
            && (r == Err(OverCapacity) <==> |s.order| + |s.v1| + |s.v2| >= s.capacity)
            && (r == Ok(None) <==> |s.order| + |s.v1| + |s.v2| < s.capacity
                                   && id in s.files && Xored(s.key, s.files[id].data) != payload)
            && (r.Err? ==> r.error == OverCapacity)
  {}

  /**
   A v2 post is refused for capacity exactly when the pruned store is full, and otherwise told
   of a conflict exactly when something else is stored for that id.
   */
  lemma PostRefusedIff(e: Sys, id: ShortId, payload: Bytes, now: Time)
    ensures var p, r := PruneSys(e, now).store, PostV2(e.store, HandlesOf(e.tasks), id, payload, now).1;
            && (r == Err(OverCapacity) <==> |p.order| + |p.v1| + |p.v2| >= p.capacity)
            && (r == Ok(None) <==> |p.order| + |p.v1| + |p.v2| < p.capacity
                                   && id in p.files && Xored(p.key, p.files[id].data) != payload)
            && (r.Err? ==> r.error == OverCapacity)
  {
    MailResult(PruneSys(e, now).store, id, payload, now);
  }

  lemma NotifiedCells(s: Store, id: ShortId, payload: Bytes)
    requires StoreInv(s)
    ensures var n := Notify(s, id, payload);
            && n.v2 == s.v2 - {id} && |n.cells2| == |s.cells2|
            && n.order == s.order && n.files == s.files && n.v1 == s.v1 && n.cells1 == s.cells1
            && (forall c :: 0 <= c < |s.cells2| ==>
                  n.cells2[c] == if id in s.v2 && s.v2[id] == c then Sent(payload) else s.cells2[c])
  {}

  /** An accepted post: stored once and queued, its readers sent the payload, nobody else concerned. */
  lemma PostAccepted(e: Sys, id: ShortId, payload: Bytes, now: Time)
    requires Reachable(e) && e.clock <= now
    requires PostV2(e.store, HandlesOf(e.tasks), id, payload, now).1 == Ok(Some(()))
    ensures Enabled(e, V2Post(id, payload, now))
    ensures var p, s := PruneSys(e, now).store, Exec(e, V2Post(id, payload, now)).store;
            && id in s.files && Xored(s.key, s.files[id].data) == payload
            && (id in p.files ==> s.files == p.files)
            && (id !in p.files ==> s.files == p.files[id := s.files[id]] && s.files[id].created == now)
            && s.order == p.order + [(s.files[id].created, id)]
            && s.v1 == p.v1 && s.v2 == p.v2 - {id} && |s.cells2| == |p.cells2|
            && (forall c :: 0 <= c < |p.cells2| ==>
                  s.cells2[c] == if id in p.v2 && p.v2[id] == c then Sent(payload) else p.cells2[c])
  {
    ReachableInv(e);
    PruneKeeps(e, now);
    var p := PruneSys(e, now).store;
    PostStore(e, id, payload, now);
    StoreMailSplit(p, id, payload, now);
    NotifiedCells(p, id, payload);
  }

  /** A refused post changes nothing but for the pruning every post begins with. */
  lemma PostRefused(e: Sys, id: ShortId, payload: Bytes, now: Time)
    requires e.clock <= now
    requires PostV2(e.store, HandlesOf(e.tasks), id, payload, now).1 != Ok(Some(()))
    ensures Enabled(e, V2Post(id, payload, now))
    ensures Exec(e, V2Post(id, payload, now)) == PruneSys(e, now)
  {}

  lemma OfferResult(s: Store, id: ShortId, payload: Bytes)
    ensures var r := OfferV1(s, id, payload).1;
            && (r == Err(OverCapacity) <==> |s.order| + |s.v1| + |s.v2| >= s.capacity)
            && (r == Ok(None) <==> |s.order| + |s.v1| + |s.v2| < s.capacity && id in s.v1)
            && (r.Err? ==> r.error == OverCapacity)
  {}

  /** A v1 request is refused for capacity exactly when the pruned store is full. */
  lemma OfferRefusedIff(e: Sys, id: ShortId, payload: Bytes, now: Time)
    ensures var p, r := PruneSys(e, now).store, PostV1(e.store, HandlesOf(e.tasks), id, payload, now).1;
            && (r == Err(OverCapacity) <==> |p.order| + |p.v1| + |p.v2| >= p.capacity)
            && (r == Ok(None) <==> |p.order| + |p.v1| + |p.v2| < p.capacity && id in e.store.v1)
            && (r.Err? ==> r.error == OverCapacity)
  {
    PruneKeepsSlots(e.store, HandlesOf(e.tasks), now);
    OfferResult(PruneSys(e, now).store, id, payload);
  }

  /** The slot is claimed on channel `c`; readers waiting on `id` are sent the payload instead. */
  ghost predicate Claimed(p: Sys, e': Sys, t: nat, id: ShortId, payload: Bytes, c: nat) {
    var s, s' := p.store, e'.store;
    && e'.tasks == p.tasks[t := SenderWaiting(id, c)]
    && s'.cells1 == s.cells1 + [Empty] && s'.v2 == s.v2 - {id}
    && s'.v1 == s.v1[id := V1Entry(if id in s.v2 then None else Some(payload), c)]
    && e'.released == (if id in s.v2 then p.released + multiset{c} else p.released)
    && s'.files == s.files && s'.order == s.order && |s'.cells2| == |s.cells2|
    && (forall d :: 0 <= d < |s.cells2| ==>
          s'.cells2[d] == if id in s.v2 && s.v2[id] == d then Sent(payload) else s.cells2[d])
  }

  lemma OfferClaimed(p: Sys, t: nat, id: ShortId, payload: Bytes)
    requires StoreInv(p.store) && id !in p.store.v1 && HasRoom(p.store)
    ensures Claimed(p, OfferSys(p, t, id, payload), t, id, payload, |p.store.cells1|)
  {
    OfferSplit(p, t, id, payload);
    NotifiedCells(p.store, id, payload);
  }

  /**
   A v1 request on a free slot of a store with room claims it on a new channel and waits there.
   With readers waiting on that id its payload goes to them at once and leaves memory; without,
   it stays in the slot.
   */
  lemma OfferClaims(e: Sys, t: nat, id: ShortId, payload: Bytes, now: Time)
    requires Reachable(e) && t !in e.tasks && e.clock <= now && id !in e.store.v1
    requires var p := PruneSys(e, now).store; |p.order| + |p.v1| + |p.v2| < p.capacity
    ensures Enabled(e, V1Post(t, id, payload, now))
    ensures var p := PruneSys(e, now);
            Claimed(p, Exec(e, V1Post(t, id, payload, now)), t, id, payload, |e.store.cells1|)
  {
    ReachableInv(e);
    PruneKeeps(e, now);
    PruneKeepsSlots(e.store, HandlesOf(e.tasks), now);
    OfferClaimed(PruneSys(e, now), t, id, payload);
  }

  lemma OfferTurnedAway(p: Sys, t: nat, id: ShortId, payload: Bytes)
    requires |p.store.order| + |p.store.v1| + |p.store.v2| >= p.store.capacity
    ensures OfferSys(p, t, id, payload) == Move(p, t, SenderDone(id, Rejected))
  {}

  /** Any other v1 request is turned away and leaves no trace. */
  lemma OfferRefused(e: Sys, t: nat, id: ShortId, payload: Bytes, now: Time)
    requires Reachable(e) && t !in e.tasks && e.clock <= now
    requires var p := PruneSys(e, now).store; id in e.store.v1 || |p.order| + |p.v1| + |p.v2| >= p.capacity
    ensures Enabled(e, V1Post(t, id, payload, now))
    ensures Exec(e, V1Post(t, id, payload, now)) == Move(PruneSys(e, now), t, SenderDone(id, Rejected))
  {
    if id in e.store.v1 {
      RejectedOfferGoesNowhere(e, t, id, payload, now);
    } else {
      OfferTurnedAway(PruneSys(e, now), t, id, payload);
    }
  }

  /** A response frees the slot of its id, whether or not it reaches anyone, and touches nothing else. */
  lemma ResponseFrees(e: Sys, id: ShortId, response: Bytes)
    ensures Enabled(e, V1Respond(id, response))
    ensures var e' := Exec(e, V1Respond(id, response));
            var s, s' := e.store, e'.store;
            && e'.tasks == e.tasks && e'.accepted == e.accepted && e'.released == e.released
            && s'.v1 == s.v1 - {id} && s'.v2 == s.v2 && s'.cells2 == s.cells2
            && s'.files == s.files && s'.order == s.order && |s'.cells1| == |s.cells1|
            && (forall c :: 0 <= c < |s.cells1| && (id in s.v1 ==> s.v1[id].chan != c) ==> s'.cells1[c] == s.cells1[c])
  {
    assert id !in e.store.v1 ==> e.store.v1 - {id} == e.store.v1;
  }

  // ----- how requests end -----

  /** A reader that receives ends with exactly the payload its channel carries. */
  lemma ReaderEnds(s: Sys, t: nat, payload: Bytes)
    requires t in s.tasks && s.tasks[t].ReaderWaiting?
    requires s.tasks[t].chan < |s.store.cells2| && s.store.cells2[s.tasks[t].chan] == Sent(payload)
    ensures Enabled(s, ReaderReceive(t)) && Enabled(Exec(s, ReaderReceive(t)), ReaderClean(t))
    ensures Exec(s, ReaderReceive(t)).store == s.store
    ensures Exec(Exec(s, ReaderReceive(t)), ReaderClean(t)).tasks == s.tasks[t := ReaderDone(s.tasks[t].id, Payload(payload))]
  {
    var k := ReaderCleanup(s.tasks[t].id, Payload(payload));
    assert s.tasks[t := k][t := ReaderDone(k.id, k.got)] == s.tasks[t := ReaderDone(k.id, k.got)];
  }

  /** One that times out ends with a timeout, even if its channel has been sent on by then. */
  lemma ReaderTimesOut(s: Sys, t: nat)
    requires t in s.tasks && s.tasks[t].ReaderWaiting?
    ensures Enabled(s, ReaderTimeout(t)) && Enabled(Exec(s, ReaderTimeout(t)), ReaderClean(t))
    ensures Exec(s, ReaderTimeout(t)).store == s.store
    ensures Exec(Exec(s, ReaderTimeout(t)), ReaderClean(t)).tasks == s.tasks[t := ReaderDone(s.tasks[t].id, ReadTimeout)]
  {
    var k := ReaderCleanup(s.tasks[t].id, ReadTimeout);
    assert s.tasks[t := k][t := ReaderDone(k.id, k.got)] == s.tasks[t := ReaderDone(k.id, k.got)];
  }

  /** A v1 request ends with the response its channel carries or a timeout; either way its id is freed. */
  lemma SenderEnds(s: Sys, t: nat, step: Step)
    requires t in s.tasks && s.tasks[t].SenderWaiting?
    requires step == SenderTimeout(t)
             || (step == SenderReceive(t) && CellAt(s.store.cells1, s.tasks[t].chan).Sent?)
    ensures Enabled(s, step) && Enabled(Exec(s, step), SenderClean(t)) && Exec(s, step).store == s.store
    ensures var id, end := s.tasks[t].id, Exec(Exec(s, step), SenderClean(t));
            && end.tasks == s.tasks[t := SenderDone(id, if step.SenderTimeout? then SendTimeout
                                                       else Response(CellAt(s.store.cells1, s.tasks[t].chan).value))]
            && end.store.v1 == s.store.v1 - {id} && end.store.v2 == s.store.v2 && end.store.files == s.store.files
  {
    var id := s.tasks[t].id;
    var sent := if step.SenderTimeout? then SendTimeout else Response(CellAt(s.store.cells1, s.tasks[t].chan).value);
    assert s.tasks[t := SenderCleanup(id, sent)][t := SenderDone(id, sent)] == s.tasks[t := SenderDone(id, sent)];
    assert id !in s.store.v1 ==> s.store.v1 - {id} == s.store.v1;
  }

  /** One whose channel is closed under it breaks off: it cleans nothing up. */
  lemma SenderBreaksOff(s: Sys, t: nat)
    requires t in s.tasks && s.tasks[t].SenderWaiting? && CellAt(s.store.cells1, s.tasks[t].chan).Dropped?
    ensures Enabled(s, SenderFail(t)) && !Enabled(s, SenderReceive(t))
    ensures Exec(s, SenderFail(t)) == s.(tasks := s.tasks[t := SenderDone(s.tasks[t].id, ChannelLost)])
  {}

  // ----- delivery over runs -----

  lemma SentOverPost(s: Store, id: ShortId, payload: Bytes, now: Time, c: nat)
    requires StoreInv(s) && c < |s.cells2| && s.cells2[c].Sent?
    ensures c < |StoreMail(s, id, payload, now).0.cells2| && StoreMail(s, id, payload, now).0.cells2[c] == s.cells2[c]
    ensures c < |OfferV1(s, id, payload).0.cells2| && OfferV1(s, id, payload).0.cells2[c] == s.cells2[c]
  {}

  lemma SentOverPrune(s: Store, w: Handles, now: Time, c: nat)
    requires c < |s.cells2| && s.cells2[c].Sent?
    ensures c < |Prune(s, w, now).cells2| && Prune(s, w, now).cells2[c] == s.cells2[c]
  {}

  lemma SentOverRead(s: Store, w: Handles, id: ShortId, c: nat)
    requires c < |s.cells2| && s.cells2[c].Sent?
    ensures c < |MailboxSpec.Read(s, id).0.cells2| && MailboxSpec.Read(s, id).0.cells2[c] == s.cells2[c]
    ensures c < |JoinWait(s, id).0.cells2| && JoinWait(s, id).0.cells2[c] == s.cells2[c]
    ensures c < |CleanWait(s, w, id).cells2| && CleanWait(s, w, id).cells2[c] == s.cells2[c]
  {}

  lemma SentOverSlots(s: Store, live: set<nat>, id: ShortId, payload: Bytes)
    ensures PostV1Res(s, live, id, payload).0.cells2 == s.cells2 && CleanSlot(s, id).cells2 == s.cells2
  {}

  lemma SentOverPosts(s: Sys, step: Step, c: nat)
    requires Inv(s) && Enabled(s, step) && c < |s.store.cells2| && s.store.cells2[c].Sent?
    requires step.V2Post? || step.V1Post?
    ensures c < |Exec(s, step).store.cells2| && Exec(s, step).store.cells2[c] == s.store.cells2[c]
  {
    PruneKeeps(s, step.now);
    SentOverPrune(s.store, HandlesOf(s.tasks), step.now, c);
    SentOverPost(PruneSys(s, step.now).store, step.id, step.payload, step.now, c);
    if step.V2Post? {
      PostStore(s, step.id, step.payload, step.now);
    } else {
      OfferStore(s, step.t, step.id, step.payload, step.now);
    }
  }

  lemma SentOverEnter(s: Sys, step: Step, c: nat)
    requires Enabled(s, step) && step.ReaderEnter? && c < |s.store.cells2| && s.store.cells2[c].Sent?
    ensures c < |Exec(s, step).store.cells2| && Exec(s, step).store.cells2[c] == s.store.cells2[c]
  {
    var w := HandlesOf(s.tasks);
    SentOverPrune(s.store, w, step.now, c);
    SentOverRead(s.store, w, step.id, c);
    SentOverRead(PruneSys(s, step.now).store, w, step.id, c);
  }

  /** What a wait channel carries never changes. */
  lemma SentStays(s: Sys, step: Step, c: nat)
    requires Inv(s) && Enabled(s, step) && c < |s.store.cells2| && s.store.cells2[c].Sent?
    ensures c < |Exec(s, step).store.cells2| && Exec(s, step).store.cells2[c] == s.store.cells2[c]
  {
    var w := HandlesOf(s.tasks);
    match step
    case ReaderEnter(_, _, _) => SentOverEnter(s, step, c);
    case V2Post(_, _, _) => SentOverPosts(s, step, c);
    case V1Post(_, _, _, _) => SentOverPosts(s, step, c);
    case PruneTick(now) => SentOverPrune(s.store, w, now, c);
    case ReaderClean(t) => SentOverRead(s.store, w, s.tasks[t].id, c);
    case V1Respond(id, payload) => SentOverSlots(s.store, LiveSenders(s.tasks), id, payload);
    case SenderClean(t) => SentOverSlots(s.store, {}, s.tasks[t].id, []);
    case _ =>
  }

  lemma {:induction false} SentStaysOverRun(s: Sys, steps: seq<Step>, c: nat)
    requires Inv(s) && IsRun(s, steps) && c < |s.store.cells2| && s.store.cells2[c].Sent?
    ensures c < |End(s, steps).store.cells2| && End(s, steps).store.cells2[c] == s.store.cells2[c]
    decreases |steps|
  {
    if steps != [] {
      SentStays(s, steps[0], c);
      ExecKeeps(s, steps[0]);
      SentStaysOverRun(Exec(s, steps[0]), steps[1..], c);
    }
  }

  /** The step is a post that the store accepts for `id`: a v2 post, or a v1 request that finds a free slot. */
  predicate Accepts(e: Sys, step: Step, id: ShortId, payload: Bytes) {
    match step
    case V2Post(i, p, now) =>
      i == id && p == payload && PostV2(e.store, HandlesOf(e.tasks), id, payload, now).1 == Ok(Some(()))
    case V1Post(_, i, p, now) =>
      i == id && p == payload && PostV1(e.store, HandlesOf(e.tasks), id, payload, now).1.Ok? && id !in e.store.v1
    case _ => false
  }

  lemma AcceptedIsSent(e: Sys, step: Step, id: ShortId, payload: Bytes, t: nat)
    requires Reachable(e) && Enabled(e, step) && Accepts(e, step, id, payload) && WaitsUnsent(e, t, id)
    ensures var c := e.tasks[t].chan;
            c < |Exec(e, step).store.cells2| && Exec(e, step).store.cells2[c] == Sent(payload)
  {
    PrunedChannel(e, id, step.now);
    if step.V2Post? {
      PostAccepted(e, id, payload, step.now);
    } else {
      OfferRefusedIff(e, id, payload, step.now);
      OfferClaims(e, step.t, id, payload, step.now);
    }
  }

  /**
   Delivery: whatever happens between an accepted post and the moment a reader that was waiting
   for it receives, the reader ends with exactly the payload posted.
   */
  lemma WaiterEndsWithPost(e: Sys, step: Step, id: ShortId, payload: Bytes, t: nat, steps: seq<Step>)
    requires Reachable(e) && Enabled(e, step) && Accepts(e, step, id, payload) && WaitsUnsent(e, t, id)
    requires IsRun(Exec(e, step), steps)
    requires t in End(Exec(e, step), steps).tasks && End(Exec(e, step), steps).tasks[t] == e.tasks[t]
    ensures var s := End(Exec(e, step), steps);
            && Enabled(s, ReaderReceive(t)) && Enabled(Exec(s, ReaderReceive(t)), ReaderClean(t))
            && Exec(Exec(s, ReaderReceive(t)), ReaderClean(t)).tasks[t] == ReaderDone(id, Payload(payload))
  {
    AcceptedIsSent(e, step, id, payload, t);
    ReachableInv(e);
    ExecKeeps(e, step);
    SentStaysOverRun(Exec(e, step), steps, e.tasks[t].chan);
    ReaderEnds(End(Exec(e, step), steps), t, payload);
  }
}
