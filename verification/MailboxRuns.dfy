/**
 Runs of the mailbox store with concurrent requests (`FilesDb` in
 payjoin-mailroom/src/db/files.rs). Each mutex-guarded section is one atomic step; a
 timeout and a receive on a channel are steps of their own. A run is any sequence of
 enabled steps, so a statement about every run covers every interleaving.
 */
module MailboxRuns {
  import opened Wrappers
  import opened Disk
  import opened MailboxSpec

  datatype ReadResult = Payload(bytes: Bytes) | ReadTimeout | Refused(error: Error)

  datatype SendResult = Response(bytes: Bytes) | SendTimeout | Rejected | ChannelLost

  datatype Task =
    | ReaderWaiting(id: ShortId, chan: nat)
    | ReaderCleanup(id: ShortId, got: ReadResult)
    | ReaderDone(id: ShortId, got: ReadResult)
    | SenderWaiting(id: ShortId, chan: nat)
    | SenderCleanup(id: ShortId, sent: SendResult)
    | SenderDone(id: ShortId, sent: SendResult)

  /**
   `accepted` records which payload was accepted for which id, `released` how often the
   plaintext of the v1 request with a given channel has left memory.
   */
  datatype Sys = Sys(
    store: Store,
    tasks: map<nat, Task>,
    clock: Time,
    accepted: set<(ShortId, Bytes)>,
    released: multiset<nat>)

  datatype Step =
    | ReaderEnter(t: nat, id: ShortId, now: Time)
    | ReaderReceive(t: nat)
    | ReaderTimeout(t: nat)
    | ReaderClean(t: nat)
    | V2Post(id: ShortId, payload: Bytes, now: Time)
    | V1Post(t: nat, id: ShortId, payload: Bytes, now: Time)
    | V1Respond(id: ShortId, payload: Bytes)
    | SenderReceive(t: nat)
    | SenderTimeout(t: nat)
    | SenderFail(t: nat)
    | SenderClean(t: nat)
    | PruneTick(now: Time)

  function HandlesOf(tasks: map<nat, Task>): Handles {
    map t | t in tasks && tasks[t].ReaderWaiting? :: tasks[t].chan
  }

  function LiveSenders(tasks: map<nat, Task>): set<nat> {
    set t | t in tasks && tasks[t].SenderWaiting? :: tasks[t].chan
  }

  function CellAt(cells: seq<Cell<Bytes>>, c: nat): Cell<Bytes> {
    if c < |cells| then cells[c] else Dropped
  }

  // ----- steps -----

  predicate Enabled(s: Sys, step: Step) {
    match step
    case ReaderEnter(t, _, now) => t !in s.tasks && s.clock <= now
    case ReaderReceive(t) =>
      t in s.tasks && s.tasks[t].ReaderWaiting? && CellAt(s.store.cells2, s.tasks[t].chan).Sent?
    case ReaderTimeout(t) => t in s.tasks && s.tasks[t].ReaderWaiting?
    case ReaderClean(t) => t in s.tasks && s.tasks[t].ReaderCleanup?
    case V2Post(_, _, now) => s.clock <= now
    case V1Post(t, _, _, now) => t !in s.tasks && s.clock <= now
    case V1Respond(_, _) => true
    case SenderReceive(t) =>
      t in s.tasks && s.tasks[t].SenderWaiting? && CellAt(s.store.cells1, s.tasks[t].chan).Sent?
    case SenderTimeout(t) => t in s.tasks && s.tasks[t].SenderWaiting?
    case SenderFail(t) =>
      t in s.tasks && s.tasks[t].SenderWaiting? && CellAt(s.store.cells1, s.tasks[t].chan).Dropped?
    case SenderClean(t) => t in s.tasks && s.tasks[t].SenderCleanup?
    case PruneTick(now) => s.clock <= now
  }

  function Move(s: Sys, t: nat, task: Task): Sys {
    s.(tasks := s.tasks[t := task])
  }

  function PruneSys(s: Sys, now: Time): Sys {
    s.(store := Prune(s.store, HandlesOf(s.tasks), now), clock := now)
  }

  predicate HoldsPlaintext(s: Store, id: ShortId) {
    id in s.v1 && s.v1[id].payload.Some?
  }

  /** The reader found a payload under the first lock. */
  function TakeSys(s: Sys, t: nat, id: ShortId): Sys
    requires MailboxSpec.Read(s.store, id).1.Some?
  {
    var (store, got) := MailboxSpec.Read(s.store, id);
    Move(s, t, ReaderDone(id, Payload(got.value))).(
      store := store,
      released := if HoldsPlaintext(s.store, id)
                  then s.released + multiset{s.store.v1[id].chan} else s.released)
  }

  function JoinSys(s: Sys, t: nat, id: ShortId): Sys {
    match JoinWait(s.store, id)
    case (store, Ok(c)) => Move(s, t, ReaderWaiting(id, c)).(store := store)
    case (store, Err(e)) => Move(s, t, ReaderDone(id, Refused(e))).(store := store)
  }

  function MailSys(s: Sys, id: ShortId, payload: Bytes): Sys {
    match StoreMail(s.store, id, payload, s.clock)
    case (store, Ok(Some(_))) => s.(store := store, accepted := s.accepted + {(id, payload)})
    case (store, _) => s.(store := store)
  }

  function OfferSys(s: Sys, t: nat, id: ShortId, payload: Bytes): Sys {
    match OfferV1(s.store, id, payload)
    case (store, Ok(Some(c))) =>
      Move(s, t, SenderWaiting(id, c)).(
        store := store,
        accepted := s.accepted + {(id, payload)},
        released := if id in s.store.v2 then s.released + multiset{c} else s.released)
    case (store, _) => Move(s, t, SenderDone(id, Rejected)).(store := store)
  }

  function Exec(s: Sys, step: Step): Sys
    requires Enabled(s, step)
  {
    match step
    case ReaderEnter(t, id, now) =>
      if MailboxSpec.Read(s.store, id).1.Some? then TakeSys(s.(clock := now), t, id)
      else JoinSys(PruneSys(s, now), t, id)
    case ReaderReceive(t) =>
      Move(s, t, ReaderCleanup(s.tasks[t].id, Payload(CellAt(s.store.cells2, s.tasks[t].chan).value)))
    case ReaderTimeout(t) => Move(s, t, ReaderCleanup(s.tasks[t].id, ReadTimeout))
    case ReaderClean(t) =>
      var k := s.tasks[t];
      Move(s, t, ReaderDone(k.id, k.got)).(store := CleanWait(s.store, HandlesOf(s.tasks), k.id))
    case V2Post(id, payload, now) => MailSys(PruneSys(s, now), id, payload)
    case V1Post(t, id, payload, now) => OfferSys(PruneSys(s, now), t, id, payload)
    case V1Respond(id, payload) =>
      s.(store := PostV1Res(s.store, LiveSenders(s.tasks), id, payload).0)
    case SenderReceive(t) =>
      Move(s, t, SenderCleanup(s.tasks[t].id, Response(CellAt(s.store.cells1, s.tasks[t].chan).value)))
    case SenderTimeout(t) => Move(s, t, SenderCleanup(s.tasks[t].id, SendTimeout))
    case SenderFail(t) => Move(s, t, SenderDone(s.tasks[t].id, ChannelLost))
    case SenderClean(t) =>
      var k := s.tasks[t];
      Move(s, t, SenderDone(k.id, k.sent)).(store := CleanSlot(s.store, k.id))
    case PruneTick(now) => PruneSys(s, now)
  }

  predicate IsRun(s: Sys, steps: seq<Step>)
    decreases |steps|
  {
    steps == [] || (Enabled(s, steps[0]) && IsRun(Exec(s, steps[0]), steps[1..]))
  }

  function End(s: Sys, steps: seq<Step>): Sys
    requires IsRun(s, steps)
    decreases |steps|
  {
    if steps == [] then s else End(Exec(s, steps[0]), steps[1..])
  }

  // ----- start-up -----

  ghost predicate SortedByTime(q: Queue) {
    forall i, j :: 0 <= i < j < |q| ==> q[i].0 <= q[j].0
  }

  ghost predicate NoRepeats(q: Queue) {
    forall i, j :: 0 <= i < j < |q| ==> q[i].1 != q[j].1
  }

  /** The queue lists each stored mailbox once, with its creation time, oldest first. */
  ghost predicate Lists(q: Queue, files: Directory) {
    && SortedByTime(q) && NoRepeats(q)
    && (forall i :: 0 <= i < |q| ==> q[i].1 in files && files[q[i].1].created == q[i].0)
    && (forall id :: id in files ==> id in IdsOf(q))
  }

  /** State after `init`: the queue read back from the directory, nothing in memory. */
  ghost predicate Start(s: Sys) {
    && Lists(s.store.order, s.store.files)
    && (forall i :: 0 <= i < |s.store.order| ==> s.store.order[i].0 <= s.clock)
    && s.store.v1 == map[] && s.store.v2 == map[] && s.store.cells1 == [] && s.store.cells2 == []
    && s.tasks == map[]
    && s.accepted == (set id | id in s.store.files :: (id, Xored(s.store.key, s.store.files[id].data)))
    && s.released == multiset{}
  }

  // ----- the invariant -----

  ghost predicate StoreInv(s: Store) {
    && (forall id :: id in s.v2 ==> s.v2[id] < |s.cells2| && s.cells2[s.v2[id]].Empty?)
    && (forall a, b :: a in s.v2 && b in s.v2 && s.v2[a] == s.v2[b] ==> a == b)
    && (forall id :: id in s.v1 ==> s.v1[id].chan < |s.cells1| && s.cells1[s.v1[id].chan].Empty?)
    && (forall a, b :: a in s.v1 && b in s.v1 && s.v1[a].chan == s.v1[b].chan ==> a == b)
    && s.v2.Keys !! s.v1.Keys
    && s.v2.Keys !! s.files.Keys
    && s.files.Keys <= IdsOf(s.order)
  }

  /** What is held for an id was accepted for that id. */
  ghost predicate HistoryInv(s: Sys) {
    && (forall id :: id in s.store.v1 && s.store.v1[id].payload.Some? ==>
         (id, s.store.v1[id].payload.value) in s.accepted)
    && (forall id :: id in s.store.files ==>
         (id, Xored(s.store.key, s.store.files[id].data)) in s.accepted)
  }

  /** Plaintext leaves memory at most once, and its slot is empty from then on. */
  ghost predicate ReleaseInv(s: Sys) {
    && (forall c :: s.released[c] <= 1)
    && (forall c :: c in s.released ==> c < |s.store.cells1|)
    && (forall id :: id in s.store.v1 ==>
         (s.store.v1[id].payload.Some? <==> s.released[s.store.v1[id].chan] == 0))
  }

  /** The waiter's channel carries a payload accepted for its id, or is the one stored for it. */
  ghost predicate Served(s: Sys, id: ShortId, c: nat) {
    match CellAt(s.store.cells2, c)
    case Empty => id in s.store.v2 && s.store.v2[id] == c
    case Sent(p) => (id, p) in s.accepted
    case Dropped => false
  }

  ghost predicate TaskInv(s: Sys, k: Task) {
    match k
    case ReaderWaiting(id, c) => Served(s, id, c)
    case ReaderCleanup(id, Payload(p)) => (id, p) in s.accepted
    case ReaderDone(id, Payload(p)) => (id, p) in s.accepted
    case SenderWaiting(id, c) =>
      c < |s.store.cells1| &&
      (s.store.cells1[c].Empty? ==> id in s.store.v1 && s.store.v1[id].chan == c)
    case _ => true
  }

  ghost predicate Inv(s: Sys) {
    && StoreInv(s.store) && HistoryInv(s) && ReleaseInv(s)
    && (forall t :: t in s.tasks ==> TaskInv(s, s.tasks[t]))
  }

  lemma StartInv(s: Sys)
    requires Start(s)
    ensures Inv(s)
  {}

  // ----- every step keeps it -----

  lemma MoveKeeps(s: Sys, t: nat, task: Task)
    requires Inv(s) && TaskInv(s, task)
    ensures Inv(Move(s, t, task))
  {
    var s' := Move(s, t, task);
    forall u | u in s'.tasks ensures TaskInv(s', s'.tasks[u]) {
      assert TaskInv(s, s'.tasks[u]);
    }
  }

  lemma DropWaitsStore(s: Store, w: Handles)
    requires StoreInv(s)
    ensures StoreInv(DropWaits(s, w))
  {
    var gone := Abandoned(s, w);
    forall id | id in s.v2 && id !in gone
      ensures s.v2[id] !in (set a | a in gone :: s.v2[a])
    {}
  }

  /** A channel somebody holds keeps its cell, and its entry if it has one. */
  lemma HeldSurvives(s: Store, w: Handles, t: nat, id: ShortId)
    requires StoreInv(s) && t in w && w[t] < |s.cells2|
    ensures DropWaits(s, w).cells2[w[t]] == s.cells2[w[t]]
    ensures id in s.v2 && s.v2[id] == w[t] ==> id in DropWaits(s, w).v2
  {
    assert forall a :: a in Abandoned(s, w) ==> s.v2[a] != w[t];
  }

  lemma DropWaitsKeeps(s: Sys)
    requires Inv(s)
    ensures Inv(s.(store := DropWaits(s.store, HandlesOf(s.tasks))))
  {
    var w := HandlesOf(s.tasks);
    var s' := s.(store := DropWaits(s.store, w));
    DropWaitsStore(s.store, w);
    forall t | t in s'.tasks ensures TaskInv(s', s'.tasks[t]) {
      assert TaskInv(s, s.tasks[t]);
      if s.tasks[t].ReaderWaiting? {
        assert t in w && w[t] == s.tasks[t].chan;
        HeldSurvives(s.store, w, t, s.tasks[t].id);
      }
    }
  }

  lemma IdsOfSplit(q: Queue, k: nat)
    requires k <= |q|
    ensures IdsOf(q) == IdsOf(q[..k]) + IdsOf(q[k..])
  {
    forall id | id in IdsOf(q) ensures id in IdsOf(q[..k]) + IdsOf(q[k..]) {
      var i :| 0 <= i < |q| && q[i].1 == id;
      if i < k { assert q[..k][i].1 == id; } else { assert q[k..][i - k].1 == id; }
    }
    forall id | id in IdsOf(q[k..]) ensures id in IdsOf(q) {
      var i :| 0 <= i < |q[k..]| && q[k..][i].1 == id;
      assert q[k + i].1 == id;
    }
  }

  lemma ExpireMailKeeps(s: Sys, now: Time)
    requires Inv(s)
    ensures Inv(s.(store := ExpireMail(s.store, now), clock := now))
  {
    var s' := s.(store := ExpireMail(s.store, now), clock := now);
    IdsOfSplit(s.store.order, ExpiredCount(s.store.order, s.store.ttl, now));
    forall t | t in s'.tasks ensures TaskInv(s', s'.tasks[t]) {
      assert TaskInv(s, s.tasks[t]);
    }
  }

  lemma PruneKeeps(s: Sys, now: Time)
    requires Inv(s)
    ensures Inv(PruneSys(s, now))
  {
    DropWaitsKeeps(s);
    ExpireMailKeeps(s.(store := DropWaits(s.store, HandlesOf(s.tasks))), now);
  }

  lemma EmptySlotKeeps(s: Sys, id: ShortId)
    requires Inv(s) && HoldsPlaintext(s.store, id)
    ensures Inv(s.(store := TakePayload(s.store, id),
                   released := s.released + multiset{s.store.v1[id].chan}))
  {
    var s' := s.(store := TakePayload(s.store, id),
                 released := s.released + multiset{s.store.v1[id].chan});
    forall t | t in s'.tasks ensures TaskInv(s', s'.tasks[t]) {
      assert TaskInv(s, s.tasks[t]);
    }
  }

  lemma TakeKeeps(s: Sys, t: nat, id: ShortId)
    requires Inv(s) && MailboxSpec.Read(s.store, id).1.Some?
    ensures Inv(TakeSys(s, t, id))
  {
    var task := ReaderDone(id, Payload(MailboxSpec.Read(s.store, id).1.value));
    MoveKeeps(s, t, task);
    if HoldsPlaintext(s.store, id) {
      EmptySlotKeeps(Move(s, t, task), id);
    }
  }

  lemma NewWaitKeeps(s: Store, id: ShortId)
    requires StoreInv(s) && id !in s.files && id !in s.v1 && id !in s.v2
    ensures StoreInv(s.(v2 := s.v2[id := |s.cells2|], cells2 := s.cells2 + [Empty]))
  {
    var s' := s.(v2 := s.v2[id := |s.cells2|], cells2 := s.cells2 + [Empty]);
    forall a | a in s'.v2 ensures s'.v2[a] < |s'.cells2| && s'.cells2[s'.v2[a]].Empty? {
      assert a != id ==> s'.v2[a] == s.v2[a];
    }
    forall a, b | a in s'.v2 && b in s'.v2 && s'.v2[a] == s'.v2[b] ensures a == b {
      assert a != id ==> s'.v2[a] == s.v2[a];
      assert b != id ==> s'.v2[b] == s.v2[b];
    }
  }

  lemma JoinStoreKeeps(s: Store, id: ShortId)
    requires StoreInv(s) && id !in s.files
    ensures StoreInv(JoinWait(s, id).0)
  {
    if id !in s.v1 && id !in s.v2 {
      NewWaitKeeps(s, id);
    }
  }

  lemma JoinServes(s: Sys, s': Sys, id: ShortId, k: Task)
    requires StoreInv(s.store) && TaskInv(s, k)
    requires s' == s.(store := JoinWait(s.store, id).0)
    ensures TaskInv(s', k)
  {}

  lemma JoinedServed(s: Sys, id: ShortId)
    requires StoreInv(s.store)
    ensures var (store, r) := JoinWait(s.store, id);
            r.Ok? ==> Served(s.(store := store), id, r.value)
  {}

  lemma JoinKeeps(s: Sys, t: nat, id: ShortId)
    requires Inv(s) && t !in s.tasks && id !in s.store.files
    ensures Inv(JoinSys(s, t, id))
  {
    var (store, r) := JoinWait(s.store, id);
    var s' := s.(store := store);
    JoinStoreKeeps(s.store, id);
    assert Inv(s') by {
      forall u | u in s'.tasks ensures TaskInv(s', s'.tasks[u]) {
        JoinServes(s, s', id, s.tasks[u]);
      }
    }
    JoinedServed(s, id);
    MoveKeeps(s', t, if r.Ok? then ReaderWaiting(id, r.value) else ReaderDone(id, Refused(r.error)));
  }

  lemma CleanWaitKeeps(s: Sys, id: ShortId)
    requires Inv(s)
    ensures Inv(s.(store := CleanWait(s.store, HandlesOf(s.tasks), id)))
  {
    var w := HandlesOf(s.tasks);
    var s' := s.(store := CleanWait(s.store, w, id));
    forall t | t in s'.tasks ensures TaskInv(s', s'.tasks[t]) {
      assert TaskInv(s, s.tasks[t]);
      if s.tasks[t].ReaderWaiting? {
        assert t in w && w[t] == s.tasks[t].chan;
      }
    }
  }

  lemma AcceptKeeps(s: Sys, id: ShortId, payload: Bytes)
    requires Inv(s)
    ensures Inv(s.(accepted := s.accepted + {(id, payload)}))
  {
    var s' := s.(accepted := s.accepted + {(id, payload)});
    forall t | t in s'.tasks ensures TaskInv(s', s'.tasks[t]) {
      assert TaskInv(s, s.tasks[t]);
    }
  }

  /** Removing a wait entry leaves nobody behind, because its channel is sent on. */
  lemma NotifyKeeps(s: Sys, id: ShortId, payload: Bytes)
    requires Inv(s) && (id, payload) in s.accepted
    ensures Inv(s.(store := Notify(s.store, id, payload)))
    ensures id !in Notify(s.store, id, payload).v2
  {
    var s' := s.(store := Notify(s.store, id, payload));
    forall t | t in s'.tasks ensures TaskInv(s', s'.tasks[t]) {
      assert TaskInv(s, s.tasks[t]);
    }
  }

  lemma IdsOfPush(q: Queue, entry: (Time, ShortId))
    ensures IdsOf(q + [entry]) == IdsOf(q) + {entry.1}
  {
    IdsOfSplit(q + [entry], |q|);
    assert (q + [entry])[..|q|] == q;
    assert IdsOf([entry]) == {entry.1} by { assert [entry][0] == entry; }
    assert (q + [entry])[|q|..] == [entry];
  }

  lemma FileKeeps(s: Sys, id: ShortId, file: StoredFile, entry: (Time, ShortId))
    requires Inv(s) && id !in s.store.v2 && entry.1 == id
    requires (id, Xored(s.store.key, file.data)) in s.accepted
    ensures Inv(s.(store := s.store.(files := s.store.files[id := file], order := s.store.order + [entry])))
  {
    var s' := s.(store := s.store.(files := s.store.files[id := file], order := s.store.order + [entry]));
    IdsOfPush(s.store.order, entry);
    forall t | t in s'.tasks ensures TaskInv(s', s'.tasks[t]) {
      assert TaskInv(s, s.tasks[t]);
    }
  }

  lemma StoreMailSplit(s: Store, id: ShortId, payload: Bytes, now: Time)
    requires HasRoom(s) && Inserted(s.key, s.files, id, payload, now).1.Some?
    ensures var (files, created) := Inserted(s.key, s.files, id, payload, now);
            var notified := Notify(s, id, payload);
            && StoreMail(s, id, payload, now)
               == (notified.(files := files, order := notified.order + [(created.value, id)]), Ok(Some(())))
            && id in files && files == s.files[id := files[id]] && Xored(s.key, files[id].data) == payload
  {
    XoredInvolution(s.key, payload);
  }

  lemma MailKeeps(s: Sys, id: ShortId, payload: Bytes)
    requires Inv(s)
    ensures Inv(MailSys(s, id, payload))
  {
    var (files, created) := Inserted(s.store.key, s.store.files, id, payload, s.clock);
    if HasRoom(s.store) && created.Some? {
      StoreMailSplit(s.store, id, payload, s.clock);
      var s1 := s.(accepted := s.accepted + {(id, payload)});
      AcceptKeeps(s, id, payload);
      NotifyKeeps(s1, id, payload);
      FileKeeps(s1.(store := Notify(s.store, id, payload)), id, files[id], (created.value, id));
    } else {
      assert MailSys(s, id, payload) == s;
    }
  }

  /** A new v1 slot: with its payload, or already emptied and counted as released. */
  function SlotSys(s: Sys, t: nat, id: ShortId, payload: Option<Bytes>): Sys {
    var c := |s.store.cells1|;
    Move(s, t, SenderWaiting(id, c)).(
      store := s.store.(v1 := s.store.v1[id := V1Entry(payload, c)], cells1 := s.store.cells1 + [Empty]),
      released := if payload.None? then s.released + multiset{c} else s.released)
  }

  lemma SlotStoreKeeps(s: Store, id: ShortId, payload: Option<Bytes>)
    requires StoreInv(s) && id !in s.v1 && id !in s.v2
    ensures StoreInv(s.(v1 := s.v1[id := V1Entry(payload, |s.cells1|)], cells1 := s.cells1 + [Empty]))
  {
    var s' := s.(v1 := s.v1[id := V1Entry(payload, |s.cells1|)], cells1 := s.cells1 + [Empty]);
    forall a, b | a in s'.v1 && b in s'.v1 && s'.v1[a].chan == s'.v1[b].chan ensures a == b {
      assert a != id ==> s'.v1[a] == s.v1[a];
      assert b != id ==> s'.v1[b] == s.v1[b];
    }
  }

  lemma SlotKeeps(s: Sys, t: nat, id: ShortId, payload: Option<Bytes>)
    requires Inv(s) && t !in s.tasks && id !in s.store.v1 && id !in s.store.v2
    requires payload.Some? ==> (id, payload.value) in s.accepted
    ensures Inv(SlotSys(s, t, id, payload))
  {
    var s' := SlotSys(s, t, id, payload);
    SlotStoreKeeps(s.store, id, payload);
    assert |s.store.cells1| !in s.released;
    forall u | u in s'.tasks ensures TaskInv(s', s'.tasks[u]) {
      if u != t { assert TaskInv(s, s.tasks[u]); }
    }
  }

  lemma OfferSplit(s: Sys, t: nat, id: ShortId, payload: Bytes)
    requires HasRoom(s.store) && id !in s.store.v1
    ensures OfferSys(s, t, id, payload) ==
      SlotSys(s.(accepted := s.accepted + {(id, payload)}, store := Notify(s.store, id, payload)),
              t, id, if id in s.store.v2 then None else Some(payload))
  {
    if id in s.store.v2 {
      var c := |s.store.cells1|;
      assert s.store.v1[id := V1Entry(Some(payload), c)][id := V1Entry(None, c)]
          == s.store.v1[id := V1Entry(None, c)];
    }
  }

  lemma OfferKeeps(s: Sys, t: nat, id: ShortId, payload: Bytes)
    requires Inv(s) && t !in s.tasks
    ensures Inv(OfferSys(s, t, id, payload))
  {
    if !HasRoom(s.store) || id in s.store.v1 {
      assert OfferSys(s, t, id, payload) == Move(s, t, SenderDone(id, Rejected));
      MoveKeeps(s, t, SenderDone(id, Rejected));
    } else {
      var s1 := s.(accepted := s.accepted + {(id, payload)});
      AcceptKeeps(s, id, payload);
      NotifyKeeps(s1, id, payload);
      OfferSplit(s, t, id, payload);
      SlotKeeps(s1.(store := Notify(s.store, id, payload)), t, id,
        if id in s.store.v2 then None else Some(payload));
    }
  }

  /** Freeing a slot is harmless to everyone else as long as its channel is closed or sent on. */
  lemma FreeSlotKeeps(s: Sys, id: ShortId, cells: seq<Cell<Bytes>>)
    requires Inv(s) && id in s.store.v1 && |cells| == |s.store.cells1|
    requires forall d :: 0 <= d < |cells| && d != s.store.v1[id].chan ==> cells[d] == s.store.cells1[d]
    requires !cells[s.store.v1[id].chan].Empty?
    ensures Inv(s.(store := s.store.(v1 := s.store.v1 - {id}, cells1 := cells)))
  {
    var s' := s.(store := s.store.(v1 := s.store.v1 - {id}, cells1 := cells));
    assert StoreInv(s'.store) by {
      forall a | a in s'.store.v1
        ensures s'.store.v1[a].chan < |cells| && cells[s'.store.v1[a].chan].Empty?
      {
        assert a in s.store.v1 && a != id;
      }
    }
    forall t | t in s'.tasks ensures TaskInv(s', s'.tasks[t]) {
      assert TaskInv(s, s.tasks[t]);
    }
  }

  lemma RespondKeeps(s: Sys, live: set<nat>, id: ShortId, payload: Bytes)
    requires Inv(s)
    ensures Inv(s.(store := PostV1Res(s.store, live, id, payload).0))
  {
    if id in s.store.v1 {
      var c := s.store.v1[id].chan;
      FreeSlotKeeps(s, id, if c in live then Send(s.store.cells1, c, payload) else Drop(s.store.cells1, {c}));
    }
  }

  lemma CleanSlotKeeps(s: Sys, id: ShortId)
    requires Inv(s)
    ensures Inv(s.(store := CleanSlot(s.store, id)))
  {
    if id in s.store.v1 {
      FreeSlotKeeps(s, id, Drop(s.store.cells1, {s.store.v1[id].chan}));
    }
  }

  lemma ExecKeeps(s: Sys, step: Step)
    requires Inv(s) && Enabled(s, step)
    ensures Inv(Exec(s, step))
  {
    match step
    case ReaderEnter(t, id, now) =>
      if MailboxSpec.Read(s.store, id).1.Some? {
        TakeKeeps(s.(clock := now), t, id);
      } else {
        PruneKeeps(s, now);
        JoinKeeps(PruneSys(s, now), t, id);
      }
    case V2Post(id, payload, now) =>
      PruneKeeps(s, now);
      MailKeeps(PruneSys(s, now), id, payload);
    case V1Post(t, id, payload, now) =>
      PruneKeeps(s, now);
      OfferKeeps(PruneSys(s, now), t, id, payload);
    case V1Respond(id, payload) => RespondKeeps(s, LiveSenders(s.tasks), id, payload);
    case ReaderClean(t) =>
      var k := s.tasks[t];
      CleanWaitKeeps(s, k.id);
      MoveKeeps(s.(store := CleanWait(s.store, HandlesOf(s.tasks), k.id)), t, ReaderDone(k.id, k.got));
    case SenderClean(t) =>
      var k := s.tasks[t];
      CleanSlotKeeps(s, k.id);
      MoveKeeps(s.(store := CleanSlot(s.store, k.id)), t, SenderDone(k.id, k.sent));
    case PruneTick(now) => PruneKeeps(s, now);
    case ReaderReceive(t) => MoveKeeps(s, t, Exec(s, step).tasks[t]);
    case ReaderTimeout(t) => MoveKeeps(s, t, Exec(s, step).tasks[t]);
    case SenderReceive(t) => MoveKeeps(s, t, Exec(s, step).tasks[t]);
    case SenderTimeout(t) => MoveKeeps(s, t, Exec(s, step).tasks[t]);
    case SenderFail(t) => MoveKeeps(s, t, Exec(s, step).tasks[t]);
  }

  lemma {:induction false} RunKeeps(s: Sys, steps: seq<Step>)
    requires Inv(s) && IsRun(s, steps)
    ensures Inv(End(s, steps))
    decreases |steps|
  {
    if steps != [] {
      ExecKeeps(s, steps[0]);
      RunKeeps(Exec(s, steps[0]), steps[1..]);
    }
  }
}
