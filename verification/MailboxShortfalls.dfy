/**
 Three things the mailbox store does not do: keep a v1 request's channel from another request's
 cleanup, keep the assertion its pruning begins with, and keep every mailbox for its whole time
 to live. When the first two happen is said here, when the third happens in MailboxExpiry; each
 comes with a run from an empty store.
 */
module MailboxShortfalls {
  import opened Wrappers
  import opened Disk
  import opened MailboxSpec
  import opened MailboxRuns
  import opened MailboxSteps
  import opened MailboxReaders

  /**
   A v1 request's channel is closed under it by exactly one kind of step: another request on
   the same id cleans up while this one still waits for a response. Cleanup removes the slot
   by id, whoever's it is.
   */
  lemma V1ChannelLostIff(e: Sys, step: Step, t: nat)
    requires Reachable(e) && Enabled(e, step)
    requires t in e.tasks && e.tasks[t].SenderWaiting? && !CellAt(e.store.cells1, e.tasks[t].chan).Dropped?
    ensures CellAt(Exec(e, step).store.cells1, e.tasks[t].chan).Dropped?
            <==> step.SenderClean? && e.tasks[step.t].id == e.tasks[t].id
                 && e.store.cells1[e.tasks[t].chan].Empty?
  {
    ReachableInv(e);
    LostIff(e, step, t);
  }

  lemma LostIff(s: Sys, step: Step, t: nat)
    requires Inv(s) && Enabled(s, step)
    requires t in s.tasks && s.tasks[t].SenderWaiting? && !CellAt(s.store.cells1, s.tasks[t].chan).Dropped?
    ensures CellAt(Exec(s, step).store.cells1, s.tasks[t].chan).Dropped?
            <==> step.SenderClean? && s.tasks[step.t].id == s.tasks[t].id
                 && s.store.cells1[s.tasks[t].chan].Empty?
  {
    var SenderWaiting(id, c) := s.tasks[t];
    assert TaskInv(s, s.tasks[t]);
    if step.SenderClean? {
      CleanDrops(s.store, s.tasks[step.t].id, c);
    } else if step.V1Respond? {
      assert c in LiveSenders(s.tasks);
      RespondSpares(s.store, LiveSenders(s.tasks), step.id, step.payload, c);
    } else {
      OtherStepsSpareV1(s, step);
    }
  }

  lemma CleanDrops(s: Store, id: ShortId, c: nat)
    requires StoreInv(s) && c < |s.cells1| && !s.cells1[c].Dropped?
    ensures CleanSlot(s, id).cells1[c].Dropped? <==> id in s.v1 && s.v1[id].chan == c
  {}

  lemma RespondSpares(s: Store, live: set<nat>, id: ShortId, payload: Bytes, c: nat)
    requires StoreInv(s) && c < |s.cells1| && !s.cells1[c].Dropped? && c in live
    ensures !PostV1Res(s, live, id, payload).0.cells1[c].Dropped?
  {}

  lemma PruneV1Cells(s: Store, w: Handles, now: Time)
    ensures Prune(s, w, now).cells1 == s.cells1
  {}

  lemma MailV1Cells(s: Store, id: ShortId, payload: Bytes, now: Time)
    ensures StoreMail(s, id, payload, now).0.cells1 == s.cells1
  {}

  lemma OfferV1Cells(s: Store, id: ShortId, payload: Bytes)
    ensures s.cells1 <= OfferV1(s, id, payload).0.cells1
  {}

  lemma ReaderV1Cells(s: Store, w: Handles, id: ShortId)
    ensures MailboxSpec.Read(s, id).0.cells1 == s.cells1
    ensures JoinWait(s, id).0.cells1 == s.cells1
    ensures CleanWait(s, w, id).cells1 == s.cells1
  {}

  lemma OtherStepsSpareV1(s: Sys, step: Step)
    requires Enabled(s, step) && !step.SenderClean? && !step.V1Respond?
    ensures s.store.cells1 <= Exec(s, step).store.cells1
  {
    var w := HandlesOf(s.tasks);
    match step
    case ReaderEnter(t, id, now) =>
      PruneV1Cells(s.store, w, now);
      ReaderV1Cells(s.store, w, id);
      ReaderV1Cells(PruneSys(s, now).store, w, id);
    case ReaderClean(t) => ReaderV1Cells(s.store, w, s.tasks[t].id);
    case V2Post(id, payload, now) =>
      PruneV1Cells(s.store, w, now);
      MailV1Cells(PruneSys(s, now).store, id, payload, now);
      PostStore(s, id, payload, now);
    case V1Post(t, id, payload, now) =>
      PruneV1Cells(s.store, w, now);
      OfferV1Cells(PruneSys(s, now).store, id, payload);
      OfferStore(s, t, id, payload, now);
    case PruneTick(now) => PruneV1Cells(s.store, w, now);
    case _ =>
  }

  ghost predicate StepsTo(s: Sys, e: Sys) {
    exists step :: Enabled(s, step) && Exec(s, step) == e
  }

  ghost predicate Reaches(s: Sys, e: Sys) {
    exists steps :: IsRun(s, steps) && End(s, steps) == e
  }

  lemma ReachesSelf(s: Sys)
    ensures Reaches(s, s)
  {
    var none: seq<Step> := [];
    assert IsRun(s, none) && End(s, none) == s;
  }

  lemma ReachesBack(s: Sys, m: Sys, e: Sys)
    requires StepsTo(s, m) && Reaches(m, e)
    ensures Reaches(s, e)
  {
    var step :| Enabled(s, step) && Exec(s, step) == m;
    var rest :| IsRun(m, rest) && End(m, rest) == e;
    var steps := [step] + rest;
    assert steps[1..] == rest && steps[0] == step;
    assert IsRun(s, steps) && End(s, steps) == End(m, rest);
  }

  // A store with nothing but v1 slots.
  predicate OnlySlots(s: Sys, slots: map<ShortId, V1Entry>, cells: seq<Cell<Bytes>>, tasks: map<nat, Task>) {
    && s.store.v1 == slots && s.store.v2 == map[] && s.store.order == [] && s.store.cells1 == cells
    && s.tasks == tasks
  }

  lemma ClaimStep(
    s: Sys, cells: seq<Cell<Bytes>>, tasks: map<nat, Task>, t: nat, id: ShortId, payload: Bytes)
    returns (s': Sys)
    requires OnlySlots(s, map[], cells, tasks) && s.store.capacity > 0 && t !in tasks
    ensures StepsTo(s, s') && s'.store.capacity == s.store.capacity
    ensures OnlySlots(s', map[id := V1Entry(Some(payload), |cells|)], cells + [Empty],
                      tasks[t := SenderWaiting(id, |cells|)])
  {
    assert Enabled(s, V1Post(t, id, payload, s.clock));
    s' := Exec(s, V1Post(t, id, payload, s.clock));
  }

  lemma RespondStep(
    s: Sys, cells: seq<Cell<Bytes>>, tasks: map<nat, Task>, t: nat, id: ShortId, c: nat, p: Bytes, response: Bytes)
    returns (s': Sys)
    requires OnlySlots(s, map[id := V1Entry(Some(p), c)], cells, tasks) && c < |cells|
    requires t in tasks && tasks[t] == SenderWaiting(id, c)
    ensures StepsTo(s, s') && s'.store.capacity == s.store.capacity
    ensures OnlySlots(s', map[], cells[c := Sent(response)], tasks)
  {
    assert c in LiveSenders(s.tasks);
    assert map[id := V1Entry(Some(p), c)] - {id} == map[];
    assert Enabled(s, V1Respond(id, response));
    s' := Exec(s, V1Respond(id, response));
  }

  lemma ReceiveStep(
    s: Sys, cells: seq<Cell<Bytes>>, tasks: map<nat, Task>, t: nat, id: ShortId, c: nat, response: Bytes)
    returns (s': Sys)
    requires OnlySlots(s, map[], cells, tasks) && c < |cells| && cells[c] == Sent(response)
    requires t in tasks && tasks[t] == SenderWaiting(id, c)
    ensures StepsTo(s, s') && s'.store.capacity == s.store.capacity
    ensures OnlySlots(s', map[], cells, tasks[t := SenderCleanup(id, Response(response))])
  {
    assert Enabled(s, SenderReceive(t));
    s' := Exec(s, SenderReceive(t));
  }

  lemma CleanStep(
    s: Sys, cells: seq<Cell<Bytes>>, tasks: map<nat, Task>, t: nat, id: ShortId, c: nat, p: Bytes)
    returns (s': Sys)
    requires OnlySlots(s, map[id := V1Entry(Some(p), c)], cells, tasks) && c < |cells| && cells[c].Empty?
    requires t in tasks && tasks[t].SenderCleanup? && tasks[t].id == id
    ensures StepsTo(s, s')
    ensures s'.store.cells1 == cells[c := Dropped] && s'.tasks == tasks[t := SenderDone(id, tasks[t].sent)]
  {
    assert Enabled(s, SenderClean(t));
    s' := Exec(s, SenderClean(t));
  }

  lemma SlotTaken(s: Sys, id: ShortId) returns (e: Sys)
    requires s.store.capacity > 0
    requires OnlySlots(s, map[], [Sent([2])], map[0 := SenderCleanup(id, Response([2]))])
    ensures Reaches(s, e) && Enabled(e, SenderFail(1))
  {
    var tasks := map[0 := SenderCleanup(id, Response([2]))];
    var s' := ClaimStep(s, [Sent([2])], tasks, 1, id, [3]);
    e := CleanStep(s', [Sent([2]), Empty], tasks[1 := SenderWaiting(id, 1)], 0, id, 1, [3]);
    ReachesSelf(e);
    ReachesBack(s', e, e);
    ReachesBack(s, s', e);
  }

  /**
   It does happen: from any empty store, a request that has received its response but not yet
   cleaned up takes the slot of the next request on the same id with it.
   */
  lemma V1ChannelLost(s: Sys, id: ShortId) returns (e: Sys)
    requires Start(s) && s.store.order == [] && s.store.capacity > 0
    ensures Reaches(s, e) && Enabled(e, SenderFail(1))
  {
    var tasks := map[0 := SenderWaiting(id, 0)];
    var s1 := ClaimStep(s, [], map[], 0, id, [1]);
    var s2 := RespondStep(s1, [Empty], tasks, 0, id, 0, [1], [2]);
    var s3 := ReceiveStep(s2, [Sent([2])], tasks, 0, id, 0, [2]);
    e := SlotTaken(s3, id);
    ReachesBack(s2, s3, e);
    ReachesBack(s1, s2, e);
    ReachesBack(s, s1, e);
  }

  // ----- the assertion at the start of every pruning -----

  /** No v1 slot's receiver is closed. */
  ghost predicate SlotsLive(s: Sys) {
    forall id :: id in s.store.v1 ==> s.store.v1[id].chan in LiveSenders(s.tasks)
  }

  /** No two requests wait on the same channel. */
  ghost predicate OwnChannels(tasks: map<nat, Task>) {
    forall t, u :: t in tasks && u in tasks && tasks[t].SenderWaiting? && tasks[u].SenderWaiting? ==>
      (tasks[t].chan == tasks[u].chan ==> t == u)
  }

  lemma OfferTasks(s: Sys, t: nat, id: ShortId, payload: Bytes)
    ensures var k := OfferSys(s, t, id, payload).tasks[t];
            && OfferSys(s, t, id, payload).tasks == s.tasks[t := k]
            && (k.SenderWaiting? ==> k.chan == |s.store.cells1|)
  {}

  lemma MailTasks(s: Sys, id: ShortId, payload: Bytes)
    ensures MailSys(s, id, payload).tasks == s.tasks
  {}

  lemma EnterTasks(s: Sys, t: nat, id: ShortId, now: Time)
    requires Enabled(s, ReaderEnter(t, id, now))
    ensures var e := Exec(s, ReaderEnter(t, id, now));
            t in e.tasks && !e.tasks[t].SenderWaiting? && e.tasks == s.tasks[t := e.tasks[t]]
  {}

  /** Only a v1 post makes a new waiting request. */
  lemma NoNewSender(s: Sys, step: Step, t: nat)
    requires Enabled(s, step) && !step.V1Post?
    requires t in Exec(s, step).tasks && Exec(s, step).tasks[t].SenderWaiting?
    ensures t in s.tasks && s.tasks[t] == Exec(s, step).tasks[t]
  {
    match step
    case ReaderEnter(u, id, now) => EnterTasks(s, u, id, now);
    case V2Post(id, payload, now) => MailTasks(PruneSys(s, now), id, payload);
    case _ =>
  }

  lemma ExecOwnChannels(s: Sys, step: Step)
    requires Inv(s) && OwnChannels(s.tasks) && Enabled(s, step)
    ensures OwnChannels(Exec(s, step).tasks)
  {
    if step.V1Post? {
      PruneV1Cells(s.store, HandlesOf(s.tasks), step.now);
      OfferTasks(PruneSys(s, step.now), step.t, step.id, step.payload);
      forall t | t in s.tasks && s.tasks[t].SenderWaiting? ensures s.tasks[t].chan < |s.store.cells1| {
        assert TaskInv(s, s.tasks[t]);
      }
    } else {
      forall t | t in Exec(s, step).tasks && Exec(s, step).tasks[t].SenderWaiting?
        ensures t in s.tasks && s.tasks[t] == Exec(s, step).tasks[t]
      {
        NoNewSender(s, step, t);
      }
    }
  }

  lemma {:induction false} RunOwnChannels(s: Sys, steps: seq<Step>)
    requires Inv(s) && OwnChannels(s.tasks) && IsRun(s, steps)
    ensures OwnChannels(End(s, steps).tasks)
    decreases |steps|
  {
    if steps != [] {
      ExecOwnChannels(s, steps[0]);
      ExecKeeps(s, steps[0]);
      RunOwnChannels(Exec(s, steps[0]), steps[1..]);
    }
  }

  lemma ReachableOwnChannels(e: Sys)
    requires Reachable(e)
    ensures OwnChannels(e.tasks)
  {
    var s, steps :| Start(s) && IsRun(s, steps) && End(s, steps) == e;
    StartInv(s);
    RunOwnChannels(s, steps);
  }

  lemma LeavingSender(s: Sys, step: Step)
    requires Inv(s) && OwnChannels(s.tasks) && SlotsLive(s) && Enabled(s, step)
    requires step.SenderReceive? || step.SenderTimeout? || step.SenderFail?
    ensures SlotsLive(Exec(s, step)) <==> !CellAt(s.store.cells1, s.tasks[step.t].chan).Empty?
  {
    var SenderWaiting(id, c) := s.tasks[step.t];
    var e := Exec(s, step);
    assert TaskInv(s, s.tasks[step.t]);
    forall d ensures d in LiveSenders(e.tasks) <==> d in LiveSenders(s.tasks) && d != c {
      if u :| u in s.tasks && s.tasks[u].SenderWaiting? && s.tasks[u].chan == d {
        assert d != c ==> e.tasks[u] == s.tasks[u];
      }
    }
  }

  lemma SameSenders(s: Sys, e: Sys)
    requires SlotsLive(s) && LiveSenders(s.tasks) <= LiveSenders(e.tasks) && SlotsFrom(s.store, e.store)
    ensures SlotsLive(e)
  {}

  lemma SendersStay(s: Sys, step: Step)
    requires Enabled(s, step) && !step.V1Post?
    requires !step.SenderReceive? && !step.SenderTimeout? && !step.SenderFail?
    ensures LiveSenders(s.tasks) <= LiveSenders(Exec(s, step).tasks)
  {
    var e := Exec(s, step);
    match step {
      case ReaderEnter(t, id, now) => EnterTasks(s, t, id, now);
      case V2Post(id, payload, now) => MailTasks(PruneSys(s, now), id, payload);
      case _ =>
    }
    assert forall t :: t in s.tasks && s.tasks[t].SenderWaiting? ==> t in e.tasks && e.tasks[t] == s.tasks[t];
  }

  lemma OfferLive(s: Sys, t: nat, id: ShortId, payload: Bytes)
    requires SlotsLive(s) && t !in s.tasks
    ensures SlotsLive(OfferSys(s, t, id, payload))
  {
    var e := OfferSys(s, t, id, payload);
    assert forall u :: u in s.tasks ==> u in e.tasks && e.tasks[u] == s.tasks[u];
    if HasRoom(s.store) && id !in s.store.v1 {
      OfferSplit(s, t, id, payload);
      assert e.tasks[t] == SenderWaiting(id, e.store.v1[id].chan);
    }
  }

  /**
   The assertion that no v1 sender is closed is broken by exactly one kind of step: the timeout
   of a request whose response has not been sent. It is not an invariant.
   */
  lemma AssertionBrokenIff(e: Sys, step: Step)
    requires Reachable(e) && Enabled(e, step) && SlotsLive(e)
    ensures !SlotsLive(Exec(e, step))
            <==> step.SenderTimeout? && CellAt(e.store.cells1, e.tasks[step.t].chan).Empty?
  {
    ReachableInv(e);
    ReachableOwnChannels(e);
    var w := HandlesOf(e.tasks);
    if step.SenderReceive? || step.SenderTimeout? || step.SenderFail? {
      LeavingSender(e, step);
    } else if step.V1Post? {
      PruneKeepsSlots(e.store, w, step.now);
      OfferLive(PruneSys(e, step.now), step.t, step.id, step.payload);
    } else {
      SendersStay(e, step);
      OtherSlotsFrom(e, step);
      SameSenders(e, Exec(e, step));
    }
  }

  lemma OtherSlotsFrom(s: Sys, step: Step)
    requires Enabled(s, step) && !step.V1Post?
    ensures SlotsFrom(s.store, Exec(s, step).store)
  {
    var w := HandlesOf(s.tasks);
    match step
    case ReaderEnter(t, id, now) =>
      PruneKeepsSlots(s.store, w, now);
      EnterKeepsSlots(s.store, w, id);
      EnterKeepsSlots(PruneSys(s, now).store, w, id);
    case ReaderClean(t) => EnterKeepsSlots(s.store, w, s.tasks[t].id);
    case V2Post(id, payload, now) =>
      PruneKeepsSlots(s.store, w, now);
      MailKeepsSlots(PruneSys(s, now).store, id, payload, now);
      PostStore(s, id, payload, now);
    case PruneTick(now) => PruneKeepsSlots(s.store, w, now);
    case V1Respond(id, payload) => ResponseKeepsSlots(s.store, LiveSenders(s.tasks), id, payload);
    case _ =>
  }

  /** And it stays broken no longer than until that request has cleaned up. */
  lemma ClosedSlotAwaitsCleanup(e: Sys, id: ShortId)
    requires Reachable(e) && id in e.store.v1 && e.store.v1[id].chan !in LiveSenders(e.tasks)
    ensures exists t :: t in e.tasks && e.tasks[t] == SenderCleanup(id, SendTimeout)
  {
    NoOrphanedSlot(e, id);
    var t :| t in e.tasks && Owns(e.tasks[t], id, e.store.v1[id].chan);
    assert e.tasks[t] != SenderWaiting(id, e.store.v1[id].chan);
  }

  /** It happens: from any empty store, one request that times out is enough. */
  lemma AssertionFails(s: Sys, id: ShortId) returns (e: Sys)
    requires Start(s) && s.store.order == [] && s.store.capacity > 0
    ensures Reaches(s, e) && !SlotsLive(e) && Enabled(e, PruneTick(e.clock))
  {
    var s1 := ClaimStep(s, [], map[], 0, id, [1]);
    assert Enabled(s1, SenderTimeout(0));
    e := Exec(s1, SenderTimeout(0));
    ReachesSelf(e);
    ReachesBack(s1, e, e);
    ReachesBack(s, s1, e);
  }

  // A store with nothing but mailboxes.
  predicate OnlyMail(s: Sys, q: Queue, files: Directory) {
    s.store.v1 == map[] && s.store.v2 == map[] && s.store.order == q && s.store.files == files
  }

  predicate SameSettings(s: Store, s': Store) {
    s'.capacity == s.capacity && s'.ttl == s.ttl && s'.key == s.key
  }

  lemma MailStep(s: Sys, q: Queue, files: Directory, k: nat, id: ShortId, payload: Bytes, now: Time)
    returns (s': Sys)
    requires OnlyMail(s, q, files) && s.clock <= now
    requires k == ExpiredCount(q, s.store.ttl, now) && |q| - k < s.store.capacity
    requires id in files - IdsOf(q[..k]) ==> Xored(s.store.key, files[id].data) == payload
    ensures StepsTo(s, s') && SameSettings(s.store, s'.store) && s'.clock == now
    ensures var left := files - IdsOf(q[..k]);
            var file := if id in left then left[id] else StoredFile(now, Xored(s.store.key, payload));
            OnlyMail(s', q[k..] + [(file.created, id)], left[id := file])
  {
    assert Enabled(s, V2Post(id, payload, now));
    s' := Exec(s, V2Post(id, payload, now));
    PostStore(s, id, payload, now);
    var p := PruneSys(s, now).store;
    assert p.order == q[k..] && p.files == files - IdsOf(q[..k]) && p.v2 == map[] && p.v1 == map[];
    StoreMailSplit(p, id, payload, now);
  }

  /** The same when nothing has expired. */
  lemma MailStepNow(s: Sys, q: Queue, files: Directory, id: ShortId, payload: Bytes, now: Time)
    returns (s': Sys)
    requires OnlyMail(s, q, files) && s.clock <= now && |q| < s.store.capacity
    requires q == [] || !Expired(q[0], s.store.ttl, now)
    requires id in files ==> Xored(s.store.key, files[id].data) == payload
    ensures StepsTo(s, s') && SameSettings(s.store, s'.store) && s'.clock == now
    ensures var file := if id in files then files[id] else StoredFile(now, Xored(s.store.key, payload));
            OnlyMail(s', q + [(file.created, id)], files[id := file])
  {
    assert files - IdsOf(q[..0]) == files && q[0..] == q;
    s' := MailStep(s, q, files, 0, id, payload, now);
  }

  /** Mailbox 7 has time left to live, yet the next pruning deletes it. */
  predicate DeletesEarly(e: Sys) {
    && 7 in e.store.files && !(e.store.files[7].created + e.store.ttl < e.clock + 1)
    && 7 !in PruneSys(e, e.clock + 1).store.files
  }

  lemma FreshMailBehindStaleEntry(s: Sys, a: Bytes, t: Time, file7: StoredFile, file8: StoredFile)
    returns (e: Sys)
    requires s.clock <= t + s.store.ttl + 1 && s.store.capacity >= 3 && s.store.ttl >= 1
    requires OnlyMail(s, [(t, 7), (t + 1, 8), (t, 7)], map[7 := file7, 8 := file8])
    ensures Reaches(s, e) && DeletesEarly(e)
  {
    var q := [(t, 7), (t + 1, 8), (t, 7)];
    FirstOfThree(q, s.store.ttl, t + s.store.ttl + 1);
    e := MailStep(s, q, map[7 := file7, 8 := file8], 1, 7, a, t + s.store.ttl + 1);
    StaleEntry(e, t);
    ReachesSelf(e);
    ReachesBack(s, e, e);
  }

  lemma RepostedMail(s: Sys, a: Bytes, t: Time, file7: StoredFile, file8: StoredFile) returns (e: Sys)
    requires s.clock == t + 1 && s.store.capacity >= 3 && s.store.ttl >= 1
    requires OnlyMail(s, [(t, 7), (t + 1, 8)], map[7 := file7, 8 := file8])
    requires file7.created == t && Xored(s.store.key, file7.data) == a
    ensures Reaches(s, e) && DeletesEarly(e)
  {
    var files := map[7 := file7, 8 := file8];
    var s' := MailStepNow(s, [(t, 7), (t + 1, 8)], files, 7, a, t + 1);
    assert files[7 := file7] == files;
    e := FreshMailBehindStaleEntry(s', a, t, file7, file8);
    ReachesBack(s, s', e);
  }

  lemma SecondMail(s: Sys, a: Bytes, t: Time, file7: StoredFile) returns (e: Sys)
    requires s.clock == t && s.store.capacity >= 3 && s.store.ttl >= 1
    requires OnlyMail(s, [(t, 7)], map[7 := file7])
    requires file7.created == t && Xored(s.store.key, file7.data) == a
    ensures Reaches(s, e) && DeletesEarly(e)
  {
    var s' := MailStepNow(s, [(t, 7)], map[7 := file7], 8, a, t + 1);
    e := RepostedMail(s', a, t, file7, s'.store.files[8]);
    ReachesBack(s, s', e);
  }

  lemma FirstMail(s: Sys, a: Bytes) returns (e: Sys)
    requires OnlyMail(s, [], map[]) && s.store.capacity >= 3 && s.store.ttl >= 1
    ensures Reaches(s, e) && DeletesEarly(e)
  {
    XoredInvolution(s.store.key, a);
    var s' := MailStepNow(s, [], map[], 7, a, s.clock);
    e := SecondMail(s', a, s.clock, s'.store.files[7]);
    ReachesBack(s, s', e);
  }

  /**
   It takes a re-post: the stale entry it leaves in the queue later deletes a fresh mailbox of
   the same id whose time to live has not passed.
   */
  lemma RepostDeletesEarly(s: Sys, a: Bytes) returns (e: Sys)
    requires Start(s) && s.store.order == [] && s.store.capacity >= 3 && s.store.ttl >= 1
    ensures Reaches(s, e) && DeletesEarly(e)
  {
    assert s.store.files == map[];
    e := FirstMail(s, a);
  }

  lemma FirstOfThree(q: Queue, ttl: Time, now: Time)
    requires |q| == 3 && Expired(q[0], ttl, now) && !Expired(q[1], ttl, now)
    ensures ExpiredCount(q, ttl, now) == 1
    ensures IdsOf(q[..1]) == {q[0].1}
  {
    assert q[1..][0] == q[1];
  }

  lemma StaleEntry(e: Sys, t: Time)
    requires e.clock == t + e.store.ttl + 1 && e.store.ttl >= 1
    requires e.store.order == [(t + 1, 8), (t, 7), (e.clock, 7)]
    ensures 7 !in PruneSys(e, e.clock + 1).store.files
  {
    var q := e.store.order;
    assert ExpiredCount(q[1..], e.store.ttl, e.clock + 1) == 1 by { assert q[1..][1..][0] == q[2]; }
    assert ExpiredCount(q, e.store.ttl, e.clock + 1) == 2;
    assert q[..2][1].1 == 7;
  }
}
