/**
 Expiry of mailboxes on every run, identical re-posts included: nothing expired is ever kept,
 exactly when something is deleted before its time, and which step makes that possible.
 */
module MailboxExpiry {
  import opened Wrappers
  import opened Disk
  import opened MailboxSpec
  import opened MailboxRuns
  import opened MailboxSteps

  /** Entry `i` is the one a stored mailbox was queued with; nothing before it is younger. */
  ghost predicate OwnEntry(q: Queue, i: nat, id: ShortId, created: Time) {
    && i < |q| && q[i] == (created, id)
    && (forall j :: 0 <= j <= i ==> q[j].0 <= created)
  }

  /** Every stored mailbox still has that entry. */
  ghost predicate Queued(q: Queue, files: Directory) {
    forall id :: id in files ==> exists i: nat :: OwnEntry(q, i, id, files[id].created)
  }

  ghost predicate NotAfter(q: Queue, clock: Time) {
    forall i :: 0 <= i < |q| ==> q[i].0 <= clock
  }

  ghost predicate MailInv(s: Sys) {
    Queued(s.store.order, s.store.files) && NotAfter(s.store.order, s.clock)
  }

  lemma StartQueued(s: Sys)
    requires Start(s)
    ensures MailInv(s)
  {
    var q := s.store.order;
    forall id | id in s.store.files ensures exists i: nat :: OwnEntry(q, i, id, s.store.files[id].created) {
      var i :| 0 <= i < |q| && q[i].1 == id;
      assert OwnEntry(q, i, id, s.store.files[id].created);
    }
  }

  lemma PrefixIds(q: Queue, k: nat)
    requires k <= |q|
    ensures forall i :: 0 <= i < k ==> q[i].1 in IdsOf(q[..k])
  {
    forall i | 0 <= i < k ensures q[i].1 in IdsOf(q[..k]) {
      assert q[..k][i] == q[i];
    }
  }

  lemma DropKeepsQueued(q: Queue, files: Directory, k: nat)
    requires Queued(q, files) && k <= |q|
    ensures Queued(q[k..], files - IdsOf(q[..k]))
  {
    var left := files - IdsOf(q[..k]);
    PrefixIds(q, k);
    forall id | id in left ensures exists i: nat :: OwnEntry(q[k..], i, id, left[id].created) {
      var i: nat :| OwnEntry(q, i, id, files[id].created);
      assert OwnEntry(q[k..], i - k, id, left[id].created);
    }
  }

  lemma PruneKeepsMail(s: Sys, now: Time)
    requires MailInv(s) && s.clock <= now
    ensures MailInv(PruneSys(s, now))
  {
    DropKeepsQueued(s.store.order, s.store.files, ExpiredCount(s.store.order, s.store.ttl, now));
  }

  lemma PushKeepsQueued(q: Queue, files: Directory, id: ShortId, file: StoredFile, clock: Time)
    requires Queued(q, files) && NotAfter(q, clock)
    requires if id in files then file == files[id] else file.created == clock
    ensures Queued(q + [(file.created, id)], files[id := file])
  {
    var q', files' := q + [(file.created, id)], files[id := file];
    forall other | other in files' ensures exists i: nat :: OwnEntry(q', i, other, files'[other].created) {
      if other in files {
        var i: nat :| OwnEntry(q, i, other, files[other].created);
        assert OwnEntry(q', i, other, files'[other].created);
      } else {
        assert OwnEntry(q', |q|, id, clock);
      }
    }
  }

  /** The file a post finds or leaves. */
  function PostedFile(s: Store, id: ShortId, payload: Bytes, now: Time): StoredFile {
    if id in s.files then s.files[id] else StoredFile(now, Xored(s.key, payload))
  }

  predicate Accepts(s: Store, id: ShortId, payload: Bytes) {
    HasRoom(s) && (id in s.files ==> Xored(s.key, s.files[id].data) == payload)
  }

  /** What a post leaves in directory and queue. */
  lemma MailAfterPost(s: Store, id: ShortId, payload: Bytes, now: Time)
    ensures var s', file := StoreMail(s, id, payload, now).0, PostedFile(s, id, payload, now);
            if Accepts(s, id, payload) then
              s'.files == s.files[id := file] && s'.order == s.order + [(file.created, id)]
            else s' == s
  {
    if Accepts(s, id, payload) {
      StoreMailSplit(s, id, payload, now);
    }
  }

  lemma OwnTimes(q: Queue, files: Directory, clock: Time, id: ShortId)
    requires Queued(q, files) && NotAfter(q, clock) && id in files
    ensures files[id].created <= clock
  {
    var i: nat :| OwnEntry(q, i, id, files[id].created);
  }

  lemma PostKeepsMail(s: Sys, id: ShortId, payload: Bytes, now: Time)
    requires MailInv(s) && Enabled(s, V2Post(id, payload, now))
    ensures MailInv(Exec(s, V2Post(id, payload, now)))
  {
    PruneKeepsMail(s, now);
    PostStore(s, id, payload, now);
    var p := PruneSys(s, now).store;
    MailAfterPost(p, id, payload, now);
    if Accepts(p, id, payload) {
      PushKeepsQueued(p.order, p.files, id, PostedFile(p, id, payload, now), now);
      if id in p.files { OwnTimes(p.order, p.files, now, id); }
    }
  }

  lemma ExecKeepsMail(s: Sys, step: Step)
    requires MailInv(s) && Enabled(s, step)
    ensures MailInv(Exec(s, step))
  {
    if step.V2Post? {
      PostKeepsMail(s, step.id, step.payload, step.now);
    } else {
      if Prunes(s, step) { PruneKeepsMail(s, step.now); }
      OtherStepsMail(s, step);
    }
  }

  lemma {:induction false} RunKeepsMail(s: Sys, steps: seq<Step>)
    requires MailInv(s) && IsRun(s, steps)
    ensures MailInv(End(s, steps))
    decreases |steps|
  {
    if steps != [] {
      ExecKeepsMail(s, steps[0]);
      RunKeepsMail(Exec(s, steps[0]), steps[1..]);
    }
  }

  lemma ReachableMail(e: Sys)
    requires Reachable(e)
    ensures MailInv(e)
  {
    var s, steps :| Start(s) && IsRun(s, steps) && End(s, steps) == e;
    StartQueued(s);
    RunKeepsMail(s, steps);
  }

  // ----- what pruning deletes -----

  lemma BeforeCount(q: Queue, ttl: Time, now: Time, i: nat)
    requires i < |q|
    ensures i < ExpiredCount(q, ttl, now) <==> forall j :: 0 <= j <= i ==> Expired(q[j], ttl, now)
  {}

  lemma DeletedIff(q: Queue, files: Directory, ttl: Time, now: Time, id: ShortId)
    requires id in files
    ensures id !in files - IdsOf(q[..ExpiredCount(q, ttl, now)])
            <==> exists i :: 0 <= i < |q| && q[i].1 == id && forall j :: 0 <= j <= i ==> Expired(q[j], ttl, now)
  {
    var k := ExpiredCount(q, ttl, now);
    if i: nat :| 0 <= i < |q| && q[i].1 == id && forall j :: 0 <= j <= i ==> Expired(q[j], ttl, now) {
      BeforeCount(q, ttl, now, i);
      assert q[..k][i].1 == id;
    }
    if id in IdsOf(q[..k]) {
      var i :| 0 <= i < |q[..k]| && q[..k][i].1 == id;
      BeforeCount(q, ttl, now, i);
      assert q[i].1 == id;
    }
  }

  predicate Overdue(s: Store, id: ShortId, now: Time)
    requires id in s.files
  {
    s.files[id].created + s.ttl < now
  }

  /** On every run, whatever has been posted again: no mailbox past its time survives a pruning. */
  lemma ExpiredNeverSurvives(e: Sys, id: ShortId, now: Time)
    requires Reachable(e) && id in e.store.files && Overdue(e.store, id, now)
    ensures id !in PruneSys(e, now).store.files
  {
    ReachableMail(e);
    var q := e.store.order;
    var i: nat :| OwnEntry(q, i, id, e.store.files[id].created);
    DeletedIff(q, e.store.files, e.store.ttl, now, id);
  }

  /** Entry `i` names `id` but is older than its mailbox: left over from an earlier one. */
  predicate StaleAt(q: Queue, files: Directory, i: nat, id: ShortId) {
    i < |q| && id in files && q[i].1 == id && q[i].0 < files[id].created
  }

  /** Such an entry, expired along with everything in front of it while the mailbox has time left. */
  predicate StaleExpired(s: Store, i: nat, id: ShortId, now: Time) {
    && StaleAt(s.order, s.files, i, id) && !Overdue(s, id, now)
    && (forall j :: 0 <= j <= i ==> Expired(s.order[j], s.ttl, now))
  }

  /**
   A mailbox with time left is deleted by a pruning exactly when the queue holds a stale entry
   of its id that has come up.
   */
  lemma DeletedEarlyIff(e: Sys, id: ShortId, now: Time)
    requires id in e.store.files && !Overdue(e.store, id, now)
    ensures id !in PruneSys(e, now).store.files
            <==> exists i: nat :: StaleExpired(e.store, i, id, now)
  {
    var q := e.store.order;
    DeletedIff(q, e.store.files, e.store.ttl, now, id);
    if i: nat :| 0 <= i < |q| && q[i].1 == id && forall j :: 0 <= j <= i ==> Expired(q[j], e.store.ttl, now) {
      assert Expired(q[i], e.store.ttl, now);
      assert StaleExpired(e.store, i, id, now);
    }
  }

  /** Hence on every run a pruning deletes exactly the overdue mailboxes iff no such entry has expired. */
  lemma PruneExactIff(e: Sys, now: Time)
    requires Reachable(e)
    ensures PruneSys(e, now).store.files
            == (map id | id in e.store.files && !Overdue(e.store, id, now) :: e.store.files[id])
            <==> !exists i: nat, id :: StaleExpired(e.store, i, id, now)
  {
    var s, p := e.store, PruneSys(e, now).store;
    var exact := map id | id in s.files && !Overdue(s, id, now) :: s.files[id];
    forall id | id in s.files && Overdue(s, id, now) ensures id !in p.files {
      ExpiredNeverSurvives(e, id, now);
    }
    if i: nat, id :| StaleExpired(s, i, id, now) {
      DeletedEarlyIff(e, id, now);
      assert id in exact;
    } else {
      forall id | id in exact ensures id in p.files {
        DeletedEarlyIff(e, id, now);
      }
      assert p.files == exact;
    }
  }

  // ----- where stale entries come from -----

  ghost predicate HasStale(q: Queue, files: Directory, id: ShortId) {
    exists i: nat :: StaleAt(q, files, i, id)
  }

  ghost predicate Stale(s: Store, id: ShortId) {
    HasStale(s.order, s.files, id)
  }

  lemma SuffixStale(q: Queue, files: Directory, k: nat, id: ShortId)
    requires k <= |q| && HasStale(q[k..], files - IdsOf(q[..k]), id)
    ensures HasStale(q, files, id)
  {
    var i: nat :| StaleAt(q[k..], files - IdsOf(q[..k]), i, id);
    assert StaleAt(q, files, k + i, id);
  }

  lemma PushStale(q: Queue, files: Directory, id: ShortId, file: StoredFile, other: ShortId)
    requires !HasStale(q, files, other)
    requires id in files ==> file == files[id]
    ensures HasStale(q + [(file.created, id)], files[id := file], other)
            <==> other == id && id !in files && exists i :: 0 <= i < |q| && q[i].1 == id && q[i].0 < file.created
  {
    var q', files' := q + [(file.created, id)], files[id := file];
    if i: nat :| StaleAt(q', files', i, other) {
      assert i < |q|;
      assert q'[i] == q[i];
      assert other != id || id in files ==> StaleAt(q, files, i, other);
    }
    if other == id && id !in files {
      if i: nat :| 0 <= i < |q| && q[i].1 == id && q[i].0 < file.created {
        assert StaleAt(q', files', i, other);
      }
    }
  }

  /**
   An id gets a stale entry by exactly one kind of step: a post accepted for it while no mailbox
   of it is stored but an older entry of it is still queued.
   */
  lemma StaleAppearsIff(s: Sys, step: Step, id: ShortId)
    requires Enabled(s, step) && !Stale(s.store, id)
    ensures Stale(Exec(s, step).store, id)
            <==> step.V2Post? && step.id == id
                 && var p := PruneSys(s, step.now).store;
                    HasRoom(p) && id !in p.files
                    && exists i :: 0 <= i < |p.order| && p.order[i].1 == id && p.order[i].0 < step.now
  {
    if Prunes(s, step) {
      var k := ExpiredCount(s.store.order, s.store.ttl, step.now);
      if Stale(PruneSys(s, step.now).store, id) {
        SuffixStale(s.store.order, s.store.files, k, id);
      }
    }
    if step.V2Post? {
      PostStaleIff(PruneSys(s, step.now).store, step.id, step.payload, step.now, id);
      PostStore(s, step.id, step.payload, step.now);
    } else {
      OtherStepsMail(s, step);
    }
  }

  lemma PostStaleIff(p: Store, id: ShortId, payload: Bytes, now: Time, other: ShortId)
    requires !Stale(p, other)
    ensures Stale(StoreMail(p, id, payload, now).0, other)
            <==> id == other && HasRoom(p) && id !in p.files
                 && exists i :: 0 <= i < |p.order| && p.order[i].1 == id && p.order[i].0 < now
  {
    MailAfterPost(p, id, payload, now);
    if Accepts(p, id, payload) {
      PushStale(p.order, p.files, id, PostedFile(p, id, payload, now), other);
    }
  }
}
