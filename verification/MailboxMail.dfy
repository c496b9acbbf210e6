/**
 Mailboxes on disk over every run: written once, read back unchanged, and expired exactly when
 their time has come, as long as no identical payload is posted again.
 */
module MailboxMail {
  import opened Wrappers
  import opened Disk
  import opened MailboxSpec
  import opened MailboxRuns
  import opened MailboxSteps

  // ----- write-once mailboxes -----

  /** The step does not expire the mailbox of `id`. */
  predicate Spares(s: Sys, step: Step, id: ShortId) {
    id in MailBase(s, step).files
  }

  predicate SparesAll(s: Sys, steps: seq<Step>, id: ShortId)
    requires IsRun(s, steps)
    decreases |steps|
  {
    steps == [] || (Spares(s, steps[0], id) && SparesAll(Exec(s, steps[0]), steps[1..], id))
  }

  lemma StepKeepsFile(s: Sys, step: Step, id: ShortId)
    requires Enabled(s, step) && id in s.store.files && Spares(s, step, id)
    ensures Exec(s, step).store.key == s.store.key
    ensures id in Exec(s, step).store.files && Exec(s, step).store.files[id] == s.store.files[id]
  {
    if step.V2Post? {
      PostKeepsFile(PruneSys(s, step.now).store, step.id, step.payload, step.now, id);
    } else {
      OtherStepsMail(s, step);
    }
  }

  /** Until it expires, a stored mailbox never changes, whatever else happens. */
  lemma {:induction false} WriteOnce(s: Sys, steps: seq<Step>, id: ShortId)
    requires IsRun(s, steps) && SparesAll(s, steps, id) && id in s.store.files
    ensures End(s, steps).store.key == s.store.key
    ensures Lookup(s.store.key, End(s, steps).store.files, id) == Lookup(s.store.key, s.store.files, id)
    decreases |steps|
  {
    if steps != [] {
      StepKeepsFile(s, steps[0], id);
      WriteOnce(Exec(s, steps[0]), steps[1..], id);
    }
  }

  lemma ReadStored(s: Sys, id: ShortId, payload: Bytes, t: nat, now: Time)
    requires Enabled(s, ReaderEnter(t, id, now)) && !HoldsPlaintext(s.store, id)
    requires Lookup(s.store.key, s.store.files, id).Some?
    requires Lookup(s.store.key, s.store.files, id).value.1 == payload
    ensures Exec(s, ReaderEnter(t, id, now)).tasks[t] == ReaderDone(id, Payload(payload))
  {}

  lemma FirstPostStored(s: Store, id: ShortId, payload: Bytes, now: Time)
    requires HasRoom(s) && id !in s.files
    ensures var s' := StoreMail(s, id, payload, now).0;
            s'.key == s.key && Lookup(s.key, s'.files, id) == Some((now, payload))
  {
    ReadAfterInsert(s.key, s.files, id, payload, now);
  }

  /** The first payload accepted for an id is what its mailbox holds. */
  lemma FirstPostStays(s: Sys, id: ShortId, payload: Bytes, now: Time)
    requires Enabled(s, V2Post(id, payload, now))
    requires id !in PruneSys(s, now).store.files && HasRoom(PruneSys(s, now).store)
    ensures var e := Exec(s, V2Post(id, payload, now)).store;
            Lookup(e.key, e.files, id) == Some((now, payload))
  {
    FirstPostStored(PruneSys(s, now).store, id, payload, now);
    PostStore(s, id, payload, now);
  }

  /**
   What a mailbox holds is what every later reader of it gets, until it expires: later posts,
   identical or not, make no difference.
   */
  lemma StoredMailIsRead(s: Sys, steps: seq<Step>, id: ShortId, t: nat, now: Time)
    requires IsRun(s, steps) && SparesAll(s, steps, id) && id in s.store.files
    requires Enabled(End(s, steps), ReaderEnter(t, id, now))
    requires !HoldsPlaintext(End(s, steps).store, id)
    ensures Exec(End(s, steps), ReaderEnter(t, id, now)).tasks[t]
            == ReaderDone(id, Payload(Lookup(s.store.key, s.store.files, id).value.1))
  {
    WriteOnce(s, steps, id);
    ReadStored(End(s, steps), id, Lookup(s.store.key, s.store.files, id).value.1, t, now);
  }

  // ----- the expiry queue -----

  ghost predicate QueueExact(s: Sys) {
    && Lists(s.store.order, s.store.files)
    && (forall i :: 0 <= i < |s.store.order| ==> s.store.order[i].0 <= s.clock)
  }

  /** The step is an accepted post of the very payload already stored for its id. */
  predicate Reposts(s: Sys, step: Step) {
    && step.V2Post?
    && var p := PruneSys(s, step.now).store;
       HasRoom(p) && step.id in p.files && Xored(p.key, p.files[step.id].data) == step.payload
  }

  lemma ExpiredExactly(q: Queue, files: Directory, ttl: Time, now: Time, i: nat)
    requires Lists(q, files) && i < |q|
    ensures Expired(q[i], ttl, now) <==> i < ExpiredCount(q, ttl, now)
  {}

  /** With an exact queue, pruning deletes exactly the mailboxes past their time to live. */
  lemma PruneIsExact(s: Sys, now: Time)
    requires QueueExact(s)
    ensures PruneSys(s, now).store.files ==
      map id | id in s.store.files && !(s.store.files[id].created + s.store.ttl < now) :: s.store.files[id]
  {
    var q, k := s.store.order, ExpiredCount(s.store.order, s.store.ttl, now);
    forall id | id in s.store.files
      ensures id in IdsOf(q[..k]) <==> s.store.files[id].created + s.store.ttl < now
    {
      var i :| 0 <= i < |q| && q[i].1 == id;
      ExpiredExactly(q, s.store.files, s.store.ttl, now, i);
      if i < k { assert q[..k][i].1 == id; }
    }
  }

  lemma DropOldest(q: Queue, files: Directory, k: nat)
    requires Lists(q, files) && k <= |q|
    ensures Lists(q[k..], files - IdsOf(q[..k]))
  {
    IdsOfSplit(q, k);
    forall i | 0 <= i < |q[k..]|
      ensures q[k..][i].1 in files - IdsOf(q[..k])
    {
      assert q[k..][i] == q[k + i];
      assert forall j :: 0 <= j < k ==> q[..k][j].1 == q[j].1 && q[j].1 != q[k + i].1;
    }
  }

  lemma PruneKeepsQueue(s: Sys, now: Time)
    requires QueueExact(s) && s.clock <= now
    ensures QueueExact(PruneSys(s, now))
  {
    DropOldest(s.store.order, s.store.files, ExpiredCount(s.store.order, s.store.ttl, now));
  }

  /** A repeated entry cannot be part of an exact listing. */
  lemma RepeatedEntry(q: Queue, files: Directory, entry: (Time, ShortId))
    requires entry.1 in IdsOf(q)
    ensures !Lists(q + [entry], files)
  {
    var i :| 0 <= i < |q| && q[i].1 == entry.1;
    assert (q + [entry])[i].1 == (q + [entry])[|q|].1;
  }

  lemma NewEntry(q: Queue, files: Directory, id: ShortId, file: StoredFile)
    requires Lists(q, files) && id !in files
    requires forall i :: 0 <= i < |q| ==> q[i].0 <= file.created
    ensures Lists(q + [(file.created, id)], files[id := file])
  {
    IdsOfPush(q, (file.created, id));
  }

  lemma PushKeepsQueueIff(s: Store, clock: Time, id: ShortId, payload: Bytes)
    requires Lists(s.order, s.files) && HasRoom(s)
    requires forall i :: 0 <= i < |s.order| ==> s.order[i].0 <= clock
    ensures var s' := StoreMail(s, id, payload, clock).0;
            Lists(s'.order, s'.files)
            <==> !(id in s.files && Xored(s.key, s.files[id].data) == payload)
  {
    var (files, created) := Inserted(s.key, s.files, id, payload, clock);
    if created.Some? {
      StoreMailSplit(s, id, payload, clock);
      if id in s.files {
        RepeatedEntry(s.order, files, (created.value, id));
      } else {
        NewEntry(s.order, s.files, id, files[id]);
      }
    }
  }

  lemma PostClock(s: Store, id: ShortId, payload: Bytes, clock: Time)
    requires forall i :: 0 <= i < |s.order| ==> s.order[i].0 <= clock
    requires id in s.files ==> s.files[id].created <= clock
    ensures var s' := StoreMail(s, id, payload, clock).0;
            forall i :: 0 <= i < |s'.order| ==> s'.order[i].0 <= clock
  {}

  /** Exactly the accepted re-posts break the queue; every other step keeps it exact. */
  lemma QueueExactIff(s: Sys, step: Step)
    requires QueueExact(s) && Enabled(s, step)
    ensures QueueExact(Exec(s, step)) <==> !Reposts(s, step)
  {
    if Prunes(s, step) {
      PruneKeepsQueue(s, step.now);
    }
    if step.V2Post? {
      var p := PruneSys(s, step.now);
      if HasRoom(p.store) {
        PushKeepsQueueIff(p.store, step.now, step.id, step.payload);
        PostStore(s, step.id, step.payload, step.now);
        if step.id in p.store.files {
          var i :| 0 <= i < |p.store.order| && p.store.order[i].1 == step.id;
        }
        PostClock(p.store, step.id, step.payload, step.now);
      }
    } else {
      OtherStepsMail(s, step);
    }
  }

  predicate NoReposts(s: Sys, steps: seq<Step>)
    requires IsRun(s, steps)
    decreases |steps|
  {
    steps == [] || (!Reposts(s, steps[0]) && NoReposts(Exec(s, steps[0]), steps[1..]))
  }

  lemma {:induction false} QueueExactOverRun(s: Sys, steps: seq<Step>)
    requires QueueExact(s) && IsRun(s, steps) && NoReposts(s, steps)
    ensures QueueExact(End(s, steps))
    decreases |steps|
  {
    if steps != [] {
      QueueExactIff(s, steps[0]);
      QueueExactOverRun(Exec(s, steps[0]), steps[1..]);
    }
  }

  /** On runs without re-posts, the queue lists each mailbox once, oldest first, and prune is exact. */
  lemma PruneExactWithoutReposts(s: Sys, steps: seq<Step>, now: Time)
    requires Start(s) && IsRun(s, steps) && NoReposts(s, steps)
    ensures var e := End(s, steps);
            && Lists(e.store.order, e.store.files)
            && PruneSys(e, now).store.files ==
                 map id | id in e.store.files && !(e.store.files[id].created + e.store.ttl < now)
                        :: e.store.files[id]
  {
    QueueExactOverRun(s, steps);
    PruneIsExact(End(s, steps), now);
  }
}
