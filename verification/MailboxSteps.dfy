/**
 Reachable states of the mailbox store, and what each kind of step does to the mailboxes on
 disk and to the store as a whole.
 */
module MailboxSteps {
  import opened Wrappers
  import opened Disk
  import opened MailboxSpec
  import opened MailboxRuns

  ghost predicate Reachable(e: Sys) {
    exists s, steps :: Start(s) && IsRun(s, steps) && End(s, steps) == e
  }

  lemma ReachableInv(e: Sys)
    requires Reachable(e)
    ensures Inv(e)
  {
    var s, steps :| Start(s) && IsRun(s, steps) && End(s, steps) == e;
    StartInv(s);
    RunKeeps(s, steps);
  }

  lemma MailSysStore(s: Sys, id: ShortId, payload: Bytes)
    ensures MailSys(s, id, payload).store == StoreMail(s.store, id, payload, s.clock).0
    ensures MailSys(s, id, payload).clock == s.clock && MailSys(s, id, payload).tasks == s.tasks
  {}

  lemma PostStore(s: Sys, id: ShortId, payload: Bytes, now: Time)
    requires Enabled(s, V2Post(id, payload, now))
    ensures var e := Exec(s, V2Post(id, payload, now));
            && e.store == StoreMail(PruneSys(s, now).store, id, payload, now).0
            && e.clock == now && e.tasks == s.tasks
  {
    MailSysStore(PruneSys(s, now), id, payload);
  }

  lemma OfferSysStore(s: Sys, t: nat, id: ShortId, payload: Bytes)
    ensures OfferSys(s, t, id, payload).store == OfferV1(s.store, id, payload).0
    ensures OfferSys(s, t, id, payload).clock == s.clock
  {}

  lemma OfferStore(s: Sys, t: nat, id: ShortId, payload: Bytes, now: Time)
    requires Enabled(s, V1Post(t, id, payload, now))
    ensures var e := Exec(s, V1Post(t, id, payload, now));
            e.store == OfferV1(PruneSys(s, now).store, id, payload).0 && e.clock == now
  {
    OfferSysStore(PruneSys(s, now), t, id, payload);
  }

  predicate Prunes(s: Sys, step: Step) {
    step.V2Post? || step.V1Post? || step.PruneTick?
    || (step.ReaderEnter? && MailboxSpec.Read(s.store, step.id).1.None?)
  }

  /** The store once the step has pruned, if it does. */
  function MailBase(s: Sys, step: Step): Store {
    if Prunes(s, step) then PruneSys(s, step.now).store else s.store
  }

  function ClockAfter(s: Sys, step: Step): Time {
    if step.ReaderEnter? || step.V2Post? || step.V1Post? || step.PruneTick? then step.now else s.clock
  }

  predicate SameMail(s: Store, s': Store) {
    && s'.capacity == s.capacity && s'.ttl == s.ttl && s'.key == s.key
    && s'.files == s.files && s'.order == s.order
  }

  lemma ReaderKeepsMail(s: Store, w: Handles, id: ShortId)
    ensures SameMail(s, MailboxSpec.Read(s, id).0)
    ensures SameMail(s, JoinWait(s, id).0)
    ensures SameMail(s, CleanWait(s, w, id))
  {}

  lemma SlotKeepsMail(s: Store, live: set<nat>, id: ShortId, payload: Bytes)
    ensures SameMail(s, PostV1Res(s, live, id, payload).0)
    ensures SameMail(s, CleanSlot(s, id))
  {}

  lemma OfferKeepsMail(s: Store, id: ShortId, payload: Bytes)
    ensures SameMail(s, OfferV1(s, id, payload).0)
  {}

  lemma OtherStepsMail(s: Sys, step: Step)
    requires Enabled(s, step) && !step.V2Post?
    ensures SameMail(MailBase(s, step), Exec(s, step).store)
    ensures Exec(s, step).clock == ClockAfter(s, step)
  {
    var w, live := HandlesOf(s.tasks), LiveSenders(s.tasks);
    match step
    case ReaderEnter(t, id, now) =>
      ReaderKeepsMail(s.store, w, id);
      ReaderKeepsMail(PruneSys(s, now).store, w, id);
    case V1Post(t, id, payload, now) =>
      OfferStore(s, t, id, payload, now);
      OfferKeepsMail(PruneSys(s, now).store, id, payload);
    case V1Respond(id, payload) => SlotKeepsMail(s.store, live, id, payload);
    case ReaderClean(t) => ReaderKeepsMail(s.store, w, s.tasks[t].id);
    case SenderClean(t) => SlotKeepsMail(s.store, live, s.tasks[t].id, []);
    case _ =>
  }

  lemma PostKeepsFile(s: Store, id: ShortId, payload: Bytes, now: Time, other: ShortId)
    requires other in s.files
    ensures StoreMail(s, id, payload, now).0.key == s.key
    ensures other in StoreMail(s, id, payload, now).0.files
    ensures StoreMail(s, id, payload, now).0.files[other] == s.files[other]
  {}
}
