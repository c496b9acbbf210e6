/**
 Runs of concurrent opt-in checks (payjoin-mailroom/src/ohttp_relay/gateway_prober.rs,
 `Prober::check_opt_in`). Every section under the map's lock is one atomic step; a probe, the
 insertion of its result, the send on its channel and a receive are steps of their own, so a
 run is any interleaving of any number of checks. Tasks are not cancelled.
 */
module GatewayRuns {
  import opened Wrappers
  import opened Gateways
  import opened Basics

  datatype Task =
    | Probing(url: Uri, chan: nat)
    | Probed(url: Uri, chan: nat, policy: Policy)
    | Sending(url: Uri, chan: nat, policy: Policy)
    | Waiting(url: Uri, chan: nat)
    | Answered(url: Uri, policy: Policy)
    | Unanswered(url: Uri)

  /** `probes` records, per channel, which url was probed for it and what came back. */
  datatype Sys = Sys(
    capacity: nat,
    table: Table,
    cells: seq<Option<Policy>>,
    tasks: map<nat, Task>,
    clock: Instant,
    asserted: Option<(Uri, Policy)>,
    probes: map<nat, (Uri, Policy)>)

  datatype Step =
    | Enter(t: nat, url: Uri, now: Instant)
    | ProbeReturns(t: nat, policy: Policy)
    | InsertPolicy(t: nat)
    | SendPolicy(t: nat)
    | Receive(t: nat)
    | AskUnavailable(now: Instant)

  predicate Enabled(s: Sys, step: Step) {
    match step
    case Enter(t, _, now) => t !in s.tasks && s.clock <= now
    case ProbeReturns(t, _) => t in s.tasks && s.tasks[t].Probing?
    case InsertPolicy(t) => t in s.tasks && s.tasks[t].Probed?
    case SendPolicy(t) => t in s.tasks && s.tasks[t].Sending? && s.tasks[t].chan < |s.cells|
    case Receive(t) =>
      t in s.tasks && s.tasks[t].Waiting? && s.tasks[t].chan < |s.cells| && s.cells[s.tasks[t].chan].Some?
    case AskUnavailable(now) => s.clock <= now
  }

  function Move(s: Sys, t: nat, task: Task): Sys {
    s.(tasks := s.tasks[t := task])
  }

  /** The section under the lock at the start of a check, on a freshly pruned table. */
  function Begin(s: Sys, t: nat, url: Uri): Sys {
    match Gateways.Enter(s.table, s.capacity, url, |s.cells|)
    case (_, Cached(policy)) => Move(s, t, Answered(url, policy))
    case (_, Join(c)) => Move(s, t, Waiting(url, c))
    case (table, Probe(c)) => Move(s, t, Probing(url, c)).(table := table, cells := s.cells + [None])
    case (_, Full) => Move(s, t, Unanswered(url))
  }

  function PruneAt(s: Sys, now: Instant): Sys {
    s.(table := Live(s.table, now), clock := now)
  }

  function Exec(s: Sys, step: Step): Sys
    requires Enabled(s, step)
  {
    match step
    case Enter(t, url, now) => Begin(PruneAt(s, now), t, url)
    case ProbeReturns(t, policy) =>
      var Probing(url, c) := s.tasks[t];
      Move(s, t, Probed(url, c, policy)).(probes := s.probes[c := (url, policy)])
    case InsertPolicy(t) =>
      var Probed(url, c, policy) := s.tasks[t];
      Move(s, t, Sending(url, c, policy)).(table := Inserted(s.table, url, policy).0)
    case SendPolicy(t) =>
      var Sending(url, c, policy) := s.tasks[t];
      Move(s, t, Answered(url, policy)).(cells := s.cells[c := Some(policy)])
    case Receive(t) => Move(s, t, Answered(s.tasks[t].url, s.cells[s.tasks[t].chan].value))
    case AskUnavailable(now) => PruneAt(s, now)
  }

  predicate IsRun(s: Sys, steps: seq<Step>)
    decreases |steps|
  {
    steps == [] || (Enabled(s, steps[0]) && IsRun(Exec(s, steps[0]), steps[1..]))
  }

  function End(s: Sys, steps: seq<Step>): Sys
    requires IsRun(s, steps)
    decreases |steps|
  {
    if steps == [] then s else End(Exec(s, steps[0]), steps[1..])
  }

  /** State after construction: at most one asserted gateway, and room for it. */
  predicate Start(s: Sys) {
    && s.capacity >= 1
    && s.table == (match s.asserted
                   case None => map[]
                   case Some((url, policy)) => map[url := Known(policy)])
    && s.cells == [] && s.tasks == map[] && s.probes == map[]
  }

  ghost predicate Reachable(e: Sys) {
    exists s, steps :: Start(s) && IsRun(s, steps) && End(s, steps) == e
  }

  // ----- the invariant -----

  /** A task whose probe result is not in the table yet. */
  predicate InFlightTask(k: Task) {
    k.Probing? || k.Probed?
  }

  /** A task that will send on its channel. */
  predicate Prober(k: Task) {
    k.Probing? || k.Probed? || k.Sending?
  }

  ghost predicate Vouched(s: Sys, url: Uri, policy: Policy) {
    s.asserted == Some((url, policy)) || exists c :: c in s.probes && s.probes[c] == (url, policy)
  }

  ghost predicate TaskInv(s: Sys, k: Task) {
    match k
    case Probing(url, c) =>
      && url in s.table && s.table[url] == InFlight(c)
      && c < |s.cells| && s.cells[c].None? && c !in s.probes
    case Probed(url, c, policy) =>
      && url in s.table && s.table[url] == InFlight(c)
      && c < |s.cells| && s.cells[c].None? && c in s.probes && s.probes[c] == (url, policy)
    case Sending(url, c, policy) =>
      c < |s.cells| && s.cells[c].None? && c in s.probes && s.probes[c] == (url, policy)
    case Waiting(url, c) =>
      && c < |s.cells|
      && (s.cells[c].None? ==> exists t :: t in s.tasks && Prober(s.tasks[t]) && s.tasks[t].chan == c && s.tasks[t].url == url)
      && (s.cells[c].Some? ==> c in s.probes && s.probes[c] == (url, s.cells[c].value))
    case Answered(url, policy) => Vouched(s, url, policy)
    case Unanswered(_) => true
  }

  ghost predicate EntryInv(s: Sys, url: Uri) {
    url in s.table &&
    match s.table[url]
    case InFlight(c) =>
      exists t :: t in s.tasks && InFlightTask(s.tasks[t]) && s.tasks[t].url == url && s.tasks[t].chan == c
    case Known(policy) => Vouched(s, url, policy)
  }

  /** No two probers share a channel. */
  ghost predicate OwnChannels(tasks: map<nat, Task>) {
    forall t, u :: t in tasks && u in tasks && Prober(tasks[t]) && Prober(tasks[u]) && t != u ==>
      tasks[t].chan != tasks[u].chan
  }

  ghost predicate Inv(s: Sys) {
    && |s.table| <= s.capacity
    && (forall t :: t in s.tasks ==> TaskInv(s, s.tasks[t]))
    && (forall url :: url in s.table ==> EntryInv(s, url))
    && OwnChannels(s.tasks)
    && (forall c :: c in s.probes ==> c < |s.cells|)
  }

  lemma StartInv(s: Sys)
    requires Start(s)
    ensures Inv(s)
  {}

  lemma PruneKeeps(s: Sys, now: Instant)
    requires Inv(s)
    ensures Inv(PruneAt(s, now))
  {
    var s' := PruneAt(s, now);
    assert s'.table.Keys <= s.table.Keys;
    SubsetSize(s'.table.Keys, s.table.Keys);
    forall t | t in s'.tasks ensures TaskInv(s', s'.tasks[t]) {
      assert TaskInv(s, s.tasks[t]);
    }
    forall url | url in s'.table ensures EntryInv(s', url) {
      assert EntryInv(s, url);
    }
  }

  lemma OldTask(s: Sys, s': Sys, t: nat, k: Task)
    requires TaskInv(s, k) && t !in s.tasks
    requires s'.probes == s.probes && s'.asserted == s.asserted && s.cells <= s'.cells
    requires forall u :: u in s.tasks ==> u in s'.tasks && s'.tasks[u] == s.tasks[u]
    requires forall u :: u in s.table ==> u in s'.table && s'.table[u] == s.table[u]
    ensures TaskInv(s', k)
  {}

  /** A new task that does not probe changes nothing for the others. */
  lemma AddTaskKeeps(s: Sys, t: nat, k: Task)
    requires Inv(s) && t !in s.tasks && !Prober(k) && TaskInv(s, k)
    ensures Inv(Move(s, t, k))
  {
    var s' := Move(s, t, k);
    forall u | u in s'.tasks ensures TaskInv(s', s'.tasks[u]) {
      assert u != t ==> TaskInv(s, s.tasks[u]);
      OldTask(s, s', t, s'.tasks[u]);
    }
    forall url | url in s'.table ensures EntryInv(s', url) {
      assert EntryInv(s, url);
      if s.table[url].InFlight? {
        var u :| u in s.tasks && InFlightTask(s.tasks[u]) && s.tasks[u].url == url
          && s.tasks[u].chan == s.table[url].chan;
        assert s'.tasks[u] == s.tasks[u];
      }
    }
  }

  lemma StartProbeKeeps(s: Sys, t: nat, url: Uri)
    requires Inv(s) && t !in s.tasks && url !in s.table && |s.table| < s.capacity
    ensures Inv(Begin(s, t, url))
  {
    var s' := Begin(s, t, url);
    forall u | u in s'.tasks ensures TaskInv(s', s'.tasks[u]) {
      if u != t {
        assert TaskInv(s, s.tasks[u]);
        OldTask(s, s', t, s.tasks[u]);
      }
    }
    assert InFlightTask(s'.tasks[t]);
    forall other | other in s'.table ensures EntryInv(s', other) {
      if other != url {
        assert EntryInv(s, other);
        if s.table[other].InFlight? {
          var u :| u in s.tasks && InFlightTask(s.tasks[u]) && s.tasks[u].url == other
            && s.tasks[u].chan == s.table[other].chan;
          assert s'.tasks[u] == s.tasks[u];
        }
      }
    }
    forall u | u in s.tasks && Prober(s.tasks[u]) ensures s.tasks[u].chan < |s.cells| {
      assert TaskInv(s, s.tasks[u]);
    }
  }

  lemma BeginKeeps(s: Sys, t: nat, url: Uri)
    requires Inv(s) && t !in s.tasks
    ensures Inv(Begin(s, t, url))
  {
    if url in s.table {
      assert EntryInv(s, url);
      match s.table[url]
      case Known(policy) => AddTaskKeeps(s, t, Answered(url, policy));
      case InFlight(c) =>
        var u :| u in s.tasks && InFlightTask(s.tasks[u]) && s.tasks[u].url == url && s.tasks[u].chan == c;
        assert TaskInv(s, s.tasks[u]);
        assert Prober(s.tasks[u]);
        AddTaskKeeps(s, t, Waiting(url, c));
    } else if |s.table| < s.capacity {
      StartProbeKeeps(s, t, url);
    } else {
      AddTaskKeeps(s, t, Unanswered(url));
    }
  }

  lemma VouchedGrows(s: Sys, s': Sys)
    requires s'.asserted == s.asserted
    requires forall c :: c in s.probes ==> c in s'.probes && s'.probes[c] == s.probes[c]
    ensures forall url, policy :: Vouched(s, url, policy) ==> Vouched(s', url, policy)
  {
    forall url, policy | Vouched(s, url, policy) ensures Vouched(s', url, policy) {
      if s.asserted != Some((url, policy)) {
        var c :| c in s.probes && s.probes[c] == (url, policy);
        assert c in s'.probes && s'.probes[c] == (url, policy);
      }
    }
  }

  /** Every prober but `t` is still the prober it was, and so is `t` unless it has sent. */
  ghost predicate ProbersStay(s: Sys, s': Sys) {
    forall u :: u in s.tasks && Prober(s.tasks[u]) ==>
      u in s'.tasks && Prober(s'.tasks[u])
      && s'.tasks[u].chan == s.tasks[u].chan && s'.tasks[u].url == s.tasks[u].url
  }

  lemma WaiterStillServed(s: Sys, s': Sys, k: Task)
    requires TaskInv(s, k) && k.Waiting?
    requires ProbersStay(s, s') && s'.cells == s.cells
    requires forall c :: c in s.probes ==> c in s'.probes && s'.probes[c] == s.probes[c]
    ensures TaskInv(s', k)
  {
    if s.cells[k.chan].None? {
      var v :| v in s.tasks && Prober(s.tasks[v]) && s.tasks[v].chan == k.chan && s.tasks[v].url == k.url;
      assert Prober(s'.tasks[v]);
    }
  }

  lemma EntryStays(s: Sys, s': Sys, url: Uri)
    requires EntryInv(s, url) && url in s'.table && s'.table[url] == s.table[url]
    requires forall u :: u in s.tasks && InFlightTask(s.tasks[u]) && s.tasks[u].url == url ==>
      u in s'.tasks && InFlightTask(s'.tasks[u]) && s'.tasks[u].url == url && s'.tasks[u].chan == s.tasks[u].chan
    requires s'.asserted == s.asserted
    requires forall c :: c in s.probes ==> c in s'.probes && s'.probes[c] == s.probes[c]
    ensures EntryInv(s', url)
  {
    VouchedGrows(s, s');
    if s.table[url].InFlight? {
      var u :| u in s.tasks && InFlightTask(s.tasks[u]) && s.tasks[u].url == url
        && s.tasks[u].chan == s.table[url].chan;
      assert InFlightTask(s'.tasks[u]);
    }
  }

  lemma ProbeReturnsKeeps(s: Sys, t: nat, policy: Policy)
    requires Inv(s) && Enabled(s, ProbeReturns(t, policy))
    ensures Inv(Exec(s, ProbeReturns(t, policy)))
  {
    var s' := Exec(s, ProbeReturns(t, policy));
    assert TaskInv(s, s.tasks[t]);
    VouchedGrows(s, s');
    forall u | u in s'.tasks ensures TaskInv(s', s'.tasks[u]) {
      assert TaskInv(s, s.tasks[u]);
      if s.tasks[u].Waiting? { WaiterStillServed(s, s', s.tasks[u]); }
    }
    forall url | url in s'.table ensures EntryInv(s', url) {
      assert EntryInv(s, url);
      EntryStays(s, s', url);
    }
  }

  /** The in-flight mark a prober replaces is always its own, so its insertion is never refused. */
  lemma InsertKeeps(s: Sys, t: nat)
    requires Inv(s) && Enabled(s, InsertPolicy(t))
    ensures Inv(Exec(s, InsertPolicy(t)))
    ensures Inserted(s.table, s.tasks[t].url, s.tasks[t].policy).1 == Some(())
  {
    var s' := Exec(s, InsertPolicy(t));
    var Probed(url, c, policy) := s.tasks[t];
    assert TaskInv(s, s.tasks[t]);
    assert s'.table.Keys == s.table.Keys;
    VouchedGrows(s, s');
    forall u | u in s'.tasks ensures TaskInv(s', s'.tasks[u]) {
      assert TaskInv(s, s.tasks[u]);
      if s.tasks[u].Waiting? { WaiterStillServed(s, s', s.tasks[u]); }
    }
    forall other | other in s'.table ensures EntryInv(s', other) {
      if other == url {
        assert Vouched(s', url, policy);
      } else {
        assert EntryInv(s, other);
        EntryStays(s, s', other);
      }
    }
  }

  lemma WaiterGetsSend(s: Sys, s': Sys, t: nat, k: Task)
    requires Inv(s) && Enabled(s, SendPolicy(t)) && s' == Exec(s, SendPolicy(t))
    requires TaskInv(s, k) && TaskInv(s, s.tasks[t]) && k.Waiting?
    ensures TaskInv(s', k)
  {
    if s.cells[k.chan].None? {
      var v :| v in s.tasks && Prober(s.tasks[v]) && s.tasks[v].chan == k.chan && s.tasks[v].url == k.url;
      if v != t {
        assert s.tasks[v].chan != s.tasks[t].chan;
        assert s'.tasks[v] == s.tasks[v];
      }
    }
  }

  lemma SendKeeps(s: Sys, t: nat)
    requires Inv(s) && Enabled(s, SendPolicy(t))
    ensures Inv(Exec(s, SendPolicy(t)))
  {
    var s' := Exec(s, SendPolicy(t));
    assert TaskInv(s, s.tasks[t]);
    VouchedGrows(s, s');
    forall u | u in s'.tasks ensures TaskInv(s', s'.tasks[u]) {
      assert TaskInv(s, s.tasks[u]);
      if s.tasks[u].Waiting? { WaiterGetsSend(s, s', t, s.tasks[u]); }
    }
    forall url | url in s'.table ensures EntryInv(s', url) {
      assert EntryInv(s, url);
      EntryStays(s, s', url);
    }
  }

  lemma ReceiveKeeps(s: Sys, t: nat)
    requires Inv(s) && Enabled(s, Receive(t))
    ensures Inv(Exec(s, Receive(t)))
  {
    var s' := Exec(s, Receive(t));
    assert TaskInv(s, s.tasks[t]);
    VouchedGrows(s, s');
    forall u | u in s'.tasks ensures TaskInv(s', s'.tasks[u]) {
      assert TaskInv(s, s.tasks[u]);
      if s'.tasks[u].Waiting? { WaiterStillServed(s, s', s.tasks[u]); }
    }
    forall url | url in s'.table ensures EntryInv(s', url) {
      assert EntryInv(s, url);
      EntryStays(s, s', url);
    }
  }

  lemma ExecKeeps(s: Sys, step: Step)
    requires Inv(s) && Enabled(s, step)
    ensures Inv(Exec(s, step))
  {
    match step
    case Enter(t, url, now) =>
      PruneKeeps(s, now);
      BeginKeeps(PruneAt(s, now), t, url);
    case ProbeReturns(t, policy) => ProbeReturnsKeeps(s, t, policy);
    case InsertPolicy(t) => InsertKeeps(s, t);
    case SendPolicy(t) => SendKeeps(s, t);
    case Receive(t) => ReceiveKeeps(s, t);
    case AskUnavailable(now) => PruneKeeps(s, now);
  }

  lemma {:induction false} RunKeeps(s: Sys, steps: seq<Step>)
    requires Inv(s) && IsRun(s, steps)
    ensures Inv(End(s, steps))
    decreases |steps|
  {
    if steps != [] {
      ExecKeeps(s, steps[0]);
      RunKeeps(Exec(s, steps[0]), steps[1..]);
    }
  }

  lemma ReachableInv(e: Sys)
    requires Reachable(e)
    ensures Inv(e)
  {
    var s, steps :| Start(s) && IsRun(s, steps) && End(s, steps) == e;
    StartInv(s);
    RunKeeps(s, steps);
  }

  // ----- results -----

  /** At most one probe per url runs at a time. */
  lemma SingleFlight(e: Sys, t: nat, u: nat)
    requires Reachable(e) && t in e.tasks && u in e.tasks
    requires InFlightTask(e.tasks[t]) && InFlightTask(e.tasks[u]) && e.tasks[t].url == e.tasks[u].url
    ensures t == u
  {
    ReachableInv(e);
    assert TaskInv(e, e.tasks[t]) && TaskInv(e, e.tasks[u]);
  }

  lemma BeginKeepsEntry(s: Sys, t: nat, url: Uri, other: Uri)
    requires other in s.table
    ensures other in Begin(s, t, url).table && Begin(s, t, url).table[other] == s.table[other]
  {}

  /** An in-flight mark survives every step, pruning included, until its own prober's insertion. */
  lemma InFlightSurvives(e: Sys, t: nat, step: Step)
    requires Reachable(e) && Enabled(e, step) && t in e.tasks && InFlightTask(e.tasks[t])
    requires step != InsertPolicy(t)
    ensures var url := e.tasks[t].url;
            && url in e.table && e.table[url] == InFlight(e.tasks[t].chan)
            && url in Exec(e, step).table && Exec(e, step).table[url] == InFlight(e.tasks[t].chan)
  {
    ReachableInv(e);
    assert TaskInv(e, e.tasks[t]);
    if step.Enter? {
      BeginKeepsEntry(PruneAt(e, step.now), step.t, step.url, e.tasks[t].url);
    } else if step.InsertPolicy? {
      assert TaskInv(e, e.tasks[step.t]);
    }
  }

  /** The prober's own insertion then replaces the mark, and it is never refused. */
  lemma OwnInsertReplaces(e: Sys, t: nat)
    requires Reachable(e) && Enabled(e, InsertPolicy(t))
    ensures var Probed(url, _, policy) := e.tasks[t];
            Inserted(e.table, url, policy) == (e.table[url := Known(policy)], Some(()))
  {
    ReachableInv(e);
    assert TaskInv(e, e.tasks[t]);
  }

  /**
   A waiting check is never stuck: its channel already carries what the probe of its own url
   returned, or the prober that will send it is still there.
   */
  lemma WaiterIsServed(e: Sys, t: nat)
    requires Reachable(e) && t in e.tasks && e.tasks[t].Waiting?
    ensures var Waiting(url, c) := e.tasks[t];
            && c < |e.cells|
            && match e.cells[c]
               case Some(policy) => c in e.probes && e.probes[c] == (url, policy)
               case None => exists u :: u in e.tasks && Prober(e.tasks[u])
                                        && e.tasks[u].url == url && e.tasks[u].chan == c
  {
    ReachableInv(e);
    assert TaskInv(e, e.tasks[t]);
  }

  /** Every answer is a policy some probe of that very url returned, or the asserted one. */
  lemma AnswersAreVouched(e: Sys, t: nat)
    requires Reachable(e) && t in e.tasks && e.tasks[t].Answered?
    ensures Vouched(e, e.tasks[t].url, e.tasks[t].policy)
  {
    ReachableInv(e);
    assert TaskInv(e, e.tasks[t]);
  }

  /** A waiter receives exactly the policy its prober returned. */
  lemma ReceiveGetsProbedPolicy(e: Sys, t: nat)
    requires Reachable(e) && Enabled(e, Receive(t))
    ensures var c := e.tasks[t].chan;
            c in e.probes && e.probes[c].0 == e.tasks[t].url
            && Exec(e, Receive(t)).tasks[t] == Answered(e.tasks[t].url, e.probes[c].1)
  {
    ReachableInv(e);
    assert TaskInv(e, e.tasks[t]);
  }

  /** The table never holds more than its capacity, in-flight marks included. */
  lemma TableBounded(e: Sys)
    requires Reachable(e)
    ensures |e.table| <= e.capacity
  {
    ReachableInv(e);
  }

  /** An answer taken from the table has not lapsed at the time of the check. */
  lemma CachedAnswerIsFresh(s: Sys, t: nat, url: Uri, now: Instant)
    requires Enabled(s, Enter(t, url, now)) && Exec(s, Enter(t, url, now)).tasks[t].Answered?
    ensures url in s.table && s.table[url] == Known(Exec(s, Enter(t, url, now)).tasks[t].policy)
    ensures now <= Exec(s, Enter(t, url, now)).tasks[t].policy.expires
  {}

  // ----- what each step comes to -----

  /** The url has an entry at time `now`: a probe in flight, or a policy that has not expired. */
  predicate HasEntry(s: Sys, url: Uri, now: Instant) {
    url in s.table && (s.table[url].Known? ==> now <= s.table[url].policy.expires)
  }

  /** The entries there are at time `now`. */
  function Entries(s: Sys, now: Instant): set<Uri> {
    set url | url in s.table && HasEntry(s, url, now)
  }

  lemma EntriesLive(s: Sys, now: Instant)
    ensures Live(s.table, now).Keys == Entries(s, now) && |Live(s.table, now)| == |Entries(s, now)|
  {
    assert |Live(s.table, now)| == |Live(s.table, now).Keys|;
  }

  /** A check whose url has an entry: an unexpired policy is the answer, a probe in flight is waited for. */
  lemma CheckFinds(s: Sys, t: nat, url: Uri, now: Instant)
    requires t !in s.tasks && s.clock <= now && HasEntry(s, url, now)
    ensures Enabled(s, Enter(t, url, now))
    ensures var e := Exec(s, Enter(t, url, now));
            && e.tasks == s.tasks[t := match s.table[url]
                                       case Known(policy) => Answered(url, policy)
                                       case InFlight(c) => Waiting(url, c)]
            && e.cells == s.cells && e.table == Live(s.table, now)
  {
    assert url in Live(s.table, now);
  }

  /** One whose url has none starts a probe on a new channel if there is room; if not, it gets no answer. */
  lemma CheckProbes(s: Sys, t: nat, url: Uri, now: Instant)
    requires t !in s.tasks && s.clock <= now && !HasEntry(s, url, now)
    ensures Enabled(s, Enter(t, url, now))
    ensures var e, c := Exec(s, Enter(t, url, now)), |s.cells|;
            if |Entries(s, now)| < s.capacity then
              && e.tasks == s.tasks[t := Probing(url, c)] && e.cells == s.cells + [None]
              && e.table == Live(s.table, now)[url := InFlight(c)]
            else
              && e.tasks == s.tasks[t := Unanswered(url)] && e.cells == s.cells && e.table == Live(s.table, now)
  {
    EntriesLive(s, now);
    assert url !in Live(s.table, now);
  }

  /** A prober goes on with what its probe returned: into the table, onto its channel, and as its own answer. */
  lemma ProberGoesOn(e: Sys, t: nat, policy: Policy)
    requires Reachable(e) && t in e.tasks && e.tasks[t].Probing?
    ensures Enabled(e, ProbeReturns(t, policy))
    ensures var e1 := Exec(e, ProbeReturns(t, policy));
            && Enabled(e1, InsertPolicy(t)) && e1.table == e.table
            && var e2 := Exec(e1, InsertPolicy(t));
               && Enabled(e2, SendPolicy(t)) && e2.table == e.table[e.tasks[t].url := Known(policy)]
               && var e3 := Exec(e2, SendPolicy(t));
                  && e3.tasks == e.tasks[t := Answered(e.tasks[t].url, policy)] && e3.table == e2.table
                  && e3.cells == e.cells[e.tasks[t].chan := Some(policy)]
  {
    ReachableInv(e);
    var Probing(url, c) := e.tasks[t];
    assert TaskInv(e, e.tasks[t]);
    assert e.tasks[t := Probed(url, c, policy)][t := Sending(url, c, policy)][t := Answered(url, policy)]
        == e.tasks[t := Answered(url, policy)];
  }

  /** What a probe returned for a channel is never replaced. */
  lemma ProbeStays(s: Sys, step: Step, c: nat)
    requires Inv(s) && Enabled(s, step) && c in s.probes
    ensures c in Exec(s, step).probes && Exec(s, step).probes[c] == s.probes[c]
  {
    if step.ProbeReturns? {
      assert TaskInv(s, s.tasks[step.t]);
    }
  }

  lemma {:induction false} ProbeStaysOverRun(s: Sys, steps: seq<Step>, c: nat)
    requires Inv(s) && IsRun(s, steps) && c in s.probes
    ensures c in End(s, steps).probes && End(s, steps).probes[c] == s.probes[c]
    decreases |steps|
  {
    if steps != [] {
      ProbeStays(s, steps[0], c);
      ExecKeeps(s, steps[0]);
      ProbeStaysOverRun(Exec(s, steps[0]), steps[1..], c);
    }
  }

  /** Whoever is still to be answered on channel `c` ends with what was returned for it. */
  ghost predicate EndsWith(f: Sys, u: nat, c: nat, url: Uri, policy: Policy) {
    && (u in f.tasks && f.tasks[u].Waiting? && f.tasks[u].chan == c && Enabled(f, Receive(u)) ==>
          Exec(f, Receive(u)).tasks[u] == Answered(url, policy))
    && (u in f.tasks && f.tasks[u].Sending? && f.tasks[u].chan == c ==>
          Enabled(f, SendPolicy(u)) && Exec(f, SendPolicy(u)).tasks[u] == Answered(url, policy))
  }

  lemma ProbedEndsWith(f: Sys, u: nat, c: nat, url: Uri, policy: Policy)
    requires Inv(f) && c in f.probes && f.probes[c] == (url, policy)
    ensures EndsWith(f, u, c, url, policy)
  {
    if u in f.tasks {
      assert TaskInv(f, f.tasks[u]);
    }
  }

  /**
   Sharing a flight: whatever happens after a probe has returned, every check that waits on its
   channel receives exactly what it returned, and so does the prober itself.
   */
  lemma FlightIsShared(e: Sys, t: nat, policy: Policy, steps: seq<Step>, u: nat)
    requires Reachable(e) && t in e.tasks && e.tasks[t].Probing?
    requires IsRun(Exec(e, ProbeReturns(t, policy)), steps)
    ensures var Probing(url, c), f := e.tasks[t], End(Exec(e, ProbeReturns(t, policy)), steps);
            EndsWith(f, u, c, url, policy)
  {
    ReachableInv(e);
    var e1 := Exec(e, ProbeReturns(t, policy));
    ExecKeeps(e, ProbeReturns(t, policy));
    ProbeStaysOverRun(e1, steps, e.tasks[t].chan);
    RunKeeps(e1, steps);
    ProbedEndsWith(End(e1, steps), u, e.tasks[t].chan, e.tasks[t].url, policy);
  }
}
