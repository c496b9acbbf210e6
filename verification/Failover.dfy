/**
 Relay and directory failover of the command line client (payjoin-cli/src/app/v2/ohttp.rs,
 `MailroomManager`, and the loops in payjoin-cli/src/app/v2/mod.rs that use it). The network
 is an oracle: `net(n)` is the outcome of the n-th key fetch. Random choice is any choice.
 */
module Failover {
  import opened Wrappers

  // Relays and directories are only ever compared for equality.
  type Url = nat
  type Keys = nat

  datatype FetchOutcome = Fetched(keys: Keys) | UnexpectedStatus | RelayFailure

  datatype FetchError = NoRelays | BadDirectory

  datatype Attempt = Attempt(directory: Url, relay: Url)

  function Distinct(urls: seq<Url>): (s: set<Url>)
    ensures forall u :: u in s <==> u in urls
  {
    set u | u in urls
  }

  function Left(all: seq<Url>, failed: seq<Url>): set<Url> {
    Distinct(all) - Distinct(failed)
  }

  /** The entries of a list that have not failed, repeats and all. */
  function Remaining(all: seq<Url>, failed: seq<Url>): (r: seq<Url>)
    ensures forall u :: u in r <==> u in all && u !in failed
  {
    if all == [] then []
    else (if all[0] in failed then [] else [all[0]]) + Remaining(all[1..], failed)
  }

  /** Any entry that has not failed; none only when all have. */
  method Choose(all: seq<Url>, failed: seq<Url>) returns (r: Option<Url>)
    ensures r.None? <==> forall u :: u in all ==> u in failed
    ensures r.Some? ==> r.value in all && r.value !in failed
  {
    var remaining := Remaining(all, failed);
    if remaining == [] {
      assert forall u :: u in all && u !in failed ==> u in remaining;
      return None;
    }
    assert remaining[0] in remaining;
    var u :| u in remaining;
    return Some(u);
  }

  lemma FailOne(all: seq<Url>, failed: seq<Url>, u: Url)
    requires u in all && u !in failed
    ensures Left(all, failed + [u]) == Left(all, failed) - {u}
    ensures |Left(all, failed + [u])| == |Left(all, failed)| - 1
  {
    assert Distinct(failed + [u]) == Distinct(failed) + {u};
    assert u in Left(all, failed);
  }

  // ----- the record of attempts -----

  ghost predicate NoAttemptTwice(tries: seq<Attempt>) {
    forall i, j :: 0 <= i < j < |tries| ==> tries[i] != tries[j]
  }

  ghost predicate Tried(tries: seq<Attempt>, net: nat -> FetchOutcome, a: Attempt, outcome: FetchOutcome) {
    exists i :: 0 <= i < |tries| && tries[i] == a && net(i) == outcome
  }

  /** The directory answered with an unexpected status, or failed through every single relay. */
  ghost predicate GivenUp(tries: seq<Attempt>, net: nat -> FetchOutcome, relays: seq<Url>, directory: Url) {
    || (exists relay :: relay in relays && Tried(tries, net, Attempt(directory, relay), UnexpectedStatus))
    || (forall relay :: relay in relays ==> Tried(tries, net, Attempt(directory, relay), RelayFailure))
  }

  lemma TriedStays(tries: seq<Attempt>, more: seq<Attempt>, net: nat -> FetchOutcome, a: Attempt, outcome: FetchOutcome)
    requires tries <= more && Tried(tries, net, a, outcome)
    ensures Tried(more, net, a, outcome)
  {
    var i :| 0 <= i < |tries| && tries[i] == a && net(i) == outcome;
    assert more[i] == a;
  }

  lemma GivenUpStays(tries: seq<Attempt>, more: seq<Attempt>, net: nat -> FetchOutcome, relays: seq<Url>, d: Url)
    requires tries <= more && GivenUp(tries, net, relays, d)
    ensures GivenUp(more, net, relays, d)
  {
    if relay :| relay in relays && Tried(tries, net, Attempt(d, relay), UnexpectedStatus) {
      TriedStays(tries, more, net, Attempt(d, relay), UnexpectedStatus);
    } else {
      forall relay | relay in relays ensures Tried(more, net, Attempt(d, relay), RelayFailure) {
        TriedStays(tries, more, net, Attempt(d, relay), RelayFailure);
      }
    }
  }

  /** The attempts from index `n` on: all at one directory, each through a different fresh relay. */
  ghost predicate Fetches(tries: seq<Attempt>, n: nat, directory: Url, relays: seq<Url>, before: seq<Url>) {
    && n <= |tries|
    && (forall i :: n <= i < |tries| ==>
          tries[i].directory == directory && tries[i].relay in relays && tries[i].relay !in before)
    && (forall i, j :: n <= i < j < |tries| ==> tries[i].relay != tries[j].relay)
  }

  /** The relays of some attempts, in order. */
  function RelaysOf(attempts: seq<Attempt>): (relays: seq<Url>)
    ensures |relays| == |attempts|
  {
    seq(|attempts|, i requires 0 <= i < |attempts| => attempts[i].relay)
  }

  /** How many attempts there are without a last one that was not a relay failure. */
  function FailedEnd(tries: seq<Attempt>, n: nat, net: nat -> FetchOutcome): (m: nat)
    requires n <= |tries|
    ensures n <= m <= |tries|
  {
    if n < |tries| && net(|tries| - 1) != RelayFailure then |tries| - 1 else |tries|
  }

  /** To the relays that had failed before, exactly those that failed since were added, in order. */
  ghost predicate Marked(tries: seq<Attempt>, n: nat, net: nat -> FetchOutcome, before: seq<Url>, failed: seq<Url>) {
    n <= |tries| && failed == before + RelaysOf(tries[n..FailedEnd(tries, n, net)])
  }

  /** So far all of them failed. */
  ghost predicate AllMarked(tries: seq<Attempt>, n: nat, net: nat -> FetchOutcome, before: seq<Url>, failed: seq<Url>) {
    Marked(tries, n, net, before, failed) && FailedEnd(tries, n, net) == |tries|
  }

  lemma StartMarked(tries: seq<Attempt>, net: nat -> FetchOutcome, before: seq<Url>)
    ensures AllMarked(tries, |tries|, net, before, before)
  {
    assert before + RelaysOf(tries[|tries|..|tries|]) == before;
  }

  lemma KeepMarked(tries: seq<Attempt>, n: nat, net: nat -> FetchOutcome, before: seq<Url>, failed: seq<Url>, a: Attempt)
    requires AllMarked(tries, n, net, before, failed)
    ensures net(|tries|) == RelayFailure ==> AllMarked(tries + [a], n, net, before, failed + [a.relay])
    ensures net(|tries|) != RelayFailure ==> Marked(tries + [a], n, net, before, failed)
  {
    assert (tries + [a])[n..] == tries[n..] + [a] && (tries + [a])[n..|tries|] == tries[n..];
    assert RelaysOf((tries + [a])[n..]) == RelaysOf(tries[n..]) + [a.relay];
  }

  ghost predicate AllFailed(m: nat, n: nat, net: nat -> FetchOutcome) {
    forall i :: n <= i < m ==> net(i) == RelayFailure
  }

  /** Each attempt since has used up a relay. */
  ghost predicate Within(m: nat, n: nat, relays: seq<Url>, before: seq<Url>, failed: seq<Url>) {
    m - n + |Left(relays, failed)| <= |Left(relays, before)|
  }

  lemma UsesRelay(m: nat, n: nat, relays: seq<Url>, before: seq<Url>, failed: seq<Url>, relay: Url)
    requires Within(m, n, relays, before, failed) && relay in relays && relay !in failed
    ensures Within(m + 1, n, relays, before, failed + [relay]) && m + 1 - n <= |Left(relays, before)|
    ensures |Left(relays, failed + [relay])| < |Left(relays, failed)|
  {
    FailOne(relays, failed, relay);
  }

  /** Where the key fetch loop stands: every attempt since `n` was a relay failure. */
  ghost predicate Fetching(
    tries: seq<Attempt>, n: nat, net: nat -> FetchOutcome, directory: Url, relays: seq<Url>, before: seq<Url>, failed: seq<Url>)
  {
    && Fetches(tries, n, directory, relays, before) && AllMarked(tries, n, net, before, failed)
    && AllFailed(|tries|, n, net) && Within(|tries|, n, relays, before, failed)
  }

  lemma StartFetching(tries: seq<Attempt>, net: nat -> FetchOutcome, directory: Url, relays: seq<Url>, failed: seq<Url>)
    ensures Fetching(tries, |tries|, net, directory, relays, failed, failed)
  {
    StartMarked(tries, net, failed);
  }

  lemma KeepFetching(
    tries: seq<Attempt>, n: nat, net: nat -> FetchOutcome, directory: Url, relays: seq<Url>, before: seq<Url>,
    failed: seq<Url>, relay: Url)
    requires Fetching(tries, n, net, directory, relays, before, failed)
    requires relay in relays && relay !in failed
    ensures var tries' := tries + [Attempt(directory, relay)];
            && Fetches(tries', n, directory, relays, before)
            && |tries'| - n <= |Left(relays, before)|
            && (net(|tries|) != RelayFailure ==> Marked(tries', n, net, before, failed))
            && (net(|tries|) == RelayFailure ==>
                  && Fetching(tries', n, net, directory, relays, before, failed + [relay])
                  && |Left(relays, failed + [relay])| < |Left(relays, failed)|)
  {
    UsesRelay(|tries|, n, relays, before, failed, relay);
    NextFetch(tries, n, net, directory, relays, before, failed, relay);
    KeepMarked(tries, n, net, before, failed, Attempt(directory, relay));
  }

  /** The relays marked are those from before and those of the attempts since. */
  lemma MarkedRelays(tries: seq<Attempt>, n: nat, net: nat -> FetchOutcome, before: seq<Url>, failed: seq<Url>)
    requires AllMarked(tries, n, net, before, failed)
    ensures forall u :: u in failed <==> u in before || exists i :: n <= i < |tries| && tries[i].relay == u
  {
    forall u ensures u in failed <==> u in before || exists i :: n <= i < |tries| && tries[i].relay == u {
      if i :| n <= i < |tries| && tries[i].relay == u {
        assert RelaysOf(tries[n..|tries|])[i - n] == u;
      }
      if u in RelaysOf(tries[n..|tries|]) {
        var k :| 0 <= k < |tries| - n && RelaysOf(tries[n..|tries|])[k] == u;
        assert tries[n + k].relay == u;
      }
    }
  }

  lemma NextFetch(
    tries: seq<Attempt>, n: nat, net: nat -> FetchOutcome, directory: Url, relays: seq<Url>, before: seq<Url>,
    failed: seq<Url>, relay: Url)
    requires Fetches(tries, n, directory, relays, before) && AllMarked(tries, n, net, before, failed)
    requires relay in relays && relay !in failed
    ensures Fetches(tries + [Attempt(directory, relay)], n, directory, relays, before)
  {
    MarkedRelays(tries, n, net, before, failed);
  }

  /** When no relay is left, each of them failed before or failed on this directory. */
  lemma AllRelaysTried(
    tries: seq<Attempt>, n: nat, net: nat -> FetchOutcome, directory: Url, relays: seq<Url>, before: seq<Url>, failed: seq<Url>)
    requires Fetching(tries, n, net, directory, relays, before, failed)
    requires forall u :: u in relays ==> u in failed
    ensures forall u :: u in relays && u !in before ==> Tried(tries, net, Attempt(directory, u), RelayFailure)
  {
    MarkedRelays(tries, n, net, before, failed);
    forall u | u in relays && u !in before ensures Tried(tries, net, Attempt(directory, u), RelayFailure) {
      var i :| n <= i < |tries| && tries[i].relay == u;
      assert tries[i] == Attempt(directory, u);
    }
  }

  // ----- how many attempts there can be -----

  function Pairs(directories: set<Url>, relays: set<Url>): set<Attempt> {
    set d, r | d in directories && r in relays :: Attempt(d, r)
  }

  lemma {:induction false} RowSize(d: Url, relays: set<Url>)
    ensures |Pairs({d}, relays)| == |relays|
  {
    if relays == {} {
      assert Pairs({d}, relays) == {};
    } else {
      var r :| r in relays;
      RowSize(d, relays - {r});
      assert Pairs({d}, relays) == Pairs({d}, relays - {r}) + {Attempt(d, r)};
    }
  }

  lemma OneMoreRow(a: nat, b: nat)
    ensures (a + 1) * b == a * b + b
  {}

  lemma {:induction false} PairsSize(directories: set<Url>, relays: set<Url>)
    ensures |Pairs(directories, relays)| == |directories| * |relays|
  {
    if directories == {} {
      assert Pairs(directories, relays) == {};
    } else {
      var d :| d in directories;
      var rest := directories - {d};
      PairsSize(rest, relays);
      RowSize(d, relays);
      assert Pairs(directories, relays) == Pairs(rest, relays) + Pairs({d}, relays);
      assert Pairs(rest, relays) !! Pairs({d}, relays);
      assert |directories| == |rest| + 1;
      OneMoreRow(|rest|, |relays|);
    }
  }

  lemma {:induction false} DistinctSize(tries: seq<Attempt>, all: set<Attempt>)
    requires NoAttemptTwice(tries) && forall i :: 0 <= i < |tries| ==> tries[i] in all
    ensures |tries| <= |all|
    decreases |tries|
  {
    if tries != [] {
      var n := |tries| - 1;
      DistinctSize(tries[..n], all - {tries[n]});
    }
  }

  /** (Distinct directories) x (distinct relays). */
  function MaxAttempts(directories: seq<Url>, relays: seq<Url>): nat {
    |Distinct(directories)| * |Distinct(relays)|
  }

  /** Without repeats there are at most that many attempts. */
  lemma AttemptsBounded(tries: seq<Attempt>, directories: seq<Url>, relays: seq<Url>)
    requires NoAttemptTwice(tries)
    requires forall i :: 0 <= i < |tries| ==> tries[i].directory in directories && tries[i].relay in relays
    ensures |tries| <= MaxAttempts(directories, relays)
  {
    DistinctSize(tries, Pairs(Distinct(directories), Distinct(relays)));
    PairsSize(Distinct(directories), Distinct(relays));
  }

  // ----- where the loops stand -----

  datatype BuildOutcome = Built | Expired | BuildFailed

  /** Requests went through different relays, none of which had failed before. */
  ghost predicate FreshPosts(attempts: seq<Url>, relays: seq<Url>, before: seq<Url>) {
    && (forall i, j :: 0 <= i < j < |attempts| ==> attempts[i] != attempts[j])
    && (forall i :: 0 <= i < |attempts| ==> attempts[i] in relays && attempts[i] !in before)
  }

  /** Where the post loop stands: every attempt so far was refused and its relay marked failed. */
  ghost predicate Posting(
    attempts: seq<Url>, build: nat -> BuildOutcome, post: nat -> bool, relays: seq<Url>, before: seq<Url>, failed: seq<Url>)
  {
    && failed == before + attempts && FreshPosts(attempts, relays, before)
    && (forall i :: 0 <= i < |attempts| ==> build(i) == Built && !post(i))
    && |attempts| + |Left(relays, failed)| <= |Left(relays, before)|
  }

  lemma FreshPost(attempts: seq<Url>, relays: seq<Url>, before: seq<Url>, relay: Url)
    requires FreshPosts(attempts, relays, before) && relay in relays && relay !in before + attempts
    ensures FreshPosts(attempts + [relay], relays, before)
  {
    assert forall i :: 0 <= i < |attempts| ==> attempts[i] in before + attempts;
    assert relay !in before;
  }

  lemma NextPost(
    attempts: seq<Url>, build: nat -> BuildOutcome, post: nat -> bool, relays: seq<Url>, before: seq<Url>, failed: seq<Url>,
    relay: Url)
    requires Posting(attempts, build, post, relays, before, failed)
    requires relay in relays && relay !in failed && build(|attempts|) == Built
    ensures var more := attempts + [relay];
            && FreshPosts(more, relays, before)
            && |more| <= |Left(relays, before)| && more[..|more| - 1] == attempts
            && |Left(relays, failed + [relay])| < |Left(relays, failed)|
            && (!post(|attempts|) ==> Posting(more, build, post, relays, before, failed + [relay]))
  {
    FailOne(relays, failed, relay);
    FreshPost(attempts, relays, before, relay);
    assert failed + [relay] == before + (attempts + [relay]);
  }

  datatype PostResult = Posted | RequestExpired | BuildError | NoRelaysLeft

  /** How a post ends: which attempts were made, which relays are marked for it, and why it stopped. */
  ghost predicate PostEnds(
    r: PostResult, attempts: seq<Url>, build: nat -> BuildOutcome, post: nat -> bool, relays: seq<Url>,
    before: seq<Url>, failed: seq<Url>)
  {
    && FreshPosts(attempts, relays, before) && |attempts| <= |Left(relays, before)|
    && (forall i :: 0 <= i < |attempts| ==> build(i) == Built && (post(i) <==> r == Posted && i == |attempts| - 1))
    && failed == before + (if r == Posted && attempts != [] then attempts[..|attempts| - 1] else attempts)
    && match r
       case Posted => attempts != []
       case RequestExpired => build(|attempts|) == Expired
       case BuildError => build(|attempts|) == BuildFailed
       case NoRelaysLeft => forall u :: u in relays ==> u in before || u in attempts
  }

  lemma PostStops(
    r: PostResult, attempts: seq<Url>, build: nat -> BuildOutcome, post: nat -> bool, relays: seq<Url>,
    before: seq<Url>, failed: seq<Url>)
    requires Posting(attempts, build, post, relays, before, failed)
    requires r == RequestExpired ==> build(|attempts|) == Expired
    requires r == BuildError ==> build(|attempts|) == BuildFailed
    requires r == NoRelaysLeft ==> forall u :: u in relays ==> u in failed
    requires r != Posted
    ensures PostEnds(r, attempts, build, post, relays, before, failed)
  {}

  lemma PostAccepted(
    attempts: seq<Url>, build: nat -> BuildOutcome, post: nat -> bool, relays: seq<Url>, before: seq<Url>,
    failed: seq<Url>, relay: Url)
    requires Posting(attempts, build, post, relays, before, failed)
    requires relay in relays && relay !in failed && build(|attempts|) == Built && post(|attempts|)
    ensures PostEnds(Posted, attempts + [relay], build, post, relays, before, failed)
  {
    NextPost(attempts, build, post, relays, before, failed, relay);
  }

  /** Where the directory loop stands: every directory tried so far is given up. */
  ghost predicate Receiving(
    tries: seq<Attempt>, net: nat -> FetchOutcome, relays: seq<Url>, directories: seq<Url>, failed: seq<Url>)
  {
    && NoAttemptTwice(tries)
    && (forall i :: 0 <= i < |tries| ==>
          tries[i].relay in relays && tries[i].directory in directories && tries[i].directory in failed)
    && (forall d :: d in failed ==> d in directories && GivenUp(tries, net, relays, d))
  }

  lemma NextDirectory(
    tries: seq<Attempt>, more: seq<Attempt>, net: nat -> FetchOutcome, relays: seq<Url>, directories: seq<Url>,
    failed: seq<Url>, directory: Url)
    requires Receiving(tries, net, relays, directories, failed)
    requires directory in directories && directory !in failed
    requires tries <= more && Fetches(more, |tries|, directory, relays, [])
    ensures NoAttemptTwice(more)
    ensures forall i :: 0 <= i < |more| ==> more[i].relay in relays && more[i].directory in directories
    ensures GivenUp(more, net, relays, directory) ==>
      Receiving(more, net, relays, directories, failed + [directory])
      && Receiving(more, net, relays, directories, failed + [directory] + [directory])
  {
    forall i, j | 0 <= i < j < |more| ensures more[i] != more[j] {
      if j < |tries| {
        assert more[i] == tries[i] && more[j] == tries[j];
      } else if i < |tries| {
        assert more[i] == tries[i] && tries[i].directory in failed;
      }
    }
    forall d | d in failed ensures GivenUp(more, net, relays, d) {
      GivenUpStays(tries, more, net, relays, d);
    }
    forall i | 0 <= i < |more| ensures more[i].directory in failed + [directory] {
      if i < |tries| { assert more[i] == tries[i]; }
    }
  }

  lemma LastMisbehaved(
    tries: seq<Attempt>, n: nat, net: nat -> FetchOutcome, relays: seq<Url>, directory: Url, before: seq<Url>)
    requires Fetches(tries, n, directory, relays, before) && n < |tries|
    requires net(|tries| - 1) == UnexpectedStatus
    ensures GivenUp(tries, net, relays, directory)
  {
    var last := tries[|tries| - 1];
    assert last == Attempt(directory, last.relay) && Tried(tries, net, last, UnexpectedStatus);
  }

  lemma DirectoryGone(directories: seq<Url>, before: seq<Url>, failed: seq<Url>, d: Url)
    requires d in directories && d !in before
    requires failed == before + [d] || failed == before + [d] + [d]
    ensures |Left(directories, failed)| < |Left(directories, before)|
  {
    FailOne(directories, before, d);
    assert Distinct(failed) == Distinct(before + [d]);
  }

  /** The attempts at a directory that has not failed fit in with those before. */
  lemma DirectoryTried(
    tries: seq<Attempt>, more: seq<Attempt>, net: nat -> FetchOutcome, relays: seq<Url>, directories: seq<Url>,
    failed: seq<Url>, directory: Url)
    requires Receiving(tries, net, relays, directories, failed)
    requires directory in directories && directory !in failed
    requires tries <= more && Fetches(more, |tries|, directory, relays, [])
    ensures NoAttemptTwice(more) && |more| <= MaxAttempts(directories, relays)
  {
    NextDirectory(tries, more, net, relays, directories, failed, directory);
    AttemptsBounded(more, directories, relays);
  }

  /** A directory given up, and listed once or twice, leaves one fewer. */
  lemma DirectoryGivenUp(
    tries: seq<Attempt>, more: seq<Attempt>, net: nat -> FetchOutcome, relays: seq<Url>, directories: seq<Url>,
    before: seq<Url>, failed: seq<Url>, directory: Url)
    requires Receiving(tries, net, relays, directories, before)
    requires directory in directories && directory !in before
    requires tries <= more && Fetches(more, |tries|, directory, relays, [])
    requires GivenUp(more, net, relays, directory)
    requires failed == before + [directory] || failed == before + [directory] + [directory]
    ensures Receiving(more, net, relays, directories, failed)
    ensures |Left(directories, failed)| < |Left(directories, before)|
  {
    NextDirectory(tries, more, net, relays, directories, before, directory);
    DirectoryGone(directories, before, failed, directory);
  }

  // ----- the manager -----

  class MailroomManager {
    const relays: seq<Url>
    const directories: seq<Url>
    const configuredKeys: Option<Keys>
    const net: nat -> FetchOutcome
    var failedRelays: seq<Url>
    var failedDirectories: seq<Url>
    var tries: seq<Attempt>

    constructor (relays: seq<Url>, directories: seq<Url>, configuredKeys: Option<Keys>, net: nat -> FetchOutcome)
      ensures this.relays == relays && this.directories == directories
      ensures this.configuredKeys == configuredKeys && this.net == net
      ensures failedRelays == [] && failedDirectories == [] && tries == []
    {
      this.relays, this.directories, this.configuredKeys, this.net := relays, directories, configuredKeys, net;
      failedRelays, failedDirectories, tries := [], [], [];
    }

    /**
     Tries relays until one delivers keys, the directory misbehaves or none is left. No relay
     that has failed is tried, none is tried twice, and exactly those that fail are marked.
     */
    method FetchOhttpKeys(directory: Url) returns (r: Result<Keys, FetchError>)
      modifies this
      ensures old(tries) <= tries && Fetches(tries, |old(tries)|, directory, relays, old(failedRelays))
      ensures |tries| - |old(tries)| <= |Left(relays, old(failedRelays))|
      ensures failedDirectories == if r == Err(BadDirectory) then old(failedDirectories) + [directory] else old(failedDirectories)
      ensures r.Ok? ==> |tries| > |old(tries)| && net(|tries| - 1) == Fetched(r.value)
      ensures r == Err(BadDirectory) ==> |tries| > |old(tries)| && net(|tries| - 1) == UnexpectedStatus
      ensures r == Err(NoRelays) ==>
        forall u :: u in relays && u !in old(failedRelays) ==> Tried(tries, net, Attempt(directory, u), RelayFailure)
      ensures Marked(tries, |old(tries)|, net, old(failedRelays), failedRelays)
    {
      ghost var n, before := |tries|, failedRelays;
      StartFetching(tries, net, directory, relays, before);
      while true
        invariant old(tries) <= tries && failedDirectories == old(failedDirectories)
        invariant Fetching(tries, n, net, directory, relays, before, failedRelays)
        decreases |Left(relays, failedRelays)|
      {
        var relay := Choose(relays, failedRelays);
        if relay.None? {
          AllRelaysTried(tries, n, net, directory, relays, before, failedRelays);
          return Err(NoRelays);
        }
        KeepFetching(tries, n, net, directory, relays, before, failedRelays, relay.value);
        var outcome := net(|tries|);
        tries := tries + [Attempt(directory, relay.value)];
        match outcome
        case Fetched(keys) => return Ok(keys);
        case UnexpectedStatus =>
          failedDirectories := failedDirectories + [directory];
          return Err(BadDirectory);
        case RelayFailure =>
          failedRelays := failedRelays + [relay.value];
      }
    }

    method UnwrapKeysOrFetch(directory: Url) returns (r: Result<Keys, FetchError>)
      modifies this
      ensures configuredKeys.Some? ==>
        r == Ok(configuredKeys.value) && tries == old(tries)
        && failedRelays == old(failedRelays) && failedDirectories == old(failedDirectories)
      ensures old(tries) <= tries && Fetches(tries, |old(tries)|, directory, relays, old(failedRelays))
      ensures failedDirectories == if r == Err(BadDirectory) then old(failedDirectories) + [directory] else old(failedDirectories)
      ensures r.Ok? && configuredKeys.None? ==> |tries| > |old(tries)| && net(|tries| - 1) == Fetched(r.value)
      ensures r.Err? && old(failedRelays) == [] ==> GivenUp(tries, net, relays, directory)
      ensures Marked(tries, |old(tries)|, net, old(failedRelays), failedRelays)
    {
      StartMarked(tries, net, failedRelays);
      if configuredKeys.Some? {
        return Ok(configuredKeys.value);
      }
      r := FetchOhttpKeys(directory);
      match r
      case Ok(_) =>
      case Err(BadDirectory) =>
        LastMisbehaved(tries, |old(tries)|, net, relays, directory, old(failedRelays));
      case Err(NoRelays) =>
        assert old(failedRelays) == [] ==> forall u :: u in relays ==> u !in old(failedRelays);
    }

    /** One turn of the directory loop: keys, or one directory fewer to choose from. */
    method TryDirectory(directory: Url) returns (keys: Option<Keys>)
      requires failedRelays == [] && Receiving(tries, net, relays, directories, failedDirectories)
      requires directory in directories && directory !in failedDirectories
      modifies this
      ensures NoAttemptTwice(tries) && |tries| <= MaxAttempts(directories, relays)
      ensures configuredKeys.Some? ==> keys.Some? && tries == old(tries)
      ensures keys.Some? ==> failedDirectories == old(failedDirectories)
      ensures keys.Some? && configuredKeys.None? ==>
        && |tries| > |old(tries)| && tries[|tries| - 1].directory == directory && net(|tries| - 1) == Fetched(keys.value)
      ensures keys.None? ==>
        && failedRelays == [] && Receiving(tries, net, relays, directories, failedDirectories)
        && |Left(directories, failedDirectories)| < |Left(directories, old(failedDirectories))|
    {
      var r := UnwrapKeysOrFetch(directory);
      DirectoryTried(old(tries), tries, net, relays, directories, old(failedDirectories), directory);
      if r.Ok? {
        return Some(r.value);
      }
      failedDirectories := failedDirectories + [directory];
      failedRelays := [];
      DirectoryGivenUp(old(tries), tries, net, relays, directories, old(failedDirectories), failedDirectories, directory);
      return None;
    }

    /**
     The directory loop at the start of a receive. Starting with no failures it never makes the
     same attempt twice, picks a directory that has not failed, and gives up only after every
     directory has misbehaved or failed through every relay.
     */
    method ReceiveKeys() returns (r: Option<(Url, Keys)>)
      requires failedRelays == [] && failedDirectories == [] && tries == []
      modifies this
      ensures NoAttemptTwice(tries)
      ensures |tries| <= MaxAttempts(directories, relays)
      ensures r.Some? ==> r.value.0 in directories && r.value.0 !in failedDirectories
      ensures r.Some? && configuredKeys.None? ==>
        tries != [] && tries[|tries| - 1].directory == r.value.0 && net(|tries| - 1) == Fetched(r.value.1)
      ensures r.None? ==> forall d :: d in directories ==> GivenUp(tries, net, relays, d)
      ensures configuredKeys.Some? ==> tries == [] && (r.Some? <==> exists d :: d in directories)
    {
      AttemptsBounded(tries, directories, relays);
      while true
        invariant failedRelays == [] && Receiving(tries, net, relays, directories, failedDirectories)
        invariant |tries| <= MaxAttempts(directories, relays)
        invariant configuredKeys.Some? ==> tries == [] && failedDirectories == []
        decreases |Left(directories, failedDirectories)|
      {
        var directory := Choose(directories, failedDirectories);
        if directory.None? {
          return None;
        }
        var keys := TryDirectory(directory.value);
        if keys.Some? {
          return Some((directory.value, keys.value));
        }
      }
    }

    /**
     Posts a request through one relay after another until one accepts it. Run alone, it makes
     at most one attempt per relay that had not failed before.
     */
    method PostViaRelay(build: nat -> BuildOutcome, post: nat -> bool)
      returns (r: PostResult, attempts: seq<Url>)
      modifies this`failedRelays
      ensures PostEnds(r, attempts, build, post, relays, old(failedRelays), failedRelays)
    {
      attempts := [];
      ghost var before := failedRelays;
      while true
        invariant Posting(attempts, build, post, relays, before, failedRelays)
        decreases |Left(relays, failedRelays)|
      {
        var relay := Choose(relays, failedRelays);
        if relay.None? {
          PostStops(NoRelaysLeft, attempts, build, post, relays, before, failedRelays);
          return NoRelaysLeft, attempts;
        }
        match build(|attempts|)
        case Expired =>
          PostStops(RequestExpired, attempts, build, post, relays, before, failedRelays);
          return RequestExpired, attempts;
        case BuildFailed =>
          PostStops(BuildError, attempts, build, post, relays, before, failedRelays);
          return BuildError, attempts;
        case Built =>
          NextPost(attempts, build, post, relays, before, failedRelays, relay.value);
          if post(|attempts|) {
            PostAccepted(attempts, build, post, relays, before, failedRelays, relay.value);
            return Posted, attempts + [relay.value];
          }
          attempts := attempts + [relay.value];
          failedRelays := failedRelays + [relay.value];
      }
    }
  }
}
