/**
 The cache of probed gateways (payjoin-mailroom/src/ohttp_relay/gateway_prober.rs,
 `KnownGateways`): a hash map plus an expiry heap that must agree. `Table` is the simple
 expiring map the pair stands for; the class is proved to refine it. The standard library's
 binary heap is taken at its contract: a bag whose peek gives some entry of least expiry.
 */
module Gateways {
  import opened Basics
  import opened Wrappers

  type Uri = string
  type Instant = nat

  datatype Policy = Policy(bip77Allowed: bool, expires: Instant)

  datatype Status = InFlight(chan: nat) | Known(policy: Policy)

  datatype HeapEntry = HeapEntry(expires: Instant, key: Uri)

  type Table = map<Uri, Status>

  predicate Lapsed(status: Status, now: Instant) {
    status.Known? && status.policy.expires < now
  }

  /** The expiring map at time `now`. */
  function Live(t: Table, now: Instant): Table {
    map u | u in t && !Lapsed(t[u], now) :: t[u]
  }

  function Allocated(t: Table, uri: Uri, chan: nat): Table {
    t[uri := InFlight(chan)]
  }

  /** What the locked section at the start of a check finds. */
  datatype Entry = Cached(policy: Policy) | Join(chan: nat) | Probe(chan: nat) | Full

  /** That section on a freshly pruned table; `chan` is the channel a new probe would use. */
  function Enter(t: Table, capacity: nat, url: Uri, chan: nat): (Table, Entry) {
    if url in t then
      (t, match t[url] case Known(policy) => Cached(policy) case InFlight(c) => Join(c))
    else if |t| < capacity then
      (Allocated(t, url, chan), Probe(chan))
    else
      (t, Full)
  }

  /** A known policy is never overwritten; an in-flight mark is, and so is no entry at all. */
  function Inserted(t: Table, uri: Uri, policy: Policy): (Table, Option<()>) {
    if uri in t && t[uri].Known? then (t, None) else (t[uri := Known(policy)], Some(()))
  }

  // ----- the heap -----

  /** One heap entry, with equal expiry, per known policy, and none for anything else. */
  ghost predicate Agree(t: Table, heap: multiset<HeapEntry>) {
    forall e :: heap[e] == if e.key in t && t[e.key].Known? && t[e.key].policy.expires == e.expires then 1 else 0
  }

  ghost predicate Soonest(heap: multiset<HeapEntry>, e: HeapEntry) {
    e in heap && forall f :: f in heap ==> e.expires <= f.expires
  }

  lemma SoonestExists(heap: multiset<HeapEntry>)
    requires heap != multiset{}
    ensures exists e :: Soonest(heap, e)
  {
    var times := set e | e in heap :: e.expires;
    var some :| some in heap;
    assert some.expires in times;
    LeastExists(times);
    var t: nat :| Least(times, t);
    var e :| e in heap && e.expires == t;
    assert forall f :: f in heap ==> f.expires in times;
    assert Soonest(heap, e);
  }

  lemma EntryOf(t: Table, heap: multiset<HeapEntry>, u: Uri)
    requires Agree(t, heap) && u in t && t[u].Known?
    ensures HeapEntry(t[u].policy.expires, u) in heap
  {
    assert heap[HeapEntry(t[u].policy.expires, u)] == 1;
  }

  /** The heap is never longer than the map, as the code asserts. */
  lemma {:induction false} HeapNoLonger(t: Table, heap: multiset<HeapEntry>)
    requires Agree(t, heap)
    ensures |heap| <= |t|
    decreases |heap|
  {
    if heap != multiset{} {
      var e :| e in heap;
      assert heap[e] == 1;
      var t', heap' := t - {e.key}, heap - multiset{e};
      RemoveAgrees(t, heap, e);
      HeapNoLonger(t', heap');
      assert t'.Keys == t.Keys - {e.key};
    }
  }

  lemma RemoveAgrees(t: Table, heap: multiset<HeapEntry>, e: HeapEntry)
    requires Agree(t, heap) && e in heap
    ensures Agree(t - {e.key}, heap - multiset{e})
    ensures e.key in t && t[e.key].Known? && t[e.key].policy.expires == e.expires
  {
    assert heap[e] == 1;
  }

  ghost predicate PartlyPruned(start: Table, t: Table, now: Instant) {
    && (forall u :: u in t ==> u in start && start[u] == t[u])
    && (forall u :: u in start && u !in t ==> Lapsed(start[u], now))
  }

  lemma NoneLapsed(t: Table, heap: multiset<HeapEntry>, now: Instant)
    requires Agree(t, heap)
    requires heap == multiset{} || exists e :: Soonest(heap, e) && now <= e.expires
    ensures forall u :: u in t ==> !Lapsed(t[u], now)
  {
    forall u | u in t && t[u].Known? ensures !Lapsed(t[u], now) {
      EntryOf(t, heap, u);
    }
  }

  lemma PrunedIsLive(start: Table, t: Table, now: Instant)
    requires PartlyPruned(start, t, now) && forall u :: u in t ==> !Lapsed(t[u], now)
    ensures t == Live(start, now)
  {}

  class KnownGateways {
    const capacity: nat
    var byUrl: Table
    var byExpiry: multiset<HeapEntry>

    ghost predicate Valid()
      reads this
    {
      Agree(byUrl, byExpiry)
    }

    constructor (capacity: nat)
      ensures Valid() && byUrl == map[] && this.capacity == capacity
    {
      this.capacity, byUrl, byExpiry := capacity, map[], multiset{};
    }

    method Peek() returns (r: Option<HeapEntry>)
      ensures r.None? <==> byExpiry == multiset{}
      ensures r.Some? ==> Soonest(byExpiry, r.value)
    {
      if byExpiry == multiset{} {
        return None;
      }
      SoonestExists(byExpiry);
      var e :| e in byExpiry && forall f :: f in byExpiry ==> e.expires <= f.expires by {
        var m :| Soonest(byExpiry, m);
      }
      return Some(e);
    }

    /** Popping expired minima removes exactly the expired policies. */
    method Prune(now: Instant)
      requires Valid()
      modifies this
      ensures Valid() && byUrl == Live(old(byUrl), now)
      ensures forall u :: u in byUrl <==>
        u in old(byUrl) && (old(byUrl)[u].Known? ==> now <= old(byUrl)[u].policy.expires)
      ensures forall u :: u in byUrl ==> byUrl[u] == old(byUrl)[u]
    {
      HeapNoLonger(byUrl, byExpiry);
      ghost var start := byUrl;
      while true
        invariant Valid()
        invariant PartlyPruned(start, byUrl, now)
        decreases |byExpiry|
      {
        var top := Peek();
        if top.None? || now <= top.value.expires {
          break;
        }
        RemoveAgrees(byUrl, byExpiry, top.value);
        byUrl := byUrl - {top.value.key};
        byExpiry := byExpiry - multiset{top.value};
      }
      NoneLapsed(byUrl, byExpiry, now);
      PrunedIsLive(start, byUrl, now);
      HeapNoLonger(byUrl, byExpiry);
    }

    /** A policy is only ever handed out before it has lapsed. */
    method Get(url: Uri, now: Instant) returns (r: Option<Status>)
      requires Valid()
      modifies this
      ensures Valid() && byUrl == Live(old(byUrl), now)
      ensures r == if url in byUrl then Some(byUrl[url]) else None
      ensures r.Some? && r.value.Known? ==> now <= r.value.policy.expires
    {
      Prune(now);
      r := if url in byUrl then Some(byUrl[url]) else None;
    }

    method HasCapacity(now: Instant) returns (room: bool)
      requires Valid()
      modifies this
      ensures Valid() && byUrl == Live(old(byUrl), now)
      ensures room <==> |byUrl| < capacity
    {
      Prune(now);
      room := |byUrl| < capacity;
    }

    /** How long the cache stays full: until its earliest known policy expires, if it holds one. */
    method NoCapacityFor(now: Instant) returns (d: nat)
      requires Valid()
      modifies this
      ensures Valid() && byUrl == Live(old(byUrl), now)
      ensures |byUrl| < capacity || (forall u :: u in byUrl ==> !byUrl[u].Known?) ==> d == 0
      ensures |byUrl| >= capacity ==>
        (forall u :: u in byUrl && byUrl[u].Known? ==>
          now + d <= byUrl[u].policy.expires
          && exists v :: v in byUrl && byUrl[v].Known? && byUrl[v].policy.expires == now + d)
    {
      var room := HasCapacity(now);
      if room {
        return 0;
      }
      var top := Peek();
      forall u | u in byUrl && byUrl[u].Known?
        ensures top.Some? && top.value.expires <= byUrl[u].policy.expires
      {
        EntryOf(byUrl, byExpiry, u);
      }
      if top.None? {
        return 0;
      }
      RemoveAgrees(byUrl, byExpiry, top.value);
      return SaturatingSub(top.value.expires, now);
    }

    /** Marks `uri` in flight on channel `chan` if there is room and no entry yet. */
    method AllocateInFlight(uri: Uri, chan: nat, now: Instant) returns (granted: bool)
      requires Valid()
      modifies this
      ensures Valid()
      ensures var live := Live(old(byUrl), now);
              && (granted <==> |live| < capacity && uri !in live)
              && byUrl == if granted then Allocated(live, uri, chan) else live
    {
      var room := HasCapacity(now);
      if !room || uri in byUrl {
        return false;
      }
      byUrl := byUrl[uri := InFlight(chan)];
      return true;
    }

    method Insert(url: Uri, policy: Policy) returns (r: Option<()>)
      requires Valid()
      modifies this
      ensures Valid() && (byUrl, r) == Inserted(old(byUrl), url, policy)
      ensures var known := url in old(byUrl) && old(byUrl)[url].Known?;
              if known then r == None && byUrl == old(byUrl)
              else r == Some(()) && byUrl == old(byUrl)[url := Known(policy)]
    {
      if url in byUrl && byUrl[url].Known? {
        return None;
      }
      HeapNoLonger(byUrl, byExpiry);
      byUrl := byUrl[url := Known(policy)];
      byExpiry := byExpiry + multiset{HeapEntry(policy.expires, url)};
      return Some(());
    }

    /**
     The first locked section of an opt-in check: a live policy is the answer, a probe in flight
     is joined, and a url with no live entry is marked for a new probe if there is room.
     */
    method CheckBegin(url: Uri, chan: nat, now: Instant) returns (r: Entry)
      requires Valid()
      modifies this
      ensures Valid() && (byUrl, r) == Enter(Live(old(byUrl), now), capacity, url, chan)
      ensures forall p :: r == Cached(p) <==>
        url in old(byUrl) && old(byUrl)[url] == Known(p) && now <= p.expires
      ensures forall c :: r == Join(c) <==> url in old(byUrl) && old(byUrl)[url] == InFlight(c)
      ensures url !in old(byUrl) || (old(byUrl)[url].Known? && old(byUrl)[url].policy.expires < now) ==>
        r == if |Live(old(byUrl), now)| < capacity then Probe(chan) else Full
      ensures byUrl == if r == Probe(chan) then Live(old(byUrl), now)[url := InFlight(chan)] else Live(old(byUrl), now)
    {
      var status := Get(url, now);
      if status.Some? {
        match status.value
        case Known(policy) => return Cached(policy);
        case InFlight(c) => return Join(c);
      }
      assert Live(byUrl, now) == byUrl;
      var granted := AllocateInFlight(url, chan, now);
      return if granted then Probe(chan) else Full;
    }
  }
}
