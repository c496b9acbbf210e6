/**
 Unique short ids per time window (payjoin-mailroom/src/metrics.rs, `HllSketches`): one sketch
 per hour and one per day, old ones dropped as ids come in.

 Each sketch hashes with a key of its own. What a sketch holds is the set of hashes it was fed,
 and a hash is the pair of key and id: under two keys the same id is two unrelated hashes. The
 estimate a sketch makes of such a set is a parameter.
 */
module Metrics {
  import opened Basics
  import opened Wrappers

  type ShortId = nat
  type Seconds = nat
  type Key = nat
  type Hashes = set<(Key, ShortId)>

  datatype Sketch = Sketch(key: Key, hashes: Hashes)

  type Sketches = map<nat, Sketch>

  const HOUR: nat := 3600
  const DAY: nat := 86400
  const HOURLY_RETENTION_HOURS: nat := 168
  const DAILY_RETENTION_DAYS: nat := 90

  function Intervals(t: Seconds, interval: nat): nat
    requires interval > 0
  {
    t / interval
  }

  /** Interval `k` lasts from `k` intervals after the epoch to just before `k + 1`. */
  lemma IntervalsIff(t: Seconds, interval: nat, k: nat)
    requires interval > 0
    ensures Intervals(t, interval) == k <==> k * interval <= t < (k + 1) * interval
  {
    var q := t / interval;
    assert q * interval <= t < q * interval + interval;
    MulMonotonic(0, 0, interval);
    if q < k { MulMonotonic(q + 1, k, interval); }
    if k < q { MulMonotonic(k + 1, q, interval); }
  }

  function Insert(s: Sketch, id: ShortId): Sketch {
    s.(hashes := s.hashes + {(s.key, id)})
  }

  /** Inserting into the sketch of interval `k`; a missing one is made with the key given. */
  function Added(m: Sketches, k: nat, key: Key, id: ShortId): Sketches {
    m[k := Insert(if k in m then m[k] else Sketch(key, {}), id)]
  }

  // ----- the full history -----

  type History = seq<(Seconds, ShortId)>

  /** Every id ever seen in interval `k`. */
  function Seen(h: History, interval: nat, k: nat): set<ShortId>
    requires interval > 0
  {
    set i | 0 <= i < |h| && Intervals(h[i].0, interval) == k :: h[i].1
  }

  /** Every id ever seen in intervals `lo` to `hi`, both included. */
  function SeenIn(h: History, interval: nat, lo: nat, hi: nat): set<ShortId>
    requires interval > 0
  {
    set k: nat, id | lo <= k <= hi && id in Seen(h, interval, k) :: id
  }

  /** The intervals in which some id was seen. */
  function Active(h: History, interval: nat): set<nat>
    requires interval > 0
  {
    set i | 0 <= i < |h| :: Intervals(h[i].0, interval)
  }

  lemma ActiveIff(h: History, interval: nat, k: nat)
    requires interval > 0
    ensures k in Active(h, interval) <==> Seen(h, interval, k) != {}
  {
    if k in Active(h, interval) {
      var i :| 0 <= i < |h| && Intervals(h[i].0, interval) == k;
      assert h[i].1 in Seen(h, interval, k);
    }
  }

  lemma ActiveAppend(h: History, t: Seconds, id: ShortId, interval: nat)
    requires interval > 0
    ensures Active(h + [(t, id)], interval) == Active(h, interval) + {Intervals(t, interval)}
  {
    var h' := h + [(t, id)];
    assert h'[|h|] == (t, id) && forall i :: 0 <= i < |h| ==> h'[i] == h[i];
  }

  ghost predicate Nondecreasing(h: History) {
    forall i, j :: 0 <= i < j < |h| ==> h[i].0 <= h[j].0
  }

  lemma SeenAppend(h: History, t: Seconds, id: ShortId, interval: nat, k: nat)
    requires interval > 0
    ensures Seen(h + [(t, id)], interval, k) == Seen(h, interval, k) + if Intervals(t, interval) == k then {id} else {}
  {
    var h' := h + [(t, id)];
    assert h'[|h|] == (t, id);
    forall x | x in Seen(h, interval, k) ensures x in Seen(h', interval, k) {
      var i :| 0 <= i < |h| && Intervals(h[i].0, interval) == k && h[i].1 == x;
      assert h'[i] == h[i];
    }
  }

  function Tagged(key: Key, ids: set<ShortId>): Hashes {
    set id | id in ids :: (key, id)
  }

  lemma TaggedAppend(key: Key, ids: set<ShortId>, id: ShortId)
    ensures Tagged(key, ids + {id}) == Tagged(key, ids) + {(key, id)}
  {}

  // ----- what the maps hold -----

  /** The key that the sketch of each interval draws when it is made; no two are the same. */
  type Keys = nat -> Key

  ghost predicate AllDifferent(keys: Keys) {
    forall j, k :: keys(j) == keys(k) ==> j == k
  }

  function SketchOf(h: History, interval: nat, keys: Keys, k: nat): Sketch
    requires interval > 0
  {
    Sketch(keys(k), Tagged(keys(k), Seen(h, interval, k)))
  }

  /** The sketches there would be without pruning: one for every interval with an id. */
  function Unpruned(h: History, interval: nat, keys: Keys): Sketches
    requires interval > 0
  {
    map k | k in Active(h, interval) :: SketchOf(h, interval, keys, k)
  }

  function Cutoff(h: History, interval: nat, retention: nat): nat
    requires interval > 0
  {
    if h == [] then 0 else SaturatingSub(Intervals(h[|h| - 1].0, interval), retention)
  }

  function Since(m: Sketches, cutoff: nat): Sketches {
    map k | k in m && cutoff <= k :: m[k]
  }

  /** What a tier with this retention holds. */
  function Kept(h: History, interval: nat, retention: nat, keys: Keys): Sketches
    requires interval > 0
  {
    Since(Unpruned(h, interval, keys), Cutoff(h, interval, retention))
  }

  lemma DivMonotonic(a: nat, b: nat, n: nat)
    requires a <= b && n > 0
    ensures a / n <= b / n
  {
    if a / n > b / n {
      MulMonotonic(b / n + 1, a / n, n);
    }
  }

  lemma MulMonotonic(a: nat, b: nat, n: nat)
    requires a <= b
    ensures a * n <= b * n
  {}

  lemma {:induction false} RangeSize(keys: set<nat>, lo: nat, hi: int)
    requires lo <= hi + 1 && forall k :: k in keys ==> lo <= k <= hi
    ensures |keys| <= hi - lo + 1
    decreases hi - lo + 1
  {
    if lo <= hi {
      RangeSize(keys - {hi}, lo, hi - 1);
    } else {
      assert forall k :: k !in keys;
    }
  }

  /** A tier holds at most `retention + 1` sketches. */
  lemma KeptSize(h: History, interval: nat, retention: nat, keys: Keys)
    requires interval > 0 && h != [] && Nondecreasing(h)
    ensures |Kept(h, interval, retention, keys)| <= retention + 1
  {
    var hi, lo := Intervals(h[|h| - 1].0, interval), Cutoff(h, interval, retention);
    var m := Kept(h, interval, retention, keys);
    forall k | k in m ensures lo <= k <= hi {
      var i :| 0 <= i < |h| && Intervals(h[i].0, interval) == k;
      DivMonotonic(h[i].0, h[|h| - 1].0, interval);
    }
    RangeSize(m.Keys, lo, hi);
  }

  /** Which sketches a tier holds once an id has come in: those of the last `retention` intervals. */
  lemma KeptKeys(h: History, t: Seconds, id: ShortId, interval: nat, retention: nat, keys: Keys)
    requires interval > 0
    ensures var h' := h + [(t, id)];
            forall k :: k in Kept(h', interval, retention, keys) <==>
              k in Active(h', interval) && Intervals(t, interval) <= k + retention
  {
    assert (h + [(t, id)])[|h|] == (t, id);
  }

  // ----- one tier of sketches -----

  /** The first key of an ordered map, if it has one. */
  method FirstKey(m: Sketches) returns (r: Option<nat>)
    ensures r.None? <==> m == map[]
    ensures r.Some? ==> Least(m.Keys, r.value)
  {
    if m == map[] {
      return None;
    }
    LeastExists(m.Keys);
    var k: nat :| k in m.Keys && forall j :: j in m.Keys ==> k <= j by {
      var l: nat :| Least(m.Keys, l);
    }
    return Some(k);
  }

  /** Drops first entries while they lie before the cutoff: what is left is exactly the rest. */
  method PopBefore(m0: Sketches, cutoff: nat) returns (m: Sketches)
    ensures m == Since(m0, cutoff)
  {
    m := m0;
    var first: Option<nat> := FirstKey(m);
    while first.Some? && first.value < cutoff
      invariant first.None? <==> m == map[]
      invariant first.Some? ==> Least(m.Keys, first.value)
      invariant forall k :: k in m ==> k in m0 && m[k] == m0[k]
      invariant forall k :: k in m0 && k !in m ==> k < cutoff
      decreases |m|
    {
      assert |m - {first.value}| < |m| by { assert (m - {first.value}).Keys == m.Keys - {first.value}; }
      m := m - {first.value};
      first := FirstKey(m);
    }
  }

  lemma SketchGrows(h: History, t: Seconds, id: ShortId, interval: nat, keys: Keys, k: nat)
    requires interval > 0
    ensures var k0, h' := Intervals(t, interval), h + [(t, id)];
            SketchOf(h', interval, keys, k) ==
              if k != k0 then SketchOf(h, interval, keys, k)
              else if k in Active(h, interval) then Insert(SketchOf(h, interval, keys, k), id)
              else Insert(Sketch(keys(k), {}), id)
  {
    SeenAppend(h, t, id, interval, k);
    ActiveIff(h, interval, k);
    TaggedAppend(keys(k), Seen(h, interval, k), id);
    assert Tagged(keys(k), {}) == {};
  }

  lemma AddedIsUnpruned(h: History, t: Seconds, id: ShortId, interval: nat, keys: Keys)
    requires interval > 0
    ensures var k0 := Intervals(t, interval);
            Added(Unpruned(h, interval, keys), k0, keys(k0), id) == Unpruned(h + [(t, id)], interval, keys)
  {
    var k0, h' := Intervals(t, interval), h + [(t, id)];
    ActiveAppend(h, t, id, interval);
    forall k | k in Active(h', interval)
      ensures Added(Unpruned(h, interval, keys), k0, keys(k0), id)[k] == SketchOf(h', interval, keys, k)
    {
      SketchGrows(h, t, id, interval, keys, k);
    }
  }

  lemma AddCommutes(m: Sketches, k: nat, key: Key, id: ShortId, cutoff: nat, later: nat)
    requires cutoff <= later <= k
    ensures Since(Added(Since(m, cutoff), k, key, id), later) == Since(Added(m, k, key, id), later)
  {}

  lemma CutoffGrows(h: History, t: Seconds, id: ShortId, interval: nat, retention: nat)
    requires interval > 0 && (h == [] || h[|h| - 1].0 <= t)
    ensures Cutoff(h, interval, retention) <= Cutoff(h + [(t, id)], interval, retention)
    ensures Cutoff(h + [(t, id)], interval, retention) == SaturatingSub(Intervals(t, interval), retention)
  {
    assert (h + [(t, id)])[|h|] == (t, id);
    if h != [] {
      DivMonotonic(h[|h| - 1].0, t, interval);
    }
  }

  /** Adding to the pruned map and pruning it again gives what the longer history leaves. */
  lemma AddThenPruneKeeps(h: History, t: Seconds, id: ShortId, interval: nat, retention: nat, keys: Keys)
    requires interval > 0 && (h == [] || h[|h| - 1].0 <= t)
    ensures var k := Intervals(t, interval);
            Since(Added(Kept(h, interval, retention, keys), k, keys(k), id), SaturatingSub(k, retention))
            == Kept(h + [(t, id)], interval, retention, keys)
  {
    var k := Intervals(t, interval);
    CutoffGrows(h, t, id, interval, retention);
    AddCommutes(Unpruned(h, interval, keys), k, keys(k), id, Cutoff(h, interval, retention), SaturatingSub(k, retention));
    AddedIsUnpruned(h, t, id, interval, keys);
  }

  /** One tier's share of adding an id: insert into the current sketch, then drop the old ones. */
  method AddToTier(m0: Sketches, ghost h: History, t: Seconds, id: ShortId, interval: nat, retention: nat, keys: Keys)
    returns (m: Sketches)
    requires interval > 0 && Nondecreasing(h + [(t, id)]) && (h == [] || h[|h| - 1].0 <= t)
    requires m0 == Kept(h, interval, retention, keys)
    ensures m == Kept(h + [(t, id)], interval, retention, keys) && |m| <= retention + 1
  {
    var k := Intervals(t, interval);
    AddThenPruneKeeps(h, t, id, interval, retention, keys);
    KeptSize(h + [(t, id)], interval, retention, keys);
    var sketch := if k in m0 then m0[k] else Sketch(keys(k), {});
    m := m0[k := Insert(sketch, id)];
    m := PopBefore(m, SaturatingSub(k, retention));
  }

  // ----- windows -----

  function Merged(m: Sketches, lo: nat, hi: int): Hashes {
    set k, x | k in m && lo <= k <= hi && x in m[k].hashes :: x
  }

  /** Merges the sketches of a key range into a fresh one. */
  method UnionOver(m: Sketches, lo: nat, hi: nat) returns (union: Hashes)
    ensures union == Merged(m, lo, hi)
  {
    union := {};
    var keys: set<nat> := set k | k in m && lo <= k <= hi;
    while keys != {}
      invariant forall k :: k in keys ==> k in m && lo <= k <= hi
      invariant forall k :: k in m && lo <= k <= hi && k !in keys ==> m[k].hashes <= union
      invariant union <= Merged(m, lo, hi)
      decreases |keys|
    {
      var k: nat :| k in keys;
      union := union + m[k].hashes;
      keys := keys - {k};
    }
  }

  /** A window within the retained intervals misses nothing that was pruned. */
  lemma WindowIsUnpruned(m: Sketches, cutoff: nat, lo: nat, hi: nat)
    requires cutoff <= lo
    ensures Merged(Since(m, cutoff), lo, hi) == Merged(m, lo, hi)
  {
    forall x | x in Merged(m, lo, hi) ensures x in Merged(Since(m, cutoff), lo, hi) {
      var k :| k in m && lo <= k <= hi && x in m[k].hashes;
      assert k in Since(m, cutoff);
    }
  }

  lemma AppendNondecreasing(h: History, t: Seconds, id: ShortId)
    requires Nondecreasing(h) && (h == [] || h[|h| - 1].0 <= t)
    ensures Nondecreasing(h + [(t, id)])
  {}

  /** Windows up to `retention` intervals back from now reach nothing that has been dropped. */
  lemma CurrentIsRetained(h: History, now: Seconds, interval: nat, retention: nat)
    requires interval > 0 && (h == [] || h[|h| - 1].0 <= now)
    ensures Cutoff(h, interval, retention) <= SaturatingSub(Intervals(now, interval), retention)
  {
    if h != [] {
      DivMonotonic(h[|h| - 1].0, now, interval);
    }
  }

  // ----- how many distinct hashes a window has -----

  /** The distinct ids of each interval, added up. */
  function SumOfCounts(h: History, interval: nat, lo: nat, hi: int): nat
    requires interval > 0 && -1 <= hi
    decreases hi + 1
  {
    if hi < lo then 0 else SumOfCounts(h, interval, lo, hi - 1) + |Seen(h, interval, hi)|
  }

  lemma {:induction false} TaggedSize(key: Key, ids: set<ShortId>)
    ensures |Tagged(key, ids)| == |ids|
    decreases |ids|
  {
    if ids == {} {
      assert Tagged(key, ids) == {};
    } else {
      var id: nat :| id in ids;
      TaggedSize(key, ids - {id});
      assert ids == (ids - {id}) + {id};
      TaggedAppend(key, ids - {id}, id);
    }
  }

  function HashesAt(m: Sketches, k: nat): Hashes {
    if k in m then m[k].hashes else {}
  }

  lemma MergedNext(m: Sketches, lo: nat, hi: nat)
    requires lo <= hi
    ensures Merged(m, lo, hi) == Merged(m, lo, hi - 1) + HashesAt(m, hi)
  {}

  lemma IntervalHashes(h: History, interval: nat, keys: Keys, k: nat)
    requires interval > 0
    ensures HashesAt(Unpruned(h, interval, keys), k) == Tagged(keys(k), Seen(h, interval, k))
  {
    ActiveIff(h, interval, k);
  }

  lemma HashSeen(h: History, interval: nat, keys: Keys, lo: nat, hi: int, x: (Key, ShortId))
    requires interval > 0
    ensures x in Merged(Unpruned(h, interval, keys), lo, hi) <==>
            exists k: nat :: lo <= k <= hi && x.1 in Seen(h, interval, k) && x.0 == keys(k)
  {
    var full := Unpruned(h, interval, keys);
    if x in Merged(full, lo, hi) {
      var k :| k in full && lo <= k <= hi && x in full[k].hashes;
      IntervalHashes(h, interval, keys, k);
      assert x.1 in Seen(h, interval, k);
    }
    if k: nat :| lo <= k <= hi && x.1 in Seen(h, interval, k) && x.0 == keys(k) {
      IntervalHashes(h, interval, keys, k);
      assert x == (keys(k), x.1) && k in full && x in full[k].hashes;
    }
  }

  /**
   Merged sketches do not recognise an id from another interval: a window has as many distinct
   hashes as its intervals have distinct ids, added up.
   */
  lemma {:induction false} MergedSize(h: History, interval: nat, keys: Keys, lo: nat, hi: int)
    requires interval > 0 && AllDifferent(keys) && -1 <= hi
    ensures |Merged(Unpruned(h, interval, keys), lo, hi)| == SumOfCounts(h, interval, lo, hi)
    decreases hi + 1
  {
    var full := Unpruned(h, interval, keys);
    if hi < lo {
      assert Merged(full, lo, hi) == {};
    } else {
      MergedSize(h, interval, keys, lo, hi - 1);
      MergedNext(full, lo, hi);
      IntervalHashes(h, interval, keys, hi);
      TaggedSize(keys(hi), Seen(h, interval, hi));
      forall x | x in Merged(full, lo, hi - 1) ensures x !in HashesAt(full, hi) {
        HashSeen(h, interval, keys, lo, hi - 1, x);
      }
      DisjointSize(Merged(full, lo, hi - 1), HashesAt(full, hi));
    }
  }

  lemma DisjointSize<T>(a: set<T>, b: set<T>)
    requires forall x :: x in a ==> x !in b
    ensures |a + b| == |a| + |b|
  {
    assert a * b == {};
  }

  function IdsIn(hashes: Hashes): set<ShortId> {
    set x | x in hashes :: x.1
  }

  ghost predicate OncePerId(hashes: Hashes) {
    forall x, y :: x in hashes && y in hashes && x.1 == y.1 ==> x == y
  }

  lemma {:induction false} IdsInSize(hashes: Hashes)
    ensures |IdsIn(hashes)| <= |hashes|
    ensures |IdsIn(hashes)| == |hashes| <==> OncePerId(hashes)
    decreases |hashes|
  {
    if hashes != {} {
      var x :| x in hashes;
      var rest := hashes - {x};
      IdsInSize(rest);
      assert IdsIn(hashes) == IdsIn(rest) + {x.1};
      assert x.1 in IdsIn(rest) <==> exists y :: y in rest && y.1 == x.1;
    }
  }

  /** No id of the window was seen in two of its intervals. */
  ghost predicate NoneReturns(h: History, interval: nat, lo: nat, hi: nat)
    requires interval > 0
  {
    forall j: nat, k: nat, id :: lo <= j <= hi && lo <= k <= hi ==>
      (id in Seen(h, interval, j) && id in Seen(h, interval, k) ==> j == k)
  }

  lemma MergedIds(h: History, interval: nat, keys: Keys, lo: nat, hi: nat)
    requires interval > 0
    ensures IdsIn(Merged(Unpruned(h, interval, keys), lo, hi)) == SeenIn(h, interval, lo, hi)
  {
    var merged := Merged(Unpruned(h, interval, keys), lo, hi);
    forall id | id in SeenIn(h, interval, lo, hi) ensures id in IdsIn(merged) {
      var k: nat :| lo <= k <= hi && id in Seen(h, interval, k);
      HashSeen(h, interval, keys, lo, hi, (keys(k), id));
      assert (keys(k), id) in merged;
    }
    forall x | x in merged ensures x.1 in SeenIn(h, interval, lo, hi) {
      HashSeen(h, interval, keys, lo, hi, x);
    }
  }

  lemma OncePerIdIff(h: History, interval: nat, keys: Keys, lo: nat, hi: nat)
    requires interval > 0 && AllDifferent(keys)
    ensures OncePerId(Merged(Unpruned(h, interval, keys), lo, hi)) <==> NoneReturns(h, interval, lo, hi)
  {
    var merged := Merged(Unpruned(h, interval, keys), lo, hi);
    if OncePerId(merged) {
      forall j: nat, k: nat, id | lo <= j <= hi && lo <= k <= hi && id in Seen(h, interval, j) && id in Seen(h, interval, k)
        ensures j == k
      {
        HashSeen(h, interval, keys, lo, hi, (keys(j), id));
        HashSeen(h, interval, keys, lo, hi, (keys(k), id));
        assert (keys(j), id) in merged && (keys(k), id) in merged;
      }
    }
    if NoneReturns(h, interval, lo, hi) {
      forall x, y | x in merged && y in merged && x.1 == y.1 ensures x == y {
        HashSeen(h, interval, keys, lo, hi, x);
        HashSeen(h, interval, keys, lo, hi, y);
      }
    }
  }

  /**
   Hence a merged window counts the distinct ids seen in it exactly when no id returned in a
   second interval of the window; otherwise it counts more.
   */
  lemma CountsDistinctIff(h: History, interval: nat, keys: Keys, lo: nat, hi: nat)
    requires interval > 0 && AllDifferent(keys)
    ensures |SeenIn(h, interval, lo, hi)| <= |Merged(Unpruned(h, interval, keys), lo, hi)|
    ensures |SeenIn(h, interval, lo, hi)| == |Merged(Unpruned(h, interval, keys), lo, hi)| <==> NoneReturns(h, interval, lo, hi)
  {
    MergedIds(h, interval, keys, lo, hi);
    IdsInSize(Merged(Unpruned(h, interval, keys), lo, hi));
    OncePerIdIff(h, interval, keys, lo, hi);
  }

  lemma TwoDaysSeen(id: ShortId, k: nat)
    ensures Seen([(0, id), (DAY, id)], DAY, k) == if k <= 1 then {id} else {}
  {
    var h := [(0, id), (DAY, id)];
    assert h[0] == (0, id) && h[1] == (DAY, id);
  }

  /** One id on two days: the week has one distinct id and two hashes. */
  lemma TwoDaysCountTwice(id: ShortId, keys: Keys)
    requires AllDifferent(keys)
    ensures var h := [(0, id), (DAY, id)];
            |SeenIn(h, DAY, 0, 6)| == 1 && |Merged(Unpruned(h, DAY, keys), 0, 6)| == 2
  {
    var h := [(0, id), (DAY, id)];
    forall k: nat ensures Seen(h, DAY, k) == if k <= 1 then {id} else {} {
      TwoDaysSeen(id, k);
    }
    assert id in Seen(h, DAY, 0);
    assert SeenIn(h, DAY, 0, 6) == {id};
    MergedSize(h, DAY, keys, 0, 6);
    assert SumOfCounts(h, DAY, 0, 6) == SumOfCounts(h, DAY, 0, 5) == SumOfCounts(h, DAY, 0, 4) == SumOfCounts(h, DAY, 0, 3);
    assert SumOfCounts(h, DAY, 0, 3) == SumOfCounts(h, DAY, 0, 2) == SumOfCounts(h, DAY, 0, 1) == 2;
  }

  // ----- the tracker -----

  class HllSketches {
    const hourlyKeys: Keys
    const dailyKeys: Keys
    var hourly: Sketches
    var daily: Sketches
    ghost var history: History

    /** The maps are what the history leaves of the sketches there would be without pruning. */
    ghost predicate Valid()
      reads this
    {
      && Nondecreasing(history)
      && hourly == Kept(history, HOUR, HOURLY_RETENTION_HOURS, hourlyKeys)
      && daily == Kept(history, DAY, DAILY_RETENTION_DAYS, dailyKeys)
    }

    constructor (hourlyKeys: Keys, dailyKeys: Keys)
      ensures Valid() && history == [] && this.hourlyKeys == hourlyKeys && this.dailyKeys == dailyKeys
    {
      this.hourlyKeys, this.dailyKeys := hourlyKeys, dailyKeys;
      hourly, daily, history := map[], map[], [];
    }

    method AddId(id: ShortId, now: Seconds)
      requires Valid() && (history == [] || history[|history| - 1].0 <= now)
      modifies this
      ensures Valid() && history == old(history) + [(now, id)]
      ensures |hourly| <= 169 && |daily| <= 91
      ensures forall k :: k in hourly <==> k in Active(history, HOUR) && Intervals(now, HOUR) <= k + 168
      ensures forall k :: k in daily <==> k in Active(history, DAY) && Intervals(now, DAY) <= k + 90
    {
      AppendNondecreasing(history, now, id);
      var hours := AddToTier(hourly, history, now, id, HOUR, HOURLY_RETENTION_HOURS, hourlyKeys);
      var days := AddToTier(daily, history, now, id, DAY, DAILY_RETENTION_DAYS, dailyKeys);
      KeptKeys(history, now, id, HOUR, HOURLY_RETENTION_HOURS, hourlyKeys);
      KeptKeys(history, now, id, DAY, DAILY_RETENTION_DAYS, dailyKeys);
      hourly, daily, history := hours, days, history + [(now, id)];
    }

    method HourlyCount(now: Seconds, estimate: Hashes -> nat) returns (n: nat)
      requires Valid() && (history == [] || history[|history| - 1].0 <= now)
      ensures var hour := Intervals(now, HOUR);
              var ids := Seen(history, HOUR, hour);
              n == if ids == {} then 0 else estimate(Tagged(hourlyKeys(hour), ids))
    {
      var hour := Intervals(now, HOUR);
      CurrentIsRetained(history, now, HOUR, HOURLY_RETENTION_HOURS);
      ActiveIff(history, HOUR, hour);
      n := if hour in hourly then estimate(hourly[hour].hashes) else 0;
    }

    method DailyCount(now: Seconds, estimate: Hashes -> nat) returns (n: nat)
      requires Valid() && (history == [] || history[|history| - 1].0 <= now)
      ensures var day := Intervals(now, DAY);
              var ids := Seen(history, DAY, day);
              n == if ids == {} then 0 else estimate(Tagged(dailyKeys(day), ids))
    {
      var day := Intervals(now, DAY);
      CurrentIsRetained(history, now, DAY, DAILY_RETENTION_DAYS);
      ActiveIff(history, DAY, day);
      n := if day in daily then estimate(daily[day].hashes) else 0;
    }

    method WeeklyCount(now: Seconds, estimate: Hashes -> nat) returns (n: nat)
      requires Valid() && (history == [] || history[|history| - 1].0 <= now)
      ensures var today := Intervals(now, DAY);
              n == estimate(Merged(Unpruned(history, DAY, dailyKeys), SaturatingSub(today, 6), today))
    {
      var today := Intervals(now, DAY);
      CurrentIsRetained(history, now, DAY, DAILY_RETENTION_DAYS);
      n := DailyUnionCount(SaturatingSub(today, 6), today, estimate);
    }

    method MonthlyCount(now: Seconds, estimate: Hashes -> nat) returns (n: nat)
      requires Valid() && (history == [] || history[|history| - 1].0 <= now)
      ensures var today := Intervals(now, DAY);
              n == estimate(Merged(Unpruned(history, DAY, dailyKeys), SaturatingSub(today, 30), today))
    {
      var today := Intervals(now, DAY);
      CurrentIsRetained(history, now, DAY, DAILY_RETENTION_DAYS);
      n := DailyUnionCount(SaturatingSub(today, 30), today, estimate);
    }

    /** The union over a window that reaches no further back than the retained days. */
    method DailyUnionCount(lo: nat, hi: nat, estimate: Hashes -> nat) returns (n: nat)
      requires Valid() && Cutoff(history, DAY, DAILY_RETENTION_DAYS) <= lo
      ensures n == estimate(Merged(Unpruned(history, DAY, dailyKeys), lo, hi))
    {
      var union := UnionOver(daily, lo, hi);
      WindowIsUnpruned(Unpruned(history, DAY, dailyKeys), Cutoff(history, DAY, DAILY_RETENTION_DAYS), lo, hi);
      n := estimate(union);
    }
  }
}
