/**
 The mailbox store as an object, with the fields and loops of `Mailboxes` in
 payjoin-mailroom/src/db/files.rs. Every method is proved to compute the function of the
 same step in MailboxSpec; the clock reading and the live receivers come in as parameters.
 */
module MailboxStore {
  import opened Wrappers
  import opened Disk
  import opened MailboxSpec
  import Spec = MailboxSpec

  class Mailboxes {
    const capacity: nat
    const ttl: Time
    const storage: DiskStorage
    var pendingV1: map<ShortId, V1Entry>
    var pendingV2: map<ShortId, nat>
    var insertOrder: Queue
    var cells1: seq<Cell<Bytes>>
    var cells2: seq<Cell<Bytes>>

    constructor (capacity: nat, ttl: Time, storage: DiskStorage, insertOrder: Queue)
      ensures Abs() == Store(capacity, ttl, storage.xor, storage.files, map[], map[], insertOrder, [], [])
    {
      this.capacity, this.ttl, this.storage, this.insertOrder := capacity, ttl, storage, insertOrder;
      pendingV1, pendingV2, cells1, cells2 := map[], map[], [], [];
    }

    function Abs(): Store
      reads this, storage
    {
      Store(capacity, ttl, storage.xor, storage.files, pendingV1, pendingV2, insertOrder, cells1, cells2)
    }

    method HasCapacity(w: Handles, now: Time) returns (room: bool)
      modifies this, storage
      ensures Abs() == Spec.Prune(old(Abs()), w, now)
      ensures room == HasRoom(Abs())
      ensures room <==> |insertOrder| + |pendingV1| + |pendingV2| < capacity
    {
      Prune(w, now);
      room := |insertOrder| + |pendingV1| + |pendingV2| < capacity;
    }

    method Prune(w: Handles, now: Time)
      modifies this, storage
      ensures Abs() == Spec.Prune(old(Abs()), w, now)
    {
      var gone := set id | id in pendingV2 && StrongCount(w, pendingV2[id]) <= 1;
      assert gone == Abandoned(Abs(), w);
      cells2 := Drop(cells2, set id | id in gone :: pendingV2[id]);
      pendingV2 := pendingV2 - gone;
      assert Abs() == DropWaits(old(Abs()), w);
      PruneExpired(now);
    }

    method PruneExpired(now: Time)
      modifies this`insertOrder, storage
      ensures Abs() == ExpireMail(old(Abs()), now)
    {
      ghost var start := Abs();
      ghost var k := 0;
      while |insertOrder| > 0
        invariant k <= |start.order|
        invariant insertOrder == start.order[k..]
        invariant storage.files == start.files - IdsOf(start.order[..k])
        invariant forall i :: 0 <= i < k ==> Expired(start.order[i], ttl, now)
        decreases |insertOrder|
      {
        var (created, id) := insertOrder[0];
        if created + ttl < now {
          insertOrder := insertOrder[1..];
          var removed := storage.Remove(id);
          IdsOfNext(start.order, k);
          assert start.files - IdsOf(start.order[..k]) - {id} == start.files - IdsOf(start.order[..k + 1]);
          k := k + 1;
        } else {
          break;
        }
      }
      assert k == ExpiredCount(start.order, ttl, now);
    }

    method Read(id: ShortId) returns (r: Option<Bytes>)
      modifies this`pendingV1
      ensures (Abs(), r) == Spec.Read(old(Abs()), id)
    {
      if id in pendingV1 {
        var entry := pendingV1[id];
        if entry.payload.Some? {
          pendingV1 := pendingV1[id := entry.(payload := None)];
          return entry.payload;
        }
      }
      var stored := storage.Get(id);
      if stored.Some? {
        return Some(stored.value.1);
      }
      return None;
    }

    method WaitV2(w: Handles, id: ShortId, now: Time) returns (r: Result<nat, Error>)
      modifies this, storage
      ensures (Abs(), r) == Spec.WaitV2(old(Abs()), w, id, now)
      ensures var p := Spec.Prune(old(Abs()), w, now);
              && (r.Ok? <==> |p.order| + |p.v1| + |p.v2| < p.capacity && id !in p.v1)
              && (r.Ok? ==> id in pendingV2 && r.value == pendingV2[id]
                            && r.value == if id in p.v2 then p.v2[id] else |p.cells2|)
    {
      var room := HasCapacity(w, now);
      if !room {
        return Err(OverCapacity);
      }
      if id in pendingV1 {
        if pendingV1[id].payload.Some? {
          return Err(OverCapacity);
        }
        return Err(AlreadyRead);
      }
      if id !in pendingV2 {
        pendingV2 := pendingV2[id := |cells2|];
        cells2 := cells2 + [Empty];
      }
      return Ok(pendingV2[id]);
    }

    method MaybeCleanupV2Waitmap(w: Handles, id: ShortId)
      modifies this`pendingV2, this`cells2
      ensures Abs() == CleanWait(old(Abs()), w, id)
    {
      if id in pendingV2 {
        var c := pendingV2[id];
        if StrongCount(w, c) <= 1 {
          pendingV2 := pendingV2 - {id};
          cells2 := Drop(cells2, {c});
        }
      }
    }

    method PostV2(w: Handles, id: ShortId, payload: Bytes, now: Time)
      returns (r: Result<Option<()>, Error>)
      modifies this, storage
      ensures (Abs(), r) == Spec.PostV2(old(Abs()), w, id, payload, now)
    {
      var room := HasCapacity(w, now);
      if !room {
        return Err(OverCapacity);
      }
      var created := storage.TryInsert(id, payload, now);
      if created.None? {
        return Ok(None);
      }
      insertOrder := insertOrder + [(created.value, id)];
      ghost var stored := Abs();
      if id in pendingV2 {
        var c := pendingV2[id];
        pendingV2 := pendingV2 - {id};
        cells2 := Send(cells2, c, payload);
      }
      assert Abs() == Notify(stored, id, payload);
      return Ok(Some(()));
    }

    method PostV1ReqAndWait(w: Handles, id: ShortId, payload: Bytes, now: Time)
      returns (r: Result<Option<nat>, Error>)
      modifies this, storage
      ensures (Abs(), r) == Spec.PostV1(old(Abs()), w, id, payload, now)
    {
      var room := HasCapacity(w, now);
      if !room {
        return Err(OverCapacity);
      }
      ghost var pruned := Abs();
      var ret := None;
      if id !in pendingV1 {
        ret := Some(|cells1|);
        pendingV1 := pendingV1[id := V1Entry(Some(payload), |cells1|)];
        cells1 := cells1 + [Empty];
      }
      ghost var claimed := Abs();
      assert (claimed, ret) == ClaimSlot(pruned, id, payload);
      if id in pendingV2 {
        var c := pendingV2[id];
        pendingV2 := pendingV2 - {id};
        cells2 := Send(cells2, c, payload);
        assert Abs() == Notify(claimed, id, payload);
        if id in pendingV1 {
          pendingV1 := pendingV1[id := pendingV1[id].(payload := None)];
        }
      }
      return Ok(ret);
    }

    method PostV1Res(live: set<nat>, id: ShortId, payload: Bytes) returns (r: Result<(), Error>)
      modifies this`pendingV1, this`cells1
      ensures (Abs(), r) == Spec.PostV1Res(old(Abs()), live, id, payload)
    {
      if id !in pendingV1 {
        return Err(V1SenderUnavailable);
      }
      var c := pendingV1[id].chan;
      pendingV1 := pendingV1 - {id};
      if c in live {
        cells1 := Send(cells1, c, payload);
        return Ok(());
      }
      cells1 := Drop(cells1, {c});
      return Err(V1SenderUnavailable);
    }

    /** The last step of a v1 request. */
    method RemoveV1(id: ShortId)
      modifies this`pendingV1, this`cells1
      ensures Abs() == CleanSlot(old(Abs()), id)
    {
      if id in pendingV1 {
        var c := pendingV1[id].chan;
        pendingV1 := pendingV1 - {id};
        cells1 := Drop(cells1, {c});
      }
    }
  }
}
