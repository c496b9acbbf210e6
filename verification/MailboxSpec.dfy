/**
 The mailbox store proper (payjoin-mailroom/src/db/files.rs, `Mailboxes`): write-once v2
 mailboxes on disk, v1 request slots in memory, and the wait channels of v2 readers.

 `Store` is the abstract state and the functions on it specify the operations; class
 `Mailboxes` in Mailboxes.dfy has the source's fields and loops and computes them.
 A one-shot channel is a number, and its cell says whether its sender has sent, is
 still held, or was dropped. Waiting readers hold clones of a shared receiver:
 `Handles` says which channel each of them holds.
 */
module MailboxSpec {
  import opened Wrappers
  import opened Disk

  datatype Cell<T> = Empty | Sent(value: T) | Dropped

  datatype Error = OverCapacity | AlreadyRead | V1SenderUnavailable

  datatype V1Entry = V1Entry(payload: Option<Bytes>, chan: nat)

  type Queue = seq<(Time, ShortId)>

  // Which task holds a live clone of which channel's shared receiver.
  type Handles = map<nat, nat>

  datatype Store = Store(
    capacity: nat,
    ttl: Time,
    key: Bytes,
    files: Directory,
    v1: map<ShortId, V1Entry>,
    v2: map<ShortId, nat>,
    order: Queue,
    cells1: seq<Cell<Bytes>>,
    cells2: seq<Cell<Bytes>>)

  function Len(s: Store): nat {
    |s.order| + |s.v1| + |s.v2|
  }

  predicate HasRoom(s: Store) {
    Len(s) < s.capacity
  }

  // ----- channels -----

  function Holders(w: Handles, c: nat): set<nat> {
    set t | t in w && w[t] == c
  }

  /** Live clones of the shared receiver of channel `c` while its entry is in the wait map. */
  function StrongCount(w: Handles, c: nat): (n: nat)
    ensures n > 1 <==> exists t :: t in w && w[t] == c
  {
    assert forall t :: t in w && w[t] == c ==> t in Holders(w, c);
    assert Holders(w, c) != {} ==> exists t :: t in Holders(w, c);
    1 + |Holders(w, c)|
  }

  function Send<T>(cells: seq<Cell<T>>, c: nat, value: T): (r: seq<Cell<T>>)
    ensures |r| == |cells|
    ensures forall d :: 0 <= d < |cells| ==> r[d] == if d == c then Sent(value) else cells[d]
  {
    if c < |cells| then cells[c := Sent(value)] else cells
  }

  /** Dropping senders closes every channel that had not been sent on. */
  function Drop<T>(cells: seq<Cell<T>>, gone: set<nat>): (r: seq<Cell<T>>)
    ensures |r| == |cells|
    ensures forall d :: 0 <= d < |cells| ==>
      r[d] == if d in gone && cells[d].Empty? then Dropped else cells[d]
  {
    seq(|cells|, i requires 0 <= i < |cells| =>
      if i in gone && cells[i].Empty? then Dropped else cells[i])
  }

  // ----- pruning -----

  predicate Expired(entry: (Time, ShortId), ttl: Time, now: Time) {
    entry.0 + ttl < now
  }

  function IdsOf(q: Queue): set<ShortId> {
    set i | 0 <= i < |q| :: q[i].1
  }

  lemma IdsOfNext(q: Queue, k: nat)
    requires k < |q|
    ensures IdsOf(q[..k + 1]) == IdsOf(q[..k]) + {q[k].1}
  {
    var ids, next := IdsOf(q[..k]), IdsOf(q[..k + 1]);
    assert forall i :: 0 <= i < k ==> q[..k + 1][i] == q[..k][i];
    assert q[..k + 1][k] == q[k];
    assert forall id :: id in ids ==> id in next;
  }

  /** How many entries expire before the first one that has not. */
  function ExpiredCount(q: Queue, ttl: Time, now: Time): (k: nat)
    ensures k <= |q|
    ensures forall i :: 0 <= i < k ==> Expired(q[i], ttl, now)
    ensures k < |q| ==> !Expired(q[k], ttl, now)
  {
    if q == [] || !Expired(q[0], ttl, now) then 0 else 1 + ExpiredCount(q[1..], ttl, now)
  }

  /** Wait entries nobody waits on any more. */
  function Abandoned(s: Store, w: Handles): set<ShortId> {
    set id | id in s.v2 && StrongCount(w, s.v2[id]) <= 1
  }

  function DropWaits(s: Store, w: Handles): Store {
    var gone := Abandoned(s, w);
    s.(v2 := s.v2 - gone, cells2 := Drop(s.cells2, set id | id in gone :: s.v2[id]))
  }

  function ExpireMail(s: Store, now: Time): Store {
    var k := ExpiredCount(s.order, s.ttl, now);
    s.(order := s.order[k..], files := s.files - IdsOf(s.order[..k]))
  }

  function Prune(s: Store, w: Handles, now: Time): Store {
    ExpireMail(DropWaits(s, w), now)
  }

  // ----- operations; the ones that check capacity prune first -----

  /** In-memory v1 plaintext first, and it is taken; otherwise the stored mailbox. */
  function Read(s: Store, id: ShortId): (Store, Option<Bytes>) {
    if id in s.v1 && s.v1[id].payload.Some? then
      (s.(v1 := s.v1[id := s.v1[id].(payload := None)]), s.v1[id].payload)
    else
      match Lookup(s.key, s.files, id)
      case Some(file) => (s, Some(file.1))
      case None => (s, None)
  }

  /** Joins the wait entry of `id`, creating it if there is none. */
  function JoinWait(s: Store, id: ShortId): (Store, Result<nat, Error>) {
    if !HasRoom(s) then
      (s, Err(OverCapacity))
    else if id in s.v1 then
      (s, Err(if s.v1[id].payload.Some? then OverCapacity else AlreadyRead))
    else if id in s.v2 then
      (s, Ok(s.v2[id]))
    else
      (s.(v2 := s.v2[id := |s.cells2|], cells2 := s.cells2 + [Empty]), Ok(|s.cells2|))
  }

  function WaitV2(s: Store, w: Handles, id: ShortId, now: Time): (Store, Result<nat, Error>) {
    JoinWait(Prune(s, w, now), id)
  }

  function CleanWait(s: Store, w: Handles, id: ShortId): Store {
    if id in s.v2 && StrongCount(w, s.v2[id]) <= 1 then
      s.(v2 := s.v2 - {id}, cells2 := Drop(s.cells2, {s.v2[id]}))
    else
      s
  }

  /** Sends `payload` to the readers waiting on `id`, if there are any. */
  function Notify(s: Store, id: ShortId, payload: Bytes): Store {
    if id in s.v2 then
      s.(v2 := s.v2 - {id}, cells2 := Send(s.cells2, s.v2[id], payload))
    else
      s
  }

  function StoreMail(s: Store, id: ShortId, payload: Bytes, now: Time)
    : (Store, Result<Option<()>, Error>)
  {
    if !HasRoom(s) then
      (s, Err(OverCapacity))
    else
      var (files, created) := Inserted(s.key, s.files, id, payload, now);
      match created
      case None => (s, Ok(None))
      case Some(time) =>
        (Notify(s.(files := files, order := s.order + [(time, id)]), id, payload), Ok(Some(())))
  }

  function PostV2(s: Store, w: Handles, id: ShortId, payload: Bytes, now: Time)
    : (Store, Result<Option<()>, Error>)
  {
    StoreMail(Prune(s, w, now), id, payload, now)
  }

  /** Claims the v1 slot of `id` unless it is taken. */
  function ClaimSlot(s: Store, id: ShortId, payload: Bytes): (Store, Option<nat>) {
    if id in s.v1 then (s, None)
    else
      (s.(v1 := s.v1[id := V1Entry(Some(payload), |s.cells1|)], cells1 := s.cells1 + [Empty]),
       Some(|s.cells1|))
  }

  function TakePayload(s: Store, id: ShortId): Store {
    if id in s.v1 then s.(v1 := s.v1[id := s.v1[id].(payload := None)]) else s
  }

  function OfferV1(s: Store, id: ShortId, payload: Bytes): (Store, Result<Option<nat>, Error>) {
    if !HasRoom(s) then
      (s, Err(OverCapacity))
    else
      var (claimed, ret) := ClaimSlot(s, id, payload);
      if id in claimed.v2 then
        (TakePayload(Notify(claimed, id, payload), id), Ok(ret))
      else
        (claimed, Ok(ret))
  }

  function PostV1(s: Store, w: Handles, id: ShortId, payload: Bytes, now: Time)
    : (Store, Result<Option<nat>, Error>)
  {
    OfferV1(Prune(s, w, now), id, payload)
  }

  /** `live` are the v1 channels whose receiver is still awaited; sending to another fails. */
  function PostV1Res(s: Store, live: set<nat>, id: ShortId, payload: Bytes)
    : (Store, Result<(), Error>)
  {
    if id !in s.v1 then
      (s, Err(V1SenderUnavailable))
    else
      var c := s.v1[id].chan;
      var s' := s.(v1 := s.v1 - {id});
      if c in live then
        (s'.(cells1 := Send(s.cells1, c, payload)), Ok(()))
      else
        (s'.(cells1 := Drop(s.cells1, {c})), Err(V1SenderUnavailable))
  }

  /** The cleanup at the end of a v1 request: by id, whoever's entry it is. */
  function CleanSlot(s: Store, id: ShortId): Store {
    if id in s.v1 then
      s.(v1 := s.v1 - {id}, cells1 := Drop(s.cells1, {s.v1[id].chan}))
    else
      s
  }
}
