/**
 The on-disk half of the mailbox store (payjoin-mailroom/src/db/files.rs, `DiskStorage`).
 A directory is a map from mailbox id to one file; a file holds the obfuscated bytes
 and its creation time. File contents are XORed with a key that repeats.
 */
module Disk {
  import opened Wrappers

  type Bytes = seq<bv8>
  // A short id is only ever compared for equality, so its eight bytes are read as one number.
  type ShortId = nat
  type Time = nat

  datatype StoredFile = StoredFile(created: Time, data: Bytes)

  type Directory = map<ShortId, StoredFile>

  /** `b` with the repeating key XORed over it; an empty key yields no pattern bytes at all. */
  function Xored(key: Bytes, b: Bytes): (r: Bytes)
    ensures |r| == |b|
  {
    if key == [] then b else seq(|b|, i requires 0 <= i < |b| => Masked(key, b, i))
  }

  function Masked(key: Bytes, b: Bytes, i: nat): bv8
    requires key != [] && i < |b|
  {
    b[i] ^ key[i % |key|]
  }

  lemma XorTwice(a: bv8, k: bv8)
    ensures (a ^ k) ^ k == a
  {}

  /** Obfuscation is its own inverse, for every key (the empty one too) and every length. */
  lemma XoredInvolution(key: Bytes, b: Bytes)
    ensures Xored(key, Xored(key, b)) == b
  {
    if key != [] {
      forall i | 0 <= i < |b|
        ensures Xored(key, Xored(key, b))[i] == b[i]
      {
        XorTwice(b[i], key[i % |key|]);
      }
    }
  }

  /** What is written differs from the clear bytes by exactly the key, over and over. */
  lemma DiffersByKey(key: Bytes, b: Bytes, i: nat)
    requires key != [] && i < |b|
    ensures Xored(key, b)[i] ^ b[i] == key[i % |key|]
  {
    XorSwap(b[i], key[i % |key|]);
  }

  lemma XorSwap(a: bv8, k: bv8)
    ensures (a ^ k) ^ a == k
  {}

  lemma AtLeastOneFold(d: int, n: nat)
    requires 1 <= d
    ensures n <= d * n
  {
    assert d * n == n + (d - 1) * n;
  }

  /** Quotient and remainder are unique. */
  lemma RemainderOf(x: nat, q: int, r: nat, n: nat)
    requires r < n && x == q * n + r
    ensures x % n == r
  {
    var q', r' := x / n, x % n;
    assert x == q' * n + r';
    assert (q - q') * n == r' - r;
    if q > q' {
      AtLeastOneFold(q - q', n);
    } else if q < q' {
      assert (q' - q) * n == r - r';
      AtLeastOneFold(q' - q, n);
    }
  }

  lemma NextInCycle(i: nat, n: nat)
    requires 0 < n
    ensures (i + 1) % n == if i % n + 1 == n then 0 else i % n + 1
  {
    var q, r := i / n, i % n;
    assert i == q * n + r;
    if r + 1 == n {
      assert (q + 1) * n == q * n + n;
      RemainderOf(i + 1, q + 1, 0, n);
    } else {
      RemainderOf(i + 1, q, r + 1, n);
    }
  }

  /** The buffer loop: the buffer zipped with the key's endless cycle. */
  method XorBuffer(key: Bytes, buffer: array<bv8>)
    modifies buffer
    ensures buffer[..] == Xored(key, old(buffer[..]))
    ensures key != [] ==> forall i :: 0 <= i < buffer.Length ==> buffer[i] == old(buffer[i]) ^ key[i % |key|]
  {
    if key == [] {
      return;
    }
    var i, j := 0, 0;
    while i < buffer.Length
      invariant 0 <= i <= buffer.Length
      invariant j == i % |key|
      invariant forall k :: 0 <= k < i ==> buffer[k] == Masked(key, old(buffer[..]), k)
      invariant forall k :: i <= k < buffer.Length ==> buffer[k] == old(buffer[k])
    {
      buffer[i] := buffer[i] ^ key[j];
      NextInCycle(i, |key|);
      i, j := i + 1, if j + 1 == |key| then 0 else j + 1;
    }
  }

  /** What reading a mailbox file gives: its creation time and its clear bytes. */
  function Lookup(key: Bytes, files: Directory, id: ShortId): (r: Option<(Time, Bytes)>)
    ensures r.Some? <==> id in files
  {
    if id in files then Some((files[id].created, Xored(key, files[id].data))) else None
  }

  /**
   The directory after an insertion attempt and the creation time it reports. A stored
   mailbox is never overwritten: only a repeat of the same contents is accepted.
   */
  function Inserted(key: Bytes, files: Directory, id: ShortId, contents: Bytes, now: Time)
    : (r: (Directory, Option<Time>))
    ensures id in files ==> r.0 == files
    ensures id in files ==> (r.1.Some? <==> Xored(key, files[id].data) == contents)
    ensures id !in files ==> r.1 == Some(now)
  {
    if id in files then
      (files, if Xored(key, files[id].data) == contents then Some(files[id].created) else None)
    else
      (files[id := StoredFile(now, Xored(key, contents))], Some(now))
  }

  /** After an accepted insertion the mailbox reads back as exactly the bytes that were posted. */
  lemma ReadAfterInsert(key: Bytes, files: Directory, id: ShortId, contents: Bytes, now: Time)
    ensures var (after, created) := Inserted(key, files, id, contents, now);
            created.Some? ==> Lookup(key, after, id) == Some((created.value, contents))
  {
    XoredInvolution(key, contents);
  }

  class DiskStorage {
    const xor: Bytes
    var files: Directory

    constructor (xor: Bytes, files: Directory)
      ensures this.xor == xor && this.files == files
    {
      this.xor, this.files := xor, files;
    }

    method Get(id: ShortId) returns (r: Option<(Time, Bytes)>)
      ensures r == Lookup(xor, files, id)
    {
      if id !in files {
        return None;
      }
      var file := files[id];
      var buffer := new bv8[|file.data|](i requires 0 <= i < |file.data| => file.data[i]);
      assert buffer[..] == file.data;
      XorBuffer(xor, buffer);
      return Some((file.created, buffer[..]));
    }

    method TryInsert(id: ShortId, contents: Bytes, now: Time) returns (created: Option<Time>)
      modifies this`files
      ensures (files, created) == Inserted(xor, old(files), id, contents, now)
    {
      if id in files {
        var existing := Get(id);
        if existing.Some? && existing.value.1 == contents {
          return Some(existing.value.0);
        }
        return None;
      }
      var buffer := new bv8[|contents|](i requires 0 <= i < |contents| => contents[i]);
      assert buffer[..] == contents;
      XorBuffer(xor, buffer);
      files := files[id := StoredFile(now, buffer[..])];
      return Some(now);
    }

    /** Unlinks the file if there is one. */
    method Remove(id: ShortId) returns (removed: bool)
      modifies this`files
      ensures removed <==> id in old(files)
      ensures files == old(files) - {id}
    {
      removed := id in files;
      files := files - {id};
    }
  }
}
