/** Key to slot: `HASH_SLOT` of Content/RedisClient.cpp, with the hash-tag rule of the Redis Cluster
    Specification, sections "Key distribution model" and "Hash tags". */
module HashSlots {
  import opened Bytes
  import opened SlotTable
  import Crc16

  const OPEN_BRACE: Byte := 0x7b
  const CLOSE_BRACE: Byte := 0x7d

  /** The part of the key that is hashed: between the first brace pair, unless that is empty. */
  ghost function HashPart(key: ByteString): ByteString {
    var open := IndexOf(key, OPEN_BRACE, 0);
    if open == |key| then key
    else
      var close := IndexOf(key, CLOSE_BRACE, open + 1);
      if close == |key| || close == open + 1 then key else key[open + 1..close]
  }

  function SlotOfCrc(crc: bv16): (slot: nat)
    ensures slot < SLOTS
  {
    (crc & 16383) as nat
  }

  ghost function Slot(key: ByteString): (slot: nat)
    ensures slot < SLOTS
  {
    SlotOfCrc(Crc16.Crc(HashPart(key)))
  }

  /** `HASH_SLOT`. */
  method HashSlot(key: ByteString) returns (slot: nat)
    ensures slot == Slot(key)
  {
    var start := 0;
    while start < |key|
      invariant start <= |key| && OPEN_BRACE !in key[..start]
    {
      if key[start] == OPEN_BRACE { break; }
      start := start + 1;
    }
    IndexOfIsFirst(key, OPEN_BRACE, 0, start);
    assert key[..|key|] == key;
    if start == |key| {
      var whole := Crc16.Compute(key, |key|);
      return SlotOfCrc(whole);
    }
    var end := start + 1;
    while end < |key|
      invariant start < end <= |key| && CLOSE_BRACE !in key[start + 1..end]
    {
      if key[end] == CLOSE_BRACE { break; }
      end := end + 1;
    }
    IndexOfIsFirst(key, CLOSE_BRACE, start + 1, end);
    if end == |key| || end == start + 1 {
      var whole := Crc16.Compute(key, |key|);
      return SlotOfCrc(whole);
    }
    var tag := key[start + 1..];
    var crc := Crc16.Compute(tag, end - start - 1);
    assert tag[..end - start - 1] == key[start + 1..end];
    return SlotOfCrc(crc);
  }

  lemma NoCloseBraceHashesWhole(t: ByteString)
    requires CLOSE_BRACE !in t
    ensures HashPart(t) == t
  {}

  /** The hash-tag law: whatever stands before and after the first tag, the key lands on the slot
      of the tag alone. */
  lemma HashTagLaw(p: ByteString, t: ByteString, s: ByteString)
    requires OPEN_BRACE !in p && CLOSE_BRACE !in t && t != []
    ensures Slot(p + [OPEN_BRACE] + t + [CLOSE_BRACE] + s) == Slot(t)
  {
    var key := p + [OPEN_BRACE] + t + [CLOSE_BRACE] + s;
    var open, close := |p|, |p| + 1 + |t|;
    assert key[0..open] == p && key[open + 1..close] == t;
    IndexOfIsFirst(key, OPEN_BRACE, 0, open);
    IndexOfIsFirst(key, CLOSE_BRACE, open + 1, close);
    NoCloseBraceHashesWhole(t);
  }

  /** An empty tag is no tag: the whole key is hashed. */
  lemma EmptyTagHashesWhole(p: ByteString, s: ByteString)
    requires OPEN_BRACE !in p
    ensures HashPart(p + [OPEN_BRACE, CLOSE_BRACE] + s) == p + [OPEN_BRACE, CLOSE_BRACE] + s
  {
    var key := p + [OPEN_BRACE, CLOSE_BRACE] + s;
    assert key[0..|p|] == p && key[|p| + 1..|p| + 1] == [];
    IndexOfIsFirst(key, OPEN_BRACE, 0, |p|);
    IndexOfIsFirst(key, CLOSE_BRACE, |p| + 1, |p| + 1);
  }

  /** The key is p, a tag t in braces, and s: no brace opens before and none closes inside the tag. */
  ghost predicate Tagged(key: ByteString, p: ByteString, t: ByteString, s: ByteString) {
    key == p + [OPEN_BRACE] + t + [CLOSE_BRACE] + s && OPEN_BRACE !in p && CLOSE_BRACE !in t && t != []
  }

  /** Only such a key is hashed in part, by its tag; a key without braces, with one that never closes, or with
      an empty tag is hashed whole. */
  lemma HashedInPartIsTagged(key: ByteString) returns (p: ByteString, t: ByteString, s: ByteString)
    requires HashPart(key) != key
    ensures Tagged(key, p, t, s) && HashPart(key) == t
  {
    var open := IndexOf(key, OPEN_BRACE, 0);
    var close := IndexOf(key, CLOSE_BRACE, open + 1);
    p, t, s := key[..open], key[open + 1..close], key[close + 1..];
    assert key == p + [key[open]] + t + [key[close]] + s;
    assert p == key[0..open];
  }

  /** With every slot owned, every key has a server, and it is the one server whose region holds
      the key's slot. */
  lemma EveryKeyHasAServer(table: seq<SlotRegion>, key: ByteString)
    requires Ordered(table)
    requires forall i :: 0 <= i < |table| ==> table[i].server.Some?
    requires forall slot :: 0 <= slot < SLOTS ==> Covered(table, slot)
    ensures LinearScan(table, Slot(key)).Some?
    ensures exists i :: 0 <= i < |table| && table[i].Contains(Slot(key)) && table[i].server == LinearScan(table, Slot(key))
  {
    var slot := Slot(key);
    assert Covered(table, slot);
    var i :| 0 <= i < |table| && table[i].Contains(slot);
    OwnerIsUnique(table, slot, i);
  }
}
