/** `Rename` and `Renamenx` (Content/RedisClient.cpp): one command when both keys live on one node,
    otherwise a copy by DUMP and RESTORE followed by deletion, with a clean-up on every failing path. */
module Renaming {
  import opened Bytes
  import opened SlotTable
  import opened HashSlots
  import opened RedisStore
  import opened Sequential
  import opened RedisClients
  import opened Pipelines
  import opened MultiKey

  /** Which requests fail, by their number within the call, and with which code. A failed request has
      no effect. */
  type Failures = nat -> Option<int>

  ghost predicate NegativeCodes(fails: Failures) {
    forall n :: fails(n).Some? ==> fails(n).value < 0
  }

  function Answer(fail: Option<int>, ret: int): int {
    if fail.Some? then fail.value else ret
  }

  method ServerOf(client: RedisClient, key: Key, ghost owner: Key -> ServerId) returns (srv: ServerId)
    requires client.Valid() && Owns(client, owner)
    ensures srv == owner(key)
  {
    var slot := HashSlot(key);
    assert client.Matched(Slot(key)) == Some(owner(key));
    var matched := client.GetMatchedServer(slot);
    srv := matched.value;
  }

  method DelOn(net: Network, srv: ServerId, key: Key, fail: Option<int>) returns (ret: int)
    requires srv in net.shards
    modifies net
    ensures ret == Answer(fail, RC_SUCCESS)
    ensures net.shards == if fail.Some? then old(net.shards) else old(net.shards)[srv := old(net.shards)[srv] - {key}]
  {
    if fail.Some? { return fail.value; }
    var (st, reply) := Del(net.shards[srv], key);
    net.shards := net.shards[srv := st];
    return FetchInteger(reply);
  }

  method RestoreOn(net: Network, srv: ServerId, key: Key, ttl: int, payload: ByteString, fail: Option<int>) returns (ret: int)
    requires srv in net.shards
    modifies net
    ensures var done := Restore(old(net.shards)[srv], key, ttl, payload);
            if fail.Some? then ret == fail.value && net.shards == old(net.shards)
            else ret == (if done.1.StatusReply? then RC_SUCCESS else RC_REPLY_ERR)
                 && net.shards == old(net.shards)[srv := done.0]
  {
    if fail.Some? { return fail.value; }
    var (st, reply) := Restore(net.shards[srv], key, ttl, payload);
    net.shards := net.shards[srv := st];
    var (fetched, _) := FetchConverted(true, reply);
    return fetched;
  }

  /** The entry a copy arrives as: a remaining time of zero milliseconds is read as no expiry. */
  function Copied(e: Entry): Entry {
    if e.ttl == Some(0) then e.(ttl := None) else e
  }

  lemma RestoreOfDump(from: Store, to: Store, key: Key, newKey: Key)
    requires key in from && newKey !in to
    ensures var ttl := Pttl(from, key).n;
            Restore(to, newKey, if ttl == -1 then 0 else ttl, Dump(from, key).text)
            == (to[newKey := Copied(from[key])], StatusReply(OK))
  {
    var e := from[key];
    var payload := Dump(from, key).text;
    assert payload[0] == e.value.kind && payload[1..] == e.value.body;
  }

  /** The source entry and everything but the new key are as before; the new key holds what it held,
      or nothing, or the copy. */
  ghost predicate SourceKept(before: Shards, after: Shards, from: ServerId, to: ServerId, key: Key, newKey: Key)
    requires from in before && to in before
  {
    || after == before
    || after == before[to := before[to] - {newKey}]
    || (key in before[from] && after == before[to := before[to][newKey := Copied(before[from][key])]])
  }

  ghost function Moved(before: Shards, from: ServerId, to: ServerId, key: Key, newKey: Key): Shards
    requires from in before && to in before && key in before[from]
  {
    before[to := before[to][newKey := Copied(before[from][key])]][from := before[from] - {key}]
  }

  lemma ReplaceEntry(before: Shards, to: ServerId, newKey: Key, e: Entry)
    requires to in before
    ensures var deleted := before[to := before[to] - {newKey}];
            deleted[to := deleted[to][newKey := e]] == before[to := before[to][newKey := e]]
    ensures var copied := before[to := before[to][newKey := e]];
            copied[to := copied[to] - {newKey}] == before[to := before[to] - {newKey}]
  {
    var m := before[to];
    assert (m - {newKey})[newKey := e] == m[newKey := e];
    assert m[newKey := e] - {newKey} == m - {newKey};
  }

  lemma CleanUpKeepsSource(before: Shards, shards: Shards, from: ServerId, to: ServerId, key: Key, newKey: Key)
    requires from in before && to in before && from != to
    requires SourceKept(before, shards, from, to, key, newKey)
    ensures to in shards && shards[to := shards[to] - {newKey}] == before[to := before[to] - {newKey}]
  {
    var m := before[to];
    assert (m - {newKey}) - {newKey} == m - {newKey};
    if key in before[from] { ReplaceEntry(before, to, newKey, Copied(before[from][key])); }
  }

  /** How many requests a `Rename` has made when its chain stops, if it does: DUMP, PTTL, DEL, RESTORE, DEL. */
  function RenameStopsAfter(present: bool, fails: Failures): (n: nat)
    ensures 1 <= n <= 5
  {
    if fails(0).Some? || !present then 1
    else if fails(1).Some? then 2
    else if fails(2).Some? then 3
    else if fails(3).Some? then 4
    else 5
  }

  /** The stores when the chain stops after n requests. */
  ghost function RenameStopped(before: Shards, from: ServerId, to: ServerId, key: Key, newKey: Key, n: nat): (after: Shards)
    requires from in before && to in before && (n == 5 ==> key in before[from])
    ensures to in after && SourceKept(before, after, from, to, key, newKey)
  {
    if n <= 3 then before
    else if n == 4 then before[to := before[to] - {newKey}]
    else if key in before[from] then before[to := before[to][newKey := Copied(before[from][key])]]
    else before
  }

  /** The stores a failed cross-node `Rename` leaves: once the clean-up goes through, the new key is gone and
      nothing else has changed. */
  ghost function RenameFailed(before: Shards, from: ServerId, to: ServerId, key: Key, newKey: Key, fails: Failures): (after: Shards)
    requires from in before && to in before
    ensures SourceKept(before, after, from, to, key, newKey)
  {
    var n := RenameStopsAfter(key in before[from], fails);
    if fails(n).None? then before[to := before[to] - {newKey}]
    else RenameStopped(before, from, to, key, newKey, n)
  }

  /** The code it reports. */
  function RenameError(present: bool, fails: Failures): int {
    Answer(fails(RenameStopsAfter(present, fails) - 1), RC_REPLY_ERR)
  }

  /** Request m is the first of those from `from` on that fails. */
  ghost predicate FirstFailure(fails: Failures, from: nat, m: nat) {
    from <= m && fails(m).Some? && forall k: nat :: from <= k < m ==> fails(k).None?
  }

  /** It is that of the first request that failed; without a failure before it, a missing source is reported as
      a reply error after DUMP. */
  lemma RenameErrorIs(present: bool, fails: Failures, m: nat)
    ensures FirstFailure(fails, 0, m) && m < (if present then 5 else 1) ==>
              RenameStopsAfter(present, fails) == m + 1 && RenameError(present, fails) == fails(m).value
    ensures !present && fails(0).None? ==>
              RenameStopsAfter(present, fails) == 1 && RenameError(present, fails) == RC_REPLY_ERR
  {
    assert FirstFailure(fails, 0, m) ==> forall k: nat :: k < m ==> fails(k).None?;
  }

  /** A failed rename leaves the destination as it was exactly when there was none and it has not become the
      copy, or it stopped before the destination was deleted and the clean-up failed too, or it was
      already equal to the copy that stayed. */
  lemma DestinationKeptIff(before: Shards, from: ServerId, to: ServerId, key: Key, newKey: Key, fails: Failures)
    requires from in before && to in before
    ensures var n := RenameStopsAfter(key in before[from], fails);
            SameEntry(before[to], RenameFailed(before, from, to, key, newKey, fails)[to], newKey)
            <==> if fails(n).None? || n == 4 then newKey !in before[to]
                 else n <= 3 || (newKey in before[to] && before[to][newKey] == Copied(before[from][key]))
  {
    var n := RenameStopsAfter(key in before[from], fails);
    var after := RenameFailed(before, from, to, key, newKey, fails);
    assert fails(n).None? || n == 4 ==> newKey !in after[to];
  }

  /** The five requests of a cross-node `Rename`, as one chain of conditions: DUMP, PTTL, DEL of the new
      key, RESTORE, DEL of the old. `n` is the number of requests made. */
  method TryRename(net: Network, from: ServerId, to: ServerId, key: Key, newKey: Key, fails: Failures)
    returns (ret: int, n: nat, done: bool)
    requires from in net.shards && to in net.shards && from != to && NegativeCodes(fails)
    modifies net
    ensures done <==> key in old(net.shards)[from] && forall i :: 0 <= i < 5 ==> fails(i).None?
    ensures done ==> net.shards == Moved(old(net.shards), from, to, key, newKey)
    ensures !done ==> && n == RenameStopsAfter(key in old(net.shards)[from], fails)
                      && ret == Answer(fails(n - 1), RC_SUCCESS)
                      && net.shards == RenameStopped(old(net.shards), from, to, key, newKey, n)
  {
    ghost var before := net.shards;
    done := false;
    n, ret := 1, Answer(fails(0), RC_SUCCESS);
    if ret != RC_SUCCESS { return; }
    var (fetched, text) := FetchString(Dump(net.shards[from], key));
    if text == [] { return; }
    n, ret := 2, Answer(fails(1), RC_SUCCESS);
    if ret != RC_SUCCESS { return; }
    var ttl := Pttl(net.shards[from], key).n;
    if ttl == -2 { return; }
    if ttl == -1 { ttl := 0; }
    n := 3;
    ret := DelOn(net, to, newKey, fails(2));
    if ret < RC_SUCCESS { return; }
    n := 4;
    RestoreOfDump(before[from], net.shards[to], key, newKey);
    ReplaceEntry(before, to, newKey, Copied(before[from][key]));
    ret := RestoreOn(net, to, newKey, ttl, text, fails(3));
    if ret != RC_SUCCESS { return; }
    n := 5;
    ret := DelOn(net, from, key, fails(4));
    done := ret >= RC_SUCCESS;
  }

  /** The cross-node branch of `Rename`. It succeeds exactly when the source exists and the five requests of the
      copy go through. When it fails, codes and stores are determined by the request that stopped it and by
      whether the clean-up goes through; the source is kept in every case. */
  method RenameAcross(net: Network, from: ServerId, to: ServerId, key: Key, newKey: Key, fails: Failures) returns (ret: int)
    requires from in net.shards && to in net.shards && from != to && NegativeCodes(fails)
    modifies net
    ensures ret == RC_SUCCESS <==> key in old(net.shards)[from] && forall i :: 0 <= i < 5 ==> fails(i).None?
    ensures ret == RC_SUCCESS ==> net.shards == Moved(old(net.shards), from, to, key, newKey)
    ensures ret != RC_SUCCESS ==> && ret == RenameError(key in old(net.shards)[from], fails)
                                  && net.shards == RenameFailed(old(net.shards), from, to, key, newKey, fails)
  {
    var n, done;
    ghost var before := net.shards;
    ret, n, done := TryRename(net, from, to, key, newKey, fails);
    if done { return RC_SUCCESS; }
    CleanUpKeepsSource(before, net.shards, from, to, key, newKey);
    var _ := DelOn(net, to, newKey, fails(n));
    return if ret == RC_SUCCESS then RC_REPLY_ERR else ret;
  }

  /** The same count for `Renamenx`: EXISTS, DUMP, PTTL, RESTORE, DEL. A missing source is found by RESTORE,
      which refuses the empty payload. */
  function RenamenxStopsAfter(present: bool, fails: Failures): (n: nat)
    ensures 2 <= n <= 5
  {
    if fails(1).Some? then 2
    else if fails(2).Some? then 3
    else if fails(3).Some? || !present then 4
    else 5
  }

  function RenamenxError(present: bool, fails: Failures): int {
    Answer(fails(RenamenxStopsAfter(present, fails) - 1), RC_REPLY_ERR)
  }

  /** The same for `Renamenx`: a missing source is reported as a reply error after RESTORE. */
  lemma RenamenxErrorIs(present: bool, fails: Failures, m: nat)
    ensures FirstFailure(fails, 1, m) && m < (if present then 5 else 4) ==>
              RenamenxStopsAfter(present, fails) == m + 1 && RenamenxError(present, fails) == fails(m).value
    ensures !present && (forall k: nat :: 1 <= k <= 3 ==> fails(k).None?) ==>
              RenamenxStopsAfter(present, fails) == 4 && RenamenxError(present, fails) == RC_REPLY_ERR
  {
    assert FirstFailure(fails, 1, m) ==> forall k: nat :: 1 <= k < m ==> fails(k).None?;
  }

  /** The stores a failed cross-node `Renamenx` leaves: unchanged, unless both the last deletion and the
      clean-up failed; then the copy stays beside the source. */
  ghost function RenamenxFailed(before: Shards, from: ServerId, to: ServerId, key: Key, newKey: Key, fails: Failures): (after: Shards)
    requires from in before && to in before
    ensures SourceKept(before, after, from, to, key, newKey)
  {
    if RenamenxStopsAfter(key in before[from], fails) == 5 && fails(5).Some? && key in before[from]
    then before[to := before[to][newKey := Copied(before[from][key])]]
    else before
  }

  /** With no destination before, a failed `Renamenx` leaves every store as it was exactly when the source was missing,
      a request before the last failed, or the clean-up went through. */
  lemma RenamenxUndoneIff(before: Shards, from: ServerId, to: ServerId, key: Key, newKey: Key, fails: Failures)
    requires from in before && to in before && newKey !in before[to]
    ensures RenamenxFailed(before, from, to, key, newKey, fails) == before
            <==> key !in before[from] || (exists i :: 1 <= i <= 3 && fails(i).Some?) || fails(5).None?
  {
    var copied := before[to][newKey := Copied(if key in before[from] then before[from][key] else StringEntry([]))];
    assert newKey in copied && before[to := copied][to] != before[to];
  }

  /** The requests of a cross-node `Renamenx` after the existence test: no DEL of the new key, and no
      test for a missing source; RESTORE refuses the empty payload instead. */
  method TryRenamenx(net: Network, from: ServerId, to: ServerId, key: Key, newKey: Key, fails: Failures)
    returns (ret: int, n: nat, done: bool)
    requires from in net.shards && to in net.shards && from != to && NegativeCodes(fails)
    requires newKey !in net.shards[to]
    modifies net
    ensures done <==> key in old(net.shards)[from] && forall i :: 1 <= i < 5 ==> fails(i).None?
    ensures done ==> net.shards == Moved(old(net.shards), from, to, key, newKey)
    ensures !done ==> && n == RenamenxStopsAfter(key in old(net.shards)[from], fails)
                      && ret == Answer(fails(n - 1), RC_REPLY_ERR)
                      && net.shards == if n < 5 then old(net.shards)
                                       else old(net.shards)[to := old(net.shards)[to][newKey := Copied(old(net.shards)[from][key])]]
  {
    ghost var before := net.shards;
    done := false;
    n, ret := 2, Answer(fails(1), RC_SUCCESS);
    if ret != RC_SUCCESS { return; }
    var (fetched, text) := FetchString(Dump(net.shards[from], key));
    n, ret := 3, Answer(fails(2), RC_SUCCESS);
    if ret != RC_SUCCESS { return; }
    var ttl := Pttl(net.shards[from], key).n;
    if ttl == -1 { ttl := 0; }
    n := 4;
    if key in before[from] { RestoreOfDump(before[from], net.shards[to], key, newKey); }
    ret := RestoreOn(net, to, newKey, ttl, text, fails(3));
    assert before[to := before[to]] == before;
    if ret != RC_SUCCESS { return; }
    n := 5;
    ret := DelOn(net, from, key, fails(4));
    done := ret >= RC_SUCCESS;
  }

  /** The cross-node branch of `Renamenx`: a destination that already existed is never touched, and a
      failed one leaves every store as it was unless the clean-up fails as well. */
  method RenamenxAcross(net: Network, from: ServerId, to: ServerId, key: Key, newKey: Key, fails: Failures) returns (ret: int)
    requires from in net.shards && to in net.shards && from != to && NegativeCodes(fails)
    modifies net
    ensures newKey in old(net.shards)[to] ==> ret != RC_SUCCESS && net.shards == old(net.shards)
    ensures ret == RC_SUCCESS <==> && newKey !in old(net.shards)[to] && key in old(net.shards)[from]
                                   && forall i :: 0 <= i < 5 ==> fails(i).None?
    ensures ret == RC_SUCCESS ==> net.shards == Moved(old(net.shards), from, to, key, newKey)
    ensures fails(0).Some? ==> ret == fails(0).value && net.shards == old(net.shards)
    ensures ret != RC_SUCCESS && fails(0).None? && newKey !in old(net.shards)[to] ==>
              && ret == RenamenxError(key in old(net.shards)[from], fails)
              && net.shards == RenamenxFailed(old(net.shards), from, to, key, newKey, fails)
    ensures ret != RC_SUCCESS && fails(5).None? ==> net.shards == old(net.shards)
  {
    ret := Answer(fails(0), RC_SUCCESS);
    if ret != RC_SUCCESS { return; }
    if Exists(net.shards[to], newKey).n == 1 { return RC_REPLY_ERR; }
    var n, done;
    ghost var before := net.shards;
    ret, n, done := TryRenamenx(net, from, to, key, newKey, fails);
    if done { return RC_SUCCESS; }
    CleanUpKeepsSource(before, net.shards, from, to, key, newKey);
    assert before[to] - {newKey} == before[to] && before[to := before[to]] == before;
    var _ := DelOn(net, to, newKey, fails(n));
    return if ret == RC_SUCCESS then RC_REPLY_ERR else ret;
  }

  /** `Rename` as a whole. The copying branch is entered only for keys on different servers, hence
      only for different keys. */
  method RenameKey(client: RedisClient, net: Network, key: Key, newKey: Key, ghost owner: Key -> ServerId, fails: Failures)
    returns (ret: int)
    requires client.Valid() && Owns(client, owner) && (forall k :: owner(k) in net.shards) && NegativeCodes(fails)
    modifies net
    ensures var before, from, to := old(net.shards), owner(key), owner(newKey);
            if from != to then
              && key != newKey
              && (ret == RC_SUCCESS <==> key in before[from] && forall i :: 0 <= i < 5 ==> fails(i).None?)
              && (ret != RC_SUCCESS ==> ret == RenameError(key in before[from], fails))
              && net.shards == if ret == RC_SUCCESS then Moved(before, from, to, key, newKey)
                               else RenameFailed(before, from, to, key, newKey, fails)
            else
              && ret == (if fails(0).Some? then fails(0).value
                         else if key in before[from] then RC_SUCCESS else RC_REPLY_ERR)
              && net.shards == if ret == RC_SUCCESS then before[from := RedisStore.Rename(before[from], key, newKey).0] else before
  {
    var from := ServerOf(client, key, owner);
    var to := ServerOf(client, newKey, owner);
    var same := client.InSameNode(key, newKey);
    assert same <==> from == to by {
      assert client.Matched(Slot(key)) == Some(owner(key)) && client.Matched(Slot(newKey)) == Some(owner(newKey));
    }
    if !same {
      ret := RenameAcross(net, from, to, key, newKey, fails);
      return;
    }
    if fails(0).Some? { return fails(0).value; }
    var (st, reply) := RedisStore.Rename(net.shards[from], key, newKey);
    net.shards := net.shards[from := st];
    var (fetched, _) := FetchConverted(true, reply);
    ret := fetched;
  }

  /** The reply of RENAMENX is an integer, which the same-node branch of `Renamenx` reads as a string:
      it reports an error even when the node has renamed the key. */
  method RenamenxSameNode(net: Network, srv: ServerId, key: Key, newKey: Key, fail: Option<int>) returns (ret: int)
    requires srv in net.shards && (fail.Some? ==> fail.value < 0)
    modifies net
    ensures ret != RC_SUCCESS && ret == if fail.Some? then fail.value else RC_REPLY_ERR
    ensures fail.None? ==> net.shards == old(net.shards)[srv := RenameNx(old(net.shards)[srv], key, newKey).0]
    ensures fail.Some? ==> net.shards == old(net.shards)
    ensures newKey in old(net.shards)[srv] ==> net.shards == old(net.shards)
  {
    if fail.Some? { return fail.value; }
    var (st, reply) := RenameNx(net.shards[srv], key, newKey);
    assert net.shards[srv := net.shards[srv]] == net.shards;
    net.shards := net.shards[srv := st];
    var (fetched, _) := FetchConverted(true, reply);
    ret := fetched;
  }

  /** A move across nodes is RENAME on one store holding the same data, exactly when the key does not
      have zero milliseconds left to live: then the copy would live for ever. */
  lemma MovedIsRename(st: Store, before: Shards, owner: Key -> ServerId, key: Key, newKey: Key)
    requires Agrees(st, before, owner) && owner(key) != owner(newKey) && key in st
    requires key in before[owner(key)]
    ensures Agrees(RedisStore.Rename(st, key, newKey).0, Moved(before, owner(key), owner(newKey), key, newKey), owner)
            <==> st[key].ttl != Some(0)
  {
    var st', after := RedisStore.Rename(st, key, newKey).0, Moved(before, owner(key), owner(newKey), key, newKey);
    assert SameEntry(st, before[owner(key)], key);
    forall k | k != newKey ensures owner(k) in after && SameEntry(st', after[owner(k)], k) {
      assert SameEntry(st, before[owner(k)], k);
    }
    assert SameEntry(st', after[owner(newKey)], newKey) <==> st[key] == Copied(st[key]);
  }
}
