/** When the retry of `FlushPipeline` (Content/RedisClient.cpp) is harmless: a flush that stopped part-way is
    repeated from the start, so some commands run twice. */
module Retries {
  import opened Bytes
  import opened SlotTable
  import opened RedisStore
  import opened Sequential

  // Any queue.

  ghost predicate RunsAgain(st: Store, share: seq<Command>, k: nat)
    requires k <= |share|
  {
    RunOn(RunOn(st, share[..k]).0, share) == RunOn(st, share)
  }

  /** Running any prefix first changes neither the store a complete run leaves nor its replies. */
  ghost predicate PrefixHarmless(share: seq<Command>) {
    forall st: Store, k: nat :: k <= |share| ==> RunsAgain(st, share, k)
  }

  ghost predicate RetrySafe(cmds: seq<Command>, route: seq<ServerId>)
    requires |route| == |cmds|
  {
    forall srv :: srv in route ==> PrefixHarmless(Share(cmds, route, srv))
  }

  ghost predicate IsOneRun(shards: Shards, cmds: seq<Command>, route: seq<ServerId>, after: Shards)
    requires Routed(shards, cmds, route) && after.Keys == shards.Keys
  {
    RunAll(after, cmds, route) == RunAll(shards, cmds, route)
  }

  /** Whatever the stores held and wherever the first flush stopped, a complete second one leaves the
      stores and replies of one sequential run. */
  ghost predicate EveryRetryIsOneRun(cmds: seq<Command>, route: seq<ServerId>)
    requires |route| == |cmds|
  {
    forall shards, after :: Routed(shards, cmds, route) && PartlyRun(shards, cmds, route, after) ==>
      IsOneRun(shards, cmds, route, after)
  }

  lemma {:induction false} NoShare(cmds: seq<Command>, route: seq<ServerId>, srv: ServerId)
    requires |route| == |cmds| && srv !in route
    ensures Share(cmds, route, srv) == []
  {
    if route == [] {
    } else {
      var n := |route| - 1;
      NoShare(cmds[..n], route[..n], srv);
      ShareSnoc(cmds, route, srv);
    }
  }

  /** One share run again from whatever prefix it had reached. */
  lemma ShareRunAgain(st: Store, share: seq<Command>, after: Store)
    requires RanSome(st, share, after) && PrefixHarmless(share)
    ensures RunOn(after, share) == RunOn(st, share)
  {
    var k: nat :| RanPrefix(st, share, k, after);
    assert RunsAgain(st, share, k);
  }

  lemma RetriedShare(shards: Shards, cmds: seq<Command>, route: seq<ServerId>, after: Shards, srv: ServerId)
    requires Routed(shards, cmds, route) && PartlyRun(shards, cmds, route, after)
    requires RetrySafe(cmds, route) && srv in shards
    ensures var end := RunAll(after, cmds, route); RanShare(shards[srv], cmds, route, srv, end.0[srv], end.1)
  {
    Projection(after, cmds, route, srv);
    var share := Share(cmds, route, srv);
    if srv in route {
      ShareRunAgain(shards[srv], share, after[srv]);
    } else {
      NoShare(cmds, route, srv);
      var k: nat :| RanPrefix(shards[srv], share, k, after[srv]);
    }
  }

  /** A flush that stopped after any prefix of each share, followed by a complete one, is one
      sequential run. */
  lemma RetryIsOneRun(shards: Shards, cmds: seq<Command>, route: seq<ServerId>, after: Shards)
    requires Routed(shards, cmds, route) && PartlyRun(shards, cmds, route, after)
    requires RetrySafe(cmds, route)
    ensures IsOneRun(shards, cmds, route, after)
  {
    var (end, replies) := RunAll(after, cmds, route);
    forall srv | srv in shards ensures RanShare(shards[srv], cmds, route, srv, end[srv], replies) {
      RetriedShare(shards, cmds, route, after, srv);
    }
    GroupedIsSequential(shards, cmds, route, end, replies);
  }

  /** A flush whose very first request loses its replies, after the server has run k commands. */
  ghost function LostAt(shards: Shards, cmds: seq<Command>, route: seq<ServerId>, srv: ServerId, k: nat): Shards
    requires Routed(shards, cmds, route) && srv in shards && k <= |Share(cmds, route, srv)|
  {
    shards[srv := RunOn(shards[srv], Share(cmds, route, srv)[..k]).0]
  }

  lemma LostIsPartlyRun(shards: Shards, cmds: seq<Command>, route: seq<ServerId>, srv: ServerId, k: nat)
    requires Routed(shards, cmds, route) && srv in shards && k <= |Share(cmds, route, srv)|
    ensures PartlyRun(shards, cmds, route, LostAt(shards, cmds, route, srv, k))
  {
    var after := LostAt(shards, cmds, route, srv, k);
    forall s | s in shards ensures RanSome(shards[s], Share(cmds, route, s), after[s]) {
      assert RanPrefix(shards[s], Share(cmds, route, s), if s == srv then k else 0, after[s]);
    }
  }

  /** One run overall is one run of each share. */
  lemma OneRunOfShare(shards: Shards, cmds: seq<Command>, route: seq<ServerId>, after: Shards, srv: ServerId)
    requires Routed(shards, cmds, route) && after.Keys == shards.Keys && srv in shards
    requires IsOneRun(shards, cmds, route, after)
    ensures RunOn(after[srv], Share(cmds, route, srv)) == RunOn(shards[srv], Share(cmds, route, srv))
  {
    Projection(shards, cmds, route, srv);
    Projection(after, cmds, route, srv);
    var share := Share(cmds, route, srv);
    assert RunOn(after[srv], share).1 == RunOn(shards[srv], share).1;
  }

  /** The retry is harmless exactly when every server's share is unchanged by first running any of its
      prefixes. */
  lemma RetrySafeIff(cmds: seq<Command>, route: seq<ServerId>)
    requires |route| == |cmds|
    ensures EveryRetryIsOneRun(cmds, route) <==> RetrySafe(cmds, route)
  {
    if RetrySafe(cmds, route) {
      forall shards, after | Routed(shards, cmds, route) && PartlyRun(shards, cmds, route, after)
        ensures IsOneRun(shards, cmds, route, after)
      {
        RetryIsOneRun(shards, cmds, route, after);
      }
    }
    if EveryRetryIsOneRun(cmds, route) {
      forall srv, st: Store, k: nat | srv in route && k <= |Share(cmds, route, srv)|
        ensures RunsAgain(st, Share(cmds, route, srv), k)
      {
        var shards: Shards := map s | s in route :: st;
        LostIsPartlyRun(shards, cmds, route, srv, k);
        OneRunOfShare(shards, cmds, route, LostAt(shards, cmds, route, srv, k), srv);
      }
    }
  }

  // Queues of GETs and SETs.

  datatype Operation = GetKey(key: Key) | SetKey(key: Key, val: ByteString)

  function GetCommand(slot: int, key: Key): Command {
    Command(slot, (st: Store) => (st, RedisStore.Get(st, key)), false)
  }

  function SetCommand(slot: int, key: Key, val: ByteString): Command {
    Command(slot, (st: Store) => RedisStore.Set(st, key, val), true)
  }

  function CommandOf(slot: int, op: Operation): Command {
    match op
    case GetKey(key) => GetCommand(slot, key)
    case SetKey(key, val) => SetCommand(slot, key, val)
  }

  ghost predicate Perform(cmds: seq<Command>, ops: seq<Operation>) {
    |cmds| == |ops| && forall i :: 0 <= i < |cmds| ==> cmds[i] == CommandOf(cmds[i].slot, ops[i])
  }

  ghost predicate SetBefore(ops: seq<Operation>, i: nat, key: Key) {
    exists h :: 0 <= h < i && h < |ops| && ops[h].SetKey? && ops[h].key == key
  }

  /** Position i reads a key that nothing before has set and something after, at j, sets. */
  ghost predicate ReadsTooEarly(ops: seq<Operation>, i: nat, j: nat) {
    i < j < |ops| && ops[i].GetKey? && ops[j].SetKey? && ops[j].key == ops[i].key && !SetBefore(ops, i, ops[i].key)
  }

  /** No key is read before its first SET and set later. */
  ghost predicate NoEarlyRead(ops: seq<Operation>) {
    forall i: nat, j: nat :: !ReadsTooEarly(ops, i, j)
  }

  /** What the SETs leave behind. */
  ghost function Written(ops: seq<Operation>): Store {
    if ops == [] then map[]
    else
      var before, last := Written(ops[..|ops| - 1]), ops[|ops| - 1];
      if last.SetKey? then before[last.key := StringEntry(last.val)] else before
  }

  lemma {:induction false} WrittenKeys(ops: seq<Operation>, key: Key)
    ensures key in Written(ops) <==> SetBefore(ops, |ops|, key)
    ensures key in Written(ops) ==> Written(ops)[key].value.kind == 0
  {
    if ops == [] {
    } else {
      var n := |ops| - 1;
      WrittenKeys(ops[..n], key);
      if SetBefore(ops, |ops|, key) && !(ops[n].SetKey? && ops[n].key == key) {
        var h :| 0 <= h < n && ops[h].SetKey? && ops[h].key == key;
        assert ops[..n][h] == ops[h];
      }
    }
  }

  lemma SetBeforePrefix(ops: seq<Operation>, i: nat, k: nat, key: Key)
    requires i <= k <= |ops|
    ensures SetBefore(ops[..k], i, key) <==> SetBefore(ops, i, key)
  {
    if SetBefore(ops, i, key) {
      var h :| 0 <= h < i && ops[h].SetKey? && ops[h].key == key;
      assert ops[..k][h] == ops[h];
    }
  }

  ghost function ReplyTo(st: Store, ops: seq<Operation>, i: nat): Reply
    requires i < |ops|
  {
    match ops[i]
    case GetKey(key) => RedisStore.Get(st + Written(ops[..i]), key)
    case SetKey(_, _) => StatusReply(OK)
  }

  lemma {:induction false} RunPerforms(st: Store, cmds: seq<Command>, ops: seq<Operation>)
    requires Perform(cmds, ops)
    ensures RunOn(st, cmds).0 == st + Written(ops)
    ensures forall i :: 0 <= i < |ops| ==> RunOn(st, cmds).1[i] == ReplyTo(st, ops, i)
  {
    if cmds == [] {
    } else {
      var n := |cmds| - 1;
      RunPerforms(st, cmds[..n], ops[..n]);
      assert cmds[n] == CommandOf(cmds[n].slot, ops[n]);
      forall i | 0 <= i < n ensures ReplyTo(st, ops[..n], i) == ReplyTo(st, ops, i) {
        assert ops[..n][..i] == ops[..i];
      }
    }
  }

  lemma SameKeysLater(ops: seq<Operation>, i: nat, k: nat, key: Key)
    requires i <= k <= |ops|
    ensures key in Written(ops[..i]) ==> key in Written(ops[..k])
  {
    WrittenKeys(ops[..i], key);
    WrittenKeys(ops[..k], key);
    SetBeforePrefix(ops, i, i, key);
    SetBeforePrefix(ops, k, k, key);
  }

  lemma SameReplyAgain(st: Store, ops: seq<Operation>, k: nat, i: nat)
    requires NoEarlyRead(ops) && k <= |ops| && i < |ops|
    ensures ReplyTo(st + Written(ops[..k]), ops, i) == ReplyTo(st, ops, i)
  {
    if ops[i].GetKey? {
      var key := ops[i].key;
      WrittenKeys(ops[..k], key);
      WrittenKeys(ops[..i], key);
      SetBeforePrefix(ops, k, k, key);
      SetBeforePrefix(ops, i, i, key);
      if key in Written(ops[..k]) && key !in Written(ops[..i]) {
        var h: nat :| h < k && ops[h].SetKey? && ops[h].key == key;
        assert ReadsTooEarly(ops, i, h);
      }
    }
  }

  lemma NoEarlyReadIsHarmless(cmds: seq<Command>, ops: seq<Operation>)
    requires Perform(cmds, ops) && NoEarlyRead(ops)
    ensures PrefixHarmless(cmds)
  {
    forall st: Store, k: nat | k <= |cmds| ensures RunsAgain(st, cmds, k) {
      var st1 := RunOn(st, cmds[..k]).0;
      RunPerforms(st, cmds[..k], ops[..k]);
      RunPerforms(st, cmds, ops);
      RunPerforms(st1, cmds, ops);
      assert ops[..|ops|] == ops;
      forall key | key in Written(ops[..k]) ensures key in Written(ops) {
        SameKeysLater(ops, k, |ops|, key);
      }
      OverlaidTwice(st, Written(ops[..k]), Written(ops));
      forall i | 0 <= i < |ops| ensures RunOn(st1, cmds).1[i] == RunOn(st, cmds).1[i] {
        SameReplyAgain(st, ops, k, i);
      }
      assert RunOn(st1, cmds).1 == RunOn(st, cmds).1;
    }
  }

  /** Started on an empty store and stopped after the SET, the early GET finds nothing the first time
      and the new value the second. */
  lemma EarlyReadHarms(cmds: seq<Command>, ops: seq<Operation>, i: nat, j: nat)
    requires Perform(cmds, ops) && ReadsTooEarly(ops, i, j)
    ensures !RunsAgain(map[], cmds, j + 1)
  {
    var key, k := ops[i].key, j + 1;
    var st1 := RunOn(map[], cmds[..k]).0;
    RunPerforms(map[], cmds[..k], ops[..k]);
    RunPerforms(map[], cmds, ops);
    RunPerforms(st1, cmds, ops);
    WrittenKeys(ops[..i], key);
    WrittenKeys(ops[..k], key);
    SetBeforePrefix(ops, i, i, key);
    SetBeforePrefix(ops, k, k, key);
    assert SetBefore(ops, k, key);
    assert RunOn(map[], cmds).1[i] == NilReply;
    assert RunOn(st1, cmds).1[i] != NilReply;
  }

  lemma HarmlessIff(cmds: seq<Command>, ops: seq<Operation>)
    requires Perform(cmds, ops)
    ensures PrefixHarmless(cmds) <==> NoEarlyRead(ops)
  {
    if NoEarlyRead(ops) {
      NoEarlyReadIsHarmless(cmds, ops);
    } else {
      var i: nat, j: nat :| ReadsTooEarly(ops, i, j);
      EarlyReadHarms(cmds, ops, i, j);
    }
  }

  ghost function ShareOps(ops: seq<Operation>, route: seq<ServerId>, srv: ServerId): (share: seq<Operation>)
    requires |route| == |ops|
    ensures |share| == |Group(route, srv)|
    ensures forall a :: 0 <= a < |share| ==> share[a] == ops[Group(route, srv)[a]]
  {
    var g := Group(route, srv);
    seq(|g|, a requires 0 <= a < |g| => ops[g[a]])
  }

  /** A key has one server, so the commands on it meet there. */
  ghost predicate KeysRouted(ops: seq<Operation>, route: seq<ServerId>)
    requires |route| == |ops|
  {
    forall i, j :: 0 <= i < |ops| && 0 <= j < |ops| && ops[i].key == ops[j].key ==> route[i] == route[j]
  }

  lemma PlaceInGroup(route: seq<ServerId>, i: nat) returns (a: nat)
    requires i < |route|
    ensures a < |Group(route, route[i])| && Group(route, route[i])[a] == i
  {
    GroupsPartition(route, i);
    a :| 0 <= a < |Group(route, route[i])| && Group(route, route[i])[a] == i;
  }

  lemma GroupOrder(route: seq<ServerId>, srv: ServerId, a: nat, b: nat)
    requires a < |Group(route, srv)| && b < |Group(route, srv)| && Group(route, srv)[a] < Group(route, srv)[b]
    ensures a < b
  {
  }

  lemma SetBeforeInShare(ops: seq<Operation>, route: seq<ServerId>, srv: ServerId, a: nat)
    requires |route| == |ops| && KeysRouted(ops, route) && a < |Group(route, srv)|
    ensures var i := Group(route, srv)[a];
            SetBefore(ShareOps(ops, route, srv), a, ops[i].key) <==> SetBefore(ops, i, ops[i].key)
  {
    var g, share := Group(route, srv), ShareOps(ops, route, srv);
    var i := g[a];
    if SetBefore(share, a, ops[i].key) {
      var c :| 0 <= c < a && share[c].SetKey? && share[c].key == ops[i].key;
      assert g[c] < i && ops[g[c]] == share[c];
    }
    if SetBefore(ops, i, ops[i].key) {
      var h :| 0 <= h < i && ops[h].SetKey? && ops[h].key == ops[i].key;
      assert route[h] == route[i] == srv;
      var c := PlaceInGroup(route, h);
      assert g[c] == h && share[c] == ops[h];
      GroupOrder(route, srv, c, a);
    }
  }

  lemma EarlyReadInShare(ops: seq<Operation>, route: seq<ServerId>, i: nat, j: nat)
    requires |route| == |ops| && KeysRouted(ops, route) && ReadsTooEarly(ops, i, j)
    ensures !NoEarlyRead(ShareOps(ops, route, route[i]))
  {
    var srv := route[i];
    var a := PlaceInGroup(route, i);
    assert route[j] == srv;
    var b := PlaceInGroup(route, j);
    GroupOrder(route, srv, a, b);
    SetBeforeInShare(ops, route, srv, a);
    assert ReadsTooEarly(ShareOps(ops, route, srv), a, b);
  }

  lemma EarlyReadInQueue(ops: seq<Operation>, route: seq<ServerId>, srv: ServerId)
    requires |route| == |ops| && KeysRouted(ops, route) && !NoEarlyRead(ShareOps(ops, route, srv))
    ensures !NoEarlyRead(ops)
  {
    var g, share := Group(route, srv), ShareOps(ops, route, srv);
    var a: nat, b: nat :| ReadsTooEarly(share, a, b);
    SetBeforeInShare(ops, route, srv, a);
    assert ReadsTooEarly(ops, g[a], g[b]);
  }

  lemma SharePerforms(cmds: seq<Command>, ops: seq<Operation>, route: seq<ServerId>, srv: ServerId)
    requires Perform(cmds, ops) && |route| == |cmds|
    ensures Perform(Share(cmds, route, srv), ShareOps(ops, route, srv))
  {
  }

  /** For a queue of GETs and SETs the retry is harmless exactly when no key is read before its first
      SET and set later: a test on the queue alone, wherever the keys live. */
  lemma RetryOfGetsAndSetsIff(cmds: seq<Command>, ops: seq<Operation>, route: seq<ServerId>)
    requires Perform(cmds, ops) && |route| == |cmds| && KeysRouted(ops, route)
    ensures EveryRetryIsOneRun(cmds, route) <==> NoEarlyRead(ops)
  {
    RetrySafeIff(cmds, route);
    if NoEarlyRead(ops) {
      forall srv | srv in route ensures PrefixHarmless(Share(cmds, route, srv)) {
        SharePerforms(cmds, ops, route, srv);
        HarmlessIff(Share(cmds, route, srv), ShareOps(ops, route, srv));
        if !NoEarlyRead(ShareOps(ops, route, srv)) { EarlyReadInQueue(ops, route, srv); }
      }
    } else {
      var i: nat, j: nat :| ReadsTooEarly(ops, i, j);
      EarlyReadInShare(ops, route, i, j);
      SharePerforms(cmds, ops, route, route[i]);
      HarmlessIff(Share(cmds, route, route[i]), ShareOps(ops, route, route[i]));
    }
  }

  /** Only GETs, or only SETs: nothing can be read too early. */
  lemma OneKindIsSafe(cmds: seq<Command>, ops: seq<Operation>, route: seq<ServerId>)
    requires Perform(cmds, ops) && |route| == |cmds|
    requires (forall i :: 0 <= i < |ops| ==> ops[i].GetKey?) || (forall i :: 0 <= i < |ops| ==> ops[i].SetKey?)
    ensures RetrySafe(cmds, route)
  {
    forall srv | srv in route ensures PrefixHarmless(Share(cmds, route, srv)) {
      SharePerforms(cmds, ops, route, srv);
      NoEarlyReadIsHarmless(Share(cmds, route, srv), ShareOps(ops, route, srv));
    }
  }

  // Queues of commands that overwrite, whatever they write.

  ghost function ShareWrites(ws: seq<Write>, route: seq<ServerId>, srv: ServerId): (share: seq<Write>)
    requires |route| == |ws|
    ensures |share| == |Group(route, srv)|
    ensures forall a :: 0 <= a < |share| ==> share[a] == ws[Group(route, srv)[a]]
  {
    var g := Group(route, srv);
    seq(|g|, a requires 0 <= a < |g| => ws[g[a]])
  }

  /** Any queue of commands that each write one entry whatever was there can be repeated. */
  lemma OverwritingIsSafe(cmds: seq<Command>, ws: seq<Write>, route: seq<ServerId>)
    requires AllOverwrite(cmds, ws) && |route| == |cmds|
    ensures RetrySafe(cmds, route)
  {
    forall srv | srv in route ensures PrefixHarmless(Share(cmds, route, srv)) {
      var share, writes := Share(cmds, route, srv), ShareWrites(ws, route, srv);
      assert AllOverwrite(share, writes);
      forall st: Store, k: nat | k <= |share| ensures RunsAgain(st, share, k) {
        RerunIsHarmless(st, share, writes, k);
      }
    }
  }
}
