/** `Mget` and `Mset` (Content/RedisClient.cpp): one command on a single server, a pipeline of GETs or
    SETs on a cluster. The two branches mean the same. */
module MultiKey {
  import opened Bytes
  import opened SlotTable
  import opened HashSlots
  import opened RedisStore
  import opened Sequential
  import opened Retries
  import opened RedisClients
  import opened RedisCommands
  import opened Pipelines

  /** Every key has a server: the table covers all slots. */
  ghost predicate Owns(client: RedisClient, owner: Key -> ServerId)
    reads client
  {
    forall key :: client.Matched(Slot(key)) == Some(owner(key))
  }

  /** The text a reader gets for a key: empty when it is missing or not a string. */
  function TextOf(st: Store, key: Key): ByteString {
    if key in st && st[key].value.kind == 0 then st[key].value.body else []
  }

  ghost function Texts(shards: Shards, owner: Key -> ServerId, keys: seq<Key>): (texts: seq<ByteString>)
    requires forall key :: owner(key) in shards
  {
    seq(|keys|, i requires 0 <= i < |keys| => TextOf(shards[owner(keys[i])], keys[i]))
  }

  ghost function OwnersOf(owner: Key -> ServerId, keys: seq<Key>): (route: seq<ServerId>) {
    seq(|keys|, i requires 0 <= i < |keys| => owner(keys[i]))
  }

  ghost predicate AreGets(cmds: seq<Command>, keys: seq<Key>) {
    |cmds| == |keys| && forall i :: 0 <= i < |cmds| ==> cmds[i] == GetCommand(cmds[i].slot, keys[i])
  }

  ghost predicate AreSets(cmds: seq<Command>, keys: seq<Key>, vals: seq<ByteString>) {
    |cmds| == |keys| <= |vals| && forall i :: 0 <= i < |cmds| ==> cmds[i] == SetCommand(cmds[i].slot, keys[i], vals[i])
  }

  lemma {:induction false} GetsOnlyRead(shards: Shards, cmds: seq<Command>, keys: seq<Key>, route: seq<ServerId>)
    requires AreGets(cmds, keys) && Routed(shards, cmds, route)
    ensures RunAll(shards, cmds, route).0 == shards
    ensures forall i :: 0 <= i < |cmds| ==> RunAll(shards, cmds, route).1[i] == RedisStore.Get(shards[route[i]], keys[i])
  {
    if cmds == [] {
    } else {
      var n := |cmds| - 1;
      GetsOnlyRead(shards, cmds[..n], keys[..n], route[..n]);
    }
  }

  lemma SetsAreSafe(cmds: seq<Command>, keys: seq<Key>, vals: seq<ByteString>, route: seq<ServerId>)
    requires AreSets(cmds, keys, vals) && |route| == |cmds|
    ensures EveryRetryIsOneRun(cmds, route)
  {
    var ops := seq(|keys|, i requires 0 <= i < |keys| => SetKey(keys[i], vals[i]));
    OneKindIsSafe(cmds, ops, route);
    RetrySafeIff(cmds, route);
  }

  lemma {:induction false} SetsSayOk(shards: Shards, cmds: seq<Command>, keys: seq<Key>, vals: seq<ByteString>, route: seq<ServerId>)
    requires AreSets(cmds, keys, vals) && Routed(shards, cmds, route)
    ensures forall i :: 0 <= i < |cmds| ==> RunAll(shards, cmds, route).1[i] == StatusReply(OK)
  {
    if cmds == [] {
    } else {
      var n := |cmds| - 1;
      SetsSayOk(shards, cmds[..n], keys[..n], vals, route[..n]);
    }
  }

  /** A cluster holds the same data as one store. */
  ghost predicate Agrees(st: Store, shards: Shards, owner: Key -> ServerId) {
    forall key :: owner(key) in shards && SameEntry(st, shards[owner(key)], key)
  }

  ghost predicate SameEntry(a: Store, b: Store, key: Key) {
    (key in a <==> key in b) && (key in a ==> a[key] == b[key])
  }

  /** Running the SETs on the cluster is running MSET on the one store: last value wins. */
  lemma {:induction false} SetsAreMset(st: Store, shards: Shards, cmds: seq<Command>, keys: seq<Key>, vals: seq<ByteString>,
                                       owner: Key -> ServerId)
    requires Agrees(st, shards, owner) && AreSets(cmds, keys, vals) && |vals| == |keys|
    requires Routed(shards, cmds, OwnersOf(owner, keys))
    ensures Agrees(MsetStore(st, keys, vals), RunAll(shards, cmds, OwnersOf(owner, keys)).0, owner)
  {
    if cmds == [] {
    } else {
      var n := |cmds| - 1;
      var route := OwnersOf(owner, keys);
      assert route[..n] == OwnersOf(owner, keys[..n]);
      SetsAreMset(st, shards, cmds[..n], keys[..n], vals[..n], owner);
      SetKeepsAgreement(MsetStore(st, keys[..n], vals[..n]), RunAll(shards, cmds[..n], route[..n]).0, keys[n], vals[n], owner);
    }
  }

  lemma SetKeepsAgreement(st: Store, shards: Shards, key: Key, val: ByteString, owner: Key -> ServerId)
    requires Agrees(st, shards, owner)
    ensures Agrees(st[key := StringEntry(val)], shards[owner(key) := shards[owner(key)][key := StringEntry(val)]], owner)
  {
    var st', shards' := st[key := StringEntry(val)], shards[owner(key) := shards[owner(key)][key := StringEntry(val)]];
    forall k ensures owner(k) in shards' && SameEntry(st', shards'[owner(k)], k) {
      assert SameEntry(st, shards[owner(k)], k);
    }
  }

  lemma OwnersNext(owner: Key -> ServerId, keys: seq<Key>, i: nat)
    requires i < |keys|
    ensures OwnersOf(owner, keys[..i + 1]) == OwnersOf(owner, keys[..i]) + [owner(keys[i])]
  {}

  lemma AnotherGet(cmds: seq<Command>, keys: seq<Key>, i: nat, slot: int)
    requires i < |keys| && AreGets(cmds, keys[..i])
    ensures AreGets(cmds + [GetCommand(slot, keys[i])], keys[..i + 1])
  {}

  /** The queueing loop of the cluster branch of `Mget`. */
  method QueueGets(client: RedisClient, keys: seq<Key>, ghost owner: Key -> ServerId) returns (ppLine: Pipeline)
    requires client.Valid() && Owns(client, owner)
    ensures fresh(ppLine) && ppLine.Valid() && ppLine.cursor == 0
    ensures AreGets(ppLine.vecCmd, keys) && IsRoute(client, ppLine.vecCmd, OwnersOf(owner, keys))
  {
    ppLine := new Pipeline();
    for i := 0 to |keys|
      invariant fresh(ppLine) && ppLine.Valid() && ppLine.cursor == 0
      invariant AreGets(ppLine.vecCmd, keys[..i]) && IsRoute(client, ppLine.vecCmd, OwnersOf(owner, keys[..i]))
    {
      var slot := HashSlot(keys[i]);
      assert client.Matched(slot) == Some(owner(keys[i]));
      AnotherGet(ppLine.vecCmd, keys, i, slot);
      ppLine.QueueCommand(GetCommand(slot, keys[i]));
      OwnersNext(owner, keys, i);
    }
    assert keys[..|keys|] == keys;
  }

  lemma AnotherSet(cmds: seq<Command>, keys: seq<Key>, vals: seq<ByteString>, i: nat, slot: int)
    requires i < |keys| <= |vals| && AreSets(cmds, keys[..i], vals)
    ensures AreSets(cmds + [SetCommand(slot, keys[i], vals[i])], keys[..i + 1], vals)
  {}

  method QueueSets(client: RedisClient, keys: seq<Key>, vals: seq<ByteString>, ghost owner: Key -> ServerId)
    returns (ppLine: Pipeline)
    requires client.Valid() && Owns(client, owner) && |keys| <= |vals|
    ensures fresh(ppLine) && ppLine.Valid() && ppLine.cursor == 0
    ensures AreSets(ppLine.vecCmd, keys, vals) && IsRoute(client, ppLine.vecCmd, OwnersOf(owner, keys))
  {
    ppLine := new Pipeline();
    for i := 0 to |keys|
      invariant fresh(ppLine) && ppLine.Valid() && ppLine.cursor == 0
      invariant AreSets(ppLine.vecCmd, keys[..i], vals) && IsRoute(client, ppLine.vecCmd, OwnersOf(owner, keys[..i]))
    {
      var slot := HashSlot(keys[i]);
      assert client.Matched(slot) == Some(owner(keys[i]));
      AnotherSet(ppLine.vecCmd, keys, vals, i, slot);
      ppLine.QueueCommand(SetCommand(slot, keys[i], vals[i]));
      OwnersNext(owner, keys, i);
    }
    assert keys[..|keys|] == keys;
  }

  lemma GetText(st: Store, key: Key)
    ensures var (ret, text) := FetchConverted(false, RedisStore.Get(st, key));
            (ret == RC_SUCCESS && text == TextOf(st, key)) || (ret == RC_REPLY_ERR && TextOf(st, key) == [])
  {}

  /** The reading loop of the cluster branch of `Mget`. */
  method FetchTexts(ppLine: Pipeline, out: seq<ByteString>, ghost shards: Shards, ghost keys: seq<Key>, ghost owner: Key -> ServerId)
    returns (ret: int, out': seq<ByteString>)
    requires ppLine.Valid() && ppLine.cursor == 0 && AreGets(ppLine.vecCmd, keys)
    requires forall key :: owner(key) in shards
    requires forall i :: 0 <= i < |keys| ==> ppLine.replies[i] == Some(RedisStore.Get(shards[owner(keys[i])], keys[i]))
    modifies ppLine`cursor
    ensures ret == RC_SUCCESS && out' == out + Texts(shards, owner, keys)
  {
    ret, out' := RC_SUCCESS, out;
    ghost var texts := Texts(shards, owner, keys);
    while true
      invariant ppLine.Valid() && ppLine.cursor <= |keys|
      invariant ret == RC_SUCCESS && out' == out + texts[..ppLine.cursor]
      decreases |keys| - ppLine.cursor
    {
      ghost var i := ppLine.cursor;
      if i < |keys| { GetText(shards[owner(keys[i])], keys[i]); }
      var subRet, text := ppLine.FetchNext();
      if subRet == RC_RESULT_EOF { break; }
      if subRet == RC_SUCCESS {
        out' := out' + [text];
      } else if subRet == RC_REPLY_ERR {
        out' := out' + [[]];
      } else {
        ret := subRet;
        break;
      }
      assert texts[..i + 1] == texts[..i] + [texts[i]];
    }
    assert texts[..|keys|] == texts;
  }

  ghost function SingleTexts(st: Store, keys: seq<Key>): seq<ByteString> {
    seq(|keys|, i requires 0 <= i < |keys| => TextOf(st, keys[i]))
  }

  /** How a single request ends: no idle connection, no contact with the server, no reply, or a reply. */
  datatype Attempt = Unavailable | Unreachable | Lost | Answered {
    function Code(): (ret: int)
      ensures ret == RC_SUCCESS <==> Answered?
    {
      match this
      case Unavailable => RC_NO_RESOURCE
      case Unreachable => RC_RQST_ERR
      case Lost => RC_RQST_ERR
      case Answered => RC_SUCCESS
    }
  }

  /** What the caller's vector is after an answered `Mget` on one server. */
  ghost function SingleResult(st: Store, keys: seq<Key>, out: seq<ByteString>): seq<ByteString> {
    if keys == [] then out else SingleTexts(st, keys)
  }

  /** What it is after `Mget` on a cluster. */
  ghost function ClusterResult(shards: Shards, owner: Key -> ServerId, keys: seq<Key>, out: seq<ByteString>): seq<ByteString>
    requires forall key :: owner(key) in shards
  {
    out + Texts(shards, owner, keys)
  }

  /** `Mget` on one server: the output vector is cleared first, unless there are no keys. */
  method MgetSingle(client: RedisClient, net: Network, keys: seq<Key>, out: seq<ByteString>, attempt: Attempt)
    returns (ret: int, out': seq<ByteString>)
    requires client.Valid() && !client.cluster && client.vecRedisServ != [] && client.vecRedisServ[0] in net.shards
    ensures keys == [] || attempt.Answered? ==> ret == RC_SUCCESS
    ensures keys != [] && attempt.Unavailable? ==> ret == RC_NO_RESOURCE
    ensures keys != [] && (attempt.Unreachable? || attempt.Lost?) ==> ret == RC_RQST_ERR
    ensures out' == if ret == RC_SUCCESS then SingleResult(net.shards[client.vecRedisServ[0]], keys, out) else out
  {
    if keys == [] { return RC_SUCCESS, out; }
    var slot := HashSlot(keys[0]);
    var server := client.GetMatchedServer(slot);
    if !attempt.Answered? { return attempt.Code(), out; }
    var st := net.shards[server.value];
    MgetTexts(st, keys);
    ret, out' := FetchStringArray(RedisStore.Mget(st, keys), out);
    assert out' == SingleTexts(st, keys);
  }

  /** `Mget` on a cluster whose connections finally deliver: the texts are appended to the output, one
      for each key, in key order. */
  method MgetCluster(client: RedisClient, net: Network, keys: seq<Key>, out: seq<ByteString>, ghost owner: Key -> ServerId,
                     first: ServerId -> Outcome, refreshed: bool, second: ServerId -> Outcome)
    returns (ret: int, out': seq<ByteString>)
    requires client.Valid() && client.cluster && Owns(client, owner) && forall key :: owner(key) in net.shards
    requires FinallyDelivered(true, first, refreshed, second, OwnersOf(owner, keys))
    modifies net
    ensures net.shards == old(net.shards)
    ensures ret == RC_SUCCESS && out' == ClusterResult(net.shards, owner, keys, out)
  {
    if keys == [] {
      assert Texts(net.shards, owner, keys) == [];
      return RC_SUCCESS, out;
    }
    var ppLine := QueueGets(client, keys, owner);
    FlushGets(client, net, ppLine, first, refreshed, second, keys, OwnersOf(owner, keys));
    ret, out' := FetchTexts(ppLine, out, net.shards, keys, owner);
  }

  method FlushGets(client: RedisClient, net: Network, ppLine: Pipeline, first: ServerId -> Outcome, refreshed: bool,
                   second: ServerId -> Outcome, ghost keys: seq<Key>, ghost route: seq<ServerId>)
    requires ppLine.Valid() && client.Valid() && client.cluster && AreGets(ppLine.vecCmd, keys)
    requires IsRoute(client, ppLine.vecCmd, route) && Routed(net.shards, ppLine.vecCmd, route)
    requires FinallyDelivered(true, first, refreshed, second, route)
    modifies net, ppLine`mapCmd, ppLine`replies
    ensures ppLine.Valid() && net.shards == old(net.shards)
    ensures forall i :: 0 <= i < |keys| ==> ppLine.replies[i] == Some(RedisStore.Get(net.shards[route[i]], keys[i]))
  {
    GetsOnlyRead(net.shards, ppLine.vecCmd, keys, route);
    GetsAreSafe(ppLine.vecCmd, keys, route);
    var _, _, _ := ppLine.FlushPipeline(client, net, first, refreshed, second, route);
  }

  lemma SameTexts(st: Store, shards: Shards, owner: Key -> ServerId, keys: seq<Key>)
    requires Agrees(st, shards, owner)
    ensures Texts(shards, owner, keys) == SingleTexts(st, keys)
  {
    forall i | 0 <= i < |keys| ensures Texts(shards, owner, keys)[i] == SingleTexts(st, keys)[i] {
      assert SameEntry(st, shards[owner(keys[i])], keys[i]);
    }
  }

  /** The two branches leave the same vector exactly when there are no keys or the vector was empty. */
  lemma MgetBranchesAgree(st: Store, shards: Shards, owner: Key -> ServerId, keys: seq<Key>, out: seq<ByteString>)
    requires Agrees(st, shards, owner)
    ensures ClusterResult(shards, owner, keys, out) == SingleResult(st, keys, out) <==> keys == [] || out == []
  {
    SameTexts(st, shards, owner, keys);
    if keys == [] {
      assert ClusterResult(shards, owner, keys, out) == out;
    } else if out != [] {
      assert |ClusterResult(shards, owner, keys, out)| > |SingleResult(st, keys, out)|;
    }
  }

  /** The same of the two methods, on clients whose nodes hold the same data. */
  method MgetBothWays(single: RedisClient, singleNet: Network, cluster: RedisClient, clusterNet: Network,
                      keys: seq<Key>, out: seq<ByteString>, ghost owner: Key -> ServerId,
                      first: ServerId -> Outcome, refreshed: bool, second: ServerId -> Outcome)
    returns (one: seq<ByteString>, many: seq<ByteString>)
    requires single.Valid() && !single.cluster && single.vecRedisServ != [] && single.vecRedisServ[0] in singleNet.shards
    requires cluster.Valid() && cluster.cluster && Owns(cluster, owner)
    requires Agrees(singleNet.shards[single.vecRedisServ[0]], clusterNet.shards, owner)
    requires FinallyDelivered(true, first, refreshed, second, OwnersOf(owner, keys))
    modifies clusterNet
    ensures one == many <==> keys == [] || out == []
  {
    var ret;
    ret, one := MgetSingle(single, singleNet, keys, out, Answered);
    MgetBranchesAgree(singleNet.shards[single.vecRedisServ[0]], clusterNet.shards, owner, keys, out);
    ret, many := MgetCluster(cluster, clusterNet, keys, out, owner, first, refreshed, second);
  }

  lemma GetsAreSafe(cmds: seq<Command>, keys: seq<Key>, route: seq<ServerId>)
    requires AreGets(cmds, keys) && |route| == |cmds|
    ensures EveryRetryIsOneRun(cmds, route)
  {
    var ops := seq(|keys|, i requires 0 <= i < |keys| => GetKey(keys[i]));
    OneKindIsSafe(cmds, ops, route);
    RetrySafeIff(cmds, route);
  }

  lemma MgetTexts(st: Store, keys: seq<Key>)
    ensures var r := RedisStore.Mget(st, keys);
            |r.elements| == |keys| && forall i :: 0 <= i < |keys| ==> FetchString(r.elements[i]) == (RC_SUCCESS, TextOf(st, keys[i]))
  {}

  const MSET: ByteString := [0x6d, 0x73, 0x65, 0x74]

  /** `Mset` on one server. Key and value vectors of different lengths leave the command without
      arguments; that is found once a connection is at hand, before anything is sent. */
  method MsetSingle(client: RedisClient, net: Network, keys: seq<Key>, vals: seq<ByteString>, attempt: Attempt) returns (ret: int)
    requires client.Valid() && !client.cluster && client.vecRedisServ != [] && client.vecRedisServ[0] in net.shards
    modifies net
    ensures ret == if keys == [] then RC_SUCCESS
                   else if attempt.Unavailable? then RC_NO_RESOURCE
                   else if attempt.Unreachable? then RC_RQST_ERR
                   else if |keys| != |vals| then RC_PARAM_ERR
                   else if attempt.Lost? then RC_RQST_ERR else RC_SUCCESS
    ensures net.shards == if keys == [] || ret != RC_SUCCESS then old(net.shards)
                          else var server := client.vecRedisServ[0];
                               old(net.shards)[server := MsetStore(old(net.shards)[server], keys, vals)]
  {
    if keys == [] { return RC_SUCCESS; }
    var cmd := new RedisCommand(MSET);
    cmd.SetArgsPairs(keys, vals);
    var slot := HashSlot(keys[0]);
    var server := client.GetMatchedServer(slot);
    if attempt.Unavailable? || attempt.Unreachable? { return attempt.Code(); }
    ret := cmd.CheckArgs(true);
    if ret != RC_SUCCESS { return; }
    if attempt.Lost? { return attempt.Code(); }
    var (st, reply) := RedisStore.Mset(net.shards[server.value], keys, vals);
    net.shards := net.shards[server.value := st];
    var (fetched, _) := FetchConverted(true, reply);
    ret := fetched;
  }

  /** The reading loop of the cluster branch of `Mset`: one refusal among the replies makes it a partial
      success. */
  method ReadOks(ppLine: Pipeline) returns (ret: int)
    requires ppLine.Valid() && ppLine.cursor == 0
    requires forall i :: 0 <= i < |ppLine.replies| ==> ppLine.replies[i].Some? && !ppLine.replies[i].value.NilReply?
    modifies ppLine`cursor
    ensures ret == if forall i :: 0 <= i < |ppLine.replies| ==> Taken(ppLine.vecCmd[i], ppLine.replies[i].value)
                   then RC_SUCCESS else RC_PART_SUCCESS
  {
    ret := RC_SUCCESS;
    while true
      invariant ppLine.cursor <= |ppLine.vecCmd|
      invariant ret == if forall i :: 0 <= i < ppLine.cursor ==> Taken(ppLine.vecCmd[i], ppLine.replies[i].value)
                       then RC_SUCCESS else RC_PART_SUCCESS
      decreases |ppLine.vecCmd| - ppLine.cursor
    {
      var subRet, text := ppLine.FetchNext();
      if subRet == RC_RESULT_EOF { break; }
      if subRet != RC_SUCCESS { ret := RC_PART_SUCCESS; }
    }
  }

  /** A reply that says a command went through. */
  predicate Taken(cmd: Command, r: Reply) {
    (r.StringReply? || r.StatusReply?) && (cmd.wantsOk ==> CString(r.text) == OK)
  }

  /** `Mset` on a cluster whose connections finally deliver: what MSET does to one store holding the
      same data, even if the pipeline had to be sent twice. Surplus values are ignored. */
  method MsetCluster(client: RedisClient, net: Network, keys: seq<Key>, vals: seq<ByteString>, ghost owner: Key -> ServerId,
                     first: ServerId -> Outcome, refreshed: bool, second: ServerId -> Outcome)
    returns (ret: int)
    requires client.Valid() && client.cluster && Owns(client, owner) && forall key :: owner(key) in net.shards
    requires FinallyDelivered(true, first, refreshed, second, OwnersOf(owner, keys)) && |keys| <= |vals|
    modifies net
    ensures ret == RC_SUCCESS && MeansMset(old(net.shards), net.shards, owner, keys, vals[..|keys|])
  {
    if keys == [] { return RC_SUCCESS; }
    var ppLine := QueueSets(client, keys, vals, owner);
    FlushSets(client, net, ppLine, first, refreshed, second, keys, vals, owner);
    ret := ReadOks(ppLine);
  }

  method FlushSets(client: RedisClient, net: Network, ppLine: Pipeline, first: ServerId -> Outcome, refreshed: bool,
                   second: ServerId -> Outcome, ghost keys: seq<Key>, ghost vals: seq<ByteString>, ghost owner: Key -> ServerId)
    requires ppLine.Valid() && client.Valid() && client.cluster && AreSets(ppLine.vecCmd, keys, vals)
    requires IsRoute(client, ppLine.vecCmd, OwnersOf(owner, keys)) && forall key :: owner(key) in net.shards
    requires FinallyDelivered(true, first, refreshed, second, OwnersOf(owner, keys))
    modifies net, ppLine`mapCmd, ppLine`replies
    ensures ppLine.Valid() && MeansMset(old(net.shards), net.shards, owner, keys, vals[..|keys|])
    ensures forall i :: 0 <= i < |ppLine.replies| ==> ppLine.replies[i] == Some(StatusReply(OK))
  {
    ghost var route, before := OwnersOf(owner, keys), net.shards;
    SetsAreSafe(ppLine.vecCmd, keys, vals, route);
    var _, _, _ := ppLine.FlushPipeline(client, net, first, refreshed, second, route);
    SetsRan(before, ppLine.vecCmd, keys, vals, owner, net.shards, ppLine.replies);
  }

  lemma SetsRan(before: Shards, cmds: seq<Command>, keys: seq<Key>, vals: seq<ByteString>, owner: Key -> ServerId,
                after: Shards, replies: seq<Option<Reply>>)
    requires AreSets(cmds, keys, vals) && Routed(before, cmds, OwnersOf(owner, keys))
    requires SequentialRun(before, cmds, OwnersOf(owner, keys), after, replies)
    ensures MeansMset(before, after, owner, keys, vals[..|keys|])
    ensures forall i :: 0 <= i < |replies| ==> replies[i] == Some(StatusReply(OK))
  {
    SetsSayOk(before, cmds, keys, vals, OwnersOf(owner, keys));
    SetsMeanMset(before, cmds, keys, vals, owner);
  }

  /** Any one store that held the cluster's data before holds it afterwards, once it has run MSET. */
  ghost predicate MeansMset(before: Shards, after: Shards, owner: Key -> ServerId, keys: seq<Key>, vals: seq<ByteString>)
    requires |keys| == |vals|
  {
    forall st :: Agrees(st, before, owner) ==> Agrees(MsetStore(st, keys, vals), after, owner)
  }

  lemma SetsMeanMset(before: Shards, cmds: seq<Command>, keys: seq<Key>, vals: seq<ByteString>, owner: Key -> ServerId)
    requires AreSets(cmds, keys, vals) && Routed(before, cmds, OwnersOf(owner, keys))
    ensures MeansMset(before, RunAll(before, cmds, OwnersOf(owner, keys)).0, owner, keys, vals[..|keys|])
  {
    forall st | Agrees(st, before, owner)
      ensures Agrees(MsetStore(st, keys, vals[..|keys|]), RunAll(before, cmds, OwnersOf(owner, keys)).0, owner)
    {
      SetsAreMset(st, before, cmds, keys, vals[..|keys|], owner);
    }
  }

  /** MSET: the last value given for a key wins, and other keys are untouched. */
  lemma {:induction false} LastValueWins(st: Store, keys: seq<Key>, vals: seq<ByteString>, key: Key, i: nat)
    requires |keys| == |vals|
    requires i < |keys| ==> keys[i] == key
    requires key !in keys[Min(i + 1, |keys|)..] && (i >= |keys| ==> key !in keys)
    ensures if i < |keys| then key in MsetStore(st, keys, vals) && MsetStore(st, keys, vals)[key] == StringEntry(vals[i])
            else SameEntry(MsetStore(st, keys, vals), st, key)
  {
    var n := |keys| - 1;
    if keys != [] && i != n {
      assert keys[n] != key by {
        if i < n { assert keys[n] == keys[i + 1..][n - i - 1]; }
      }
      if i < n { assert keys[i + 1..] == keys[..n][i + 1..] + [keys[n]]; }
      LastValueWins(st, keys[..n], vals[..n], key, if i < n then i else n);
    }
  }
}
