/** Pipelines (`CRedisPipeline`, Content/RedisClient.cpp): queued commands are regrouped by server,
    sent server by server in whatever order the map iterates, and read back in queue order. */
module Pipelines {
  import opened Bytes
  import opened SlotTable
  import opened RedisStore
  import opened Sequential
  import opened Retries
  import opened RedisClients
  import opened HashSlots

  /** What the connection does to one request: every reply arrives, or no connection is idle, or
      an append fails (nothing is sent), or reply number `at` fails to arrive after the server has
      executed some further commands. */
  datatype Outcome = Delivered | NoConnection | AppendFails(at: nat) | ReplyFails(at: nat, executed: nat) {
    predicate Stops(n: nat) {
      match this
      case Delivered => false
      case NoConnection => true
      case AppendFails(at) => at < n
      case ReplyFails(at, _) => at < n
    }

    /** How many of n commands the server has executed in the end. */
    function Executed(n: nat): (k: nat)
      ensures k <= n && (!Stops(n) ==> k == n)
    {
      match this
      case Delivered => n
      case NoConnection => 0
      case AppendFails(at) => if at < n then 0 else n
      case ReplyFails(at, executed) => if at < n then Max(at, Min(executed, n)) else n
    }
  }

  lemma RunOnSnoc(st: Store, sel: seq<Command>, i: nat)
    requires i < |sel|
    ensures var (st1, rs) := RunOn(st, sel[..i]);
            RunOn(st, sel[..i + 1]) == (sel[i].run(st1).0, rs + [sel[i].run(st1).1])
  {
    assert sel[..i + 1][..i] == sel[..i];
  }

  ghost predicate Positions(g: seq<nat>, n: nat) {
    && (forall j :: 0 <= j < |g| ==> g[j] < n)
    && (forall j, k :: 0 <= j < k < |g| ==> g[j] < g[k])
  }

  /** The replies of a run, stored at the positions of its commands. */
  ghost predicate Stored(replies: seq<Option<Reply>>, g: seq<nat>, rs: seq<Reply>)
    requires Positions(g, |replies|)
  {
    |rs| <= |g| && forall j :: 0 <= j < |rs| ==> replies[g[j]] == Some(rs[j])
  }

  /** Only the replies of one group changed. */
  ghost predicate SameOutside(replies: seq<Option<Reply>>, replies': seq<Option<Reply>>, group: seq<nat>)
    requires |replies| == |replies'|
  {
    forall i :: 0 <= i < |replies| && i !in group ==> replies'[i] == replies[i]
  }

  lemma StoredSnoc(replies: seq<Option<Reply>>, g: seq<nat>, rs: seq<Reply>, reply: Reply)
    requires Positions(g, |replies|) && Stored(replies, g, rs) && |rs| < |g|
    ensures Stored(replies[g[|rs|] := None][g[|rs|] := Some(reply)], g, rs + [reply])
  {}

  /** Commands a server executes although their replies never arrive. */
  method ExecuteRest(st0: Store, st: Store, cmds: seq<Command>, group: seq<nat>, from: nat, to: nat) returns (st': Store)
    requires Positions(group, |cmds|) && from <= to <= |group|
    requires st == RunOn(st0, Select(cmds, group)[..from]).0
    ensures st' == RunOn(st0, Select(cmds, group)[..to]).0
  {
    st' := st;
    for i := from to to
      invariant st' == RunOn(st0, Select(cmds, group)[..i]).0
    {
      RunOnSnoc(st0, Select(cmds, group), i);
      st' := cmds[group[i]].run(st').0;
    }
  }

  /** One reply that arrives. */
  method ReadReply(ghost st0: Store, st: Store, cmds: seq<Command>, group: seq<nat>, i: nat, replies: seq<Option<Reply>>,
                   ghost rs: seq<Reply>)
    returns (st': Store, replies': seq<Option<Reply>>, ghost rs': seq<Reply>)
    requires |cmds| == |replies| && Positions(group, |cmds|) && i < |group|
    requires (st, rs) == RunOn(st0, Select(cmds, group)[..i]) && Stored(replies, group, rs)
    ensures |replies'| == |replies| && SameOutside(replies, replies', group)
    ensures (st', rs') == RunOn(st0, Select(cmds, group)[..i + 1]) && Stored(replies', group, rs')
  {
    RunOnSnoc(st0, Select(cmds, group), i);
    var (next, reply) := cmds[group[i]].run(st);
    StoredSnoc(replies, group, rs, reply);
    st', replies', rs' := next, replies[group[i] := None][group[i] := Some(reply)], rs + [reply];
  }

  /** The second loop of `ConnRequest`: one reply for each appended command, in order. */
  method ReadReplies(st0: Store, cmds: seq<Command>, group: seq<nat>, replies: seq<Option<Reply>>, outcome: Outcome)
    returns (ret: int, st: Store, replies': seq<Option<Reply>>)
    requires |cmds| == |replies| && Positions(group, |cmds|) && (outcome.Delivered? || outcome.ReplyFails?)
    ensures |replies'| == |replies| && SameOutside(replies, replies', group)
    ensures ret == if outcome.Stops(|group|) then RC_RQST_ERR else RC_SUCCESS
    ensures st == RunOn(st0, Select(cmds, group)[..outcome.Executed(|group|)]).0
    ensures ret == RC_SUCCESS ==> Stored(replies', group, RunOn(st0, Select(cmds, group)).1)
  {
    ghost var sel, rs := Select(cmds, group), [];
    st, replies' := st0, replies;
    var i := 0;
    while i < |group|
      invariant 0 <= i <= |group| && |replies'| == |replies|
      invariant (st, rs) == RunOn(st0, sel[..i]) && Stored(replies', group, rs)
      invariant SameOutside(replies, replies', group)
      invariant outcome.ReplyFails? ==> i <= outcome.at
    {
      if outcome.ReplyFails? && outcome.at == i {
        replies' := replies'[group[i] := None];
        st := ExecuteRest(st0, st, cmds, group, i, outcome.Executed(|group|));
        return RC_RQST_ERR, st, replies';
      }
      st, replies', rs := ReadReply(st0, st, cmds, group, i, replies', rs);
      i := i + 1;
    }
    ret := RC_SUCCESS;
    assert sel[..|sel|] == sel;
  }

  /** `ServRequest` and `ConnRequest` on a vector of commands, given as positions in the queue:
      append them all, then read one reply each. */
  method ServRequest(st0: Store, cmds: seq<Command>, group: seq<nat>, replies: seq<Option<Reply>>, outcome: Outcome)
    returns (ret: int, st: Store, replies': seq<Option<Reply>>)
    requires |cmds| == |replies| && Positions(group, |cmds|)
    ensures |replies'| == |replies| && SameOutside(replies, replies', group)
    ensures ret == if !outcome.Stops(|group|) then RC_SUCCESS else if outcome.NoConnection? then RC_NO_RESOURCE else RC_RQST_ERR
    ensures st == RunOn(st0, Select(cmds, group)[..outcome.Executed(|group|)]).0
    ensures ret == RC_SUCCESS ==> Stored(replies', group, RunOn(st0, Select(cmds, group)).1)
  {
    st, replies' := st0, replies;
    if outcome.NoConnection? { return RC_NO_RESOURCE, st, replies'; }
    ret := RC_SUCCESS;
    var i := 0;
    while i < |group| && ret == RC_SUCCESS
      invariant 0 <= i <= |group|
      invariant ret == if outcome.AppendFails? && outcome.at < i then RC_RQST_ERR else RC_SUCCESS
    {
      if outcome == AppendFails(i) { ret := RC_RQST_ERR; }
      i := i + 1;
    }
    if ret == RC_SUCCESS {
      ret, st, replies' := ReadReplies(st0, cmds, group, replies, if outcome.AppendFails? then Delivered else outcome);
    }
  }

  /** The remote nodes. */
  class Network {
    var shards: Shards
  }

  /** The server of every queued command, under the client's present table. */
  ghost predicate IsRoute(client: RedisClient, cmds: seq<Command>, route: seq<ServerId>)
    reads client
  {
    |route| == |cmds| && forall i :: 0 <= i < |cmds| ==> client.Matched(cmds[i].slot) == Some(route[i])
  }

  lemma GroupSnoc(route: seq<ServerId>, i: nat, srv: ServerId)
    requires i < |route|
    ensures Group(route[..i + 1], srv) == Group(route[..i], srv) + if route[i] == srv then [i] else []
  {
    assert route[..i + 1][..i] == route[..i];
  }

  lemma {:induction false} GroupEmpty(route: seq<ServerId>, srv: ServerId)
    requires srv !in route
    ensures Group(route, srv) == []
  {
    if route == [] {
    } else {
      GroupEmpty(route[..|route| - 1], srv);
    }
  }

  class Pipeline {
    var vecCmd: seq<Command>
    var replies: seq<Option<Reply>>          // the reply each queued command holds
    var mapCmd: map<ServerId, seq<nat>>      // command pointers, as positions in vecCmd
    var cursor: nat

    ghost predicate Valid()
      reads this
    {
      |replies| == |vecCmd|
    }

    constructor ()
      ensures Valid() && vecCmd == [] && cursor == 0
    {
      vecCmd, replies, mapCmd, cursor := [], [], map[], 0;
    }

    method QueueCommand(cmd: Command)
      requires Valid()
      modifies this`vecCmd, this`replies
      ensures Valid() && vecCmd == old(vecCmd) + [cmd]
    {
      vecCmd := vecCmd + [cmd];
      replies := replies + [None];
    }

    /** The first loop of `FlushCommand`. The groups partition the queue by server and keep its order. */
    method GroupByServer(client: RedisClient, ghost route: seq<ServerId>)
      requires Valid() && client.Valid() && IsRoute(client, vecCmd, route)
      modifies this`mapCmd
      ensures forall srv :: srv in mapCmd <==> srv in route
      ensures forall srv :: srv in mapCmd ==> mapCmd[srv] == Group(route, srv)
    {
      mapCmd := map[];
      for i := 0 to |vecCmd|
        invariant forall srv :: srv in mapCmd <==> srv in route[..i]
        invariant forall srv :: srv in mapCmd ==> mapCmd[srv] == Group(route[..i], srv)
      {
        var matched := client.GetMatchedServer(vecCmd[i].slot);
        var srv := matched.value;
        forall s ensures Group(route[..i + 1], s) == Group(route[..i], s) + if srv == s then [i] else [] {
          GroupSnoc(route, i, s);
        }
        assert route[..i + 1] == route[..i] + [srv];
        if srv in mapCmd {
          mapCmd := mapCmd[srv := mapCmd[srv] + [i]];
        } else {
          GroupEmpty(route[..i], srv);
          mapCmd := mapCmd[srv := [i]];
        }
      }
      assert route[..|route|] == route;
    }

    /** `FlushCommand`. It succeeds exactly when no server stops. A complete flush is the sequential run of the
        queue, in stores and in replies, whatever order the servers come in; in a flush that stops, one server
        stopped part-way, with the code that explains it, and every other ran all of its share or nothing.
        The table must know every queued command's server. */
    method FlushCommand(client: RedisClient, net: Network, env: ServerId -> Outcome, ghost route: seq<ServerId>)
      returns (ret: int, ghost failed: ServerId)
      requires Valid() && client.Valid() && IsRoute(client, vecCmd, route) && Routed(net.shards, vecCmd, route)
      modifies this`mapCmd, this`replies, net
      ensures Valid() && net.shards.Keys == old(net.shards.Keys)
      ensures Flushed(old(net.shards), vecCmd, route, env, ret, failed, net.shards, replies)
    {
      GroupByServer(client, route);
      var shards;
      ret, shards, replies, failed := SendGroups(net.shards, vecCmd, route, mapCmd, replies, env);
      net.shards := shards;
    }

    /** `FlushPipeline`: a clustered flush that stopped with a request error is repeated once the table
        has been refreshed, and no other is. So the result is that of one flush, or of a second one from where
        the first stopped. Success means exactly one sequential run when the first flush went through, or
        when the queue is one whose retry is harmless. */
    method FlushPipeline(client: RedisClient, net: Network, first: ServerId -> Outcome, refreshed: bool,
                         second: ServerId -> Outcome, ghost route: seq<ServerId>)
      returns (ret: int, ghost failed: ServerId, ghost between: Option<Shards>)
      requires Valid() && client.Valid() && IsRoute(client, vecCmd, route) && Routed(net.shards, vecCmd, route)
      modifies this`mapCmd, this`replies, net
      ensures Valid() && net.shards.Keys == old(net.shards.Keys)
      ensures FlushedOrRetried(old(net.shards), vecCmd, route, client.cluster && refreshed, first, second, ret, failed,
                               between, net.shards, replies)
      ensures !client.cluster || !refreshed || NoRequestErrors(first, route) ==>
                && PartlyRun(old(net.shards), vecCmd, route, net.shards)
                && (ret == RC_SUCCESS ==> SequentialRun(old(net.shards), vecCmd, route, net.shards, replies))
      ensures NoRequestErrors(first, route) ==> ret == RC_SUCCESS || ret == RC_NO_RESOURCE
      ensures ret != RC_SUCCESS ==> failed in route && Explains(if between.None? then first(failed) else second(failed), ret)
      ensures FinallyDelivered(client.cluster, first, refreshed, second, route) ==> ret == RC_SUCCESS
      ensures ret == RC_SUCCESS && (AllDelivered(first, route) || EveryRetryIsOneRun(vecCmd, route)) ==>
                SequentialRun(old(net.shards), vecCmd, route, net.shards, replies)
    {
      ghost var before := net.shards;
      between := None;
      ret, failed := FlushCommand(client, net, first, route);
      FlushedPartly(before, vecCmd, route, first, ret, failed, net.shards, replies);
      if ret != RC_RQST_ERR || !client.cluster || !refreshed { return; }
      between := Some(net.shards);
      ret, failed := FlushCommand(client, net, second, route);
      if ret == RC_SUCCESS && EveryRetryIsOneRun(vecCmd, route) {
        RetriedRun(before, vecCmd, route, between.value, net.shards, replies);
      }
    }

    /** `FetchNext` for strings: the replies come back in queue order. A reply that never arrived is a
        null pointer here. */
    method FetchNext() returns (ret: int, text: ByteString)
      requires Valid()
      requires cursor < |vecCmd| ==> replies[cursor].Some? && (vecCmd[cursor].wantsOk ==> !replies[cursor].value.NilReply?)
      modifies this`cursor
      ensures Valid()
      ensures if old(cursor) >= |vecCmd| then ret == RC_RESULT_EOF && cursor == old(cursor)
              else cursor == old(cursor) + 1
                   && (ret, text) == FetchConverted(vecCmd[old(cursor)].wantsOk, replies[old(cursor)].value)
    {
      if cursor >= |vecCmd| { return RC_RESULT_EOF, []; }
      var fetched := FetchConverted(vecCmd[cursor].wantsOk, replies[cursor].value);
      cursor := cursor + 1;
      return fetched.0, fetched.1;
    }
  }

  /** `FetchString`, then the command's converter. */
  function FetchConverted(wantsOk: bool, r: Reply): (res: (int, ByteString))
    requires wantsOk ==> !r.NilReply?
  {
    var (ret, text) := FetchString(r);
    (if wantsOk then StatusConv(ret, r) else ret, text)
  }

  /** A reply is taken if it is a text, OK where OK is wanted, or nil where it is not; anything else is a
      reply error. */
  lemma ConvertedIff(wantsOk: bool, r: Reply)
    requires wantsOk ==> !r.NilReply?
    ensures var (ret, text) := FetchConverted(wantsOk, r);
            && (ret == RC_SUCCESS || ret == RC_REPLY_ERR)
            && (ret == RC_SUCCESS <==> r.NilReply? || ((r.StringReply? || r.StatusReply?) && (wantsOk ==> CString(r.text) == OK)))
            && (ret == RC_SUCCESS ==> text == if r.NilReply? then [] else r.text)
  {}

  ghost predicate AllDelivered(env: ServerId -> Outcome, route: seq<ServerId>) {
    forall srv :: srv in route ==> env(srv).Delivered?
  }

  /** One flush, not to be repeated; or a second one from where the first stopped with a request error. */
  ghost predicate FlushedOrRetried(before: Shards, cmds: seq<Command>, route: seq<ServerId>, mayRetry: bool,
                                   first: ServerId -> Outcome, second: ServerId -> Outcome, ret: int, failed: ServerId,
                                   between: Option<Shards>, after: Shards, replies: seq<Option<Reply>>)
    requires Routed(before, cmds, route)
  {
    match between
    case None => Flushed(before, cmds, route, first, ret, failed, after, replies) && !(ret == RC_RQST_ERR && mayRetry)
    case Some(stopped) =>
      && mayRetry && FlushFails(before, cmds, route, first, RC_RQST_ERR, stopped)
      && Flushed(stopped, cmds, route, second, ret, failed, after, replies)
  }

  /** Every server in the route runs its whole share and answers it. */
  ghost predicate NoneStops(cmds: seq<Command>, route: seq<ServerId>, env: ServerId -> Outcome)
    requires |route| == |cmds|
  {
    forall srv :: srv in route ==> !env(srv).Stops(|Share(cmds, route, srv)|)
  }

  /** Nothing goes wrong but that a server may have no idle connection. */
  ghost predicate NoRequestErrors(env: ServerId -> Outcome, route: seq<ServerId>) {
    forall srv :: srv in route ==> env(srv).Delivered? || env(srv).NoConnection?
  }

  /** How one flush ends. */
  ghost predicate Flushed(before: Shards, cmds: seq<Command>, route: seq<ServerId>, env: ServerId -> Outcome, ret: int,
                          failed: ServerId, after: Shards, replies: seq<Option<Reply>>)
    requires Routed(before, cmds, route)
  {
    if ret == RC_SUCCESS then NoneStops(cmds, route, env) && SequentialRun(before, cmds, route, after, replies)
    else FailsAt(before, cmds, route, env, ret, failed, after)
  }

  ghost predicate FlushFails(before: Shards, cmds: seq<Command>, route: seq<ServerId>, env: ServerId -> Outcome, ret: int,
                             after: Shards)
    requires Routed(before, cmds, route)
  {
    exists failed :: FailsAt(before, cmds, route, env, ret, failed, after)
  }

  /** One server stopped, after as many commands as its connection let it run. */
  ghost predicate FailsAt(before: Shards, cmds: seq<Command>, route: seq<ServerId>, env: ServerId -> Outcome, ret: int,
                          failed: ServerId, after: Shards)
    requires Routed(before, cmds, route)
  {
    && failed in route && Explains(env(failed), ret)
    && var n := |Share(cmds, route, failed)|;
       env(failed).Stops(n) && StoppedAt(before, cmds, route, failed, env(failed).Executed(n), after)
  }

  /** One server ran k commands of its share, and every other all of its share or nothing. */
  ghost predicate StoppedAt(before: Shards, cmds: seq<Command>, route: seq<ServerId>, failed: ServerId, k: nat,
                            after: Shards)
    requires Routed(before, cmds, route)
  {
    && after.Keys == before.Keys && failed in before
    && RanPrefix(before[failed], Share(cmds, route, failed), k, after[failed])
    && forall srv :: srv in before && srv != failed ==> AllOrNothing(before[srv], Share(cmds, route, srv), after[srv])
  }

  ghost predicate AllOrNothing(st: Store, share: seq<Command>, after: Store) {
    after == st || after == RunOn(st, share).0
  }

  lemma AllOrNothingRanSome(st: Store, share: seq<Command>, after: Store)
    requires AllOrNothing(st, share, after)
    ensures RanSome(st, share, after)
  {
    assert share[..|share|] == share && share[..0] == [];
    assert RanPrefix(st, share, if after == st then 0 else |share|, after);
  }

  /** However a flush ends, every server has run some prefix of its share. */
  lemma FlushedPartly(before: Shards, cmds: seq<Command>, route: seq<ServerId>, env: ServerId -> Outcome, ret: int,
                      failed: ServerId, after: Shards, replies: seq<Option<Reply>>)
    requires Routed(before, cmds, route) && Flushed(before, cmds, route, env, ret, failed, after, replies)
    ensures PartlyRun(before, cmds, route, after)
  {
    forall srv | srv in before ensures RanSome(before[srv], Share(cmds, route, srv), after[srv]) {
      if ret == RC_SUCCESS {
        Projection(before, cmds, route, srv);
      }
      if ret == RC_SUCCESS || srv != failed {
        AllOrNothingRanSome(before[srv], Share(cmds, route, srv), after[srv]);
      }
    }
  }

  /** The connections carry the first flush, or lose it part-way and carry the second. */
  ghost predicate FinallyDelivered(cluster: bool, first: ServerId -> Outcome, refreshed: bool,
                                   second: ServerId -> Outcome, route: seq<ServerId>) {
    || AllDelivered(first, route)
    || (cluster && refreshed && AllDelivered(second, route) && forall srv :: srv in route ==> !first(srv).NoConnection?)
  }

  /** The second loop of `FlushCommand`: group after group, until one fails. */
  method SendGroups(before: Shards, cmds: seq<Command>, ghost route: seq<ServerId>, groups: map<ServerId, seq<nat>>,
                    replies0: seq<Option<Reply>>, env: ServerId -> Outcome)
    returns (ret: int, shards: Shards, replies: seq<Option<Reply>>, ghost failed: ServerId)
    requires Routed(before, cmds, route) && |replies0| == |cmds|
    requires forall srv :: srv in groups <==> srv in route
    requires forall srv :: srv in groups ==> groups[srv] == Group(route, srv)
    ensures |replies| == |cmds| && shards.Keys == before.Keys
    ensures Flushed(before, cmds, route, env, ret, failed, shards, replies)
  {
    ret, shards, replies, failed := RC_SUCCESS, before, replies0, 0;
    NothingRunYet(before, cmds, route, replies, groups.Keys);
    var pending := groups.Keys;
    while pending != {} && ret == RC_SUCCESS
      invariant pending <= groups.Keys && Progress(before, cmds, route, pending, shards, replies, env, ret, failed)
      decreases pending
    {
      var srv :| srv in pending;
      failed := srv;
      ret, shards, replies := SendGroup(before, cmds, route, pending, shards, replies, srv, groups[srv], env);
      pending := pending - {srv};
    }
    if ret == RC_SUCCESS { EverythingFinished(before, cmds, route, shards, replies); }
  }

  /** The return code of a request that did not go through, from what the connection did. */
  ghost predicate Explains(outcome: Outcome, ret: int) {
    !outcome.Delivered? && ret == if outcome.NoConnection? then RC_NO_RESOURCE else RC_RQST_ERR
  }

  /** Between groups: servers still pending are untouched, the others have finished; or a group has failed. */
  ghost predicate Progress(before: Shards, cmds: seq<Command>, route: seq<ServerId>, pending: set<ServerId>,
                           shards: Shards, replies: seq<Option<Reply>>, env: ServerId -> Outcome, ret: int,
                           failed: ServerId)
    requires Routed(before, cmds, route)
  {
    && |replies| == |cmds| && shards.Keys == before.Keys
    && if ret == RC_SUCCESS then
         && (forall srv :: srv in pending && srv in before ==> shards[srv] == before[srv])
         && AllFinished(before, cmds, route, pending, shards, replies)
         && (forall srv :: srv in route && srv !in pending ==> !env(srv).Stops(|Share(cmds, route, srv)|))
       else FailsAt(before, cmds, route, env, ret, failed, shards)
  }

  method SendGroup(ghost before: Shards, cmds: seq<Command>, ghost route: seq<ServerId>, ghost pending: set<ServerId>,
                   shards: Shards, replies: seq<Option<Reply>>, srv: ServerId, group: seq<nat>, env: ServerId -> Outcome)
    returns (ret: int, shards': Shards, replies': seq<Option<Reply>>)
    requires Routed(before, cmds, route)
    requires Progress(before, cmds, route, pending, shards, replies, env, RC_SUCCESS, srv)
    requires srv in pending && srv in route && group == Group(route, srv)
    ensures Progress(before, cmds, route, pending - {srv}, shards', replies', env, ret, srv)
  {
    var st;
    ret, st, replies' := ServRequest(shards[srv], cmds, group, replies, env(srv));
    shards' := shards[srv := st];
    ghost var share := Share(cmds, route, srv);
    assert share[..|share|] == share;
    if ret == RC_SUCCESS {
      ServerFinished(before, cmds, route, pending, shards, replies, srv, st, replies');
    } else {
      ServerStopped(before, cmds, route, pending, shards, replies, srv, env(srv).Executed(|share|), st);
    }
  }

  lemma ServerStopped(before: Shards, cmds: seq<Command>, route: seq<ServerId>, pending: set<ServerId>, shards: Shards,
                      replies: seq<Option<Reply>>, srv: ServerId, k: nat, st: Store)
    requires Routed(before, cmds, route) && |replies| == |cmds| && shards.Keys == before.Keys && srv in before
    requires forall s :: s in pending && s in before ==> shards[s] == before[s]
    requires AllFinished(before, cmds, route, pending, shards, replies)
    requires RanPrefix(before[srv], Share(cmds, route, srv), k, st)
    ensures StoppedAt(before, cmds, route, srv, k, shards[srv := st])
  {
    forall s | s in before && s != srv ensures AllOrNothing(before[s], Share(cmds, route, s), shards[s]) {
      assert s !in pending ==> Finished(before[s], cmds, route, s, shards[s], replies);
    }
  }

  lemma NothingRunYet(before: Shards, cmds: seq<Command>, route: seq<ServerId>, replies: seq<Option<Reply>>, pending: set<ServerId>)
    requires Routed(before, cmds, route) && |replies| == |cmds|
    requires forall srv :: srv in route ==> srv in pending
    ensures AllFinished(before, cmds, route, pending, before, replies)
  {
    forall srv | srv in before && srv !in pending ensures Finished(before[srv], cmds, route, srv, before[srv], replies) {
      GroupEmpty(route, srv);
    }
  }

  lemma ServerFinished(before: Shards, cmds: seq<Command>, route: seq<ServerId>, pending: set<ServerId>,
                       shards: Shards, replies: seq<Option<Reply>>, srv: ServerId, st: Store, replies': seq<Option<Reply>>)
    requires Routed(before, cmds, route) && |replies| == |replies'| == |cmds|
    requires shards.Keys == before.Keys && srv in before
    requires AllFinished(before, cmds, route, pending, shards, replies)
    requires Finished(before[srv], cmds, route, srv, st, replies')
    requires SameOutside(replies, replies', Group(route, srv))
    ensures AllFinished(before, cmds, route, pending - {srv}, shards[srv := st], replies')
  {
    forall s | s in before && s !in pending && s != srv
      ensures Finished(before[s], cmds, route, s, shards[s], replies')
    {
      assert Finished(before[s], cmds, route, s, shards[s], replies);
      var g := Group(route, s);
      forall j | 0 <= j < |g| ensures replies'[g[j]] == replies[g[j]] {
        assert g[j] !in Group(route, srv);
      }
    }
  }

  lemma EveryReplyArrived(before: Shards, cmds: seq<Command>, route: seq<ServerId>, shards: Shards, replies: seq<Option<Reply>>)
    requires Routed(before, cmds, route) && |replies| == |cmds| && shards.Keys == before.Keys
    requires AllFinished(before, cmds, route, {}, shards, replies)
    ensures forall i :: 0 <= i < |cmds| ==> replies[i].Some?
  {
    forall i | 0 <= i < |cmds| ensures replies[i].Some? {
      assert Finished(before[route[i]], cmds, route, route[i], shards[route[i]], replies);
      GroupsPartition(route, i);
    }
  }

  lemma FinishedRanShare(st: Store, cmds: seq<Command>, route: seq<ServerId>, srv: ServerId, st': Store,
                         replies: seq<Option<Reply>>, values: seq<Reply>)
    requires |route| == |cmds| && replies == Present(values) && |values| == |cmds|
    requires Finished(st, cmds, route, srv, st', replies)
    ensures RanShare(st, cmds, route, srv, st', values)
  {}

  lemma EverythingFinished(before: Shards, cmds: seq<Command>, route: seq<ServerId>, shards: Shards, replies: seq<Option<Reply>>)
    requires Routed(before, cmds, route) && |replies| == |cmds| && shards.Keys == before.Keys
    requires AllFinished(before, cmds, route, {}, shards, replies)
    ensures SequentialRun(before, cmds, route, shards, replies)
  {
    EveryReplyArrived(before, cmds, route, shards, replies);
    var values := seq(|cmds|, i requires 0 <= i < |cmds| => replies[i].value);
    assert replies == Present(values);
    forall srv | srv in before ensures RanShare(before[srv], cmds, route, srv, shards[srv], values) {
      FinishedRanShare(before[srv], cmds, route, srv, shards[srv], replies, values);
    }
    GroupedIsSequential(before, cmds, route, shards, values);
  }

  ghost predicate AllFinished(before: Shards, cmds: seq<Command>, route: seq<ServerId>, pending: set<ServerId>,
                              shards: Shards, replies: seq<Option<Reply>>)
    requires |route| == |cmds| == |replies| && shards.Keys == before.Keys
  {
    forall srv :: srv in before && srv !in pending ==>
      Finished(before[srv], cmds, route, srv, shards[srv], replies)
  }

  /** Replies that have all arrived. */
  ghost function Present(rs: seq<Reply>): seq<Option<Reply>> {
    seq(|rs|, i requires 0 <= i < |rs| => Some(rs[i]))
  }

  /** The stores and replies left behind are those of running the queue one command at a time. */
  ghost predicate SequentialRun(before: Shards, cmds: seq<Command>, route: seq<ServerId>, after: Shards, replies: seq<Option<Reply>>)
    requires Routed(before, cmds, route)
  {
    var end := RunAll(before, cmds, route);
    after == end.0 && replies == Present(end.1)
  }

  lemma RetriedRun(before: Shards, cmds: seq<Command>, route: seq<ServerId>, between: Shards, after: Shards, replies: seq<Option<Reply>>)
    requires Routed(before, cmds, route) && PartlyRun(before, cmds, route, between)
    requires EveryRetryIsOneRun(cmds, route)
    requires Routed(between, cmds, route) && SequentialRun(between, cmds, route, after, replies)
    ensures SequentialRun(before, cmds, route, after, replies)
  {
    assert IsOneRun(before, cmds, route, between);
  }

  /** One server ran its whole share and its replies are stored. */
  ghost predicate Finished(st: Store, cmds: seq<Command>, route: seq<ServerId>, srv: ServerId, st': Store, replies: seq<Option<Reply>>)
    requires |route| == |cmds| == |replies|
  {
    var end := RunOn(st, Share(cmds, route, srv));
    st' == end.0 && Stored(replies, Group(route, srv), end.1)
  }

  /** A counter is sent, run and its reply lost. Whether or not a refresh was signalled, a single server's client
      reports the error and the counter stands at one more; a clustered client sends it again, reports success
      and the counter stands at two more. */
  method LostCounter(client: RedisClient, net: Network, cmd: Command, srv: ServerId) returns (ret: int)
    requires client.Valid() && client.Matched(cmd.slot) == Some(srv) && srv in net.shards
    requires cmd.run == ((st: Store) => (Counted(st), StatusReply(OK)))
    modifies net
    ensures if client.cluster
            then ret == RC_SUCCESS && net.shards == old(net.shards)[srv := Counted(Counted(old(net.shards)[srv]))]
            else ret == RC_RQST_ERR && net.shards == old(net.shards)[srv := Counted(old(net.shards)[srv])]
  {
    var ppLine := new Pipeline();
    ppLine.QueueCommand(cmd);
    ret := FlushCounter(client, net, ppLine, cmd, [srv], _ => ReplyFails(0, 1), _ => Delivered);
  }

  method FlushCounter(client: RedisClient, net: Network, ppLine: Pipeline, cmd: Command, ghost route: seq<ServerId>,
                      first: ServerId -> Outcome, second: ServerId -> Outcome)
    returns (ret: int)
    requires ppLine.Valid() && ppLine.vecCmd == [cmd] && client.Valid() && |route| == 1 && route[0] in net.shards
    requires client.Matched(cmd.slot) == Some(route[0]) && cmd.run == ((st: Store) => (Counted(st), StatusReply(OK)))
    requires first(route[0]) == ReplyFails(0, 1) && second(route[0]) == Delivered
    modifies net, ppLine`mapCmd, ppLine`replies
    ensures ret == if client.cluster then RC_SUCCESS else RC_RQST_ERR
    ensures var before, srv := old(net.shards), route[0];
            net.shards == before[srv := if client.cluster then Counted(Counted(before[srv])) else Counted(before[srv])]
  {
    ghost var before, cmds := net.shards, ppLine.vecCmd;
    ghost var failed, between;
    ret, failed, between := ppLine.FlushPipeline(client, net, first, true, second, route);
    assert route == [route[0]];
    CounterFlushed(before, cmd, route[0], client.cluster, first, second, ret, failed, between, net.shards, ppLine.replies);
  }

  lemma CounterFlushed(before: Shards, cmd: Command, srv: ServerId, mayRetry: bool, first: ServerId -> Outcome,
                       second: ServerId -> Outcome, ret: int, failed: ServerId, between: Option<Shards>, after: Shards,
                       replies: seq<Option<Reply>>)
    requires srv in before && cmd.run == ((st: Store) => (Counted(st), StatusReply(OK)))
    requires first(srv) == ReplyFails(0, 1) && second(srv) == Delivered
    requires FlushedOrRetried(before, [cmd], [srv], mayRetry, first, second, ret, failed, between, after, replies)
    ensures if mayRetry then ret == RC_SUCCESS && after == before[srv := Counted(Counted(before[srv]))]
            else ret == RC_RQST_ERR && after == before[srv := Counted(before[srv])]
  {
    CounterShare(cmd, srv);
    assert srv in [srv] && first(srv).Stops(|Share([cmd], [srv], srv)|);
    if between.None? {
      OneCounter(before, cmd, srv, first, after);
    } else {
      OneCounter(before, cmd, srv, first, between.value);
      RunSingle(between.value, cmd, srv);
      assert Counted(Counted(before[srv])) == cmd.run(between.value[srv]).0;
    }
  }

  lemma CounterShare(cmd: Command, srv: ServerId)
    ensures Share([cmd], [srv], srv) == [cmd]
  {
    assert [srv][..0] == [] && Group([srv], srv) == Group([], srv) + [0];
  }

  lemma OneCommand(st: Store, cmd: Command)
    ensures RunOn(st, [cmd][..1]).0 == cmd.run(st).0
  {
    assert [cmd][..1] == [cmd] && [cmd][..0] == [];
  }

  lemma OneCounter(before: Shards, cmd: Command, srv: ServerId, env: ServerId -> Outcome, after: Shards)
    requires srv in before && env(srv) == ReplyFails(0, 1)
    requires FlushFails(before, [cmd], [srv], env, RC_RQST_ERR, after)
    requires cmd.run == ((st: Store) => (Counted(st), StatusReply(OK)))
    ensures after == before[srv := Counted(before[srv])]
  {
    CounterShare(cmd, srv);
    OneCommand(before[srv], cmd);
    assert StoppedAt(before, [cmd], [srv], srv, 1, after);
    forall s | s in before && s != srv ensures after[s] == before[s] {
      assert AllOrNothing(before[s], Share([cmd], [srv], s), after[s]);
      GroupEmpty([srv], s);
      assert Share([cmd], [srv], s) == [];
    }
  }
}
