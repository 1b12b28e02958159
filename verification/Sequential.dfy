/** What a pipeline means: its commands run one by one, in queue order, each on the shard it is routed
    to; and the projection of that run to one shard. */
module Sequential {
  import opened Bytes
  import opened SlotTable
  import opened RedisStore

  /** A queued command: its slot, and what it does to the shard it reaches. Any deterministic
      command is allowed. */
  datatype Command = Command(slot: int, run: Store -> (Store, Reply), wantsOk: bool)

  type Shards = map<ServerId, Store>

  /** One shard executing commands in order. */
  ghost function RunOn(st: Store, cmds: seq<Command>): (res: (Store, seq<Reply>))
    ensures |res.1| == |cmds|
  {
    if cmds == [] then (st, [])
    else
      var n := |cmds| - 1;
      var (st1, rs) := RunOn(st, cmds[..n]);
      var (st2, r) := cmds[n].run(st1);
      (st2, rs + [r])
  }

  ghost predicate Routed(shards: Shards, cmds: seq<Command>, route: seq<ServerId>) {
    |route| == |cmds| && forall i :: 0 <= i < |route| ==> route[i] in shards
  }

  /** The reference: every command at its turn, on its own shard. */
  ghost function RunAll(shards: Shards, cmds: seq<Command>, route: seq<ServerId>): (res: (Shards, seq<Reply>))
    requires Routed(shards, cmds, route)
    ensures |res.1| == |cmds| && res.0.Keys == shards.Keys
  {
    if cmds == [] then (shards, [])
    else
      var n := |cmds| - 1;
      var (sh, rs) := RunAll(shards, cmds[..n], route[..n]);
      var (st, r) := cmds[n].run(sh[route[n]]);
      (sh[route[n] := st], rs + [r])
  }

  /** The positions routed to one server, in queue order. */
  ghost function Group(route: seq<ServerId>, srv: ServerId): (g: seq<nat>)
    ensures forall j :: 0 <= j < |g| ==> g[j] < |route| && route[g[j]] == srv
    ensures forall j, k :: 0 <= j < k < |g| ==> g[j] < g[k]
  {
    if route == [] then []
    else
      var n := |route| - 1;
      Group(route[..n], srv) + if route[n] == srv then [n] else []
  }

  /** Every command belongs to the group of its server. */
  lemma {:induction false} GroupsPartition(route: seq<ServerId>, i: nat)
    requires i < |route|
    ensures i in Group(route, route[i])
  {
    var n := |route| - 1;
    if i < n {
      GroupsPartition(route[..n], i);
      assert i in Group(route[..n], route[i]);
    } else {
      assert Group(route, route[n])[|Group(route[..n], route[n])|] == n;
    }
  }

  ghost function Select(cmds: seq<Command>, g: seq<nat>): (sel: seq<Command>)
    requires forall j :: 0 <= j < |g| ==> g[j] < |cmds|
    ensures |sel| == |g|
  {
    seq(|g|, j requires 0 <= j < |g| => cmds[g[j]])
  }

  /** The commands one server receives, in the order it receives them. */
  ghost function Share(cmds: seq<Command>, route: seq<ServerId>, srv: ServerId): (sel: seq<Command>)
    requires |route| == |cmds|
    ensures |sel| == |Group(route, srv)|
  {
    Select(cmds, Group(route, srv))
  }

  lemma ShareSnoc(cmds: seq<Command>, route: seq<ServerId>, srv: ServerId)
    requires |route| == |cmds| && cmds != []
    ensures var n := |cmds| - 1;
            Share(cmds, route, srv) == Share(cmds[..n], route[..n], srv) + if route[n] == srv then [cmds[n]] else []
  {}

  /** The sequential run, seen from one shard, is that shard running its own share: commands on
      other shards do not disturb it, and the replies are those of its share. */
  lemma {:induction false} Projection(shards: Shards, cmds: seq<Command>, route: seq<ServerId>, srv: ServerId)
    requires Routed(shards, cmds, route) && srv in shards
    ensures RunAll(shards, cmds, route).0[srv] == RunOn(shards[srv], Share(cmds, route, srv)).0
    ensures var g := Group(route, srv);
            forall j :: 0 <= j < |g| ==>
              RunAll(shards, cmds, route).1[g[j]] == RunOn(shards[srv], Share(cmds, route, srv)).1[j]
  {
    if cmds == [] {
    } else {
      var n := |cmds| - 1;
      Projection(shards, cmds[..n], route[..n], srv);
      ShareSnoc(cmds, route, srv);
      var before := Share(cmds[..n], route[..n], srv);
      if route[n] == srv {
        assert (before + [cmds[n]])[..|before|] == before;
      } else {
        assert before + [] == before;
      }
    }
  }

  /** One server ran its whole share, from `st` to `st'`, and its replies are in their places. */
  ghost predicate RanShare(st: Store, cmds: seq<Command>, route: seq<ServerId>, srv: ServerId, st': Store, replies: seq<Reply>)
    requires |route| == |cmds| == |replies|
  {
    var g, end := Group(route, srv), RunOn(st, Share(cmds, route, srv));
    st' == end.0 && forall j :: 0 <= j < |g| ==> replies[g[j]] == end.1[j]
  }

  lemma ReplyInPlace(shards: Shards, cmds: seq<Command>, route: seq<ServerId>, st': Store, replies: seq<Reply>, i: nat)
    requires Routed(shards, cmds, route) && |replies| == |cmds| && i < |cmds|
    requires RanShare(shards[route[i]], cmds, route, route[i], st', replies)
    ensures replies[i] == RunAll(shards, cmds, route).1[i]
  {
    GroupsPartition(route, i);
    Projection(shards, cmds, route, route[i]);
    var j :| 0 <= j < |Group(route, route[i])| && Group(route, route[i])[j] == i;
  }

  /** Running every group to its end, in whatever order, is the sequential run. */
  lemma GroupedIsSequential(shards: Shards, cmds: seq<Command>, route: seq<ServerId>, after: Shards, replies: seq<Reply>)
    requires Routed(shards, cmds, route) && |replies| == |cmds| && after.Keys == shards.Keys
    requires forall srv :: srv in shards ==> RanShare(shards[srv], cmds, route, srv, after[srv], replies)
    ensures (after, replies) == RunAll(shards, cmds, route)
  {
    var end := RunAll(shards, cmds, route);
    assert after == end.0 by {
      forall srv | srv in shards ensures after[srv] == end.0[srv] {
        Projection(shards, cmds, route, srv);
      }
    }
    assert replies == end.1 by {
      forall i | 0 <= i < |replies| ensures replies[i] == end.1[i] {
        ReplyInPlace(shards, cmds, route, after[route[i]], replies, i);
      }
    }
  }

  /** The state after a flush that stopped: every server ran some prefix of its share. */
  ghost predicate PartlyRun(shards: Shards, cmds: seq<Command>, route: seq<ServerId>, after: Shards)
    requires Routed(shards, cmds, route)
  {
    && after.Keys == shards.Keys
    && forall srv :: srv in shards ==>
         RanSome(shards[srv], Share(cmds, route, srv), after[srv])
  }

  ghost predicate RanSome(st: Store, cmds: seq<Command>, after: Store) {
    exists k: nat :: RanPrefix(st, cmds, k, after)
  }

  ghost predicate RanPrefix(st: Store, cmds: seq<Command>, k: nat, after: Store) {
    k <= |cmds| && after == RunOn(st, cmds[..k]).0
  }

  // Commands that overwrite one entry whatever was there, as SET does.

  datatype Write = Write(key: Key, entry: Entry, reply: Reply)

  ghost predicate Overwrites(c: Command, w: Write) {
    forall st :: c.run(st) == (st[w.key := w.entry], w.reply)
  }

  ghost predicate AllOverwrite(cmds: seq<Command>, ws: seq<Write>) {
    |ws| == |cmds| && forall i :: 0 <= i < |cmds| ==> Overwrites(cmds[i], ws[i])
  }

  /** The last value written to each key. */
  ghost function LastWrites(ws: seq<Write>): map<Key, Entry> {
    if ws == [] then map[]
    else LastWrites(ws[..|ws| - 1])[ws[|ws| - 1].key := ws[|ws| - 1].entry]
  }

  lemma {:induction false} OverwritesRun(st: Store, cmds: seq<Command>, ws: seq<Write>)
    requires AllOverwrite(cmds, ws)
    ensures RunOn(st, cmds).0 == st + LastWrites(ws)
    ensures forall i :: 0 <= i < |ws| ==> RunOn(st, cmds).1[i] == ws[i].reply
  {
    if cmds == [] {
    } else {
      var n := |cmds| - 1;
      OverwritesRun(st, cmds[..n], ws[..n]);
      assert Overwrites(cmds[n], ws[n]);
    }
  }

  lemma {:induction false} PrefixWritesLess(ws: seq<Write>, k: nat)
    requires k <= |ws|
    ensures LastWrites(ws[..k]).Keys <= LastWrites(ws).Keys
    decreases |ws| - k
  {
    if k < |ws| {
      PrefixWritesLess(ws, k + 1);
      assert ws[..k + 1][..k] == ws[..k];
    } else {
      assert ws[..k] == ws;
    }
  }

  lemma OverlaidTwice(m: Store, a: Store, b: Store)
    requires a.Keys <= b.Keys
    ensures (m + a) + b == m + b
  {}

  /** Running a prefix first changes nothing for a share of overwriting commands. */
  lemma RerunIsHarmless(st: Store, cmds: seq<Command>, ws: seq<Write>, k: nat)
    requires AllOverwrite(cmds, ws) && k <= |cmds|
    ensures RunOn(RunOn(st, cmds[..k]).0, cmds) == RunOn(st, cmds)
  {
    OverwritesRun(st, cmds[..k], ws[..k]);
    var st1 := RunOn(st, cmds[..k]).0;
    OverwritesRun(st1, cmds, ws);
    OverwritesRun(st, cmds, ws);
    PrefixWritesLess(ws, k);
    OverlaidTwice(st, LastWrites(ws[..k]), LastWrites(ws));
    assert RunOn(st1, cmds).1 == RunOn(st, cmds).1;
  }

  function Counted(st: Store): Store {
    st[[] := StringEntry((if [] in st then st[[]].value.body else []) + [1])]
  }

  lemma RunSingle(shards: Shards, cmd: Command, srv: ServerId)
    requires srv in shards
    ensures RunAll(shards, [cmd], [srv]).0 == shards[srv := cmd.run(shards[srv]).0]
  {
    assert [cmd][..0] == [] && [srv][..0] == [];
  }

  /** Repeating a command is not harmless in general: a counter whose first reply is lost counts twice. */
  lemma RetryRepeatsOtherCommands(cmd: Command)
    requires cmd.run == ((st: Store) => (Counted(st), StatusReply(OK)))
    ensures var empty: Shards := map[0 := map[]];
            exists after :: PartlyRun(empty, [cmd], [0], after)
                            && RunAll(after, [cmd], [0]).0 != RunAll(empty, [cmd], [0]).0
  {
    var empty: Shards := map[0 := map[]];
    var once := RunAll(empty, [cmd], [0]).0;
    var share := Share([cmd], [0], 0);
    assert RanPrefix(empty[0], share, |share|, once[0]) by {
      Projection(empty, [cmd], [0], 0);
      assert share[..|share|] == share;
    }
    assert PartlyRun(empty, [cmd], [0], once);
    RunSingle(empty, cmd, 0);
    RunSingle(once, cmd, 0);
    assert once[0] == Counted(map[]);
    assert Counted(map[])[[]].value.body == [1];
    assert Counted(once[0])[[]].value.body == [1] + [1];
  }
}
