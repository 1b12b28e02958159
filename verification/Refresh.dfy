/** The refresh protocol of the client (Content/RedisClient.cpp): requests run under the shared lock and
    borrow connections from the pools of servers, while a background thread replaces the slot table,
    the server list and the servers themselves under the exclusive lock. Every interleaving of the
    steps below is a run. */
module Refresh {
  import opened Bytes
  import opened SlotTable
  import opened RedisClients

  type Thread = nat
  type Conn = nat

  /** A server's connections: `made` by its last Initialize, `idle` in its queue. */
  datatype Pool = Pool(idle: seq<Conn>, made: set<Conn>)

  /** Where a request stands inside `SimpleExecute`. A thread outside it has no entry. */
  datatype Request = Entered | Matched(srv: ServerId) | Holding(srv: ServerId, conn: Conn) | Leaving

  /** Where the refresh thread stands in its loop. */
  datatype Refresher =
    | Top                                                       // no lock
    | Waiting                                                   // in condAny.wait, lock released
    | Locked                                                    // exclusive lock taken
    | Loading                                                   // loading slots, or about to reinitialise
    | Asking(srv: ServerId, conn: Conn)                         // CLUSTER SLOTS on a borrowed connection
    | Ready(newTable: seq<SlotRegion>, newList: seq<ServerId>)  // new servers built
    | Emptied(newTable: seq<SlotRegion>, newList: seq<ServerId>) // m_vecSlot cleared, deleting servers
    | Cleared(newTable: seq<SlotRegion>, newList: seq<ServerId>) // m_vecRedisServ cleared
    | Listed(newTable: seq<SlotRegion>, newList: seq<ServerId>)  // m_vecRedisServ assigned
    | Refilling                                                 // one server: new connections
    | Loaded(ok: bool)
    | Unlocking                                                 // m_bValid assigned

  datatype State = State(
    cluster: bool,
    connNum: nat,
    readers: set<Thread>,
    writer: bool,
    table: seq<SlotRegion>,
    servers: seq<ServerId>,
    live: map<ServerId, Pool>,
    valid: bool,
    requests: map<Thread, Request>,
    refresher: Refresher,
    nextServer: ServerId,
    nextConn: Conn,
    version: nat) // how many tables have been installed

  datatype Step =
    | Enter(t: Thread)
    | FailFast(t: Thread)
    | Match(t: Thread, slot: int)
    | Borrow(t: Thread)
    | GiveUp(t: Thread)
    | GiveBack(t: Thread)
    | Leave(t: Thread)
    | Notify(t: Thread)
    | Lock
    | Wait
    | Wake
    | Start
    | Ask(srv: ServerId)
    | Asked
    | Build(newTable: seq<SlotRegion>, newList: seq<ServerId>, built: map<ServerId, Pool>)
    | LoadFails
    | Empty
    | Delete(srv: ServerId)
    | Clear
    | SetList
    | SetTable
    | CleanConn
    | Push
    | Refilled
    | SetValid
    | Unlock

  /** `GetMatchedServer`, a server being usable when it has an idle connection. */
  ghost function MatchedServer(s: State, slot: int): Option<ServerId> {
    Route(s.cluster, s.table, s.servers, (set srv | srv in s.live && s.live[srv].idle != []), slot)
  }

  ghost predicate At(s: State, t: Thread, r: Request) {
    t in s.requests && s.requests[t] == r
  }

  ghost predicate Homed(table: seq<SlotRegion>, servers: seq<ServerId>) {
    forall i :: 0 <= i < |table| ==> table[i].server.Some? && table[i].server.value in servers
  }

  ghost predicate AllLive(servers: seq<ServerId>, live: map<ServerId, Pool>) {
    forall i :: 0 <= i < |servers| ==> servers[i] in live
  }

  /** A freshly initialised pool. */
  ghost predicate FreshPool(p: Pool, connNum: nat) {
    NoDup(p.idle) && (set c | c in p.idle) == p.made && |p.made| <= connNum
  }

  /** The servers one successful load builds: new objects with new connections. */
  ghost predicate Built(s: State, newTable: seq<SlotRegion>, newList: seq<ServerId>, built: map<ServerId, Pool>) {
    && Homed(newTable, newList) && AllLive(newList, built)
    && (forall srv :: srv in built ==> s.nextServer <= srv && FreshPool(built[srv], s.connNum))
    && (forall srv, c :: srv in built && c in built[srv].made ==> s.nextConn <= c)
    && (forall a, b, c :: a in built && b in built && c in built[a].made && c in built[b].made ==> a == b)
  }

  ghost predicate RequestStep(s: State, s': State, step: Step) {
    match step
    case Enter(t) =>
      !s.writer && t !in s.requests
      && s' == s.(readers := s.readers + {t}, requests := s.requests[t := Entered])
    case FailFast(t) =>
      At(s, t, Entered) && !s.valid && s' == s.(requests := s.requests[t := Leaving])
    case Match(t, slot) =>
      At(s, t, Entered) && s.valid
      && s' == s.(requests := s.requests[t := match MatchedServer(s, slot)
                                              case None => Leaving
                                              case Some(srv) => Matched(srv)])
    case Borrow(t) =>
      && t in s.requests && s.requests[t].Matched?
      && var srv := s.requests[t].srv;
         srv in s.live && s.live[srv].idle != []
         && var p := s.live[srv];
            s' == s.(requests := s.requests[t := Holding(srv, p.idle[0])], live := s.live[srv := p.(idle := p.idle[1..])])
    case GiveUp(t) =>
      && t in s.requests && s.requests[t].Matched?
      && s' == s.(requests := s.requests[t := Leaving])
    case GiveBack(t) =>
      && t in s.requests && s.requests[t].Holding?
      && var Holding(srv, c) := s.requests[t];
         srv in s.live
         && var p := s.live[srv];
            s' == s.(requests := s.requests[t := Leaving], live := s.live[srv := p.(idle := p.idle + [c])])
    case Leave(t) =>
      At(s, t, Leaving) && s' == s.(readers := s.readers - {t}, requests := s.requests - {t})
    case Notify(t) => // WaitForRefresh: try_lock_shared, notify_all
      !s.writer && t !in s.requests
      && s' == s.(readers := s.readers + {t}, requests := s.requests[t := Leaving])
    case _ => false
  }

  /** Steps of the refresh thread that move it through its loop and touch only lock and flag. */
  ghost predicate ControlStep(s: State, s': State, step: Step) {
    match step
    case Lock =>
      s.refresher.Top? && s.readers == {} && !s.writer && s' == s.(writer := true, refresher := Locked)
    case Wait =>
      s.refresher.Locked? && s.valid && s' == s.(writer := false, refresher := Waiting)
    case Wake => // after a notification, or spuriously
      s.refresher.Waiting? && s.readers == {} && !s.writer && s' == s.(writer := true, refresher := Loading)
    case Start =>
      s.refresher.Locked? && !s.valid && s' == s.(refresher := Loading)
    case LoadFails =>
      s.refresher.Loading? && s.cluster && s' == s.(refresher := Loaded(false))
    case Refilled =>
      && s.refresher.Refilling? && s.servers != [] && s.servers[0] in s.live
      && s' == s.(refresher := Loaded(s.live[s.servers[0]].idle != []))
    case SetValid =>
      s.refresher.Loaded? && s' == s.(refresher := Unlocking, valid := s.refresher.ok)
    case Unlock =>
      s.refresher.Unlocking? && s' == s.(refresher := Top, writer := false)
    case _ => false
  }

  /** Steps inside `LoadClusterSlots`, `CleanServer` and the single server's `Initialize`. */
  ghost predicate LoadStep(s: State, s': State, step: Step) {
    match step
    case Ask(srv) =>
      && s.refresher.Loading? && s.cluster && srv in s.servers && srv in s.live && s.live[srv].idle != []
      && var p := s.live[srv];
         s' == s.(refresher := Asking(srv, p.idle[0]), live := s.live[srv := p.(idle := p.idle[1..])])
    case Asked =>
      && s.refresher.Asking?
      && var Asking(srv, c) := s.refresher;
         srv in s.live
         && var p := s.live[srv];
            s' == s.(refresher := Loading, live := s.live[srv := p.(idle := p.idle + [c])])
    case Build(newTable, newList, built) =>
      && s.refresher.Loading? && s.cluster && Built(s, newTable, newList, built)
      && s'.nextServer >= s.nextServer && s'.nextConn >= s.nextConn
      && (forall srv :: srv in built ==> srv < s'.nextServer)
      && (forall srv, c :: srv in built && c in built[srv].made ==> c < s'.nextConn)
      && s' == s.(refresher := Ready(newTable, newList), live := s.live + built,
                  nextServer := s'.nextServer, nextConn := s'.nextConn)
    case Empty =>
      s.refresher.Ready? && s' == s.(refresher := Emptied(s.refresher.newTable, s.refresher.newList), table := [])
    case Delete(srv) =>
      s.refresher.Emptied? && srv in s.servers && s' == s.(live := s.live - {srv})
    case Clear =>
      && s.refresher.Emptied? && (forall srv :: srv in s.servers ==> srv !in s.live)
      && s' == s.(refresher := Cleared(s.refresher.newTable, s.refresher.newList), servers := [])
    case SetList =>
      s.refresher.Cleared?
      && s' == s.(refresher := Listed(s.refresher.newTable, s.refresher.newList), servers := s.refresher.newList)
    case SetTable =>
      s.refresher.Listed?
      && s' == s.(refresher := Loaded(true), table := s.refresher.newTable, version := s.version + 1)
    case CleanConn =>
      && s.refresher.Loading? && !s.cluster && s.servers != []
      && s' == s.(refresher := Refilling, live := s.live[s.servers[0] := Pool([], {})])
    case Push =>
      && s.refresher.Refilling? && s.servers != [] && s.servers[0] in s.live
      && var p := s.live[s.servers[0]];
         |p.made| < s.connNum
         && s' == s.(live := s.live[s.servers[0] := Pool(p.idle + [s.nextConn], p.made + {s.nextConn})],
                     nextConn := s.nextConn + 1)
    case _ => false
  }

  ghost predicate RefreshStep(s: State, s': State, step: Step) {
    ControlStep(s, s', step) || LoadStep(s, s', step)
  }

  ghost predicate TakesStep(s: State, s': State, step: Step) {
    RequestStep(s, s', step) || RefreshStep(s, s', step)
  }

  ghost predicate Next(s: State, s': State) {
    exists step :: TakesStep(s, s', step)
  }

  /** The client as `Initialize` leaves it: nobody holds the lock, every server has a fresh pool. */
  ghost predicate Init(s: State) {
    && s.readers == {} && !s.writer && s.requests == map[] && s.refresher.Top?
    && Homed(s.table, s.servers) && AllLive(s.servers, s.live)
    && (!s.cluster ==> s.servers != [])
    && (forall srv :: srv in s.live ==> srv < s.nextServer && FreshPool(s.live[srv], s.connNum))
    && (forall srv, c :: srv in s.live && c in s.live[srv].made ==> c < s.nextConn)
    && (forall a, b, c :: a in s.live && b in s.live && c in s.live[a].made && c in s.live[b].made ==> a == b)
  }

  ghost predicate Follows(run: seq<State>, i: nat)
    requires i + 1 < |run|
  {
    Next(run[i], run[i + 1])
  }

  ghost predicate IsRun(run: seq<State>) {
    run != [] && Init(run[0]) && forall i: nat :: i + 1 < |run| ==> Follows(run, i)
  }

  // The invariant.

  ghost predicate Exclusive(r: Refresher) {
    !r.Top? && !r.Waiting?
  }

  ghost predicate LockInv(s: State) {
    && s.readers == s.requests.Keys
    && (s.writer <==> Exclusive(s.refresher))
    && (s.writer ==> s.requests == map[])
  }

  ghost predicate Rebuilding(r: Refresher) {
    r.Emptied? || r.Cleared? || r.Listed?
  }

  /** Which loading function runs depends on the mode, and a single server is never lost. */
  ghost predicate ModeInv(s: State) {
    && (s.refresher.Asking? || s.refresher.Ready? || Rebuilding(s.refresher) ==> s.cluster)
    && (s.refresher.Refilling? ==> !s.cluster)
    && (!s.cluster ==> s.servers != [])
  }

  ghost predicate TableInv(s: State) {
    && (!Rebuilding(s.refresher) ==> Homed(s.table, s.servers) && AllLive(s.servers, s.live))
    && (Rebuilding(s.refresher) ==> s.table == [])
    && (s.refresher.Cleared? ==> s.servers == [])
    && (s.refresher.Listed? ==> s.servers == s.refresher.newList)
    && (s.refresher.Ready? || Rebuilding(s.refresher) ==>
          Homed(s.refresher.newTable, s.refresher.newList) && AllLive(s.refresher.newList, s.live))
    && (s.refresher.Ready? || s.refresher.Emptied? ==>
          forall srv :: srv in s.refresher.newList ==> srv !in s.servers)
  }

  /** Names are handed out once, so a new server is none of the old ones. */
  ghost predicate NamesInv(s: State) {
    && (forall srv :: srv in s.live ==> srv < s.nextServer)
    && (forall srv :: srv in s.servers ==> srv < s.nextServer)
    && (forall srv, c :: srv in s.live && c in s.live[srv].made ==> c < s.nextConn)
    && (forall a, b, c :: a in s.live && b in s.live && c in s.live[a].made && c in s.live[b].made ==> a == b)
  }

  ghost predicate Uses(r: Request, srv: ServerId) {
    (r.Matched? || r.Holding?) && r.srv == srv
  }

  ghost predicate RequestInv(s: State) {
    && (forall t, srv :: t in s.requests && Uses(s.requests[t], srv) ==> srv in s.servers)
    && (s.refresher.Asking? ==> s.refresher.srv in s.servers)
  }

  ghost predicate Holds(s: State, t: Thread, srv: ServerId, c: Conn) {
    At(s, t, Holding(srv, c))
  }

  ghost predicate Held(s: State, srv: ServerId, c: Conn) {
    (exists t :: Holds(s, t, srv, c)) || s.refresher == Asking(srv, c)
  }

  /** One pool: nothing is idle twice, and every connection made is idle or held, never both. */
  ghost predicate PoolInv(s: State, srv: ServerId, p: Pool) {
    && NoDup(p.idle)
    && |p.made| <= s.connNum
    && (forall c :: c in p.idle ==> c in p.made && !Held(s, srv, c))
    && (forall c :: c in p.made ==> c in p.idle || Held(s, srv, c))
    && (forall c :: Held(s, srv, c) ==> c in p.made)
  }

  ghost predicate PoolsInv(s: State) {
    forall srv :: srv in s.live ==> PoolInv(s, srv, s.live[srv])
  }

  ghost predicate OneHolder(s: State) {
    && (forall t, u, srv, c :: Holds(s, t, srv, c) && Holds(s, u, srv, c) ==> t == u)
    && (s.refresher.Asking? ==> s.requests == map[])
  }

  ghost predicate Inv(s: State) {
    LockInv(s) && ModeInv(s) && TableInv(s) && NamesInv(s) && RequestInv(s) && PoolsInv(s) && OneHolder(s)
  }

  // Every step keeps every part of it.

  lemma InitHolds(s: State)
    requires Init(s)
    ensures Inv(s)
  {
    forall srv | srv in s.live ensures PoolInv(s, srv, s.live[srv]) {
      assert FreshPool(s.live[srv], s.connNum);
      Gathered(s.live[srv]);
    }
    forall srv | srv in s.servers ensures srv < s.nextServer {
      var i :| 0 <= i < |s.servers| && s.servers[i] == srv;
    }
  }

  lemma Gathered(p: Pool)
    requires (set c | c in p.idle) == p.made
    ensures forall c :: c in p.idle <==> c in p.made
  {
    forall c ensures c in p.idle <==> c in p.made {
      assert c in p.idle <==> c in (set d | d in p.idle);
    }
  }

  /** What no request step changes. */
  ghost predicate SameRegistry(s: State, s': State) {
    && s'.cluster == s.cluster && s'.connNum == s.connNum && s'.writer == s.writer
    && s'.table == s.table && s'.servers == s.servers && s'.valid == s.valid && s'.refresher == s.refresher
    && s'.nextServer == s.nextServer && s'.nextConn == s.nextConn && s'.version == s.version
    && s'.live.Keys == s.live.Keys
    && forall srv :: srv in s.live ==> s'.live[srv].made == s.live[srv].made
  }

  lemma RequestFrame(s: State, s': State, step: Step)
    requires RequestStep(s, s', step)
    ensures SameRegistry(s, s')
  {
  }

  /** What no step of the refresh thread changes. */
  ghost predicate SameRequests(s: State, s': State) {
    s'.requests == s.requests && s'.readers == s.readers && s'.cluster == s.cluster && s'.connNum == s.connNum
  }

  lemma ControlFrame(s: State, s': State, step: Step)
    requires ControlStep(s, s', step)
    ensures SameRequests(s, s')
    ensures s'.table == s.table && s'.servers == s.servers && s'.live == s.live
    ensures s'.nextServer == s.nextServer && s'.nextConn == s.nextConn && s'.version == s.version
    ensures !s.refresher.Asking? && !s'.refresher.Asking? && !s.refresher.Ready? && !s'.refresher.Ready?
    ensures !Rebuilding(s.refresher) && !Rebuilding(s'.refresher)
  {
  }

  lemma LoadFrame(s: State, s': State, step: Step)
    requires LoadStep(s, s', step)
    ensures SameRequests(s, s') && s'.writer == s.writer && s'.valid == s.valid
    ensures Exclusive(s.refresher) && Exclusive(s'.refresher)
  {
  }

  lemma LockKeptByRequest(s: State, s': State, step: Step)
    requires LockInv(s) && RequestStep(s, s', step)
    ensures LockInv(s')
  {
  }

  lemma LockKeptByControl(s: State, s': State, step: Step)
    requires LockInv(s) && ControlStep(s, s', step)
    ensures LockInv(s')
  {
  }

  lemma ModeKeptByRefresh(s: State, s': State, step: Step)
    requires ModeInv(s) && RefreshStep(s, s', step)
    ensures ModeInv(s')
  {
  }

  lemma TableKeptByRequest(s: State, s': State)
    requires SameRegistry(s, s') && TableInv(s)
    ensures TableInv(s')
  {
  }

  lemma TableKeptByLoad(s: State, s': State, step: Step)
    requires TableInv(s) && NamesInv(s) && LoadStep(s, s', step)
    ensures TableInv(s')
  {
  }

  lemma NamesKeptByRequest(s: State, s': State)
    requires SameRegistry(s, s') && NamesInv(s)
    ensures NamesInv(s')
  {
  }

  lemma NamesKeptByLoad(s: State, s': State, step: Step)
    requires TableInv(s) && NamesInv(s) && LoadStep(s, s', step)
    ensures NamesInv(s')
  {
    if step.Build? {
      NamesKeptByBuild(s, s', step.newTable, step.newList, step.built);
    } else if step.Push? || step.CleanConn? {
      NamesKeptByRefill(s, s', step);
    }
  }

  lemma NamesKeptByRefill(s: State, s': State, step: Step)
    requires TableInv(s) && NamesInv(s) && LoadStep(s, s', step) && (step.Push? || step.CleanConn?)
    ensures NamesInv(s')
  {
    var srv := s.servers[0];
    assert s'.live.Keys == s.live.Keys + {srv} && s'.servers == s.servers && s'.nextServer == s.nextServer;
    assert forall b :: b in s'.live && b != srv ==> s'.live[b] == s.live[b];
  }

  lemma NamesKeptByBuild(s: State, s': State, newTable: seq<SlotRegion>, newList: seq<ServerId>,
      built: map<ServerId, Pool>)
    requires NamesInv(s) && LoadStep(s, s', Build(newTable, newList, built))
    ensures NamesInv(s')
  {
    forall a, b, c | a in s'.live && b in s'.live && c in s'.live[a].made && c in s'.live[b].made ensures a == b {
      assert a in built <==> b in built;
    }
  }

  lemma FirstUsableIsListed(servers: seq<ServerId>, usable: set<ServerId>)
    ensures FirstUsable(servers, usable).Some? ==> FirstUsable(servers, usable).value in servers
  {
  }

  lemma ScanIsHomed(table: seq<SlotRegion>, servers: seq<ServerId>, slot: int)
    requires Homed(table, servers)
    ensures LinearScan(table, slot).Some? ==> LinearScan(table, slot).value in servers
  {
    if table == [] {
    } else {
      assert table[0].server.Some? && table[0].server.value in servers;
      assert forall i :: 0 <= i < |table[1..]| ==> table[1..][i] == table[i + 1];
      ScanIsHomed(table[1..], servers, slot);
    }
  }

  lemma MatchIsListed(s: State, slot: int)
    requires Homed(s.table, s.servers)
    ensures MatchedServer(s, slot).Some? ==> MatchedServer(s, slot).value in s.servers
  {
    FirstUsableIsListed(s.servers, set srv | srv in s.live && s.live[srv].idle != []);
    ScanIsHomed(s.table, s.servers, slot);
  }

  lemma RequestKeptByRequest(s: State, s': State, step: Step)
    requires LockInv(s) && TableInv(s) && RequestInv(s) && RequestStep(s, s', step)
    ensures RequestInv(s')
  {
    if step.Match? {
      MatchIsListed(s, step.slot);
    }
  }

  lemma RequestKeptByLoad(s: State, s': State, step: Step)
    requires LockInv(s) && RequestInv(s) && LoadStep(s, s', step)
    ensures RequestInv(s')
  {
    LoadFrame(s, s', step);
  }

  // Pools.

  lemma HeldByRequest(s: State, t: Thread, srv: ServerId, c: Conn)
    requires Holds(s, t, srv, c)
    ensures Held(s, srv, c)
  {
  }

  lemma NothingHeld(s: State)
    requires s.requests == map[] && !s.refresher.Asking?
    ensures forall srv, c :: !Held(s, srv, c)
  {
  }

  lemma PoolUntouched(s: State, s': State, srv: ServerId, p: Pool)
    requires PoolInv(s, srv, p) && s'.connNum == s.connNum
    requires forall c :: Held(s', srv, c) <==> Held(s, srv, c)
    ensures PoolInv(s', srv, p)
  {
  }

  lemma PoolTaken(s: State, s': State, srv: ServerId, p: Pool)
    requires PoolInv(s, srv, p) && s'.connNum == s.connNum && p.idle != []
    requires forall c :: Held(s', srv, c) <==> Held(s, srv, c) || c == p.idle[0]
    ensures PoolInv(s', srv, p.(idle := p.idle[1..]))
  {
    var rest := p.idle[1..];
    assert forall c :: c in p.idle <==> c == p.idle[0] || c in rest by {
      assert p.idle == [p.idle[0]] + rest;
    }
  }

  lemma PoolGiven(s: State, s': State, srv: ServerId, p: Pool, back: Conn)
    requires PoolInv(s, srv, p) && s'.connNum == s.connNum && Held(s, srv, back)
    requires forall c :: Held(s', srv, c) <==> Held(s, srv, c) && c != back
    ensures PoolInv(s', srv, p.(idle := p.idle + [back]))
  {
    assert forall c :: c in p.idle + [back] <==> c in p.idle || c == back;
  }

  lemma HeldAfterBorrow(s: State, s': State, t: Thread)
    requires RequestStep(s, s', Borrow(t))
    ensures forall b, c :: Held(s', b, c) <==>
              Held(s, b, c) || (b == s.requests[t].srv && c == s.live[b].idle[0])
  {
    forall b, c ensures Held(s', b, c) <==> Held(s, b, c) || (b == s.requests[t].srv && c == s.live[b].idle[0]) {
      assert Holds(s', t, s.requests[t].srv, s.live[s.requests[t].srv].idle[0]);
      assert forall u :: u != t ==> (Holds(s', u, b, c) <==> Holds(s, u, b, c));
      assert !Holds(s, t, b, c);
    }
  }

  lemma HeldAfterGiveBack(s: State, s': State, t: Thread)
    requires OneHolder(s) && RequestStep(s, s', GiveBack(t))
    ensures forall b, c :: Held(s', b, c) <==> Held(s, b, c) && !(b == s.requests[t].srv && c == s.requests[t].conn)
  {
    var Holding(srv, back) := s.requests[t];
    assert Holds(s, t, srv, back);
    forall b, c ensures Held(s', b, c) <==> Held(s, b, c) && !(b == srv && c == back) {
      assert forall u :: u != t ==> (Holds(s', u, b, c) <==> Holds(s, u, b, c));
      assert !Holds(s', t, b, c);
    }
  }

  lemma HeldUnchanged(s: State, s': State, step: Step)
    requires RequestStep(s, s', step) && !step.Borrow? && !step.GiveBack?
    ensures forall t, b, c :: Holds(s', t, b, c) <==> Holds(s, t, b, c)
    ensures forall b, c :: Held(s', b, c) <==> Held(s, b, c)
    ensures s'.live == s.live
  {
    SameHolders(s, s');
  }

  lemma SameHolders(s: State, s': State)
    requires s'.refresher == s.refresher
    requires forall t, b, c :: Holds(s', t, b, c) <==> Holds(s, t, b, c)
    ensures forall b, c :: Held(s', b, c) <==> Held(s, b, c)
  {
    forall b, c ensures Held(s', b, c) <==> Held(s, b, c) {
      if Held(s', b, c) && s.refresher != Asking(b, c) {
        var t :| Holds(s', t, b, c);
        assert Holds(s, t, b, c);
      }
      if Held(s, b, c) && s.refresher != Asking(b, c) {
        var t :| Holds(s, t, b, c);
        assert Holds(s', t, b, c);
      }
    }
  }

  lemma PoolsKeptByRequest(s: State, s': State, step: Step)
    requires PoolsInv(s) && OneHolder(s) && RequestStep(s, s', step)
    ensures PoolsInv(s')
  {
    RequestFrame(s, s', step);
    if step.Borrow? {
      HeldAfterBorrow(s, s', step.t);
      PoolTaken(s, s', s.requests[step.t].srv, s.live[s.requests[step.t].srv]);
    } else if step.GiveBack? {
      HeldAfterGiveBack(s, s', step.t);
      HeldByRequest(s, step.t, s.requests[step.t].srv, s.requests[step.t].conn);
      PoolGiven(s, s', s.requests[step.t].srv, s.live[s.requests[step.t].srv], s.requests[step.t].conn);
    } else {
      HeldUnchanged(s, s', step);
    }
    forall srv | srv in s'.live ensures PoolInv(s', srv, s'.live[srv]) {
      if s'.live[srv] == s.live[srv] && forall c :: Held(s', srv, c) <==> Held(s, srv, c) {
        PoolUntouched(s, s', srv, s.live[srv]);
      }
    }
  }

  lemma PoolBuilt(s: State, srv: ServerId, p: Pool)
    requires FreshPool(p, s.connNum)
    requires forall c :: !Held(s, srv, c)
    ensures PoolInv(s, srv, p)
  {
    Gathered(p);
  }

  lemma PoolPushed(s: State, s': State, srv: ServerId, p: Pool, c0: Conn)
    requires PoolInv(s, srv, p) && s'.connNum == s.connNum && |p.made| < s.connNum && c0 !in p.made
    requires (forall c :: !Held(s, srv, c)) && (forall c :: !Held(s', srv, c))
    ensures PoolInv(s', srv, Pool(p.idle + [c0], p.made + {c0}))
  {
    assert forall c :: c in p.idle + [c0] <==> c in p.idle || c == c0;
  }

  lemma PoolsKeptByAsk(s: State, s': State, srv: ServerId)
    requires PoolsInv(s) && s.requests == map[] && LoadStep(s, s', Ask(srv))
    ensures PoolsInv(s')
  {
    NothingHeld(s);
    var p := s.live[srv];
    assert forall b, c :: Held(s', b, c) <==> b == srv && c == p.idle[0];
    PoolTaken(s, s', srv, p);
    forall b | b in s'.live && b != srv ensures PoolInv(s', b, s'.live[b]) {
      PoolUntouched(s, s', b, s.live[b]);
    }
  }

  lemma PoolsKeptByAsked(s: State, s': State)
    requires PoolsInv(s) && s.requests == map[] && LoadStep(s, s', Asked)
    ensures PoolsInv(s')
  {
    NothingHeld(s');
    var Asking(srv, back) := s.refresher;
    assert forall b, c :: Held(s, b, c) <==> b == srv && c == back;
    PoolGiven(s, s', srv, s.live[srv], back);
    forall b | b in s'.live && b != srv ensures PoolInv(s', b, s'.live[b]) {
      PoolUntouched(s, s', b, s.live[b]);
    }
  }

  lemma PoolsKeptByLoad(s: State, s': State, step: Step)
    requires LockInv(s) && NamesInv(s) && PoolsInv(s) && LoadStep(s, s', step)
    ensures PoolsInv(s')
  {
    LoadFrame(s, s', step);
    if step.Ask? {
      PoolsKeptByAsk(s, s', step.srv);
    } else if step.Asked? {
      PoolsKeptByAsked(s, s');
    } else {
      NothingHeld(s);
      NothingHeld(s');
      forall b | b in s'.live ensures PoolInv(s', b, s'.live[b]) {
        if b in s.live && s'.live[b] == s.live[b] {
          PoolUntouched(s, s', b, s.live[b]);
        } else if step.Push? {
          PoolPushed(s, s', b, s.live[b], s.nextConn);
        } else {
          PoolBuilt(s', b, s'.live[b]);
        }
      }
    }
  }

  lemma HolderKeptByRequest(s: State, s': State, step: Step)
    requires LockInv(s) && RequestInv(s) && TableInv(s) && PoolsInv(s) && OneHolder(s) && RequestStep(s, s', step)
    ensures OneHolder(s')
  {
    if step.Borrow? {
      var srv := s.requests[step.t].srv;
      assert forall u, b, c :: u != step.t ==> (Holds(s', u, b, c) <==> Holds(s, u, b, c));
      assert forall u :: !Holds(s, u, srv, s.live[srv].idle[0]) by {
        assert PoolInv(s, srv, s.live[srv]);
        assert !Held(s, srv, s.live[srv].idle[0]);
      }
    } else {
      assert forall u, b, c :: Holds(s', u, b, c) ==> Holds(s, u, b, c);
    }
  }

  lemma RequestStepKeepsInv(s: State, s': State, step: Step)
    requires Inv(s) && RequestStep(s, s', step)
    ensures Inv(s')
  {
    RequestFrame(s, s', step);
    LockKeptByRequest(s, s', step);
    TableKeptByRequest(s, s');
    NamesKeptByRequest(s, s');
    RequestKeptByRequest(s, s', step);
    PoolsKeptByRequest(s, s', step);
    HolderKeptByRequest(s, s', step);
  }

  lemma ControlStepKeepsInv(s: State, s': State, step: Step)
    requires Inv(s) && ControlStep(s, s', step)
    ensures Inv(s')
  {
    ControlFrame(s, s', step);
    LockKeptByControl(s, s', step);
    ModeKeptByRefresh(s, s', step);
    assert forall t, srv, c :: Holds(s', t, srv, c) <==> Holds(s, t, srv, c);
    assert forall srv, c :: Held(s', srv, c) <==> Held(s, srv, c);
    forall srv | srv in s'.live ensures PoolInv(s', srv, s'.live[srv]) {
      PoolUntouched(s, s', srv, s.live[srv]);
    }
  }

  lemma LoadStepKeepsInv(s: State, s': State, step: Step)
    requires Inv(s) && LoadStep(s, s', step)
    ensures Inv(s')
  {
    LoadFrame(s, s', step);
    ModeKeptByRefresh(s, s', step);
    TableKeptByLoad(s, s', step);
    NamesKeptByLoad(s, s', step);
    RequestKeptByLoad(s, s', step);
    PoolsKeptByLoad(s, s', step);
  }

  /** Whatever thread moves next, the invariant holds again. */
  lemma StepKeepsInv(s: State, s': State)
    requires Inv(s) && Next(s, s')
    ensures Inv(s')
  {
    var step :| TakesStep(s, s', step);
    if RequestStep(s, s', step) {
      RequestStepKeepsInv(s, s', step);
    } else if ControlStep(s, s', step) {
      ControlStepKeepsInv(s, s', step);
    } else {
      LoadStepKeepsInv(s, s', step);
    }
  }

  lemma {:induction false} RunKeepsInv(run: seq<State>, i: nat)
    requires IsRun(run) && i < |run|
    ensures Inv(run[i])
  {
    if i == 0 {
      InitHolds(run[0]);
    } else {
      RunKeepsInv(run, i - 1);
      assert Follows(run, i - 1);
      StepKeepsInv(run[i - 1], run[i]);
    }
  }

  // What the runs are safe for.

  lemma ListedIsLive(s: State, srv: ServerId)
    requires Inv(s) && s.requests != map[] && srv in s.servers
    ensures srv in s.live
  {
    assert AllLive(s.servers, s.live);
    var i :| 0 <= i < |s.servers| && s.servers[i] == srv;
  }

  lemma UsedIsLive(s: State, t: Thread, srv: ServerId)
    requires Inv(s) && t in s.requests && Uses(s.requests[t], srv)
    ensures srv in s.servers && srv in s.live
  {
    ListedIsLive(s, srv);
  }

  /** Every server a request has matched or taken a connection of is allocated and in the current
      list, and whatever slot the request asks for, the server the table names is allocated too: the
      request never sees a table in the middle of a rebuild. */
  lemma RequestsUseLiveServers(run: seq<State>, i: nat, t: Thread, slot: int)
    requires IsRun(run) && i < |run| && t in run[i].requests
    ensures forall srv :: Uses(run[i].requests[t], srv) ==> srv in run[i].servers && srv in run[i].live
    ensures MatchedServer(run[i], slot).Some? ==> MatchedServer(run[i], slot).value in run[i].live
    ensures !Rebuilding(run[i].refresher) && Homed(run[i].table, run[i].servers)
    ensures !run[i].writer
  {
    RunKeepsInv(run, i);
    var s := run[i];
    MatchIsListed(s, slot);
    if MatchedServer(s, slot).Some? {
      ListedIsLive(s, MatchedServer(s, slot).value);
    }
    forall srv | Uses(s.requests[t], srv) ensures srv in s.servers && srv in s.live {
      UsedIsLive(s, t, srv);
    }
  }

  /** At every moment of every run, whether or not the client is marked valid, each region of the
      table names an allocated server. */
  lemma TableNamesLiveServers(run: seq<State>, i: nat, k: nat)
    requires IsRun(run) && i < |run| && k < |run[i].table|
    ensures run[i].table[k].server.Some? && run[i].table[k].server.value in run[i].live
  {
    RunKeepsInv(run, i);
    assert Homed(run[i].table, run[i].servers);
  }

  ghost function InFlight(s: State, srv: ServerId): set<Conn>
    requires srv in s.live
  {
    set c | c in s.live[srv].made && Held(s, srv, c)
  }

  lemma CountDistinct<T>(q: seq<T>)
    requires NoDup(q)
    ensures |set x | x in q| == |q|
  {
    if q == [] {
    } else {
      var rest := q[1..];
      assert forall i :: 0 <= i < |rest| ==> rest[i] == q[i + 1];
      CountDistinct(rest);
      assert (set x | x in q) == {q[0]} + (set x | x in rest);
    }
  }

  /** Idle plus in-flight connections are exactly those the last Initialize made, at most the
      configured number; none is both, and when the refresh thread holds the lock and is not itself
      asking for the slots, all are idle. */
  lemma PoolIsConserved(run: seq<State>, i: nat, srv: ServerId)
    requires IsRun(run) && i < |run| && srv in run[i].live
    ensures var p := run[i].live[srv];
            && |p.idle| + |InFlight(run[i], srv)| == |p.made| <= run[i].connNum
            && (forall c :: c in p.idle ==> !Held(run[i], srv, c))
            && (run[i].writer && !run[i].refresher.Asking? ==> |p.idle| == |p.made|)
  {
    RunKeepsInv(run, i);
    var s := run[i];
    var p := s.live[srv];
    assert PoolInv(s, srv, p);
    var idle := set c | c in p.idle;
    assert p.made == idle + InFlight(s, srv);
    assert idle !! InFlight(s, srv);
    CountDistinct(p.idle);
    if s.writer && !s.refresher.Asking? {
      NothingHeld(s);
      assert InFlight(s, srv) == {};
    }
  }

  /** A connection is never held twice, nor known to two servers. */
  lemma ConnectionHasOneHolder(run: seq<State>, i: nat, t: Thread, u: Thread, a: ServerId, b: ServerId, c: Conn)
    requires IsRun(run) && i < |run| && Holds(run[i], t, a, c) && Holds(run[i], u, b, c)
    ensures t == u && a == b && !run[i].refresher.Asking?
  {
    RunKeepsInv(run, i);
    var s := run[i];
    UsedIsLive(s, t, a);
    UsedIsLive(s, u, b);
    HeldByRequest(s, t, a, c);
    HeldByRequest(s, u, b, c);
    assert PoolInv(s, a, s.live[a]) && PoolInv(s, b, s.live[b]);
  }

  ghost predicate SameTable(s: State, s': State) {
    s'.version == s.version && s'.table == s.table && s'.servers == s.servers && s'.live.Keys == s.live.Keys
  }

  lemma TableHeldDuringStep(s: State, s': State)
    requires Inv(s) && Next(s, s') && s.requests != map[]
    ensures SameTable(s, s')
  {
    var step :| TakesStep(s, s', step);
    if RequestStep(s, s', step) {
      RequestFrame(s, s', step);
    } else if ControlStep(s, s', step) {
      ControlFrame(s, s', step);
    } else {
      LoadFrame(s, s', step);
    }
  }

  lemma TableHeldAt(run: seq<State>, k: nat, t: Thread)
    requires IsRun(run) && k + 1 < |run| && t in run[k].requests
    ensures SameTable(run[k], run[k + 1])
  {
    RunKeepsInv(run, k);
    assert Follows(run, k);
    TableHeldDuringStep(run[k], run[k + 1]);
  }

  lemma {:induction false} SameTableThroughout(run: seq<State>, i: nat, j: nat)
    requires i <= j < |run|
    requires forall k :: i <= k < j ==> SameTable(run[k], run[k + 1])
    ensures SameTable(run[i], run[j])
    decreases j
  {
    if i == j {
    } else {
      SameTableThroughout(run, i, j - 1);
      assert SameTable(run[j - 1], run[j - 1 + 1]);
    }
  }

  /** From the moment a request takes the lock until it gives it back, the table, the server list and
      the set of allocated servers stay as they were. */
  lemma OneTablePerRequest(run: seq<State>, i: nat, j: nat, t: Thread)
    requires IsRun(run) && i <= j < |run|
    requires forall k :: i <= k <= j ==> t in run[k].requests
    ensures SameTable(run[i], run[j])
  {
    forall k | i <= k < j ensures SameTable(run[k], run[k + 1]) {
      TableHeldAt(run, k, t);
    }
    SameTableThroughout(run, i, j);
  }

  /** A single-server client always has its server, so index 0 is in range whenever it is used. */
  lemma SingleServerIsKept(run: seq<State>, i: nat)
    requires IsRun(run) && i < |run| && !run[i].cluster
    ensures run[i].servers != [] && run[i].servers[0] in run[i].live
  {
    RunKeepsInv(run, i);
    assert !Rebuilding(run[i].refresher);
  }
}
