/** `LoadClusterSlots` (Content/RedisClient.cpp): ask the known servers in turn for the slot map, build a
    server for every new address, and only then replace the table and the server list. */
module ClusterLoad {
  import opened Bytes
  import opened SlotTable
  import opened RedisStore
  import Refresh

  /** A server object: its address, and how many idle connections it holds. */
  datatype Server = Server(host: ByteString, port: int, idle: nat) {
    predicate IsValid() {
      idle > 0
    }
  }

  type Heap = map<ServerId, Server>

  function IntField(r: Reply): int {
    if r.IntegerReply? then r.n else 0
  }

  /** What the parser takes for granted: an entry with three fields has an address in the third. */
  ghost predicate HasAddress(r: Reply) {
    r.ArrayReply? && |r.elements| >= 3 ==>
      && r.elements[2].ArrayReply? && |r.elements[2].elements| >= 2
      && r.elements[2].elements[0].StringReply?
  }

  ghost predicate HasAddresses(r: Reply) {
    r.ArrayReply? ==> forall i :: 0 <= i < |r.elements| ==> HasAddress(r.elements[i])
  }

  predicate IsEntry(r: Reply) {
    r.ArrayReply? && |r.elements| >= 3
  }

  function Region(r: Reply): SlotRegion
    requires IsEntry(r) && HasAddress(r)
  {
    var address := r.elements[2].elements;
    SlotRegion(IntField(r.elements[0]), IntField(r.elements[1]), address[0].text, IntField(address[1]), None)
  }

  /** The slot map a reply describes, if it is one. */
  ghost predicate Describes(r: Reply, regions: seq<SlotRegion>)
    requires HasAddresses(r)
  {
    && r.ArrayReply? && |regions| == |r.elements|
    && forall i :: 0 <= i < |regions| ==> IsEntry(r.elements[i]) && regions[i] == Region(r.elements[i])
  }

  /** `FetchSlot`: on an entry it cannot read it stops, leaving the vector partly filled. */
  method FetchSlot(r: Reply, out: seq<SlotRegion>) returns (ret: int, out': seq<SlotRegion>)
    requires HasAddresses(r)
    ensures ret == RC_SUCCESS || ret == RC_REPLY_ERR
    ensures ret == RC_SUCCESS <==> r.ArrayReply? && forall i :: 0 <= i < |r.elements| ==> IsEntry(r.elements[i])
    ensures ret == RC_SUCCESS ==> Describes(r, out')
  {
    if !r.ArrayReply? { return RC_REPLY_ERR, out; }
    out' := [];
    for i := 0 to |r.elements|
      invariant |out'| == i
      invariant forall j :: 0 <= j < i ==> IsEntry(r.elements[j]) && out'[j] == Region(r.elements[j])
    {
      if !IsEntry(r.elements[i]) { return RC_REPLY_ERR, out'; }
      assert HasAddress(r.elements[i]);
      out' := out' + [Region(r.elements[i])];
    }
    return RC_SUCCESS, out';
  }

  /** What the network answers during one load: each server's reply to CLUSTER SLOTS (none if the
      request fails), and how many connections a new server at an address gets. */
  datatype World = World(answer: ServerId -> Option<Reply>, connect: (ByteString, int) -> nat)

  ghost predicate Sensible(w: World) {
    forall s :: w.answer(s).Some? ==> HasAddresses(w.answer(s).value)
  }

  ghost predicate Answers(w: World, s: ServerId, regions: seq<SlotRegion>)
    requires Sensible(w)
  {
    w.answer(s).Some? && Describes(w.answer(s).value, regions)
  }

  ghost predicate GivesNoTable(w: World, s: ServerId)
    requires Sensible(w)
  {
    forall regions :: !Answers(w, s, regions)
  }

  ghost predicate AllReachable(w: World, regions: seq<SlotRegion>) {
    forall i :: 0 <= i < |regions| ==> w.connect(regions[i].host, regions[i].port) > 0
  }

  /** The same regions with servers filled in. */
  ghost predicate Assigned(fetched: seq<SlotRegion>, regions: seq<SlotRegion>) {
    |regions| == |fetched| && forall i :: 0 <= i < |regions| ==> regions[i] == fetched[i].(server := regions[i].server)
  }

  /** Every region has a server of the list, with the region's own address. */
  ghost predicate AtItsAddress(heap: Heap, servers: seq<ServerId>, r: SlotRegion) {
    && r.server.Some? && r.server.value in servers && r.server.value in heap
    && heap[r.server.value].host == r.host && heap[r.server.value].port == r.port
  }

  /** Live servers with idle connections, no two at one address. */
  ghost predicate ServerList(heap: Heap, servers: seq<ServerId>) {
    && (forall i :: 0 <= i < |servers| ==> servers[i] in heap && heap[servers[i]].IsValid())
    && (forall i, j :: 0 <= i < j < |servers| ==>
          (heap[servers[i]].host, heap[servers[i]].port) != (heap[servers[j]].host, heap[servers[j]].port))
  }

  /** No server without a region of its own. */
  ghost predicate AllUsed(servers: seq<ServerId>, regions: seq<SlotRegion>) {
    forall s :: s in servers ==> HasRegion(s, regions)
  }

  ghost predicate HasRegion(s: ServerId, regions: seq<SlotRegion>) {
    exists r :: r in regions && r.server == Some(s)
  }

  lemma UsedBySorted(servers: seq<ServerId>, regions: seq<SlotRegion>, sorted: seq<SlotRegion>)
    requires AllUsed(servers, regions) && multiset(sorted) == multiset(regions)
    ensures AllUsed(servers, sorted)
  {
    forall s | s in servers ensures HasRegion(s, sorted) {
      var r :| r in regions && r.server == Some(s);
      assert r in multiset(sorted);
    }
  }

  lemma NoneUsed(servers: seq<ServerId>)
    ensures AllUsed(servers, []) ==> servers == []
  {
    if servers != [] {
      assert servers[0] in servers && !HasRegion(servers[0], []);
    }
  }

  lemma UsedNext(servers: seq<ServerId>, regions: seq<SlotRegion>, servers': seq<ServerId>, r: SlotRegion)
    requires AllUsed(servers, regions) && forall s :: s in servers' ==> s in servers || r.server == Some(s)
    ensures AllUsed(servers', regions + [r])
  {
    forall s | s in servers' ensures HasRegion(s, regions + [r]) {
      if s in servers {
        var q :| q in regions && q.server == Some(s);
        assert q in regions + [r];
      } else {
        assert r in regions + [r];
      }
    }
  }

  ghost predicate Bounded(heap: Heap, nextId: ServerId) {
    forall s :: s in heap ==> s < nextId
  }

  /** No server object was lost or changed. */
  ghost predicate Grown(before: Heap, after: Heap) {
    forall s :: s in before ==> s in after && after[s] == before[s]
  }

  /** Every server object is an old one or one of the list. */
  ghost predicate Accounted(before: Heap, after: Heap, servers: seq<ServerId>) {
    forall s :: s in after ==> s in before || s in servers
  }

  /** Beside those, the newest object may have been left behind. */
  ghost predicate OneLeftBehind(before: Heap, after: Heap, servers: seq<ServerId>, nextId: ServerId) {
    forall s :: s in after ==> s in before || s in servers || s == nextId - 1
  }

  /** `FindServer` by address. */
  method FindByAddress(heap: Heap, servers: seq<ServerId>, host: ByteString, port: int) returns (s: Option<ServerId>)
    requires forall i :: 0 <= i < |servers| ==> servers[i] in heap
    ensures s.Some? ==> s.value in servers && heap[s.value].host == host && heap[s.value].port == port
    ensures s.None? ==> forall i :: 0 <= i < |servers| ==> (heap[servers[i]].host, heap[servers[i]].port) != (host, port)
  {
    for i := 0 to |servers|
      invariant forall j :: 0 <= j < i ==> (heap[servers[j]].host, heap[servers[j]].port) != (host, port)
    {
      if heap[servers[i]].host == host && heap[servers[i]].port == port { return Some(servers[i]); }
    }
    return None;
  }

  /** The state of the inner loop: the servers built so far, all reachable, and the regions served. */
  ghost predicate Building(heap0: Heap, id0: ServerId, heap: Heap, nextId: ServerId, servers: seq<ServerId>, w: World) {
    && Bounded(heap, nextId) && id0 <= nextId && Grown(heap0, heap) && ServerList(heap, servers)
    && (forall j :: 0 <= j < |servers| ==> id0 <= servers[j])
    && (forall j :: 0 <= j < |servers| ==> w.connect(heap[servers[j]].host, heap[servers[j]].port) > 0)
  }

  /** One region: an existing server at its address, or a new one if that gets a connection. */
  method ServerFor(ghost heap0: Heap, ghost id0: ServerId, heap: Heap, nextId: ServerId, servers: seq<ServerId>, r: SlotRegion, w: World)
    returns (s: Option<ServerId>, heap': Heap, nextId': ServerId, servers': seq<ServerId>)
    requires Building(heap0, id0, heap, nextId, servers, w)
    ensures Building(heap0, id0, heap', nextId', servers', w) && Grown(heap, heap')
    ensures s.Some? <==> w.connect(r.host, r.port) > 0
    ensures s.Some? ==> AtItsAddress(heap', servers', r.(server := s)) && servers <= servers'
    ensures s.Some? ==> forall x :: x in servers' ==> x in servers || s == Some(x)
    ensures s.Some? && Accounted(heap0, heap, servers) ==> Accounted(heap0, heap', servers')
    ensures s.None? && Accounted(heap0, heap, servers) ==> OneLeftBehind(heap0, heap', servers', nextId')
  {
    heap', nextId', servers' := heap, nextId, servers;
    s := FindByAddress(heap, servers, r.host, r.port);
    if s.None? {
      var idle := w.connect(r.host, r.port);
      heap' := heap[nextId := Server(r.host, r.port, idle)];
      nextId' := nextId + 1;
      if idle > 0 {
        s := Some(nextId);
        servers' := servers + [nextId];
      }
    }
  }

  ghost predicate AllAtTheirAddresses(heap: Heap, servers: seq<ServerId>, regions: seq<SlotRegion>) {
    forall i :: 0 <= i < |regions| ==> AtItsAddress(heap, servers, regions[i])
  }

  lemma AddressesGrow(heap: Heap, heap': Heap, servers: seq<ServerId>, servers': seq<ServerId>,
      regions: seq<SlotRegion>, r: SlotRegion)
    requires AllAtTheirAddresses(heap, servers, regions) && Grown(heap, heap') && servers <= servers'
    requires AtItsAddress(heap', servers', r)
    ensures AllAtTheirAddresses(heap', servers', regions + [r])
  {
    forall i | 0 <= i < |regions| ensures AtItsAddress(heap', servers', regions[i]) {
      assert AtItsAddress(heap, servers, regions[i]);
      assert regions[i].server.value in servers'[..|servers|];
    }
  }

  /** Sorting the regions and deleting other servers leaves every region at its address. */
  lemma StillAtTheirAddresses(heap: Heap, heap': Heap, servers: seq<ServerId>, regions: seq<SlotRegion>,
      sorted: seq<SlotRegion>)
    requires AllAtTheirAddresses(heap, servers, regions) && multiset(sorted) == multiset(regions)
    requires forall s :: s in servers && s in heap ==> s in heap' && heap'[s] == heap[s]
    ensures AllAtTheirAddresses(heap', servers, sorted)
  {
    SameMembers(regions, sorted);
    forall i | 0 <= i < |sorted| ensures AtItsAddress(heap', servers, sorted[i]) {
      assert sorted[i] in regions;
    }
  }

  /** The inner loop: a server for every fetched region. It stops at the first address that gives no
      connection; that server object is left behind. */
  method AssignServers(heap0: Heap, id0: ServerId, fetched: seq<SlotRegion>, w: World)
    returns (ok: bool, heap: Heap, nextId: ServerId, regions: seq<SlotRegion>, servers: seq<ServerId>)
    requires Bounded(heap0, id0)
    ensures Building(heap0, id0, heap, nextId, servers, w)
    ensures ok <==> AllReachable(w, fetched)
    ensures ok ==> Assigned(fetched, regions) && AllAtTheirAddresses(heap, servers, regions)
    ensures ok ==> Accounted(heap0, heap, servers) && AllUsed(servers, regions)
    ensures !ok ==> OneLeftBehind(heap0, heap, servers, nextId)
  {
    heap, nextId, regions, servers := heap0, id0, [], [];
    for i := 0 to |fetched|
      invariant Building(heap0, id0, heap, nextId, servers, w)
      invariant AllReachable(w, fetched[..i]) && Assigned(fetched[..i], regions)
      invariant Accounted(heap0, heap, servers) && AllUsed(servers, regions)
      invariant AllAtTheirAddresses(heap, servers, regions)
    {
      ghost var heap1, servers1 := heap, servers;
      var s;
      s, heap, nextId, servers := ServerFor(heap0, id0, heap, nextId, servers, fetched[i], w);
      if s.None? { return false, heap, nextId, regions, servers; }
      AddressesGrow(heap1, heap, servers1, servers, regions, fetched[i].(server := s));
      PrefixNext(fetched, i);
      UsedNext(servers1, regions, servers, fetched[i].(server := s));
      regions := regions + [fetched[i].(server := s)];
    }
    ok := true;
    assert fetched[..|fetched|] == fetched;
  }

  class ClusterClient {
    var vecSlot: seq<SlotRegion>
    var vecRedisServ: seq<ServerId>
    var heap: Heap        // the live server objects
    var nextId: ServerId

    ghost predicate Valid()
      reads this
    {
      && Bounded(heap, nextId)
      && (forall i :: 0 <= i < |vecRedisServ| ==> vecRedisServ[i] in heap)
    }

    /** Server objects are deleted one by one; the others stay as they are. */
    method DeleteServers(servers: seq<ServerId>)
      modifies this`heap
      ensures heap == old(heap) - (set i | 0 <= i < |servers| :: servers[i])
    {
      for i := 0 to |servers|
        invariant heap == old(heap) - (set j | 0 <= j < i :: servers[j])
      {
        heap := heap - {servers[i]};
      }
    }

    /** `CleanServer`: the table is emptied before the first server is deleted. */
    method CleanServer()
      modifies this
      ensures vecSlot == [] && vecRedisServ == [] && nextId == old(nextId)
      ensures heap == old(heap) - (set i | 0 <= i < |old(vecRedisServ)| :: old(vecRedisServ)[i])
    {
      vecSlot := [];
      DeleteServers(vecRedisServ);
      vecRedisServ := [];
    }

    /** `LoadClusterSlots`, all or nothing. It succeeds exactly when the first server in the list that
        gives a table comes with no unusable server up to it and names only reachable addresses.
        Then the table is a sorted permutation of what was fetched, each region homed at its own address
        in a list of live servers with distinct addresses, and exactly the servers listed before are gone.
        On failure table and list are untouched, and at most one new server object is left behind, none if no
        server gave a table. */
    method LoadClusterSlots(w: World) returns (ok: bool, ghost fetched: seq<SlotRegion>, ghost regions: seq<SlotRegion>)
      requires Valid() && Sensible(w)
      modifies this
      ensures Valid()
      ensures ok <==> exists i: nat, rs :: Chosen(old(vecRedisServ), old(heap), w, i, rs) && AllReachable(w, rs)
      ensures ok ==>
                && (exists i: nat :: Chosen(old(vecRedisServ), old(heap), w, i, fetched))
                && Assigned(fetched, regions)
                && multiset(vecSlot) == multiset(regions) && SortedByStart(vecSlot)
                && ServerList(heap, vecRedisServ) && (forall i :: 0 <= i < |vecRedisServ| ==> old(nextId) <= vecRedisServ[i])
                && AllAtTheirAddresses(heap, vecRedisServ, vecSlot)
                && AllUsed(vecRedisServ, vecSlot)
                && (forall i :: 0 <= i < |old(vecRedisServ)| ==> old(vecRedisServ)[i] !in heap)
                && (forall s :: s in heap <==> s in vecRedisServ || (s in old(heap) && s !in old(vecRedisServ)))
      ensures !ok ==> vecSlot == old(vecSlot) && vecRedisServ == old(vecRedisServ)
                      && Grown(old(heap), heap)
                      && (forall s :: s in heap && s !in old(heap) ==> s == nextId - 1)
      ensures (forall i: nat, rs :: !Chosen(old(vecRedisServ), old(heap), w, i, rs)) ==> heap == old(heap)
    {
      var raw: seq<SlotRegion> := [];
      var i := 0;
      while i < |vecRedisServ|
        invariant 0 <= i <= |vecRedisServ| && vecSlot == old(vecSlot) && vecRedisServ == old(vecRedisServ)
        invariant heap == old(heap) && nextId == old(nextId)
        invariant forall j :: 0 <= j < i ==> heap[vecRedisServ[j]].IsValid() && GivesNoTable(w, vecRedisServ[j])
      {
        var srv := vecRedisServ[i];
        if !heap[srv].IsValid() {
          NoneChosen(vecRedisServ, heap, w, i);
          return false, [], [];
        }
        var reply := w.answer(srv);
        var ret := RC_RQST_ERR;
        if reply.Some? { ret, raw := FetchSlot(reply.value, raw); }
        if ret == RC_SUCCESS {
          assert Chosen(old(vecRedisServ), old(heap), w, i, raw);
          ChosenIsUnique(old(vecRedisServ), old(heap), w, i, raw);
          ok, fetched, regions := Replace(w, raw, i);
          return;
        }
        i := i + 1;
      }
      NoneChosen(vecRedisServ, heap, w, i);
      return false, [], [];
    }

    /** An empty slot map from the first server is a table like any other: the load succeeds, every server is
        deleted, and with none left to ask every load after it fails. */
    method LoadEmptyThenAny(w: World, later: World) returns (first: bool, second: bool)
      requires Valid() && Sensible(w) && Sensible(later) && vecRedisServ != [] && heap[vecRedisServ[0]].IsValid()
      requires w.answer(vecRedisServ[0]) == Some(ArrayReply([]))
      modifies this
      ensures Valid() && first && !second
      ensures vecSlot == [] && vecRedisServ == []
      ensures forall s :: s in heap <==> s in old(heap) && s !in old(vecRedisServ)
    {
      EmptyMapIsChosen(vecRedisServ, heap, w);
      ghost var fetched, regions;
      first, fetched, regions := LoadClusterSlots(w);
      assert regions == [] && |vecSlot| == |multiset(vecSlot)|;
      NoneUsed(vecRedisServ);
      second, fetched, regions := LoadClusterSlots(later);
    }

    /** The branch taken once a table has been fetched. */
    method Replace(w: World, raw: seq<SlotRegion>, ghost i: nat) returns (ok: bool, ghost fetched: seq<SlotRegion>, ghost regions: seq<SlotRegion>)
      requires Valid() && Sensible(w) && Chosen(vecRedisServ, heap, w, i, raw)
      modifies this
      ensures Valid() && fetched == raw
      ensures ok <==> AllReachable(w, raw)
      ensures ok ==>
                && Assigned(fetched, regions)
                && multiset(vecSlot) == multiset(regions) && SortedByStart(vecSlot)
                && ServerList(heap, vecRedisServ) && (forall i :: 0 <= i < |vecRedisServ| ==> old(nextId) <= vecRedisServ[i])
                && AllAtTheirAddresses(heap, vecRedisServ, vecSlot)
                && AllUsed(vecRedisServ, vecSlot)
                && (forall i :: 0 <= i < |old(vecRedisServ)| ==> old(vecRedisServ)[i] !in heap)
                && (forall s :: s in heap <==> s in vecRedisServ || (s in old(heap) && s !in old(vecRedisServ)))
      ensures !ok ==> vecSlot == old(vecSlot) && vecRedisServ == old(vecRedisServ)
                      && Grown(old(heap), heap)
                      && (forall s :: s in heap && s !in old(heap) ==> s == nextId - 1)
    {
      fetched := raw;
      var homed, servers;
      ok, heap, nextId, homed, servers := AssignServers(heap, nextId, raw, w);
      regions := homed;
      if !ok {
        DeleteServers(servers);
        return;
      }
      ghost var built := heap;
      CleanServer();
      var sorted := Sort(homed);
      vecRedisServ := servers;
      vecSlot := sorted;
      StillAtTheirAddresses(built, heap, servers, homed, sorted);
      UsedBySorted(servers, homed, sorted);
    }
  }

  /** Server number i is the first that gives a table, and no server up to it is unusable. */
  ghost predicate Chosen(servers: seq<ServerId>, heap: Heap, w: World, i: nat, regions: seq<SlotRegion>)
    requires Sensible(w)
  {
    && i < |servers|
    && (forall j :: 0 <= j <= i ==> servers[j] in heap && heap[servers[j]].IsValid())
    && (forall j :: 0 <= j < i ==> GivesNoTable(w, servers[j]))
    && Answers(w, servers[i], regions)
  }

  lemma EmptyMapIsChosen(servers: seq<ServerId>, heap: Heap, w: World)
    requires Sensible(w) && servers != [] && servers[0] in heap && heap[servers[0]].IsValid()
    requires w.answer(servers[0]) == Some(ArrayReply([]))
    ensures Chosen(servers, heap, w, 0, []) && AllReachable(w, [])
    ensures forall k: nat, rs :: Chosen(servers, heap, w, k, rs) ==> rs == []
  {
    assert Answers(w, servers[0], []);
    ChosenIsUnique(servers, heap, w, 0, []);
  }

  lemma ChosenIsUnique(servers: seq<ServerId>, heap: Heap, w: World, i: nat, regions: seq<SlotRegion>)
    requires Sensible(w) && Chosen(servers, heap, w, i, regions)
    ensures forall k: nat, rs :: Chosen(servers, heap, w, k, rs) ==> k == i && rs == regions
  {
    forall k: nat, rs | Chosen(servers, heap, w, k, rs) ensures k == i && rs == regions {
      assert k < i ==> GivesNoTable(w, servers[k]);
      assert i < k ==> GivesNoTable(w, servers[i]);
      assert rs == regions;
    }
  }

  lemma NoneChosen(servers: seq<ServerId>, heap: Heap, w: World, i: nat)
    requires Sensible(w) && i <= |servers|
    requires forall j :: 0 <= j < i ==> GivesNoTable(w, servers[j])
    requires i < |servers| ==> servers[i] in heap && !heap[servers[i]].IsValid()
    ensures forall k: nat, rs :: !Chosen(servers, heap, w, k, rs)
  {}

  /** A table loaded from regions that do not overlap can be searched, and finds for every slot the
      server of the one fetched region that holds it. */
  lemma LoadedTableIsSearchable(fetched: seq<SlotRegion>, regions: seq<SlotRegion>, table: seq<SlotRegion>, slot: int)
    requires Disjoint(fetched) && Assigned(fetched, regions)
    requires multiset(table) == multiset(regions) && SortedByStart(table)
    ensures Ordered(table)
    ensures LinearScan(table, slot) == LinearScan(regions, slot)
    ensures Covered(table, slot) <==> Covered(fetched, slot)
  {
    assert Disjoint(regions);
    SortedDisjointIsOrdered(regions, table);
    ScanIgnoresOrder(regions, table, slot);
    assert Covered(regions, slot) <==> Covered(fetched, slot) by {
      assert forall i :: 0 <= i < |regions| ==> regions[i].Contains(slot) == fetched[i].Contains(slot);
    }
  }

  /** A successful load is what the refresh protocol builds: servers not known before, every region at one of
      them, and for each of them the connections its own Initialize made. */
  lemma LoadIsBuilt(s: Refresh.State, heap: Heap, table: seq<SlotRegion>, servers: seq<ServerId>,
      pools: map<ServerId, Refresh.Pool>)
    requires ServerList(heap, servers) && forall i :: 0 <= i < |servers| ==> s.nextServer <= servers[i]
    requires AllAtTheirAddresses(heap, servers, table)
    requires pools.Keys == set srv | srv in servers
    requires forall srv :: srv in pools ==> Refresh.FreshPool(pools[srv], s.connNum)
    requires forall srv, c :: srv in pools && c in pools[srv].made ==> s.nextConn <= c
    requires forall a, b, c :: a in pools && b in pools && c in pools[a].made && c in pools[b].made ==> a == b
    ensures Refresh.Built(s, table, servers, pools)
  {
    forall i | 0 <= i < |table| ensures table[i].server.Some? && table[i].server.value in servers {
      assert AtItsAddress(heap, servers, table[i]);
    }
    forall srv | srv in pools ensures s.nextServer <= srv {
      assert srv in servers;
    }
  }
}
