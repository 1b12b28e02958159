/** The CLUSTER SLOTS reply as a server prints it, read back (`FetchSlot`, `LoadClusterSlots` and `FindServer` of
    Content/RedisClient.cpp). */
module SlotMaps {
  import opened Bytes
  import opened SlotTable
  import opened RedisStore
  import opened ClusterLoad

  /** A range of slots and the address it is served at. */
  datatype Range = Range(start: int, end: int, host: ByteString, port: int)

  /** What an entry may hold beyond that: more about the address, and replicas. */
  datatype More = More(address: seq<Reply>, replicas: seq<Reply>)

  function PrintEntry(range: Range, more: More): Reply {
    ArrayReply([IntegerReply(range.start), IntegerReply(range.end),
                ArrayReply([StringReply(range.host), IntegerReply(range.port)] + more.address)]
               + more.replicas)
  }

  function Print(ranges: seq<Range>, more: seq<More>): Reply
    requires |more| == |ranges|
  {
    ArrayReply(seq(|ranges|, i requires 0 <= i < |ranges| => PrintEntry(ranges[i], more[i])))
  }

  ghost predicate Reads(ranges: seq<Range>, regions: seq<SlotRegion>) {
    && |regions| == |ranges|
    && forall i :: 0 <= i < |regions| ==>
         && regions[i].first == ranges[i].start && regions[i].last == ranges[i].end
         && regions[i].host == ranges[i].host && regions[i].port == ranges[i].port && regions[i].server == None
  }

  lemma PrintedIsDescribed(ranges: seq<Range>, more: seq<More>, regions: seq<SlotRegion>)
    requires |more| == |ranges|
    ensures HasAddresses(Print(ranges, more))
    ensures Describes(Print(ranges, more), regions) <==> Reads(ranges, regions)
  {
  }

  /** A field that should hold a number and does not is read as zero. */
  lemma OtherFieldsReadAsZero(r: Reply, regions: seq<SlotRegion>, i: nat)
    requires HasAddresses(r) && Describes(r, regions) && i < |regions|
    ensures !r.elements[i].elements[0].IntegerReply? ==> regions[i].first == 0
    ensures !r.elements[i].elements[1].IntegerReply? ==> regions[i].last == 0
    ensures !r.elements[i].elements[2].elements[1].IntegerReply? ==> regions[i].port == 0
  {
    assert IsEntry(r.elements[i]) && HasAddress(r.elements[i]);
  }

  /** What is printed is read back, in order, whatever else the entries hold. */
  method FetchPrinted(ranges: seq<Range>, more: seq<More>, out: seq<SlotRegion>)
    returns (ret: int, regions: seq<SlotRegion>)
    requires |more| == |ranges|
    ensures ret == RC_SUCCESS && Reads(ranges, regions)
  {
    PrintedIsDescribed(ranges, more, []);
    ret, regions := FetchSlot(Print(ranges, more), out);
    PrintedIsDescribed(ranges, more, regions);
  }

  ghost predicate DisjointRanges(ranges: seq<Range>) {
    && (forall i :: 0 <= i < |ranges| ==> ranges[i].start <= ranges[i].end)
    && (forall i, j :: 0 <= i < j < |ranges| ==> ranges[i].end < ranges[j].start || ranges[j].end < ranges[i].start)
  }

  ghost predicate ServedAt(heap: Heap, server: Option<ServerId>, host: ByteString, port: int) {
    server.Some? && server.value in heap && heap[server.value].host == host && heap[server.value].port == port
  }

  /** A slot of a range has a server at exactly that range's address, and a slot of none has no server. */
  ghost predicate SlotServed(heap: Heap, server: Option<ServerId>, ranges: seq<Range>, slot: int) {
    && (forall i :: 0 <= i < |ranges| && ranges[i].start <= slot <= ranges[i].end ==>
          ServedAt(heap, server, ranges[i].host, ranges[i].port))
    && ((forall i :: 0 <= i < |ranges| ==> !(ranges[i].start <= slot <= ranges[i].end)) ==> server == None)
  }

  lemma LoadedServes(heap: Heap, servers: seq<ServerId>, ranges: seq<Range>, fetched: seq<SlotRegion>,
      regions: seq<SlotRegion>, table: seq<SlotRegion>, slot: int)
    requires DisjointRanges(ranges) && Reads(ranges, fetched)
    requires Assigned(fetched, regions) && AllAtTheirAddresses(heap, servers, table)
    requires multiset(table) == multiset(regions) && SortedByStart(table)
    ensures Ordered(table) && SlotServed(heap, LinearScan(table, slot), ranges, slot)
  {
    assert Disjoint(fetched);
    LoadedTableIsSearchable(fetched, regions, table, slot);
    SameMembers(regions, table);
    forall i | 0 <= i < |ranges| && ranges[i].start <= slot <= ranges[i].end
      ensures ServedAt(heap, LinearScan(table, slot), ranges[i].host, ranges[i].port)
    {
      assert regions[i] in table;
      var k :| 0 <= k < |table| && table[k] == regions[i];
      OwnerIsUnique(table, slot, k);
      assert AtItsAddress(heap, servers, table[k]);
    }
    if !Covered(table, slot) {
      ScanMisses(table, slot);
    }
  }

  /** A client whose first server prints ranges that do not overlap, at addresses that can be reached, serves every
      slot of a range at exactly that range's address, and no other slot. */
  method LoadPrintedAndFind(client: ClusterClient, w: World, ranges: seq<Range>, more: seq<More>, slot: int)
    returns (ok: bool, server: Option<ServerId>)
    requires client.Valid() && Sensible(w) && |more| == |ranges| && DisjointRanges(ranges)
    requires client.vecRedisServ != [] && client.heap[client.vecRedisServ[0]].IsValid()
    requires w.answer(client.vecRedisServ[0]) == Some(Print(ranges, more))
    requires forall i :: 0 <= i < |ranges| ==> w.connect(ranges[i].host, ranges[i].port) > 0
    modifies client
    ensures ok && client.Valid()
    ensures SlotServed(client.heap, server, ranges, slot)
  {
    ghost var printed := Printed(ranges, more, w, client.vecRedisServ, client.heap);
    ghost var fetched, regions;
    ok, fetched, regions := client.LoadClusterSlots(w);
    LoadedServes(client.heap, client.vecRedisServ, ranges, fetched, regions, client.vecSlot, slot);
    server := FindServer(client.vecSlot, slot);
  }

  lemma Printed(ranges: seq<Range>, more: seq<More>, w: World, servers: seq<ServerId>, heap: Heap)
    returns (regions: seq<SlotRegion>)
    requires |more| == |ranges| && Sensible(w)
    requires servers != [] && servers[0] in heap && heap[servers[0]].IsValid()
    requires w.answer(servers[0]) == Some(Print(ranges, more))
    requires forall i :: 0 <= i < |ranges| ==> w.connect(ranges[i].host, ranges[i].port) > 0
    ensures Reads(ranges, regions) && Chosen(servers, heap, w, 0, regions) && AllReachable(w, regions)
    ensures forall k: nat, rs :: Chosen(servers, heap, w, k, rs) ==> rs == regions
  {
    regions := seq(|ranges|, i requires 0 <= i < |ranges| =>
      SlotRegion(ranges[i].start, ranges[i].end, ranges[i].host, ranges[i].port, None));
    PrintedIsDescribed(ranges, more, regions);
    assert Answers(w, servers[0], regions);
    ChosenIsUnique(servers, heap, w, 0, regions);
  }
}
