/** The slot table of the cluster client (Content/RedisClient.cpp): regions sorted by start slot,
    searched with `std::equal_range` and the heterogeneous comparator `CompSlot`. */
module SlotTable {
  import opened Bytes

  const SLOTS := 16384

  /** Servers are heap objects that the client deletes, so a pointer is modelled as a handle. */
  type ServerId = nat

  datatype SlotRegion = SlotRegion(first: int, last: int, host: ByteString, port: int, server: Option<ServerId>) {
    predicate Contains(slot: int) {
      first <= slot <= last
    }
  }

  ghost predicate SortedByStart(rs: seq<SlotRegion>) {
    forall i :: 0 <= i < |rs| - 1 ==> rs[i].first <= rs[i + 1].first
  }

  lemma {:induction false} SortedPair(rs: seq<SlotRegion>, i: nat, j: nat)
    requires SortedByStart(rs) && i <= j < |rs|
    ensures rs[i].first <= rs[j].first
  {
    if i == j {
    } else {
      SortedPair(rs, i, j - 1);
    }
  }

  /** Well-formed regions, in any order, no two of which share a slot. */
  ghost predicate Disjoint(rs: seq<SlotRegion>) {
    && (forall i :: 0 <= i < |rs| ==> rs[i].first <= rs[i].last)
    && (forall i, j :: 0 <= i < j < |rs| ==> rs[i].last < rs[j].first || rs[j].last < rs[i].first)
  }

  /** What binary search needs: the regions follow each other on the slot axis. */
  ghost predicate Ordered(rs: seq<SlotRegion>) {
    && (forall i :: 0 <= i < |rs| ==> rs[i].first <= rs[i].last)
    && (forall i, j :: 0 <= i < j < |rs| ==> rs[i].last < rs[j].first)
  }

  /** The reference: look at every region in turn. */
  ghost function LinearScan(rs: seq<SlotRegion>, slot: int): Option<ServerId> {
    if rs == [] then None
    else if rs[0].Contains(slot) then rs[0].server
    else LinearScan(rs[1..], slot)
  }

  ghost predicate Covered(rs: seq<SlotRegion>, slot: int) {
    exists i :: 0 <= i < |rs| && rs[i].Contains(slot)
  }

  method Insert(s: seq<SlotRegion>, r: SlotRegion) returns (s': seq<SlotRegion>)
    requires SortedByStart(s)
    ensures multiset(s') == multiset(s) + multiset{r} && SortedByStart(s')
  {
    var k := |s|;
    while k > 0 && r.first < s[k - 1].first
      invariant 0 <= k <= |s|
      invariant k < |s| ==> r.first < s[k].first
    {
      k := k - 1;
    }
    s' := s[..k] + [r] + s[k..];
    InsertedIsSorted(s, k, r);
    InsertedMultiset(s, k, r);
  }

  lemma InsertedMultiset<T>(s: seq<T>, k: nat, r: T)
    requires k <= |s|
    ensures multiset(s[..k] + [r] + s[k..]) == multiset(s) + multiset{r}
  {
    assert s == s[..k] + s[k..];
  }

  lemma InsertedIsSorted(s: seq<SlotRegion>, k: nat, r: SlotRegion)
    requires SortedByStart(s) && k <= |s|
    requires k < |s| ==> r.first < s[k].first
    requires k > 0 ==> s[k - 1].first <= r.first
    ensures SortedByStart(s[..k] + [r] + s[k..])
  {}

  /** `std::sort` with `operator<` on the start slot. */
  method Sort(rs: seq<SlotRegion>) returns (s: seq<SlotRegion>)
    ensures multiset(s) == multiset(rs) && SortedByStart(s)
  {
    s := [];
    for i := 0 to |rs|
      invariant multiset(s) == multiset(rs[..i]) && SortedByStart(s)
    {
      s := Insert(s, rs[i]);
      assert rs[..i + 1] == rs[..i] + [rs[i]];
    }
    assert rs[..|rs|] == rs;
  }

  /** First position whose region does not end before the slot. */
  method LowerBound(rs: seq<SlotRegion>, slot: int) returns (k: nat)
    requires Ordered(rs)
    ensures k <= |rs|
    ensures forall i :: 0 <= i < k ==> rs[i].last < slot
    ensures forall i :: k <= i < |rs| ==> slot <= rs[i].last
  {
    k := 0;
    var count := |rs|;
    while count > 0
      invariant k + count <= |rs| && 0 <= count
      invariant forall i :: 0 <= i < k ==> rs[i].last < slot
      invariant forall i :: k + count <= i < |rs| ==> slot <= rs[i].last
    {
      var half := count / 2;
      if rs[k + half].last < slot {
        k := k + half + 1;
        count := count - half - 1;
      } else {
        count := half;
      }
    }
  }

  /** First position, from `from` on, whose region starts after the slot. */
  method UpperBound(rs: seq<SlotRegion>, from: nat, slot: int) returns (k: nat)
    requires Ordered(rs) && from <= |rs|
    requires forall i :: 0 <= i < from ==> rs[i].first <= slot
    ensures from <= k <= |rs|
    ensures forall i :: 0 <= i < k ==> rs[i].first <= slot
    ensures forall i :: k <= i < |rs| ==> slot < rs[i].first
  {
    k := from;
    var count := |rs| - from;
    while count > 0
      invariant from <= k && k + count <= |rs| && 0 <= count
      invariant forall i :: 0 <= i < k ==> rs[i].first <= slot
      invariant forall i :: k + count <= i < |rs| ==> slot < rs[i].first
    {
      var half := count / 2;
      if !(slot < rs[k + half].first) {
        k := k + half + 1;
        count := count - half - 1;
      } else {
        count := half;
      }
    }
  }

  /** `CRedisClient::FindServer(int)`. */
  method FindServer(rs: seq<SlotRegion>, slot: int) returns (server: Option<ServerId>)
    requires Ordered(rs)
    ensures server == LinearScan(rs, slot)
    ensures Covered(rs, slot) <==> exists i :: 0 <= i < |rs| && rs[i].Contains(slot) && server == rs[i].server
  {
    var lo := LowerBound(rs, slot);
    var hi := UpperBound(rs, lo, slot);
    if lo != |rs| && lo != hi {
      server := rs[lo].server;
      assert rs[lo].Contains(slot);
      ScanFinds(rs, slot, lo);
    } else {
      server := None;
      assert !Covered(rs, slot);
      ScanMisses(rs, slot);
    }
  }

  lemma {:induction false} ScanFinds(rs: seq<SlotRegion>, slot: int, i: nat)
    requires i < |rs| && rs[i].Contains(slot)
    requires forall j :: 0 <= j < i ==> !rs[j].Contains(slot)
    ensures LinearScan(rs, slot) == rs[i].server
  {
    if i == 0 {
    } else {
      ScanFinds(rs[1..], slot, i - 1);
    }
  }

  lemma {:induction false} ScanMisses(rs: seq<SlotRegion>, slot: int)
    requires !Covered(rs, slot)
    ensures LinearScan(rs, slot) == None
  {
    if rs == [] {
    } else {
      assert forall i :: 0 <= i < |rs[1..]| ==> rs[1..][i] == rs[i + 1];
      assert !rs[0].Contains(slot);
      ScanMisses(rs[1..], slot);
    }
  }

  lemma {:induction false} NoCopies(rs: seq<SlotRegion>, r: SlotRegion)
    requires Disjoint(rs)
    ensures multiset(rs)[r] <= 1
  {
    if rs == [] {
    } else {
      var n := |rs| - 1;
      assert rs == rs[..n] + [rs[n]];
      NoCopies(rs[..n], r);
      assert rs[n] !in rs[..n];
    }
  }

  lemma {:induction false} TwoPositions(rs: seq<SlotRegion>, i: nat, j: nat)
    requires i < j < |rs| && rs[i] == rs[j]
    ensures multiset(rs)[rs[i]] >= 2
  {
    assert rs == rs[..j] + [rs[j]] + rs[j + 1..];
    assert rs[i] in rs[..j];
  }

  /** Sorting disjoint regions by start slot puts them in slot order. */
  lemma SortedDisjointIsOrdered(rs: seq<SlotRegion>, s: seq<SlotRegion>)
    requires Disjoint(rs) && multiset(s) == multiset(rs) && SortedByStart(s)
    ensures Ordered(s)
  {
    forall i | 0 <= i < |s| ensures s[i].first <= s[i].last {
      assert s[i] in multiset(s);
      assert s[i] in rs;
    }
    forall i, j | 0 <= i < j < |s| ensures s[i].last < s[j].first {
      assert s[i] in multiset(s) && s[j] in multiset(s);
      assert s[i] != s[j] by {
        NoCopies(rs, s[i]);
        if s[i] == s[j] { TwoPositions(s, i, j); }
      }
      SortedPair(s, i, j);
      var p :| 0 <= p < |rs| && rs[p] == s[i];
      var q :| 0 <= q < |rs| && rs[q] == s[j];
    }
  }

  /** Scanning disjoint regions gives the same answer whatever their order. */
  lemma ScanIgnoresOrder(rs: seq<SlotRegion>, s: seq<SlotRegion>, slot: int)
    requires Disjoint(rs) && multiset(s) == multiset(rs)
    ensures LinearScan(s, slot) == LinearScan(rs, slot)
    ensures Covered(s, slot) <==> Covered(rs, slot)
  {
    SameMembers(rs, s);
    if Covered(rs, slot) {
      var i := FirstCovering(rs, slot);
      var j := FirstCovering(s, slot);
      ScanFinds(rs, slot, i);
      ScanFinds(s, slot, j);
      var k :| 0 <= k < |rs| && rs[k] == s[j];
    } else {
      ScanMisses(rs, slot);
      ScanMisses(s, slot);
    }
  }

  lemma SameMembers(rs: seq<SlotRegion>, s: seq<SlotRegion>)
    requires multiset(s) == multiset(rs)
    ensures forall i :: 0 <= i < |s| ==> s[i] in rs
    ensures forall i :: 0 <= i < |rs| ==> rs[i] in s
  {
    forall i | 0 <= i < |s| ensures s[i] in rs { assert s[i] in multiset(s); }
    forall i | 0 <= i < |rs| ensures rs[i] in s { assert rs[i] in multiset(rs); }
  }

  lemma FirstCovering(rs: seq<SlotRegion>, slot: int) returns (i: nat)
    requires Covered(rs, slot)
    ensures i < |rs| && rs[i].Contains(slot) && forall j :: 0 <= j < i ==> !rs[j].Contains(slot)
  {
    i := 0;
    while !rs[i].Contains(slot)
      invariant i < |rs| && forall j :: 0 <= j < i ==> !rs[j].Contains(slot)
      invariant exists j :: i <= j < |rs| && rs[j].Contains(slot)
      decreases |rs| - i
    {
      i := i + 1;
    }
  }

  /** The table as the client builds and searches it: fetched regions in any order, sorted, then
      searched. The answer is the linear scan of the fetched list. */
  method SortAndFind(fetched: seq<SlotRegion>, slot: int) returns (server: Option<ServerId>)
    requires Disjoint(fetched)
    ensures server == LinearScan(fetched, slot)
  {
    var table := Sort(fetched);
    SortedDisjointIsOrdered(fetched, table);
    ScanIgnoresOrder(fetched, table, slot);
    server := FindServer(table, slot);
  }

  /** The owner found is that of the one region containing the slot; null comes back exactly when
      no region does (or that region has no server yet). */
  lemma OwnerIsUnique(rs: seq<SlotRegion>, slot: int, i: nat)
    requires Ordered(rs) && i < |rs| && rs[i].Contains(slot)
    ensures LinearScan(rs, slot) == rs[i].server
    ensures forall j :: 0 <= j < |rs| && rs[j].Contains(slot) ==> j == i
  {
    assert forall j :: 0 <= j < i ==> rs[j].last < rs[i].first;
    ScanFinds(rs, slot, i);
  }
}
