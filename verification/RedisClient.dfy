/** The routing state of the client (`CRedisClient`, Content/RedisClient.cpp): which server a command
    goes to. */
module RedisClients {
  import opened Bytes
  import opened SlotTable
  import opened HashSlots

  ghost function FirstUsable(servers: seq<ServerId>, usable: set<ServerId>): Option<ServerId> {
    if servers == [] then None
    else if servers[0] in usable then Some(servers[0])
    else FirstUsable(servers[1..], usable)
  }

  /** Server number i can be used, and none before it can. */
  ghost predicate IsFirstUsable(servers: seq<ServerId>, usable: set<ServerId>, i: nat) {
    i < |servers| && servers[i] in usable && forall j :: 0 <= j < i ==> servers[j] !in usable
  }

  lemma {:induction false} FirstUsableIff(servers: seq<ServerId>, usable: set<ServerId>)
    ensures FirstUsable(servers, usable).None? <==> forall i :: 0 <= i < |servers| ==> servers[i] !in usable
    ensures forall i: nat :: IsFirstUsable(servers, usable, i) ==> FirstUsable(servers, usable) == Some(servers[i])
  {
    if servers == [] {
    } else {
      var rest := servers[1..];
      FirstUsableIff(rest, usable);
      assert forall i :: 0 <= i < |rest| ==> rest[i] == servers[i + 1];
      forall i: nat | IsFirstUsable(servers, usable, i) ensures FirstUsable(servers, usable) == Some(servers[i]) {
        if i > 0 { assert IsFirstUsable(rest, usable, i - 1); }
      }
      if FirstUsable(servers, usable).None? {
        forall i | 0 <= i < |servers| ensures servers[i] !in usable {
          assert i > 0 ==> rest[i - 1] == servers[i];
        }
      }
    }
  }

  /** The server of a command: the only one when not clustered, the owner of its slot, or for a
      command without a slot the first usable one. */
  ghost function Route(cluster: bool, table: seq<SlotRegion>, servers: seq<ServerId>, usable: set<ServerId>, slot: int):
    Option<ServerId>
  {
    if !cluster then if servers == [] then None else Some(servers[0])
    else if slot != -1 then LinearScan(table, slot)
    else FirstUsable(servers, usable)
  }

  class RedisClient {
    var cluster: bool
    var vecSlot: seq<SlotRegion>
    var vecRedisServ: seq<ServerId>
    var usable: set<ServerId> // servers with an idle connection, `IsValid()`

    ghost predicate Valid()
      reads this
    {
      Ordered(vecSlot)
    }

    ghost function Matched(slot: int): Option<ServerId>
      reads this
    {
      Route(cluster, vecSlot, vecRedisServ, usable, slot)
    }

    constructor (cluster: bool, vecSlot: seq<SlotRegion>, vecRedisServ: seq<ServerId>, usable: set<ServerId>)
      requires Ordered(vecSlot)
      ensures Valid() && this.cluster == cluster && this.vecSlot == vecSlot
      ensures this.vecRedisServ == vecRedisServ && this.usable == usable
    {
      this.cluster := cluster;
      this.vecSlot := vecSlot;
      this.vecRedisServ := vecRedisServ;
      this.usable := usable;
    }

    method GetMatchedServer(slot: int) returns (server: Option<ServerId>)
      requires Valid()
      ensures server == Matched(slot)
      ensures cluster && slot == -1 ==>
                && (server.None? <==> forall i :: 0 <= i < |vecRedisServ| ==> vecRedisServ[i] !in usable)
                && (forall i: nat :: IsFirstUsable(vecRedisServ, usable, i) ==> server == Some(vecRedisServ[i]))
    {
      FirstUsableIff(vecRedisServ, usable);
      if !cluster { return if vecRedisServ == [] then None else Some(vecRedisServ[0]); }
      if slot != -1 {
        server := FindServer(vecSlot, slot);
        return;
      }
      for i := 0 to |vecRedisServ|
        invariant FirstUsable(vecRedisServ, usable) == FirstUsable(vecRedisServ[i..], usable)
      {
        if vecRedisServ[i] in usable { return Some(vecRedisServ[i]); }
      }
      return None;
    }

    /** `InSameNode`: clustered keys on different servers are in particular different keys. */
    method InSameNode(key1: ByteString, key2: ByteString) returns (same: bool)
      requires Valid()
      ensures same <==> !cluster || Matched(Slot(key1)) == Matched(Slot(key2))
      ensures !same ==> key1 != key2
    {
      if !cluster { return true; }
      var slot1 := HashSlot(key1);
      var slot2 := HashSlot(key2);
      var server1 := FindServer(vecSlot, slot1);
      var server2 := FindServer(vecSlot, slot2);
      return server1 == server2;
    }
  }
}
