/** One chat room (Content/room.h, Content/room.cpp): its list of users and the notifications it sends. */
module Rooms {
  import opened Bytes
  import opened Users
  import opened Chats

  /** `SendPacketFunc`: everything handed to the network, in order. */
  class Wire {
    var log: seq<Sent>

    constructor ()
      ensures log == []
    {
      log := [];
    }

    method SendPacket(to: int, n: Notice)
      modifies this
      ensures log == old(log) + [Sent(to, n)]
    {
      log := log + [Sent(to, n)];
    }
  }

  /** The pool of user objects: the one at index i serves session i. */
  predicate IsPool(pool: seq<User>) {
    forall i :: 0 <= i < |pool| ==> pool[i].sessionIdx == i
  }

  predicate Pooled(pool: seq<User>, u: User) {
    0 <= u.sessionIdx < |pool| && pool[u.sessionIdx] == u
  }

  predicate AllPooled(pool: seq<User>, list: seq<User>) {
    forall k :: 0 <= k < |list| ==> Pooled(pool, list[k])
  }

  ghost function ProfileOf(u: User): Profile
    reads u
  {
    Profile(u.roomIdx, u.userId, u.confirmed, u.domain)
  }

  ghost function Profiles(pool: seq<User>): (ps: seq<Profile>)
    reads pool
    ensures |ps| == |pool|
    ensures forall i :: 0 <= i < |pool| ==> ps[i] == ProfileOf(pool[i])
  {
    seq(|pool|, i requires 0 <= i < |pool| reads pool => ProfileOf(pool[i]))
  }

  ghost function Indices(list: seq<User>): (ix: seq<int>)
    ensures |ix| == |list|
    ensures forall k :: 0 <= k < |list| ==> ix[k] == list[k].sessionIdx
  {
    seq(|list|, k requires 0 <= k < |list| => list[k].sessionIdx)
  }

  lemma IndicesNext(list: seq<User>, u: User)
    ensures Indices(list + [u]) == Indices(list) + [u.sessionIdx]
  {
  }

  class Room {
    const roomIdx: int
    const wire: Wire
    const maxUserCnt := ROOM_MAX_USER_CNT
    var userList: seq<User>
    var currentUserCnt: nat // only ever counts up; nothing reads it

    ghost predicate Valid(pool: seq<User>)
      reads this
    {
      IsPool(pool) && AllPooled(pool, userList) && currentUserCnt < 0x1_0000
    }

    constructor (roomIdx: int, wire: Wire)
      ensures this.roomIdx == roomIdx && this.wire == wire && userList == [] && currentUserCnt == 0
    {
      this.roomIdx := roomIdx;
      this.wire := wire;
      userList := [];
      currentUserCnt := 0;
    }

    method BroadcastMsg(n: Notice, pass: int, exceptMe: bool)
      modifies wire
      ensures wire.log == old(wire.log) + Broadcast(Indices(userList), n, pass, exceptMe)
    {
      ghost var list := Indices(userList);
      for k := 0 to |userList|
        invariant wire.log == old(wire.log) + Broadcast(list[..k], n, pass, exceptMe)
      {
        assert list[..k + 1][..k] == list[..k];
        if !(exceptMe && AsComparedIndex(userList[k].sessionIdx) == pass) {
          wire.SendPacket(userList[k].sessionIdx, n);
        }
      }
      assert list[..|userList|] == list;
    }

    method NotifyNewUser(u: User)
      modifies wire
      ensures wire.log == old(wire.log) + Broadcast(Indices(userList), NewUser(Entry(u.sessionIdx, u.userId)), u.sessionIdx, true)
    {
      BroadcastMsg(NewUser(Entry(u.sessionIdx, u.userId)), u.sessionIdx, true);
    }

    /** The packet holds a fixed number of slots; the list must fit them. */
    method NotifyUserList(u: User, ghost pool: seq<User>)
      requires Valid(pool) && |userList| <= ROOM_MAX_USER_CNT
      modifies wire
      ensures wire.log == old(wire.log) + [Sent(u.sessionIdx, UserList(Entries(Profiles(pool), Indices(userList))))]
    {
      var slots := new Entry[ROOM_MAX_USER_CNT](_ => Entry(0, []));
      ghost var es := Entries(Profiles(pool), Indices(userList));
      for k := 0 to |userList|
        invariant wire.log == old(wire.log)
        invariant forall j :: 0 <= j < k ==> slots[j] == es[j]
      {
        slots[k] := Entry(userList[k].sessionIdx, userList[k].userId);
      }
      assert slots[..|userList|] == es;
      wire.SendPacket(u.sessionIdx, UserList(slots[..|userList|]));
    }

    method NotifyLeaveUser(u: User)
      modifies wire
      ensures wire.log == old(wire.log) + Broadcast(Indices(userList), UserLeft(u.sessionIdx), u.sessionIdx, true)
    {
      BroadcastMsg(UserLeft(u.sessionIdx), u.sessionIdx, true);
    }

    /** A full room refuses; otherwise the user is appended, moved into the room, announced to the
        others and sent the list with itself at the end. */
    method EnterUser(u: User, ghost pool: seq<User>) returns (code: int)
      requires Valid(pool) && Pooled(pool, u)
      modifies this, u`roomIdx, u`domain, wire
      ensures Valid(pool)
      ensures code == if |old(userList)| >= ROOM_MAX_USER_CNT then ENTER_ROOM_FULL_USER else NO_ERROR
      ensures code != NO_ERROR ==>
                userList == old(userList) && wire.log == old(wire.log) && ProfileOf(u) == old(ProfileOf(u))
      ensures code == NO_ERROR ==>
                && userList == old(userList) + [u]
                && ProfileOf(u) == old(ProfileOf(u)).(roomIdx := roomIdx, domain := InRoom)
                && wire.log == old(wire.log)
                     + Broadcast(Indices(userList), NewUser(Entry(u.sessionIdx, u.userId)), u.sessionIdx, true)
                     + [Sent(u.sessionIdx, UserList(Entries(Profiles(pool), Indices(userList))))]
    {
      if |userList| >= maxUserCnt { return ENTER_ROOM_FULL_USER; }
      userList := userList + [u];
      currentUserCnt := (currentUserCnt + 1) % 0x1_0000;
      u.EnterRoom(roomIdx);
      NotifyNewUser(u);
      NotifyUserList(u, pool);
      return NO_ERROR;
    }

    /** Everyone whose id is the leaver's goes, and those who stay are told. */
    method LeaveUser(u: User, ghost pool: seq<User>)
      requires Valid(pool) && Pooled(pool, u)
      modifies this`userList, wire
      ensures Valid(pool)
      ensures Indices(userList) == EraseId(old(Profiles(pool)), old(Indices(userList)), u.userId)
      ensures wire.log == old(wire.log) + Broadcast(Indices(userList), UserLeft(u.sessionIdx), u.sessionIdx, true)
    {
      ghost var left := EraseId(Profiles(pool), Indices(userList), u.userId);
      var rest := EraseIf(userList, u.userId, pool);
      assert Indices(rest) == left;
      userList := rest;
      NotifyLeaveUser(u);
    }

    method NotifyChat(userIdx: int, userId: ByteString, msg: ByteString)
      modifies wire
      ensures wire.log == old(wire.log) + Broadcast(Indices(userList), ChatLine(userId, msg), userIdx, false)
    {
      BroadcastMsg(ChatLine(userId, msg), userIdx, false);
    }
  }

  /** `std::erase_if` with the id comparison. */
  method EraseIf(list: seq<User>, id: ByteString, ghost pool: seq<User>) returns (rest: seq<User>)
    requires IsPool(pool) && AllPooled(pool, list)
    ensures AllPooled(pool, rest)
    ensures Indices(rest) == EraseId(Profiles(pool), Indices(list), id)
  {
    rest := [];
    ghost var ps, done := Profiles(pool), [];
    for k := 0 to |list|
      invariant AllPooled(pool, rest) && AllPooled(pool, list)
      invariant Indices(list[..k]) == done
      invariant forall j :: 0 <= j < |done| ==> 0 <= done[j] < |ps|
      invariant Indices(rest) == EraseId(ps, done, id)
    {
      PrefixNext(list, k);
      IndicesNext(list[..k], list[k]);
      EraseNext(ps, done, list[k].sessionIdx, id);
      done := done + [list[k].sessionIdx];
      if list[k].userId != id {
        IndicesNext(rest, list[k]);
        rest := rest + [list[k]];
      }
    }
    assert list[..|list|] == list;
  }
}
