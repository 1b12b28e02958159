/** The fixed set of rooms (Content/room_manager.h, Content/room_manager.cpp). */
module RoomManagers {
  import opened Bytes
  import opened Users
  import opened Chats
  import opened Rooms

  ghost function Lists(rooms: seq<Room>): (ls: seq<seq<int>>)
    reads rooms
    ensures |ls| == |rooms|
    ensures forall r :: 0 <= r < |rooms| ==> ls[r] == Indices(rooms[r].userList)
  {
    seq(|rooms|, r requires 0 <= r < |rooms| reads rooms => Indices(rooms[r].userList))
  }

  /** The room at position r is room r, and every room sends through the one wire. */
  ghost predicate AllRooms(rooms: seq<Room>, wire: Wire, pool: seq<User>)
    reads rooms
  {
    forall r :: 0 <= r < |rooms| ==> rooms[r].roomIdx == r && rooms[r].wire == wire && rooms[r].Valid(pool)
  }

  /** The value of a server made of these parts. */
  ghost function Snapshot(pool: seq<User>, rooms: seq<Room>, ids: map<ByteString, int>, wire: Wire): (s: State)
    requires AllRooms(rooms, wire, pool)
    reads pool, rooms, wire
    ensures InRange(s) && |s.users| == |pool| && |s.rooms| == |rooms|
  {
    State(Profiles(pool), Lists(rooms), ids, wire.log)
  }

  class RoomManager {
    const wire: Wire
    var roomList: seq<Room>

    ghost predicate Valid(pool: seq<User>)
      reads this, roomList
    {
      AllRooms(roomList, wire, pool)
    }

    constructor (wire: Wire)
      ensures this.wire == wire && roomList == []
    {
      this.wire := wire;
      roomList := [];
    }

    method Init(ghost pool: seq<User>)
      requires roomList == [] && IsPool(pool)
      modifies this
      ensures Valid(pool) && |roomList| == MAX_ROOM_CNT && fresh(roomList)
      ensures Lists(roomList) == seq(MAX_ROOM_CNT, _ => [])
    {
      for i := 0 to MAX_ROOM_CNT
        invariant |roomList| == i && Valid(pool) && fresh(roomList)
        invariant forall r :: 0 <= r < i ==> roomList[r].userList == []
      {
        var room := new Room(i, wire);
        roomList := roomList + [room];
      }
    }

    method GetRoomByIdx(roomIdx: int) returns (room: Option<Room>)
      ensures room == if 0 <= roomIdx < |roomList| then Some(roomList[roomIdx]) else None
    {
      if roomIdx < 0 || roomIdx >= |roomList| { return None; }
      return Some(roomList[roomIdx]);
    }

    method EnterRoom(u: User, roomIdx: int, ghost pool: seq<User>, ghost ids: map<ByteString, int>) returns (code: int)
      requires Valid(pool) && IsPool(pool) && Pooled(pool, u)
      modifies roomList, u`roomIdx, u`domain, wire
      ensures Valid(pool)
      ensures (Snapshot(pool, roomList, ids, wire), code)
              == Chats.EnterRoom(old(Snapshot(pool, roomList, ids, wire)), u.sessionIdx, roomIdx)
    {
      var room := GetRoomByIdx(roomIdx);
      if room.None? { return ROOM_INVALID_INDEX; }
      code := AddTo(room.value, u, pool, ids);
    }

    /** The user goes back to the lobby but keeps the index of the room it was in. */
    method LeaveRoom(u: User, ghost pool: seq<User>, ghost ids: map<ByteString, int>) returns (code: int)
      requires Valid(pool) && IsPool(pool) && Pooled(pool, u)
      modifies roomList, u`domain, wire
      ensures Valid(pool)
      ensures (Snapshot(pool, roomList, ids, wire), code)
              == Chats.LeaveRoom(old(Snapshot(pool, roomList, ids, wire)), u.sessionIdx)
    {
      var room := GetRoomByIdx(u.roomIdx);
      if room.None? { return ROOM_INVALID_INDEX; }
      RemoveFrom(room.value, u, pool, ids);
      BackToLobby(u, pool, ids);
      return NO_ERROR;
    }

    method BackToLobby(u: User, ghost pool: seq<User>, ghost ids: map<ByteString, int>)
      requires Valid(pool) && IsPool(pool) && Pooled(pool, u)
      modifies u`domain
      ensures Valid(pool)
      ensures var s := old(Snapshot(pool, roomList, ids, wire));
              Snapshot(pool, roomList, ids, wire)
              == s.(users := s.users[u.sessionIdx := s.users[u.sessionIdx].(domain := InLobby)])
    {
      ghost var s := Snapshot(pool, roomList, ids, wire);
      u.domain := InLobby;
      assert Profiles(pool) == s.users[u.sessionIdx := s.users[u.sessionIdx].(domain := InLobby)];
      assert Lists(roomList) == s.rooms;
    }

    /** `Room::EnterUser` on one of the rooms, as the others and the pool see it. */
    method AddTo(room: Room, u: User, ghost pool: seq<User>, ghost ids: map<ByteString, int>) returns (code: int)
      requires Valid(pool) && IsPool(pool) && Pooled(pool, u)
      requires 0 <= room.roomIdx < |roomList| && roomList[room.roomIdx] == room
      modifies room, u`roomIdx, u`domain, wire
      ensures Valid(pool)
      ensures (Snapshot(pool, roomList, ids, wire), code)
              == Chats.EnterRoom(old(Snapshot(pool, roomList, ids, wire)), u.sessionIdx, room.roomIdx)
    {
      ghost var s := Snapshot(pool, roomList, ids, wire);
      code := room.EnterUser(u, pool);
      if code == NO_ERROR {
        assert Indices(room.userList) == s.rooms[room.roomIdx] + [u.sessionIdx];
        assert Profiles(pool) == s.users[u.sessionIdx := s.users[u.sessionIdx].(roomIdx := room.roomIdx, domain := InRoom)];
        assert Lists(roomList) == s.rooms[room.roomIdx := s.rooms[room.roomIdx] + [u.sessionIdx]];
      } else {
        assert Profiles(pool) == s.users && Lists(roomList) == s.rooms;
      }
    }

    /** `Room::LeaveUser` on one of the rooms, as the others and the pool see it. */
    method RemoveFrom(room: Room, u: User, ghost pool: seq<User>, ghost ids: map<ByteString, int>)
      requires Valid(pool) && IsPool(pool) && Pooled(pool, u)
      requires 0 <= room.roomIdx < |roomList| && roomList[room.roomIdx] == room
      modifies room`userList, wire
      ensures Valid(pool)
      ensures Snapshot(pool, roomList, ids, wire)
              == LeaveList(old(Snapshot(pool, roomList, ids, wire)), u.sessionIdx, room.roomIdx)
    {
      ghost var s := Snapshot(pool, roomList, ids, wire);
      room.LeaveUser(u, pool);
      assert Profiles(pool) == s.users;
      assert Lists(roomList) == s.rooms[room.roomIdx := Indices(room.userList)];
    }
  }
}
