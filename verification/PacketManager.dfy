/** The packet handlers (Content/packet_manager.cpp), run one at a time by the packet thread. */
module PacketManagers {
  import opened Bytes
  import opened Users
  import opened Chats
  import opened Rooms
  import opened RoomManagers
  import opened UserManagers
  import opened ChatRuns

  class PacketManager {
    const users: UserManager
    const rooms: RoomManager
    const wire: Wire

    ghost predicate Valid()
      reads this, users, rooms, users.userObjPool, set u | u in users.userObjPool :: u.packetBuf
      reads rooms.roomList
    {
      && AllUsers(users.userObjPool)
      && rooms.wire == wire && rooms.Valid(users.userObjPool)
    }

    ghost function Value(): (s: State)
      requires Valid()
      reads this, users, rooms, users.userObjPool, set u | u in users.userObjPool :: u.packetBuf
      reads rooms.roomList, wire
      ensures InRange(s) && |s.users| == |users.userObjPool|
    {
      Snapshot(users.userObjPool, rooms.roomList, users.userIdMap, wire)
    }

    constructor (users: UserManager, rooms: RoomManager)
      ensures this.users == users && this.rooms == rooms && wire == rooms.wire
    {
      this.users := users;
      this.rooms := rooms;
      this.wire := rooms.wire;
    }

    /** A thousand users, none logged in, and ten empty rooms. */
    method Init()
      requires users.userObjPool == [] && users.userIdMap == map[] && rooms.roomList == []
      requires wire == rooms.wire && wire.log == []
      modifies users, rooms
      ensures Valid() && fresh(users.userObjPool) && fresh(rooms.roomList)
      ensures Value() == InitState(MAX_USER_CNT, MAX_ROOM_CNT)
    {
      users.Init();
      rooms.Init(users.userObjPool);
    }

    // One change each, seen on the server's value.

    method Respond(i: int, n: Notice)
      requires Valid()
      modifies wire
      ensures Valid()
      ensures Value() == Reply(old(Value()), i, n)
    {
      ghost var s := Value();
      wire.SendPacket(i, n);
      assert Profiles(users.userObjPool) == s.users && Lists(rooms.roomList) == s.rooms;
    }

    method TakeOut(room: Room, u: User)
      requires Valid() && Pooled(users.userObjPool, u)
      requires 0 <= room.roomIdx < |rooms.roomList| && rooms.roomList[room.roomIdx] == room
      modifies room`userList, wire
      ensures Valid()
      ensures Value() == LeaveList(old(Value()), u.sessionIdx, room.roomIdx)
    {
      rooms.RemoveFrom(room, u, users.userObjPool, users.userIdMap);
    }

    method Forget(userId: ByteString)
      requires Valid()
      modifies users`userIdMap
      ensures Valid()
      ensures Value() == old(Value()).(ids := old(Value()).ids - {userId})
    {
      ghost var s := Value();
      users.DeleteUserInfo(userId);
      assert Profiles(users.userObjPool) == s.users && Lists(rooms.roomList) == s.rooms;
    }

    method Find(userId: ByteString) returns (found: int)
      requires Valid()
      modifies users`userIdMap
      ensures Valid()
      ensures var s := old(Value());
              found == FindUserIndexByID(s.ids, userId).0 && Value() == s.(ids := FindUserIndexByID(s.ids, userId).1)
    {
      ghost var s := Value();
      found := users.FindUserIndexByID(userId);
      assert Profiles(users.userObjPool) == s.users && Lists(rooms.roomList) == s.rooms;
    }

    method Name(i: int, userId: ByteString)
      requires Valid() && IsUser(Value(), i)
      modifies users.userObjPool[i]
      ensures Valid()
      ensures Value() == SetUserID(old(Value()), i, userId)
    {
      ghost var s := Value();
      users.SetUserID(i, userId);
      assert Profiles(users.userObjPool) == s.users[i := s.users[i].(id := userId)];
      assert Lists(rooms.roomList) == s.rooms;
    }

    method Admit(i: int)
      requires Valid() && IsUser(Value(), i)
      modifies users`userIdMap, users.userObjPool[i]
      ensures Valid()
      ensures Value() == SetUserLogin(old(Value()), i)
    {
      ghost var s := Value();
      users.SetUserLogin(i);
      assert Profiles(users.userObjPool) == s.users[i := s.users[i].(domain := InLobby, confirmed := true)];
      assert Lists(rooms.roomList) == s.rooms;
    }

    method Enter(u: User, roomNumber: int) returns (code: int)
      requires Valid() && Pooled(users.userObjPool, u)
      modifies u`roomIdx, u`domain, rooms.roomList, wire
      ensures Valid()
      ensures (Value(), code) == EnterRoom(old(Value()), u.sessionIdx, roomNumber)
    {
      code := rooms.EnterRoom(u, roomNumber, users.userObjPool, users.userIdMap);
    }

    method Leave(u: User) returns (code: int)
      requires Valid() && Pooled(users.userObjPool, u)
      modifies u`domain, rooms.roomList, wire
      ensures Valid()
      ensures (Value(), code) == LeaveRoom(old(Value()), u.sessionIdx)
    {
      code := rooms.LeaveRoom(u, users.userObjPool, users.userIdMap);
    }

    method Tell(room: Room, u: User, msg: ByteString)
      requires Valid() && 0 <= room.roomIdx < |rooms.roomList| && rooms.roomList[room.roomIdx] == room
      modifies wire
      ensures Valid()
      ensures var s := old(Value());
              Value() == s.(log := s.log + Broadcast(s.rooms[room.roomIdx], ChatLine(u.userId, msg), u.sessionIdx, false))
    {
      ghost var s := Value();
      room.NotifyChat(u.sessionIdx, u.userId, msg);
      assert Profiles(users.userObjPool) == s.users && Lists(rooms.roomList) == s.rooms;
    }

    // The handlers.

    method ConnectHandler(i: int)
      requires Valid() && IsUser(Value(), i)
      modifies users.userObjPool[i], users.userObjPool[i].packetBuf
      ensures Valid()
      ensures Value() == Handle(old(Value()), Connected(i))
    {
      ghost var s := Value();
      var u := users.GetUserByIndex(i);
      if u.None? { return; }
      u.value.Clear();
      assert Profiles(users.userObjPool) == s.users[i := EMPTY_PROFILE];
      assert Lists(rooms.roomList) == s.rooms;
    }

    method DisconnectHandler(i: int)
      requires Valid() && IsUser(Value(), i)
      modifies users`userIdMap, rooms.roomList, wire
      ensures Valid()
      ensures Value() == Handle(old(Value()), Disconnected(i))
    {
      var u := users.GetUserByIndex(i);
      if u.None? { return; }
      if u.value.domain == InRoom {
        var room := rooms.GetRoomByIdx(u.value.roomIdx);
        if room.None? { return; }
        TakeOut(room.value, u.value);
      }
      Forget(u.value.userId);
    }

    /** The id is set before the password is checked. */
    method LoginHandler(i: int, userIdField: ByteString)
      requires Valid() && IsUser(Value(), i)
      modifies users`userIdMap, users.userObjPool[i], wire
      ensures Valid()
      ensures Value() == Handle(old(Value()), LoginRequest(i, userIdField))
    {
      var userId := CString(userIdField);
      var found := Find(userId);
      if found == -1 {
        Name(i, userId);
      } else {
        Respond(i, LoginResponse(LOGIN_USER_ALREADY));
      }
    }

    method LoginDBResHandler(i: int, code: int)
      requires Valid() && IsUser(Value(), i)
      modifies users`userIdMap, users.userObjPool[i], wire
      ensures Valid()
      ensures Value() == Handle(old(Value()), LoginResult(i, code))
    {
      if code == NO_ERROR {
        Admit(i);
      } else {
        Name(i, []);
      }
      Respond(i, LoginResponse(code));
    }

    method EnterRoomHandler(i: int, roomNumber: int)
      requires Valid() && IsUser(Value(), i)
      modifies users.userObjPool[i], rooms.roomList, wire
      ensures Valid()
      ensures Value() == Handle(old(Value()), EnterRequest(i, roomNumber))
    {
      var u := users.GetUserByIndex(i);
      if u.None? { return; }
      if u.value.domain != InLobby {
        Respond(i, EnterResponse(ENTER_ROOM_NOT_USED_STATUS));
        return;
      }
      var code := Enter(u.value, roomNumber);
      Respond(i, EnterResponse(code));
    }

    method LeaveRoomHandler(i: int)
      requires Valid() && IsUser(Value(), i)
      modifies users.userObjPool[i], rooms.roomList, wire
      ensures Valid()
      ensures Value() == Handle(old(Value()), LeaveRequest(i))
    {
      var u := users.GetUserByIndex(i);
      if u.None? { return; }
      if u.value.domain != InRoom {
        Respond(i, LeaveResponse(USER_NOT_IN_ROOM));
        return;
      }
      var code := Leave(u.value);
      Respond(i, LeaveResponse(code));
    }

    method RoomChatHandler(i: int, msg: ByteString)
      requires Valid() && IsUser(Value(), i)
      modifies wire
      ensures Valid()
      ensures Value() == Handle(old(Value()), ChatRequest(i, msg))
    {
      var u := users.GetUserByIndex(i);
      if u.None? || u.value.domain != InRoom {
        Respond(i, ChatResponse(USER_IN_LOBBY));
        return;
      }
      var room := rooms.GetRoomByIdx(u.value.roomIdx);
      if room.None? {
        Respond(i, ChatResponse(CHAT_ROOM_INVALID_ROOM_NUMBER));
        return;
      }
      Respond(i, ChatResponse(NO_ERROR));
      Tell(room.value, u.value, msg);
    }

    /** `ProcessPacket`: the handler bound to the packet's id. */
    method ProcessPacket(e: Event)
      requires Valid() && IsUser(Value(), e.i)
      modifies users`userIdMap, users.userObjPool[e.i], users.userObjPool[e.i].packetBuf, rooms.roomList, wire
      ensures Valid()
      ensures Value() == Handle(old(Value()), e)
    {
      match e
      case Connected(i) => ConnectHandler(i);
      case Disconnected(i) => DisconnectHandler(i);
      case LoginRequest(i, field) => LoginHandler(i, field);
      case LoginResult(i, code) => LoginDBResHandler(i, code);
      case EnterRequest(i, room) => EnterRoomHandler(i, room);
      case LeaveRequest(i) => LeaveRoomHandler(i);
      case ChatRequest(i, msg) => RoomChatHandler(i, msg);
    }

    /** The packet thread over any run of packets, in the order they come. A law that holds at the start holds at
        every state in between exactly when every packet meets its condition, and then at the end. */
    method PacketProcessThread(es: seq<Event>, ghost w: World) returns (ghost w': World)
      requires Valid() && w.chat == Value() && ForUsers(w, es)
      modifies users`userIdMap, users.userObjPool, set u | u in users.userObjPool :: u.packetBuf
      modifies rooms.roomList, wire
      ensures Valid() && w' == Run(w, es) && w'.chat == Value()
      ensures forall law :: Holds(law, w) ==> (Always(law, w, es) <==> AllKeep(law, w, es))
      ensures forall law :: Holds(law, w) && AllKeep(law, w, es) ==> Holds(law, w')
    {
      w' := w;
      assert es[0..] == es;
      for k := 0 to |es|
        invariant Valid() && w'.chat == Value() && ForUsers(w', es) && Run(w', es[k..]) == Run(w, es)
      {
        RunNext(w', es, k);
        ProcessPacket(es[k]);
        w' := Step(w', es[k]);
      }
      forall law | Holds(law, w) ensures Always(law, w, es) <==> AllKeep(law, w, es) {
        AlwaysIff(law, w, es);
      }
      forall law | Holds(law, w) && AllKeep(law, w, es) ensures Holds(law, Run(w, es)) {
        AlwaysIff(law, w, es);
      }
    }
  }
}
