/** The chat server's state as a value (Content/room.cpp, room_manager.cpp, user_manager.cpp and the
    handlers of packet_manager.cpp), and what each handled packet does to it. The classes in the files
    beside this one are proved to do exactly this. */
module Chats {
  import opened Bytes
  import opened Users

  const ROOM_MAX_USER_CNT := 10
  const MAX_ROOM_CNT := 10
  const MAX_USER_CNT := 1000

  const NO_ERROR := 0
  const USER_NOT_IN_ROOM := 13
  const LOGIN_USER_ALREADY := 31
  const ENTER_ROOM_NOT_USED_STATUS := 53
  const ENTER_ROOM_FULL_USER := 54
  const ROOM_INVALID_INDEX := 61
  const CHAT_ROOM_INVALID_ROOM_NUMBER := 81
  const USER_IN_LOBBY := 82

  /** One user as a client is told of it. */
  datatype Entry = Entry(index: int, id: ByteString)

  datatype Notice =
    | NewUser(user: Entry)
    | UserList(users: seq<Entry>)
    | UserLeft(index: int)
    | ChatLine(id: ByteString, msg: ByteString)
    | LoginResponse(code: int)
    | EnterResponse(code: int)
    | LeaveResponse(code: int)
    | ChatResponse(code: int)

  /** One call of `SendPacketFunc`: the session it goes to, and the packet. */
  datatype Sent = Sent(to: int, notice: Notice)

  /** A user object without its receive buffer. */
  datatype Profile = Profile(roomIdx: int, id: ByteString, confirmed: bool, domain: DomainState)

  const EMPTY_PROFILE := Profile(-1, [], false, NotLoggedIn)

  /** Users by session index, each room's list of session indices, the id map and everything sent. */
  datatype State = State(users: seq<Profile>, rooms: seq<seq<int>>, ids: map<ByteString, int>, log: seq<Sent>)

  function InitState(users: nat, rooms: nat): State {
    State(seq(users, _ => EMPTY_PROFILE), seq(rooms, _ => []), map[], [])
  }

  // Rooms.

  /** `static_cast<int16_t>(idx)` compared with a `uint32_t`: the value it is compared as. */
  function AsComparedIndex(idx: int): int {
    var low := idx % 0x1_0000;
    if low < 0x8000 then low else low + 0xFFFF_0000
  }

  /** A session recognises itself in `BroadcastMsg` exactly when its index is below 32768. */
  lemma OwnIndexIsRecognised(idx: int)
    requires 0 <= idx < 0x8000_0000
    ensures AsComparedIndex(idx) == idx <==> idx < 0x8000
  {
  }

  function Broadcast(list: seq<int>, n: Notice, pass: int, exceptMe: bool): seq<Sent> {
    if list == [] then []
    else
      var before, last := list[..|list| - 1], list[|list| - 1];
      Broadcast(before, n, pass, exceptMe)
      + if exceptMe && AsComparedIndex(last) == pass then [] else [Sent(last, n)]
  }

  function Entries(users: seq<Profile>, list: seq<int>): (es: seq<Entry>)
    requires forall k :: 0 <= k < |list| ==> 0 <= list[k] < |users|
    ensures |es| == |list|
    ensures forall k :: 0 <= k < |list| ==> es[k] == Entry(list[k], users[list[k]].id)
  {
    seq(|list|, k requires 0 <= k < |list| => Entry(list[k], users[list[k]].id))
  }

  /** `std::erase_if` on the room's list: everyone with this id goes. */
  function EraseId(users: seq<Profile>, list: seq<int>, id: ByteString): (rest: seq<int>)
    requires forall k :: 0 <= k < |list| ==> 0 <= list[k] < |users|
    ensures forall k :: 0 <= k < |rest| ==> 0 <= rest[k] < |users|
  {
    if list == [] then []
    else
      var before, last := list[..|list| - 1], list[|list| - 1];
      EraseId(users, before, id) + if users[last].id == id then [] else [last]
  }

  lemma {:induction false} EraseMembers(users: seq<Profile>, list: seq<int>, id: ByteString)
    requires forall k :: 0 <= k < |list| ==> 0 <= list[k] < |users|
    ensures forall u :: u in EraseId(users, list, id) <==> u in list && users[u].id != id
    ensures |EraseId(users, list, id)| <= |list|
  {
    if list == [] {
    } else {
      var before, last := list[..|list| - 1], list[|list| - 1];
      EraseMembers(users, before, id);
      assert list == before + [last];
    }
  }

  lemma EraseNext(users: seq<Profile>, list: seq<int>, u: int, id: ByteString)
    requires (forall k :: 0 <= k < |list| ==> 0 <= list[k] < |users|) && 0 <= u < |users|
    ensures forall k :: 0 <= k < |list + [u]| ==> 0 <= (list + [u])[k] < |users|
    ensures EraseId(users, list + [u], id) == EraseId(users, list, id) + if users[u].id == id then [] else [u]
  {
    assert (list + [u])[..|list|] == list;
  }

  predicate InRange(s: State) {
    forall r, k :: 0 <= r < |s.rooms| && 0 <= k < |s.rooms[r]| ==> 0 <= s.rooms[r][k] < |s.users|
  }

  predicate IsUser(s: State, i: int) {
    0 <= i < |s.users|
  }

  /** `RoomManager::EnterRoom` and `Room::EnterUser`. */
  function EnterRoom(s: State, i: int, room: int): (r: (State, int))
    requires InRange(s) && IsUser(s, i)
    ensures InRange(r.0) && |r.0.users| == |s.users| && |r.0.rooms| == |s.rooms|
  {
    if !(0 <= room < |s.rooms|) then (s, ROOM_INVALID_INDEX)
    else if |s.rooms[room]| >= ROOM_MAX_USER_CNT then (s, ENTER_ROOM_FULL_USER)
    else
      var list := s.rooms[room] + [i];
      var users := s.users[i := s.users[i].(roomIdx := room, domain := InRoom)];
      (s.(users := users, rooms := s.rooms[room := list],
          log := s.log + Broadcast(list, NewUser(Entry(i, users[i].id)), i, true) + [Sent(i, UserList(Entries(users, list)))]),
       NO_ERROR)
  }

  /** `Room::LeaveUser`. */
  function LeaveList(s: State, i: int, room: int): (s': State)
    requires InRange(s) && IsUser(s, i) && 0 <= room < |s.rooms|
    ensures InRange(s') && s'.users == s.users && s'.ids == s.ids && |s'.rooms| == |s.rooms|
  {
    var list := EraseId(s.users, s.rooms[room], s.users[i].id);
    s.(rooms := s.rooms[room := list], log := s.log + Broadcast(list, UserLeft(i), i, true))
  }

  /** `RoomManager::LeaveRoom`: the room index is left as it was. */
  function LeaveRoom(s: State, i: int): (r: (State, int))
    requires InRange(s) && IsUser(s, i)
    ensures InRange(r.0) && |r.0.users| == |s.users| && |r.0.rooms| == |s.rooms|
  {
    var room := s.users[i].roomIdx;
    if !(0 <= room < |s.rooms|) then (s, ROOM_INVALID_INDEX)
    else
      var s' := LeaveList(s, i, room);
      (s'.(users := s'.users[i := s'.users[i].(domain := InLobby)]), NO_ERROR)
  }

  // The id map.

  /** `FindUserIndexByID`: the look-up is by C string, the read by the whole string, which inserts a
      zero when the two differ and the whole string is missing. */
  function FindUserIndexByID(ids: map<ByteString, int>, id: ByteString): (int, map<ByteString, int>) {
    if CString(id) in ids then
      if id in ids then (ids[id], ids) else (0, ids[id := 0])
    else (-1, ids)
  }

  /** `unordered_map::insert` keeps an entry that is already there. */
  function AddId(ids: map<ByteString, int>, id: ByteString, i: int): map<ByteString, int> {
    if CString(id) in ids then ids else ids[CString(id) := i]
  }

  /** `UserManager::SetUserLogin`. */
  function SetUserLogin(s: State, i: int): (s': State)
    requires IsUser(s, i)
    ensures |s'.users| == |s.users| && s'.rooms == s.rooms
  {
    var u := s.users[i];
    s.(users := s.users[i := u.(domain := InLobby, confirmed := true)], ids := AddId(s.ids, u.id, i))
  }

  function SetUserID(s: State, i: int, id: ByteString): (s': State)
    requires IsUser(s, i)
    ensures |s'.users| == |s.users| && s'.rooms == s.rooms
  {
    s.(users := s.users[i := s.users[i].(id := id)])
  }

  function Reply(s: State, i: int, n: Notice): State {
    s.(log := s.log + [Sent(i, n)])
  }

  // Handlers.

  datatype Event =
    | Connected(i: int)
    | Disconnected(i: int)
    | LoginRequest(i: int, userId: ByteString)
    | LoginResult(i: int, code: int)
    | EnterRequest(i: int, room: int)
    | LeaveRequest(i: int)
    | ChatRequest(i: int, msg: ByteString)

  function OnDisconnected(s: State, i: int): (s': State)
    requires InRange(s) && IsUser(s, i)
    ensures InRange(s') && s'.users == s.users && |s'.rooms| == |s.rooms|
  {
    var u := s.users[i];
    if u.domain.InRoom? && !(0 <= u.roomIdx < |s.rooms|) then s
    else
      var s1 := if u.domain.InRoom? then LeaveList(s, i, u.roomIdx) else s;
      s1.(ids := s1.ids - {u.id})
  }

  function OnLoginRequest(s: State, i: int, field: ByteString): (s': State)
    requires IsUser(s, i)
    ensures |s'.users| == |s.users| && s'.rooms == s.rooms
  {
    var id := CString(field);
    var (found, ids) := FindUserIndexByID(s.ids, id);
    var s1 := s.(ids := ids);
    if found == -1 then SetUserID(s1, i, id) else Reply(s1, i, LoginResponse(LOGIN_USER_ALREADY))
  }

  function OnLoginResult(s: State, i: int, code: int): (s': State)
    requires IsUser(s, i)
    ensures |s'.users| == |s.users| && s'.rooms == s.rooms
  {
    Reply(if code == NO_ERROR then SetUserLogin(s, i) else SetUserID(s, i, []), i, LoginResponse(code))
  }

  function OnEnterRequest(s: State, i: int, room: int): (s': State)
    requires InRange(s) && IsUser(s, i)
    ensures InRange(s') && |s'.users| == |s.users| && |s'.rooms| == |s.rooms|
  {
    if !s.users[i].domain.InLobby? then Reply(s, i, EnterResponse(ENTER_ROOM_NOT_USED_STATUS))
    else
      var (s1, code) := EnterRoom(s, i, room);
      Reply(s1, i, EnterResponse(code))
  }

  function OnLeaveRequest(s: State, i: int): (s': State)
    requires InRange(s) && IsUser(s, i)
    ensures InRange(s') && |s'.users| == |s.users| && |s'.rooms| == |s.rooms|
  {
    if !s.users[i].domain.InRoom? then Reply(s, i, LeaveResponse(USER_NOT_IN_ROOM))
    else
      var (s1, code) := LeaveRoom(s, i);
      Reply(s1, i, LeaveResponse(code))
  }

  function OnChatRequest(s: State, i: int, msg: ByteString): (s': State)
    requires InRange(s) && IsUser(s, i)
    ensures InRange(s') && s'.users == s.users && s'.rooms == s.rooms
  {
    var u := s.users[i];
    if !u.domain.InRoom? then Reply(s, i, ChatResponse(USER_IN_LOBBY))
    else if !(0 <= u.roomIdx < |s.rooms|) then Reply(s, i, ChatResponse(CHAT_ROOM_INVALID_ROOM_NUMBER))
    else
      var s1 := Reply(s, i, ChatResponse(NO_ERROR));
      s1.(log := s1.log + Broadcast(s1.rooms[u.roomIdx], ChatLine(u.id, msg), i, false))
  }

  /** One packet handled. */
  function Handle(s: State, e: Event): (s': State)
    requires InRange(s) && IsUser(s, e.i)
    ensures InRange(s') && |s'.users| == |s.users| && |s'.rooms| == |s.rooms|
  {
    match e
    case Connected(i) => s.(users := s.users[i := EMPTY_PROFILE])
    case Disconnected(i) => OnDisconnected(s, i)
    case LoginRequest(i, field) => OnLoginRequest(s, i, field)
    case LoginResult(i, code) => OnLoginResult(s, i, code)
    case EnterRequest(i, room) => OnEnterRequest(s, i, room)
    case LeaveRequest(i) => OnLeaveRequest(s, i)
    case ChatRequest(i, msg) => OnChatRequest(s, i, msg)
  }
}
