/** Runs of the chat server: who is in which room, what every client believes, and whom the id map finds.
    A run is any sequence of packets whatever; for each packet the lemmas say exactly when it breaks one of
    the three. */
module ChatRuns {
  import opened Bytes
  import opened Users
  import opened Chats
  import opened ChatViews

  /** The server, and which sessions are connected, which it does not itself record. */
  datatype World = World(chat: State, connected: set<int>)

  function Step(w: World, e: Event): (w': World)
    requires InRange(w.chat) && IsUser(w.chat, e.i)
    ensures InRange(w'.chat) && |w'.chat.users| == |w.chat.users| && |w'.chat.rooms| == |w.chat.rooms|
  {
    World(Handle(w.chat, e),
          match e
          case Connected(i) => w.connected + {i}
          case Disconnected(i) => w.connected - {i}
          case _ => w.connected)
  }

  function InitWorld(users: nat, rooms: nat): World {
    World(InitState(users, rooms), {})
  }

  // The three laws.

  ghost predicate Listed(s: State, r: int, i: int) {
    0 <= r < |s.rooms| && i in s.rooms[r]
  }

  ghost predicate Present(w: World, r: int, i: int) {
    i in w.connected && IsUser(w.chat, i) && w.chat.users[i].domain.InRoom? && w.chat.users[i].roomIdx == r
  }

  /** A user is in state kROOM exactly when it is in the list of the room its index names, and in no other. */
  ghost predicate Membership(w: World) {
    forall r, i :: Listed(w.chat, r, i) <==> Present(w, r, i)
  }

  ghost predicate Capacity(s: State) {
    forall r :: 0 <= r < |s.rooms| ==> NoDup(s.rooms[r]) && |s.rooms[r]| <= ROOM_MAX_USER_CNT
  }

  /** What each member was told adds up to the room's list, in the same order. */
  ghost predicate Views(s: State)
    requires InRange(s)
  {
    forall r, i :: Listed(s, r, i) ==> View(s.log, i) == Some(Entries(s.users, s.rooms[r]))
  }

  predicate LoggedIn(w: World, i: int) {
    i in w.connected && IsUser(w.chat, i) && !w.chat.users[i].domain.NotLoggedIn?
  }

  predicate LoggedInAs(w: World, id: ByteString, i: int) {
    LoggedIn(w, i) && w.chat.users[i].id == id
  }

  ghost predicate Indexed(s: State, id: ByteString, i: int) {
    id in s.ids && s.ids[id] == i
  }

  /** The id map finds exactly the logged-in users, so no two of them share an id. */
  ghost predicate Index(w: World) {
    forall id, i :: Indexed(w.chat, id, i) <==> LoggedInAs(w, id, i)
  }

  /** Every id is a C string, and the map holds session indices. */
  ghost predicate Strings(s: State) {
    && (forall i :: 0 <= i < |s.users| ==> NulFree(s.users[i].id))
    && (forall id :: id in s.ids ==> NulFree(id) && s.ids[id] >= 0)
  }

  // When a packet keeps them.

  predicate InARoom(w: World, i: int) {
    i in w.connected && IsUser(w.chat, i) && w.chat.users[i].domain.InRoom?
  }

  /** The user's state and index name a room, in whose list it may or may not be. */
  predicate NamesARoom(s: State, i: int) {
    IsUser(s, i) && s.users[i].domain.InRoom? && 0 <= s.users[i].roomIdx < |s.rooms|
  }

  /** Nobody else in the room carries the user's id. */
  ghost predicate OnlyHolder(s: State, i: int, room: int)
    requires InRange(s) && IsUser(s, i) && 0 <= room < |s.rooms|
  {
    forall u :: u in s.rooms[room] && s.users[u].id == s.users[i].id ==> u == i
  }

  /** Everybody in the room does. */
  ghost predicate AllHold(s: State, i: int, room: int)
    requires InRange(s) && IsUser(s, i) && 0 <= room < |s.rooms|
  {
    forall u :: u in s.rooms[room] ==> s.users[u].id == s.users[i].id
  }

  predicate Takes(s: State, i: int, room: int)
    requires IsUser(s, i)
  {
    s.users[i].domain.InLobby? && 0 <= room < |s.rooms| && |s.rooms[room]| < ROOM_MAX_USER_CNT
  }

  ghost predicate InSomeList(s: State, i: int) {
    exists r :: Listed(s, r, i)
  }

  predicate Refused(s: State, field: ByteString) {
    FindUserIndexByID(s.ids, CString(field)).0 != -1
  }

  ghost predicate KeepsMembership(w: World, e: Event)
    requires InRange(w.chat) && IsUser(w.chat, e.i)
  {
    var s, u := w.chat, w.chat.users[e.i];
    match e
    case Connected(i) => !InARoom(w, i)
    case Disconnected(i) => NamesARoom(s, i) ==> OnlyHolder(s, i, u.roomIdx)
    case LoginRequest(_, _) => true
    case LoginResult(i, code) => code == NO_ERROR ==> !InARoom(w, i)
    case EnterRequest(i, room) => Takes(s, i, room) ==> i in w.connected
    case LeaveRequest(i) => NamesARoom(s, i) ==> OnlyHolder(s, i, u.roomIdx)
    case ChatRequest(_, _) => true
  }

  ghost predicate KeepsViews(w: World, e: Event)
    requires InRange(w.chat) && IsUser(w.chat, e.i)
  {
    var s, u := w.chat, w.chat.users[e.i];
    match e
    case Connected(i) => InSomeList(s, i) ==> u.id == []
    case Disconnected(i) => NamesARoom(s, i) ==> OnlyHolder(s, i, u.roomIdx) || AllHold(s, i, u.roomIdx)
    case LoginRequest(i, field) => InSomeList(s, i) ==> Refused(s, field) || CString(field) == u.id
    case LoginResult(i, code) => InSomeList(s, i) && code != NO_ERROR ==> u.id == []
    case EnterRequest(_, _) => true
    case LeaveRequest(i) => NamesARoom(s, i) ==> OnlyHolder(s, i, u.roomIdx) || AllHold(s, i, u.roomIdx)
    case ChatRequest(_, _) => true
  }

  predicate KeepsIndex(w: World, e: Event)
    requires IsUser(w.chat, e.i)
  {
    var s, u := w.chat, w.chat.users[e.i];
    match e
    case Connected(i) => !LoggedIn(w, i)
    case Disconnected(i) =>
      if u.domain.InRoom? && !NamesARoom(s, i) then i !in w.connected
      else LoggedIn(w, i) || u.id !in s.ids
    case LoginRequest(i, field) => LoggedIn(w, i) ==> Refused(s, field)
    case LoginResult(i, code) =>
      if code == NO_ERROR then LoggedIn(w, i) || (i in w.connected <==> u.id !in s.ids)
      else LoggedIn(w, i) ==> u.id == []
    case _ => true
  }

  // Membership.

  lemma NotInRoom(w: World, i: int)
    requires Membership(w) && !InARoom(w, i)
    ensures forall r :: !Listed(w.chat, r, i)
  {
    forall r ensures !Listed(w.chat, r, i) {
      assert !Present(w, r, i);
    }
  }

  lemma OneRoomOnly(w: World, r: int, room: int, j: int)
    requires Membership(w) && Listed(w.chat, r, j) && r != room
    ensures !Listed(w.chat, room, j)
  {
    assert Present(w, r, j) && !Present(w, room, j);
  }

  lemma SameRooms(w: World, w': World)
    requires Membership(w) && w'.chat.rooms == w.chat.rooms
    requires forall r, j :: Present(w', r, j) <==> Present(w, r, j)
    ensures Membership(w')
  {
    assert forall r, j :: Listed(w'.chat, r, j) <==> Listed(w.chat, r, j);
  }

  lemma NoLongerPresentIff(w: World, w': World, i: int)
    requires Membership(w) && w'.chat.rooms == w.chat.rooms && IsUser(w.chat, i)
    requires forall r, j :: Present(w', r, j) <==> Present(w, r, j) && j != i
    ensures Membership(w') <==> !InARoom(w, i)
  {
    assert forall r, j :: Listed(w'.chat, r, j) <==> Listed(w.chat, r, j);
    var r := w.chat.users[i].roomIdx;
    assert Listed(w.chat, r, i) <==> Present(w, r, i);
    if Present(w, r, i) {
      assert Listed(w'.chat, r, i) && !Present(w', r, i);
    } else {
      assert forall q :: !Present(w, q, i);
    }
  }

  /** Entering after the disconnect: harmful exactly when the room takes the user. */
  lemma EnterKeepsMembershipIff(w: World, i: int, room: int)
    requires InRange(w.chat) && Membership(w) && IsUser(w.chat, i)
    ensures Membership(Step(w, EnterRequest(i, room))) <==> KeepsMembership(w, EnterRequest(i, room))
  {
    var s, w' := w.chat, Step(w, EnterRequest(i, room));
    if Takes(s, i, room) {
      NotInRoom(w, i);
      assert w'.chat.rooms == s.rooms[room := s.rooms[room] + [i]];
      assert Listed(w'.chat, room, i);
      assert Present(w', room, i) <==> i in w.connected;
      assert forall r, j :: Listed(w'.chat, r, j) <==> Listed(s, r, j) || (r == room && j == i);
      assert forall r, j :: j != i ==> (Present(w', r, j) <==> Present(w, r, j));
      assert forall r :: Present(w', r, i) ==> r == room;
    } else {
      SameRooms(w, w');
    }
  }

  /** Taking a user out of a room, connected or gone, keeps membership exactly when no other member has its id. */
  lemma LeavingKeepsMembershipIff(w: World, w': World, i: int, room: int)
    requires InRange(w.chat) && Membership(w) && IsUser(w.chat, i) && 0 <= room < |w.chat.rooms|
    requires w.chat.users[i].roomIdx == room && w'.chat.rooms == LeaveList(w.chat, i, room).rooms
    requires forall r, j :: Present(w', r, j) <==> Present(w, r, j) && j != i
    ensures Membership(w') <==> OnlyHolder(w.chat, i, room)
  {
    var s := w.chat;
    EraseMembers(s.users, s.rooms[room], s.users[i].id);
    assert forall r, u :: r != room ==> (Listed(w'.chat, r, u) <==> Listed(s, r, u));
    assert forall u :: Listed(w'.chat, room, u) <==> Listed(s, room, u) && s.users[u].id != s.users[i].id;
    if OnlyHolder(s, i, room) {
      forall r, u ensures Listed(w'.chat, r, u) <==> Present(w', r, u) {
        assert Listed(s, r, u) <==> Present(w, r, u);
        assert Listed(s, r, i) <==> Present(w, r, i);
      }
    } else {
      var u :| u in s.rooms[room] && s.users[u].id == s.users[i].id && u != i;
      assert Listed(s, room, u) && Present(w, room, u) && Present(w', room, u) && !Listed(w'.chat, room, u);
    }
  }

  lemma LeaveKeepsMembershipIff(w: World, i: int)
    requires InRange(w.chat) && Membership(w) && IsUser(w.chat, i)
    ensures Membership(Step(w, LeaveRequest(i))) <==> KeepsMembership(w, LeaveRequest(i))
  {
    var w' := Step(w, LeaveRequest(i));
    if NamesARoom(w.chat, i) {
      LeavingKeepsMembershipIff(w, w', i, w.chat.users[i].roomIdx);
    } else {
      SameRooms(w, w');
    }
  }

  lemma DisconnectKeepsMembershipIff(w: World, i: int)
    requires InRange(w.chat) && Membership(w) && IsUser(w.chat, i)
    ensures Membership(Step(w, Disconnected(i))) <==> KeepsMembership(w, Disconnected(i))
  {
    var w' := Step(w, Disconnected(i));
    if NamesARoom(w.chat, i) {
      LeavingKeepsMembershipIff(w, w', i, w.chat.users[i].roomIdx);
    } else {
      var r := w.chat.users[i].roomIdx;
      assert Listed(w.chat, r, i) <==> Present(w, r, i);
      NoLongerPresentIff(w, w', i);
    }
  }

  /** Whatever the packet and whoever sends it, connected or not. */
  lemma StepKeepsMembershipIff(w: World, e: Event)
    requires InRange(w.chat) && Membership(w) && IsUser(w.chat, e.i)
    ensures Membership(Step(w, e)) <==> KeepsMembership(w, e)
  {
    var w' := Step(w, e);
    match e
    case Connected(i) => NoLongerPresentIff(w, w', i);
    case Disconnected(i) => DisconnectKeepsMembershipIff(w, i);
    case LoginRequest(i, field) => SameRooms(w, w');
    case LoginResult(i, code) =>
      if code == NO_ERROR { NoLongerPresentIff(w, w', i); } else { SameRooms(w, w'); }
    case EnterRequest(i, room) => EnterKeepsMembershipIff(w, i, room);
    case LeaveRequest(i) => LeaveKeepsMembershipIff(w, i);
    case ChatRequest(i, msg) => SameRooms(w, w');
  }

  // The id map.

  /** On proper strings the look-up inserts nothing and answers what the map says. */
  lemma FindReads(ids: map<ByteString, int>, id: ByteString)
    requires NulFree(id)
    ensures FindUserIndexByID(ids, id) == (if id in ids then ids[id] else -1, ids)
  {
    CStringOfString(id);
  }

  lemma RefusedIff(s: State, field: ByteString)
    requires Strings(s)
    ensures Refused(s, field) <==> CString(field) in s.ids
  {
    FindReads(s.ids, CString(field));
  }

  /** Every packet keeps ids proper strings and the map's entries indices. */
  lemma StepKeepsStrings(w: World, e: Event)
    requires InRange(w.chat) && Strings(w.chat) && IsUser(w.chat, e.i)
    ensures Strings(Step(w, e).chat)
  {
    match e
    case LoginRequest(i, field) => FindReads(w.chat.ids, CString(field));
    case LoginResult(i, code) => CStringOfString(w.chat.users[i].id);
    case _ =>
  }

  lemma SameLogins(w: World, w': World)
    requires Index(w) && w'.chat.ids == w.chat.ids
    requires forall id, j :: LoggedInAs(w', id, j) <==> LoggedInAs(w, id, j)
    ensures Index(w')
  {
    assert forall id, j :: Indexed(w'.chat, id, j) <==> Indexed(w.chat, id, j);
  }

  lemma HeldByItsUser(w: World, id: ByteString)
    requires Index(w) && id in w.chat.ids
    ensures LoggedInAs(w, id, w.chat.ids[id])
  {
    assert Indexed(w.chat, id, w.chat.ids[id]);
  }

  lemma OwnEntry(w: World, i: int)
    requires Index(w) && IsUser(w.chat, i)
    ensures LoggedIn(w, i) <==> Indexed(w.chat, w.chat.users[i].id, i)
  {
    assert LoggedIn(w, i) <==> LoggedInAs(w, w.chat.users[i].id, i);
  }

  /** Clearing a user leaves its entry behind. */
  lemma ClearKeepsIndexIff(w: World, i: int)
    requires InRange(w.chat) && Index(w) && IsUser(w.chat, i)
    ensures Index(Step(w, Connected(i))) <==> KeepsIndex(w, Connected(i))
  {
    var w', own := Step(w, Connected(i)), w.chat.users[i].id;
    assert forall id, j :: LoggedInAs(w', id, j) <==> LoggedInAs(w, id, j) && j != i;
    OwnEntry(w, i);
    if LoggedIn(w, i) {
      assert Indexed(w'.chat, own, i) && !LoggedInAs(w', own, i);
    } else {
      assert forall id :: !LoggedInAs(w, id, i);
      SameLogins(w, w');
    }
  }

  /** The map stays exact when a disconnect removes the session's own entry, or none. */
  lemma DisconnectKeepsIndexIff(w: World, i: int)
    requires InRange(w.chat) && Index(w) && IsUser(w.chat, i)
    ensures Index(Step(w, Disconnected(i))) <==> KeepsIndex(w, Disconnected(i))
  {
    var w', own := Step(w, Disconnected(i)), w.chat.users[i].id;
    assert w'.chat.users == w.chat.users;
    assert forall id, j :: LoggedInAs(w', id, j) <==> LoggedInAs(w, id, j) && j != i;
    OwnEntry(w, i);
    if w.chat.users[i].domain.InRoom? && !NamesARoom(w.chat, i) {
      if LoggedIn(w, i) {
        assert Indexed(w'.chat, own, i) && !LoggedInAs(w', own, i);
      } else {
        SameLogins(w, w');
      }
    } else {
      assert w'.chat.ids == w.chat.ids - {own};
      if LoggedIn(w, i) || own !in w.chat.ids {
        forall id, j ensures Indexed(w'.chat, id, j) <==> LoggedInAs(w', id, j) {
          assert Indexed(w.chat, id, j) <==> LoggedInAs(w, id, j);
          assert Indexed(w.chat, own, j) <==> LoggedInAs(w, own, j);
        }
      } else {
        HeldByItsUser(w, own);
        var other := w.chat.ids[own];
        assert other != i && LoggedInAs(w', own, other) && !Indexed(w'.chat, own, other);
      }
    }
  }

  /** A login request renames its user at once. */
  lemma LoginRequestKeepsIndexIff(w: World, i: int, field: ByteString)
    requires InRange(w.chat) && Index(w) && Strings(w.chat) && IsUser(w.chat, i)
    ensures Index(Step(w, LoginRequest(i, field))) <==> KeepsIndex(w, LoginRequest(i, field))
  {
    var w', id := Step(w, LoginRequest(i, field)), CString(field);
    FindReads(w.chat.ids, id);
    if id !in w.chat.ids && LoggedIn(w, i) {
      assert LoggedInAs(w', id, i) && !Indexed(w'.chat, id, i);
    } else {
      SameLogins(w, w');
    }
  }

  /** A successful login keeps the map exact when it adds exactly the entry that was missing: the session is
      there and the id was free, or the session has gone and the id was taken, or it was logged in already. */
  lemma SuccessKeepsIndexIff(w: World, i: int)
    requires InRange(w.chat) && Index(w) && Strings(w.chat) && IsUser(w.chat, i)
    ensures Index(Step(w, LoginResult(i, NO_ERROR))) <==> KeepsIndex(w, LoginResult(i, NO_ERROR))
  {
    var w', own := Step(w, LoginResult(i, NO_ERROR)), w.chat.users[i].id;
    CStringOfString(own);
    OwnEntry(w, i);
    if LoggedIn(w, i) {
      SameLogins(w, w');
    } else {
      assert LoggedInAs(w', own, i) <==> i in w.connected;
      assert Indexed(w'.chat, own, i) <==> own !in w.chat.ids;
      if i in w.connected <==> own !in w.chat.ids {
        forall id, j ensures Indexed(w'.chat, id, j) <==> LoggedInAs(w', id, j) {
          assert Indexed(w.chat, id, j) <==> LoggedInAs(w, id, j);
          assert own !in w.chat.ids ==> !Indexed(w.chat, own, j);
        }
      }
    }
  }

  /** A failed one takes its user's id away, and leaves the entry of a user that was logged in. */
  lemma FailureKeepsIndexIff(w: World, i: int, code: int)
    requires InRange(w.chat) && Index(w) && IsUser(w.chat, i) && code != NO_ERROR
    ensures Index(Step(w, LoginResult(i, code))) <==> KeepsIndex(w, LoginResult(i, code))
  {
    var w', own := Step(w, LoginResult(i, code)), w.chat.users[i].id;
    OwnEntry(w, i);
    if LoggedIn(w, i) && own != [] {
      assert Indexed(w'.chat, own, i) && !LoggedInAs(w', own, i);
    } else {
      SameLogins(w, w');
    }
  }

  lemma StepKeepsIndexIff(w: World, e: Event)
    requires InRange(w.chat) && Index(w) && Strings(w.chat) && IsUser(w.chat, e.i)
    ensures Index(Step(w, e)) <==> KeepsIndex(w, e)
  {
    match e
    case Connected(i) => ClearKeepsIndexIff(w, i);
    case Disconnected(i) => DisconnectKeepsIndexIff(w, i);
    case LoginRequest(i, field) => LoginRequestKeepsIndexIff(w, i, field);
    case LoginResult(i, code) =>
      if code == NO_ERROR { SuccessKeepsIndexIff(w, i); } else { FailureKeepsIndexIff(w, i, code); }
    case EnterRequest(i, room) => SameLogins(w, Step(w, e));
    case LeaveRequest(i) => SameLogins(w, Step(w, e));
    case ChatRequest(i, msg) => SameLogins(w, Step(w, e));
  }

  // The views.

  /** Lists and views both right. */
  ghost predicate Rooms(w: World) {
    InRange(w.chat) && |w.chat.users| <= 0x8000 && Membership(w) && Capacity(w.chat) && Views(w.chat)
  }

  lemma ReplyKeepsViewsIff(s: State, i: int, n: Notice)
    requires InRange(s) && IsResponse(n)
    ensures Views(Reply(s, i, n)) <==> Views(s)
  {
    var s' := Reply(s, i, n);
    assert forall r, j :: Listed(s', r, j) <==> Listed(s, r, j);
    forall j ensures View(s'.log, j) == View(s.log, j) {
      ViewNext(s.log, Sent(i, n), j);
    }
  }

  /** Renaming a user, whatever else changes about it, is noticed exactly when some room lists it. */
  lemma RenameKeepsViewsIff(s: State, s': State, i: int)
    requires InRange(s) && Views(s) && IsUser(s, i)
    requires |s'.users| == |s.users| && s'.rooms == s.rooms && s'.log == s.log
    requires forall j :: 0 <= j < |s'.users| && j != i ==> s'.users[j].id == s.users[j].id
    ensures Views(s') <==> (InSomeList(s, i) ==> s'.users[i].id == s.users[i].id)
  {
    if InSomeList(s, i) && s'.users[i].id != s.users[i].id {
      var r :| Listed(s, r, i);
      var k :| 0 <= k < |s.rooms[r]| && s.rooms[r][k] == i;
      assert Entries(s'.users, s'.rooms[r])[k] != Entries(s.users, s.rooms[r])[k];
      assert Listed(s', r, i);
    } else {
      forall r, j | Listed(s', r, j) ensures View(s'.log, j) == Some(Entries(s'.users, s'.rooms[r])) {
        assert Listed(s, r, j);
        assert i in s.rooms[r] ==> Listed(s, r, i);
        EntriesSame(s.users, s'.users, s.rooms[r]);
      }
    }
  }

  lemma EnterLists(s: State, i: int, room: int)
    requires InRange(s) && IsUser(s, i) && EnterRoom(s, i, room).1 == NO_ERROR
    requires Capacity(s) && !Listed(s, room, i)
    ensures var s' := EnterRoom(s, i, room).0;
            Capacity(s') && forall r, j :: Listed(s', r, j) <==> Listed(s, r, j) || (r == room && j == i)
  {
    var s' := EnterRoom(s, i, room).0;
    assert s'.rooms == s.rooms[room := s.rooms[room] + [i]];
    assert forall k :: 0 <= k < |s.rooms[room]| ==> s.rooms[room][k] != i;
  }

  /** What an entry's notifications do to each session: the newcomer gets the list, the members the
      newcomer, everyone else nothing. */
  lemma EnterSeen(log: seq<Sent>, list: seq<int>, me: Entry, us: seq<Entry>, i: int, j: int)
    requires NoDup(list + [i]) && forall k :: 0 <= k < |list + [i]| ==> 0 <= (list + [i])[k] < 0x8000
    ensures View(log + Broadcast(list + [i], NewUser(me), i, true) + [Sent(i, UserList(us))], j)
            == if j == i then Some(us)
               else if j in list then Believe(View(log, j), NewUser(me)) else View(log, j)
  {
    ViewAfterBroadcast(log, list + [i], NewUser(me), i, true, j);
    ViewNext(log + Broadcast(list + [i], NewUser(me), i, true), Sent(i, UserList(us)), j);
  }

  lemma EnterLog(s: State, i: int, room: int)
    requires InRange(s) && IsUser(s, i) && EnterRoom(s, i, room).1 == NO_ERROR && |s.users| <= 0x8000
    ensures var s' := EnterRoom(s, i, room).0;
            && s'.log == s.log + Broadcast(s.rooms[room] + [i], NewUser(Entry(i, s.users[i].id)), i, true)
                         + [Sent(i, UserList(Entries(s'.users, s'.rooms[room])))]
            && s'.rooms[room] == s.rooms[room] + [i]
            && Entries(s'.users, s'.rooms[room]) == Entries(s.users, s.rooms[room]) + [Entry(i, s.users[i].id)]
            && forall k :: 0 <= k < |s.rooms[room] + [i]| ==> 0 <= (s.rooms[room] + [i])[k] < 0x8000
  {
    EntriesSame(s.users, EnterRoom(s, i, room).0.users, s.rooms[room]);
  }

  lemma ViewsAfterEnter(w: World, s': State, i: int, room: int, me: Entry)
    requires Rooms(w) && InRange(s') && 0 <= room < |w.chat.rooms| && |s'.users| == |w.chat.users|
    requires s'.rooms == w.chat.rooms[room := w.chat.rooms[room] + [i]]
    requires s'.log == w.chat.log + Broadcast(w.chat.rooms[room] + [i], NewUser(me), i, true)
                       + [Sent(i, UserList(Entries(s'.users, s'.rooms[room])))]
    requires Entries(s'.users, s'.rooms[room]) == Entries(w.chat.users, w.chat.rooms[room]) + [me]
    requires forall r :: !Listed(w.chat, r, i)
    requires forall u :: 0 <= u < |s'.users| ==> s'.users[u].id == w.chat.users[u].id
    requires NoDup(s'.rooms[room])
    ensures Views(s')
  {
    var s, us := w.chat, Entries(s'.users, s'.rooms[room]);
    forall r, j | Listed(s', r, j) ensures View(s'.log, j) == Some(Entries(s'.users, s'.rooms[r])) {
      EnterSeen(s.log, s.rooms[room], me, us, i, j);
      if r == room {
        assert j == i || Listed(s, r, j);
      } else {
        assert Listed(s, r, j) && !Listed(s, r, i);
        OneRoomOnly(w, r, room, j);
        EntriesSame(s.users, s'.users, s.rooms[r]);
      }
    }
  }

  lemma EnterKeepsViews(w: World, i: int, room: int)
    requires Rooms(w) && IsUser(w.chat, i) && Takes(w.chat, i, room)
    ensures Views(EnterRoom(w.chat, i, room).0) && Capacity(EnterRoom(w.chat, i, room).0)
  {
    NotInRoom(w, i);
    EnterLists(w.chat, i, room);
    EnterLog(w.chat, i, room);
    ViewsAfterEnter(w, EnterRoom(w.chat, i, room).0, i, room, Entry(i, w.chat.users[i].id));
  }

  lemma EnterRequestKeepsViews(w: World, i: int, room: int)
    requires Rooms(w) && IsUser(w.chat, i)
    ensures Views(Step(w, EnterRequest(i, room)).chat) && Capacity(Step(w, EnterRequest(i, room)).chat)
  {
    if w.chat.users[i].domain.InLobby? {
      var (s', code) := EnterRoom(w.chat, i, room);
      if Takes(w.chat, i, room) { EnterKeepsViews(w, i, room); }
      ReplyKeepsViewsIff(s', i, EnterResponse(code));
    } else {
      ReplyKeepsViewsIff(w.chat, i, EnterResponse(ENTER_ROOM_NOT_USED_STATUS));
    }
  }

  lemma LeaveSeen(log: seq<Sent>, rest: seq<int>, i: int, j: int)
    requires NoDup(rest) && (forall k :: 0 <= k < |rest| ==> 0 <= rest[k] < 0x8000) && j != i
    ensures View(log + Broadcast(rest, UserLeft(i), i, true), j)
            == if j in rest then Believe(View(log, j), UserLeft(i)) else View(log, j)
  {
    ViewAfterBroadcast(log, rest, UserLeft(i), i, true, j);
  }

  /** A leave that erases `rest` down: right for those who stay exactly when they see what happened. */
  lemma ViewsAfterLeaveIff(w: World, s': State, i: int, room: int, rest: seq<int>)
    requires Rooms(w) && InRange(s') && 0 <= room < |w.chat.rooms|
    requires s'.users == w.chat.users && s'.rooms == w.chat.rooms[room := rest]
    requires s'.log == w.chat.log + Broadcast(rest, UserLeft(i), i, true)
    requires NoDup(rest) && (forall k :: 0 <= k < |rest| ==> 0 <= rest[k] < |w.chat.users|)
    requires forall u :: u in rest ==> u in w.chat.rooms[room] && u != i
    requires forall r :: r != room ==> !Listed(w.chat, r, i)
    ensures Views(s')
            <==> rest == [] || Without(Entries(w.chat.users, w.chat.rooms[room]), i) == Entries(w.chat.users, rest)
  {
    var s := w.chat;
    var seen := Without(Entries(s.users, s.rooms[room]), i);
    forall r, j | Listed(s', r, j) ensures View(s'.log, j) == Some(if r == room then seen else Entries(s.users, s.rooms[r])) {
      assert Listed(s, r, j) && j != i;
      LeaveSeen(s.log, rest, i, j);
      if r != room {
        OneRoomOnly(w, r, room, j);
        assert j !in rest;
      }
    }
    if rest != [] {
      assert Listed(s', room, rest[0]);
    }
  }

  lemma LeaveListKeepsViewsIff(w: World, i: int, room: int)
    requires Rooms(w) && IsUser(w.chat, i) && 0 <= room < |w.chat.rooms|
    requires InARoom(w, i) ==> w.chat.users[i].roomIdx == room
    ensures Views(LeaveList(w.chat, i, room)) <==> OnlyHolder(w.chat, i, room) || AllHold(w.chat, i, room)
    ensures Capacity(LeaveList(w.chat, i, room))
  {
    var s, s' := w.chat, LeaveList(w.chat, i, room);
    var rest := s'.rooms[room];
    EraseIsSublist(s.users, s.rooms[room], s.users[i].id);
    EraseMembers(s.users, s.rooms[room], s.users[i].id);
    forall r | r != room ensures !Listed(s, r, i) {
      assert Listed(s, r, i) <==> Present(w, r, i);
    }
    ViewsAfterLeaveIff(w, s', i, room, rest);
    LeaveIsSeenAsItIsIff(s.users, s.rooms[room], i);
    RestIsEmptyIff(s, i, room);
  }

  lemma RestIsEmptyIff(s: State, i: int, room: int)
    requires InRange(s) && IsUser(s, i) && 0 <= room < |s.rooms|
    ensures EraseId(s.users, s.rooms[room], s.users[i].id) == [] <==> AllHold(s, i, room)
  {
    var rest := EraseId(s.users, s.rooms[room], s.users[i].id);
    EraseMembers(s.users, s.rooms[room], s.users[i].id);
    if rest != [] {
      assert rest[0] in rest;
    }
  }

  lemma LeaveRequestKeepsViewsIff(w: World, i: int)
    requires Rooms(w) && IsUser(w.chat, i)
    ensures Views(Step(w, LeaveRequest(i)).chat) <==> KeepsViews(w, LeaveRequest(i))
    ensures Capacity(Step(w, LeaveRequest(i)).chat)
  {
    var s := w.chat;
    if NamesARoom(s, i) {
      LeaveListKeepsViewsIff(w, i, s.users[i].roomIdx);
      SameListsSameViews(LeaveList(s, i, s.users[i].roomIdx), LeaveRoom(s, i).0);
      ReplyKeepsViewsIff(LeaveRoom(s, i).0, i, LeaveResponse(NO_ERROR));
    } else if s.users[i].domain.InRoom? {
      ReplyKeepsViewsIff(s, i, LeaveResponse(ROOM_INVALID_INDEX));
    } else {
      ReplyKeepsViewsIff(s, i, LeaveResponse(USER_NOT_IN_ROOM));
    }
  }

  /** Views depend on lists, ids and what was sent, and on nothing else. */
  lemma SameListsSameViews(s: State, s': State)
    requires InRange(s) && |s'.users| == |s.users| && s'.rooms == s.rooms && s'.log == s.log
    requires forall j :: 0 <= j < |s.users| ==> s'.users[j].id == s.users[j].id
    ensures Views(s') <==> Views(s)
  {
    assert forall r, j :: Listed(s', r, j) <==> Listed(s, r, j);
    forall r | 0 <= r < |s.rooms| ensures Entries(s'.users, s'.rooms[r]) == Entries(s.users, s.rooms[r]) {
      EntriesSame(s.users, s'.users, s.rooms[r]);
    }
  }

  lemma DisconnectKeepsViewsIff(w: World, i: int)
    requires Rooms(w) && IsUser(w.chat, i)
    ensures Views(Step(w, Disconnected(i)).chat) <==> KeepsViews(w, Disconnected(i))
    ensures Capacity(Step(w, Disconnected(i)).chat)
  {
    var s, s' := w.chat, Step(w, Disconnected(i)).chat;
    if NamesARoom(s, i) {
      LeaveListKeepsViewsIff(w, i, s.users[i].roomIdx);
      SameListsSameViews(LeaveList(s, i, s.users[i].roomIdx), s');
    } else {
      SameListsSameViews(s, s');
    }
  }

  lemma LoginRequestKeepsViewsIff(w: World, i: int, field: ByteString)
    requires Rooms(w) && IsUser(w.chat, i)
    ensures Views(Step(w, LoginRequest(i, field)).chat) <==> KeepsViews(w, LoginRequest(i, field))
  {
    var s, s', id := w.chat, Step(w, LoginRequest(i, field)).chat, CString(field);
    var ids := FindUserIndexByID(s.ids, id).1;
    if Refused(s, field) {
      ReplyKeepsViewsIff(s.(ids := ids), i, LoginResponse(LOGIN_USER_ALREADY));
      SameListsSameViews(s, s.(ids := ids));
    } else {
      RenameKeepsViewsIff(s, s', i);
    }
  }

  lemma LoginResultKeepsViewsIff(w: World, i: int, code: int)
    requires Rooms(w) && IsUser(w.chat, i)
    ensures Views(Step(w, LoginResult(i, code)).chat) <==> KeepsViews(w, LoginResult(i, code))
  {
    var s1 := if code == NO_ERROR then SetUserLogin(w.chat, i) else SetUserID(w.chat, i, []);
    RenameKeepsViewsIff(w.chat, s1, i);
    ReplyKeepsViewsIff(s1, i, LoginResponse(code));
  }

  lemma ChatRequestKeepsViews(w: World, i: int, msg: ByteString)
    requires Rooms(w) && IsUser(w.chat, i)
    ensures Views(Step(w, ChatRequest(i, msg)).chat)
  {
    var s, u := w.chat, w.chat.users[i];
    if NamesARoom(s, i) {
      ReplyKeepsViewsIff(s, i, ChatResponse(NO_ERROR));
      ChatKeepsViews(Reply(s, i, ChatResponse(NO_ERROR)), i, u.roomIdx, ChatLine(u.id, msg));
    } else if u.domain.InRoom? {
      ReplyKeepsViewsIff(s, i, ChatResponse(CHAT_ROOM_INVALID_ROOM_NUMBER));
    } else {
      ReplyKeepsViewsIff(s, i, ChatResponse(USER_IN_LOBBY));
    }
  }

  lemma ChatKeepsViews(s: State, i: int, room: int, n: Notice)
    requires InRange(s) && Views(s) && Capacity(s) && |s.users| <= 0x8000 && 0 <= room < |s.rooms| && n.ChatLine?
    ensures Views(s.(log := s.log + Broadcast(s.rooms[room], n, i, false)))
  {
    var s' := s.(log := s.log + Broadcast(s.rooms[room], n, i, false));
    forall r, j | Listed(s', r, j) ensures View(s'.log, j) == Some(Entries(s'.users, s'.rooms[r])) {
      assert Listed(s, r, j);
      ViewAfterBroadcast(s.log, s.rooms[room], n, i, false, j);
    }
  }

  /** Whatever the packet and whoever sends it. */
  lemma StepKeepsViewsIff(w: World, e: Event)
    requires Rooms(w) && IsUser(w.chat, e.i)
    ensures Views(Step(w, e).chat) <==> KeepsViews(w, e)
    ensures Capacity(Step(w, e).chat)
  {
    match e
    case Connected(i) => RenameKeepsViewsIff(w.chat, Step(w, e).chat, i);
    case Disconnected(i) => DisconnectKeepsViewsIff(w, i);
    case LoginRequest(i, field) => LoginRequestKeepsViewsIff(w, i, field);
    case LoginResult(i, code) => LoginResultKeepsViewsIff(w, i, code);
    case EnterRequest(i, room) => EnterRequestKeepsViews(w, i, room);
    case LeaveRequest(i) => LeaveRequestKeepsViewsIff(w, i);
    case ChatRequest(i, msg) => ChatRequestKeepsViews(w, i, msg);
  }

  // Runs: any packets, from anyone, in any order.

  ghost predicate ForUsers(w: World, es: seq<Event>) {
    forall k :: 0 <= k < |es| ==> IsUser(w.chat, es[k].i)
  }

  ghost function Run(w: World, es: seq<Event>): (w': World)
    requires InRange(w.chat) && ForUsers(w, es)
    ensures InRange(w'.chat) && |w'.chat.users| == |w.chat.users| && |w'.chat.rooms| == |w.chat.rooms|
    decreases |es|
  {
    if es == [] then w else Run(Step(w, es[0]), es[1..])
  }

  lemma RunNext(w: World, es: seq<Event>, k: nat)
    requires k < |es| && InRange(w.chat) && ForUsers(w, es)
    ensures ForUsers(w, es[k..]) && ForUsers(Step(w, es[k]), es[k + 1..])
    ensures Run(Step(w, es[k]), es[k + 1..]) == Run(w, es[k..])
  {
    assert es[k..][0] == es[k] && es[k..][1..] == es[k + 1..];
  }

  datatype Law = ListsAndStates | ListsStatesAndViews | MapOfTheLoggedIn

  ghost predicate Holds(law: Law, w: World)
    requires InRange(w.chat)
  {
    match law
    case ListsAndStates => Membership(w)
    case ListsStatesAndViews => Rooms(w)
    case MapOfTheLoggedIn => Index(w) && Strings(w.chat)
  }

  ghost predicate Keeps(law: Law, w: World, e: Event)
    requires InRange(w.chat) && IsUser(w.chat, e.i)
  {
    match law
    case ListsAndStates => KeepsMembership(w, e)
    case ListsStatesAndViews => KeepsMembership(w, e) && KeepsViews(w, e)
    case MapOfTheLoggedIn => KeepsIndex(w, e)
  }

  lemma StepKeepsIff(law: Law, w: World, e: Event)
    requires InRange(w.chat) && IsUser(w.chat, e.i) && Holds(law, w)
    ensures Holds(law, Step(w, e)) <==> Keeps(law, w, e)
  {
    match law
    case ListsAndStates => StepKeepsMembershipIff(w, e);
    case ListsStatesAndViews => StepKeepsMembershipIff(w, e); StepKeepsViewsIff(w, e);
    case MapOfTheLoggedIn => StepKeepsIndexIff(w, e); StepKeepsStrings(w, e);
  }

  /** The law holds at every state of the run. */
  ghost predicate Always(law: Law, w: World, es: seq<Event>)
    requires InRange(w.chat) && ForUsers(w, es)
    decreases |es|
  {
    Holds(law, w) && (es == [] || Always(law, Step(w, es[0]), es[1..]))
  }

  /** Every packet of the run meets the condition of the law, in the state it finds. */
  ghost predicate AllKeep(law: Law, w: World, es: seq<Event>)
    requires InRange(w.chat) && ForUsers(w, es)
    decreases |es|
  {
    es == [] || (Keeps(law, w, es[0]) && AllKeep(law, Step(w, es[0]), es[1..]))
  }

  /** A law holds all through a run exactly when every packet meets its condition: the first packet that does
      not is the one that breaks it. */
  lemma {:induction false} AlwaysIff(law: Law, w: World, es: seq<Event>)
    requires InRange(w.chat) && ForUsers(w, es) && Holds(law, w)
    ensures Always(law, w, es) <==> AllKeep(law, w, es)
    ensures AllKeep(law, w, es) ==> Holds(law, Run(w, es))
    decreases |es|
  {
    if es == [] {
    } else {
      StepKeepsIff(law, w, es[0]);
      if Keeps(law, w, es[0]) {
        AlwaysIff(law, Step(w, es[0]), es[1..]);
      } else {
        BrokenAtOnce(law, Step(w, es[0]), es[1..]);
      }
    }
  }

  lemma BrokenAtOnce(law: Law, w: World, es: seq<Event>)
    requires InRange(w.chat) && ForUsers(w, es) && !Holds(law, w)
    ensures !Always(law, w, es)
  {
  }

  lemma InitHolds(law: Law, users: nat, rooms: nat)
    requires users <= 0x8000
    ensures Holds(law, InitWorld(users, rooms))
  {
  }

  // What the laws give, over runs of a server that starts empty.

  ghost predicate IsRun(law: Law, users: nat, rooms: nat, es: seq<Event>) {
    && users <= 0x8000 && ForUsers(InitWorld(users, rooms), es)
    && AllKeep(law, InitWorld(users, rooms), es)
  }

  ghost function Reached(users: nat, rooms: nat, es: seq<Event>): (w: World)
    requires ForUsers(InitWorld(users, rooms), es)
    ensures InRange(w.chat)
  {
    Run(InitWorld(users, rooms), es)
  }

  lemma ReachedHolds(law: Law, users: nat, rooms: nat, es: seq<Event>)
    requires IsRun(law, users, rooms, es)
    ensures Holds(law, Reached(users, rooms, es))
  {
    InitHolds(law, users, rooms);
    AlwaysIff(law, InitWorld(users, rooms), es);
  }

  /** Every member's replay of what it was sent is the room's list, in the same order. */
  lemma MembersSeeTheRoom(users: nat, rooms: nat, es: seq<Event>, r: int, i: int)
    requires IsRun(ListsStatesAndViews, users, rooms, es) && Listed(Reached(users, rooms, es).chat, r, i)
    ensures var s := Reached(users, rooms, es).chat;
            View(s.log, i) == Some(Entries(s.users, s.rooms[r]))
  {
    ReachedHolds(ListsStatesAndViews, users, rooms, es);
  }

  /** A connected user is in state kROOM exactly when some room lists it; that is the room its index
      names, it lists the user once, and no room has more than ten. */
  lemma InRoomExactlyWhenListed(users: nat, rooms: nat, es: seq<Event>, i: int)
    requires IsRun(ListsStatesAndViews, users, rooms, es)
    ensures var w := Reached(users, rooms, es);
            && (InARoom(w, i) <==> InSomeList(w.chat, i))
            && (forall r :: Listed(w.chat, r, i) ==> r == w.chat.users[i].roomIdx)
            && (forall r :: 0 <= r < |w.chat.rooms| ==>
                  multiset(w.chat.rooms[r])[i] <= 1 && |w.chat.rooms[r]| <= ROOM_MAX_USER_CNT)
  {
    ReachedHolds(ListsStatesAndViews, users, rooms, es);
    var w := Reached(users, rooms, es);
    forall r | Listed(w.chat, r, i) ensures r == w.chat.users[i].roomIdx && InARoom(w, i) {
      assert Present(w, r, i);
    }
    if InARoom(w, i) {
      assert Present(w, w.chat.users[i].roomIdx, i) && Listed(w.chat, w.chat.users[i].roomIdx, i);
    }
    forall r | 0 <= r < |w.chat.rooms| ensures multiset(w.chat.rooms[r])[i] <= 1 {
      OnceEach(w.chat.rooms[r], i);
    }
  }

  lemma {:induction false} OnceEach(list: seq<int>, i: int)
    requires NoDup(list)
    ensures multiset(list)[i] <= 1
  {
    if list == [] {
    } else {
      var before, last := list[..|list| - 1], list[|list| - 1];
      assert list == before + [last];
      OnceEach(before, i);
      assert last !in before;
    }
  }

  /** A chat line goes to every member of the sender's room, the sender after its answer, once each,
      and to nobody else. */
  lemma ChatReachesTheRoom(w: World, i: int, msg: ByteString, j: int)
    requires Rooms(w) && InARoom(w, i)
    ensures var s, s' := w.chat, Step(w, ChatRequest(i, msg)).chat;
            && Listed(s, s.users[i].roomIdx, i)
            && Received(s'.log, j) == Received(s.log, j)
                 + (if j == i then [ChatResponse(NO_ERROR)] else [])
                 + (if Listed(s, s.users[i].roomIdx, j) then [ChatLine(s.users[i].id, msg)] else [])
  {
    var s, u := w.chat, w.chat.users[i];
    assert Present(w, u.roomIdx, i) && Listed(s, u.roomIdx, i);
    ReceivedNext(s.log, Sent(i, ChatResponse(NO_ERROR)), j);
    ReceivedFromBroadcast(s.log + [Sent(i, ChatResponse(NO_ERROR))], s.rooms[u.roomIdx], ChatLine(u.id, msg), i, j);
  }

  /** `FindUserIndexByID` answers with the one session logged in under an id, or -1 if there is none. */
  ghost predicate FindsExactly(w: World) {
    forall id :: NulFree(id) ==> FindsOnly(w, id)
  }

  ghost predicate FindsOnly(w: World, id: ByteString) {
    var found := FindUserIndexByID(w.chat.ids, id).0;
    && (forall i :: i >= 0 ==> (found == i <==> LoggedInAs(w, id, i)))
    && (found == -1 <==> forall i :: !LoggedInAs(w, id, i))
  }

  /** With an exact map the look-up is exact. */
  lemma FindIsExact(w: World, id: ByteString)
    requires Index(w) && NulFree(id)
    ensures FindUserIndexByID(w.chat.ids, id).1 == w.chat.ids
    ensures FindUserIndexByID(w.chat.ids, id).0 == -1 <==> forall i :: !LoggedInAs(w, id, i)
    ensures forall i :: LoggedInAs(w, id, i) ==> FindUserIndexByID(w.chat.ids, id).0 == i
  {
    FindReads(w.chat.ids, id);
    if id in w.chat.ids {
      HeldByItsUser(w, id);
    } else {
      forall i ensures !LoggedInAs(w, id, i) {
        assert !Indexed(w.chat, id, i);
      }
    }
  }

  lemma FindsExactlyIffIndex(w: World)
    requires Strings(w.chat)
    ensures FindsExactly(w) <==> Index(w)
  {
    if Index(w) {
      forall id | NulFree(id) ensures FindsOnly(w, id) {
        FindIsExact(w, id);
        FindReads(w.chat.ids, id);
        assert forall i :: Indexed(w.chat, id, i) <==> LoggedInAs(w, id, i);
      }
    }
    if FindsExactly(w) {
      forall id, i ensures Indexed(w.chat, id, i) <==> LoggedInAs(w, id, i) {
        if Indexed(w.chat, id, i) || LoggedInAs(w, id, i) {
          assert NulFree(id) && FindsOnly(w, id);
          FindReads(w.chat.ids, id);
        }
      }
    }
  }

  /** As long as every packet meets the condition of the map, the look-up is exact; and it stops being exact
      with the first packet that does not. */
  lemma FindsExactlyUntilBroken(users: nat, rooms: nat, es: seq<Event>, e: Event)
    requires IsRun(MapOfTheLoggedIn, users, rooms, es) && IsUser(Reached(users, rooms, es).chat, e.i)
    ensures FindsExactly(Reached(users, rooms, es))
    ensures FindsExactly(Step(Reached(users, rooms, es), e)) <==> KeepsIndex(Reached(users, rooms, es), e)
  {
    var w := Reached(users, rooms, es);
    ReachedHolds(MapOfTheLoggedIn, users, rooms, es);
    FindsExactlyIffIndex(w);
    StepKeepsIndexIff(w, e);
    StepKeepsStrings(w, e);
    FindsExactlyIffIndex(Step(w, e));
  }

  /** No two sessions are then logged in under one id, and an id in use is never free. */
  lemma IdsAreUnique(users: nat, rooms: nat, es: seq<Event>, id: ByteString, i: int, j: int)
    requires IsRun(MapOfTheLoggedIn, users, rooms, es)
    requires LoggedInAs(Reached(users, rooms, es), id, i) && LoggedInAs(Reached(users, rooms, es), id, j)
    ensures i == j && FindUserIndexByID(Reached(users, rooms, es).chat.ids, id).0 == i
  {
    var w := Reached(users, rooms, es);
    ReachedHolds(MapOfTheLoggedIn, users, rooms, es);
    assert Indexed(w.chat, id, i) && Indexed(w.chat, id, j);
    FindReads(w.chat.ids, id);
  }

  // Two logins under one id.

  lemma EntersSoleRoom(s: State, i: int)
    requires InRange(s) && IsUser(s, i) && |s.rooms| == 1 && |s.rooms[0]| < ROOM_MAX_USER_CNT && s.users[i].domain.InLobby?
    ensures var s' := Handle(s, EnterRequest(i, 0));
            && s'.rooms == [s.rooms[0] + [i]]
            && s'.users == s.users[i := s.users[i].(roomIdx := 0, domain := InRoom)]
  {
    assert [s.rooms[0]][0 := s.rooms[0] + [i]] == [s.rooms[0] + [i]];
  }

  lemma LeavesSoleRoom(s: State, i: int)
    requires InRange(s) && IsUser(s, i) && |s.rooms| == 1 && s.users[i].domain.InRoom? && s.users[i].roomIdx == 0
    ensures var s' := Handle(s, LeaveRequest(i));
            && s'.rooms == [EraseId(s.users, s.rooms[0], s.users[i].id)]
            && s'.users == s.users[i := s.users[i].(domain := InLobby)]
  {
    assert [s.rooms[0]][0 := EraseId(s.users, s.rooms[0], s.users[i].id)] == [EraseId(s.users, s.rooms[0], s.users[i].id)];
  }

  lemma BothCarryIt(users: seq<Profile>, id: ByteString)
    requires |users| == 2 && users[0].id == id && users[1].id == id
    ensures EraseId(users, [0, 1], id) == []
  {
    EraseNext(users, [0], 1, id);
    EraseNext(users, [], 0, id);
    assert [0] + [1] == [0, 1] && [] + [0] == [0];
  }

  lemma BothAreLetIn(id: ByteString)
    requires id != [] && NulFree(id)
    ensures var asked := Handle(Handle(InitState(2, 1), LoginRequest(0, id)), LoginRequest(1, id));
            var answered := Handle(Handle(asked, LoginResult(0, NO_ERROR)), LoginResult(1, NO_ERROR));
            answered.users == [Profile(-1, id, true, InLobby), Profile(-1, id, true, InLobby)] && answered.rooms == [[]]
  {
    CStringOfString(id);
    var asked := Handle(Handle(InitState(2, 1), LoginRequest(0, id)), LoginRequest(1, id));
    assert asked.users == [Profile(-1, id, false, NotLoggedIn), Profile(-1, id, false, NotLoggedIn)];
    assert asked.rooms == [[]];
  }

  lemma BothEnter(s: State, id: ByteString)
    requires s.users == [Profile(-1, id, true, InLobby), Profile(-1, id, true, InLobby)] && s.rooms == [[]]
    ensures var entered := Handle(Handle(s, EnterRequest(0, 0)), EnterRequest(1, 0));
            && entered.users == [Profile(0, id, true, InRoom), Profile(0, id, true, InRoom)]
            && entered.rooms == [[0, 1]]
  {
    EntersSoleRoom(s, 0);
    var first := Handle(s, EnterRequest(0, 0));
    assert first.rooms == [[0]] && first.users == [Profile(0, id, true, InRoom), Profile(-1, id, true, InLobby)];
    EntersSoleRoom(first, 1);
    assert [0] + [1] == [0, 1];
  }

  lemma BothAreErased(entered: State, id: ByteString)
    requires entered.users == [Profile(0, id, true, InRoom), Profile(0, id, true, InRoom)] && entered.rooms == [[0, 1]]
    ensures var left := Handle(entered, LeaveRequest(0));
            left.rooms[0] == [] && left.users[1] == Profile(0, id, true, InRoom)
  {
    BothCarryIt(entered.users, id);
    LeavesSoleRoom(entered, 0);
  }

  /** Two sessions that ask for one id before either is answered are both let in, and when the first
      leaves the room both are out of its list: the second stays in state kROOM, in no room. */
  lemma TwoLoginsUnderOneId(id: ByteString)
    requires id != [] && NulFree(id)
    ensures var asked := Handle(Handle(InitState(2, 1), LoginRequest(0, id)), LoginRequest(1, id));
            var answered := Handle(Handle(asked, LoginResult(0, NO_ERROR)), LoginResult(1, NO_ERROR));
            var entered := Handle(Handle(answered, EnterRequest(0, 0)), EnterRequest(1, 0));
            var left := Handle(entered, LeaveRequest(0));
            entered.rooms[0] == [0, 1] && left.rooms[0] == [] && left.users[1] == Profile(0, id, true, InRoom)
  {
    BothAreLetIn(id);
    var asked := Handle(Handle(InitState(2, 1), LoginRequest(0, id)), LoginRequest(1, id));
    var answered := Handle(Handle(asked, LoginResult(0, NO_ERROR)), LoginResult(1, NO_ERROR));
    BothEnter(answered, id);
    BothAreErased(Handle(Handle(answered, EnterRequest(0, 0)), EnterRequest(1, 0)), id);
  }
}
