/** What each packet makes the server send, session by session, and the codes of its answers. */
module ChatAnswers {
  import opened Bytes
  import opened Users
  import opened Chats
  import opened ChatViews
  import opened ChatRuns

  /** Session j is sent these notices more, in this order, and nothing else. */
  ghost predicate Told(s: State, s': State, j: int, notices: seq<Notice>) {
    Received(s'.log, j) == Received(s.log, j) + notices
  }

  function Copies(n: Notice, times: nat): seq<Notice> {
    seq(times, _ => n)
  }

  /** A broadcast reaches a session as often as the list has it, and not at all the one it leaves out. */
  lemma {:induction false} BroadcastTells(log: seq<Sent>, list: seq<int>, n: Notice, pass: int, exceptMe: bool, j: int)
    requires forall k :: 0 <= k < |list| ==> 0 <= list[k] < 0x8000
    ensures Received(log + Broadcast(list, n, pass, exceptMe), j)
            == Received(log, j) + Copies(n, if exceptMe && j == pass then 0 else multiset(list)[j])
  {
    if list == [] {
      assert log + Broadcast(list, n, pass, exceptMe) == log;
    } else {
      var before, last := list[..|list| - 1], list[|list| - 1];
      assert list == before + [last];
      BroadcastTells(log, before, n, pass, exceptMe, j);
      BroadcastNext(log, before, last, n, pass, exceptMe);
      OwnIndexIsRecognised(last);
      ReceivedNext(log + Broadcast(before, n, pass, exceptMe), Sent(last, n), j);
    }
  }

  lemma ReplyTells(s: State, i: int, n: Notice, j: int)
    ensures Told(s, Reply(s, i, n), j, if j == i then [n] else [])
  {
    ReceivedNext(s.log, Sent(i, n), j);
  }

  /** How often a session stands in a room's list. */
  function Times(s: State, room: int, j: int): nat
    requires 0 <= room < |s.rooms|
  {
    multiset(s.rooms[room])[j]
  }

  /** A new session is told nothing. */
  lemma ConnectedTells(s: State, i: int, j: int)
    requires InRange(s) && IsUser(s, i)
    ensures Told(s, Handle(s, Connected(i)), j, [])
  {
  }

  /** A login request is answered at once only if the id is in use. */
  lemma LoginRequestTells(s: State, i: int, field: ByteString, j: int)
    requires InRange(s) && IsUser(s, i) && Strings(s)
    ensures Told(s, Handle(s, LoginRequest(i, field)), j,
                 if j == i && CString(field) in s.ids then [LoginResponse(LOGIN_USER_ALREADY)] else [])
  {
    FindReads(s.ids, CString(field));
    ReplyTells(s, i, LoginResponse(LOGIN_USER_ALREADY), j);
  }

  /** The outcome of the check is passed on as it is. */
  lemma LoginResultTells(s: State, i: int, code: int, j: int)
    requires InRange(s) && IsUser(s, i)
    ensures Told(s, Handle(s, LoginResult(i, code)), j, if j == i then [LoginResponse(code)] else [])
  {
    ReplyTells(if code == NO_ERROR then SetUserLogin(s, i) else SetUserID(s, i, []), i, LoginResponse(code), j);
  }

  /** Why a session may not enter a room. */
  predicate EnterRefusal(s: State, i: int, room: int, code: int)
    requires IsUser(s, i)
  {
    if !s.users[i].domain.InLobby? then code == ENTER_ROOM_NOT_USED_STATUS
    else if !(0 <= room < |s.rooms|) then code == ROOM_INVALID_INDEX
    else |s.rooms[room]| >= ROOM_MAX_USER_CNT && code == ENTER_ROOM_FULL_USER
  }

  /** One that may not is told why, and nobody else anything. */
  lemma EnterRefusedTells(s: State, i: int, room: int, code: int, j: int)
    requires InRange(s) && IsUser(s, i) && EnterRefusal(s, i, room, code)
    ensures Told(s, Handle(s, EnterRequest(i, room)), j, if j == i then [EnterResponse(code)] else [])
  {
    ReplyTells(s, i, EnterResponse(code), j);
  }

  lemma EnterRoomTells(s: State, i: int, room: int, j: int)
    requires InRange(s) && |s.users| <= 0x8000 && IsUser(s, i) && Takes(s, i, room)
    ensures var me, others := Entry(i, s.users[i].id), Entries(s.users, s.rooms[room]);
            Told(s, EnterRoom(s, i, room).0, j,
                 if j == i then [UserList(others + [me])] else Copies(NewUser(me), Times(s, room, j)))
  {
    EnterLog(s, i, room);
    var list, n := s.rooms[room] + [i], NewUser(Entry(i, s.users[i].id));
    var us := UserList(Entries(s.users, s.rooms[room]) + [Entry(i, s.users[i].id)]);
    BroadcastTells(s.log, list, n, i, true, j);
    ReceivedNext(s.log + Broadcast(list, n, i, true), Sent(i, us), j);
  }

  /** One that is taken in is told who is there, itself last, and then that it may; the others who it is. */
  lemma EnterTakenTells(s: State, i: int, room: int, j: int)
    requires InRange(s) && |s.users| <= 0x8000 && IsUser(s, i) && Takes(s, i, room)
    ensures var me, others := Entry(i, s.users[i].id), Entries(s.users, s.rooms[room]);
            Told(s, Handle(s, EnterRequest(i, room)), j,
                 if j == i then [UserList(others + [me]), EnterResponse(NO_ERROR)]
                 else Copies(NewUser(me), Times(s, room, j)))
  {
    EnterRoomTells(s, i, room, j);
    ReplyTells(EnterRoom(s, i, room).0, i, EnterResponse(NO_ERROR), j);
  }

  /** Every entry request is one or the other. */
  lemma EnterTakenOrRefused(s: State, i: int, room: int)
    requires IsUser(s, i)
    ensures Takes(s, i, room) <==> forall code :: !EnterRefusal(s, i, room, code)
  {
    assert EnterRefusal(s, i, room, ENTER_ROOM_NOT_USED_STATUS) || EnterRefusal(s, i, room, ROOM_INVALID_INDEX)
           || EnterRefusal(s, i, room, ENTER_ROOM_FULL_USER) || Takes(s, i, room);
  }

  /** The others in the room, those with the leaver's id apart, are told of a leave. */
  lemma LeaveListTells(s: State, i: int, room: int, j: int)
    requires InRange(s) && |s.users| <= 0x8000 && IsUser(s, i) && 0 <= room < |s.rooms|
    ensures Told(s, LeaveList(s, i, room), j, Copies(UserLeft(i), TimesAfterLeave(s, i, room, j)))
  {
    var list := EraseId(s.users, s.rooms[room], s.users[i].id);
    EraseCount(s.users, s.rooms[room], s.users[i].id, j);
    BroadcastTells(s.log, list, UserLeft(i), i, true, j);
  }

  function TimesAfterLeave(s: State, i: int, room: int, j: int): nat
    requires IsUser(s, i) && 0 <= room < |s.rooms|
  {
    if IsUser(s, j) && s.users[j].id != s.users[i].id then Times(s, room, j) else 0
  }

  lemma {:induction false} EraseCount(users: seq<Profile>, list: seq<int>, id: ByteString, j: int)
    requires forall k :: 0 <= k < |list| ==> 0 <= list[k] < |users|
    ensures multiset(EraseId(users, list, id))[j]
            == if 0 <= j < |users| && users[j].id != id then multiset(list)[j] else 0
  {
    if list == [] {
    } else {
      var before, last := list[..|list| - 1], list[|list| - 1];
      assert list == before + [last];
      EraseCount(users, before, id, j);
    }
  }

  /** Why a session may not leave, or may not chat: it is in no room, or its index names none. */
  predicate RoomRefusal(s: State, i: int, code: int, inLobby: int, noRoom: int)
    requires IsUser(s, i)
  {
    if !s.users[i].domain.InRoom? then code == inLobby
    else !NamesARoom(s, i) && code == noRoom
  }

  lemma LeaveRefusedTells(s: State, i: int, code: int, j: int)
    requires InRange(s) && IsUser(s, i) && RoomRefusal(s, i, code, USER_NOT_IN_ROOM, ROOM_INVALID_INDEX)
    ensures Told(s, Handle(s, LeaveRequest(i)), j, if j == i then [LeaveResponse(code)] else [])
  {
    ReplyTells(s, i, LeaveResponse(code), j);
  }

  /** A session that leaves is told that it may; those left in the room are told first. */
  lemma LeaveTells(s: State, i: int, j: int)
    requires InRange(s) && |s.users| <= 0x8000 && IsUser(s, i) && NamesARoom(s, i)
    ensures Told(s, Handle(s, LeaveRequest(i)), j,
                 if j == i then [LeaveResponse(NO_ERROR)]
                 else Copies(UserLeft(i), TimesAfterLeave(s, i, s.users[i].roomIdx, j)))
  {
    LeaveListTells(s, i, s.users[i].roomIdx, j);
    ReplyTells(LeaveRoom(s, i).0, i, LeaveResponse(NO_ERROR), j);
  }

  /** A session that goes while in a room: those left are told, it is not. */
  lemma DisconnectedTells(s: State, i: int, j: int)
    requires InRange(s) && |s.users| <= 0x8000 && IsUser(s, i)
    ensures Told(s, Handle(s, Disconnected(i)), j,
                 if NamesARoom(s, i) then Copies(UserLeft(i), TimesAfterLeave(s, i, s.users[i].roomIdx, j)) else [])
  {
    if NamesARoom(s, i) {
      LeaveListTells(s, i, s.users[i].roomIdx, j);
    }
  }

  lemma ChatRefusedTells(s: State, i: int, msg: ByteString, code: int, j: int)
    requires InRange(s) && IsUser(s, i) && RoomRefusal(s, i, code, USER_IN_LOBBY, CHAT_ROOM_INVALID_ROOM_NUMBER)
    ensures Told(s, Handle(s, ChatRequest(i, msg)), j, if j == i then [ChatResponse(code)] else [])
  {
    ReplyTells(s, i, ChatResponse(code), j);
  }

  /** A chat line: first the answer to its sender, then the line to everybody in the room. */
  lemma ChatTells(s: State, i: int, msg: ByteString, j: int)
    requires InRange(s) && |s.users| <= 0x8000 && IsUser(s, i) && NamesARoom(s, i)
    ensures Told(s, Handle(s, ChatRequest(i, msg)), j,
                 (if j == i then [ChatResponse(NO_ERROR)] else [])
                 + Copies(ChatLine(s.users[i].id, msg), Times(s, s.users[i].roomIdx, j)))
  {
    var s1, room, line := Reply(s, i, ChatResponse(NO_ERROR)), s.users[i].roomIdx, ChatLine(s.users[i].id, msg);
    ReplyTells(s, i, ChatResponse(NO_ERROR), j);
    LineTells(s1, i, room, line, j);
    ThenTold(s, s1, Handle(s, ChatRequest(i, msg)), j, if j == i then [ChatResponse(NO_ERROR)] else [],
             Copies(line, Times(s, room, j)));
  }

  lemma ThenTold(s: State, s1: State, s2: State, j: int, a: seq<Notice>, b: seq<Notice>)
    requires Told(s, s1, j, a) && Told(s1, s2, j, b)
    ensures Told(s, s2, j, a + b)
  {
    assert Received(s.log, j) + a + b == Received(s.log, j) + (a + b);
  }

  lemma LineTells(s: State, i: int, room: int, n: Notice, j: int)
    requires InRange(s) && |s.users| <= 0x8000 && 0 <= room < |s.rooms|
    ensures Told(s, s.(log := s.log + Broadcast(s.rooms[room], n, i, false)), j, Copies(n, Times(s, room, j)))
  {
    BroadcastTells(s.log, s.rooms[room], n, i, false, j);
  }

  // Over runs.

  /** How many answers with this code a session has had to its logins. */
  function LoginAnswers(s: State, j: int, code: int): nat {
    multiset(Received(s.log, j))[LoginResponse(code)]
  }

  lemma ToldNoLogin(s: State, s': State, j: int, notices: seq<Notice>, code: int)
    requires Told(s, s', j, notices) && LoginResponse(code) !in notices
    ensures LoginAnswers(s', j, code) == LoginAnswers(s, j, code)
  {
    assert LoginResponse(code) !in multiset(notices);
  }

  lemma EnterAnswersNoLogin(s: State, i: int, room: int, j: int, code: int)
    requires InRange(s) && |s.users| <= 0x8000 && IsUser(s, i)
    ensures LoginAnswers(Handle(s, EnterRequest(i, room)), j, code) == LoginAnswers(s, j, code)
  {
    var s' := Handle(s, EnterRequest(i, room));
    EnterTakenOrRefused(s, i, room);
    if Takes(s, i, room) {
      var me, others := Entry(i, s.users[i].id), Entries(s.users, s.rooms[room]);
      EnterTakenTells(s, i, room, j);
      ToldNoLogin(s, s', j, if j == i then [UserList(others + [me]), EnterResponse(NO_ERROR)]
                            else Copies(NewUser(me), Times(s, room, j)), code);
    } else {
      var refusal :| EnterRefusal(s, i, room, refusal);
      EnterRefusedTells(s, i, room, refusal, j);
      ToldNoLogin(s, s', j, if j == i then [EnterResponse(refusal)] else [], code);
    }
  }

  lemma LeaveAnswersNoLogin(s: State, i: int, j: int, code: int)
    requires InRange(s) && |s.users| <= 0x8000 && IsUser(s, i)
    ensures LoginAnswers(Handle(s, LeaveRequest(i)), j, code) == LoginAnswers(s, j, code)
  {
    var s', room := Handle(s, LeaveRequest(i)), s.users[i].roomIdx;
    if NamesARoom(s, i) {
      LeaveTells(s, i, j);
      ToldNoLogin(s, s', j, if j == i then [LeaveResponse(NO_ERROR)]
                            else Copies(UserLeft(i), TimesAfterLeave(s, i, room, j)), code);
    } else {
      var refusal := if s.users[i].domain.InRoom? then ROOM_INVALID_INDEX else USER_NOT_IN_ROOM;
      LeaveRefusedTells(s, i, refusal, j);
      ToldNoLogin(s, s', j, if j == i then [LeaveResponse(refusal)] else [], code);
    }
  }

  lemma ChatAnswersNoLogin(s: State, i: int, msg: ByteString, j: int, code: int)
    requires InRange(s) && |s.users| <= 0x8000 && IsUser(s, i)
    ensures LoginAnswers(Handle(s, ChatRequest(i, msg)), j, code) == LoginAnswers(s, j, code)
  {
    var s', room := Handle(s, ChatRequest(i, msg)), s.users[i].roomIdx;
    if NamesARoom(s, i) {
      ChatTells(s, i, msg, j);
      ToldNoLogin(s, s', j, (if j == i then [ChatResponse(NO_ERROR)] else [])
                            + Copies(ChatLine(s.users[i].id, msg), Times(s, room, j)), code);
    } else {
      var refusal := if s.users[i].domain.InRoom? then CHAT_ROOM_INVALID_ROOM_NUMBER else USER_IN_LOBBY;
      ChatRefusedTells(s, i, msg, refusal, j);
      ToldNoLogin(s, s', j, if j == i then [ChatResponse(refusal)] else [], code);
    }
  }

  lemma GoingAnswersNoLogin(s: State, i: int, j: int, code: int)
    requires InRange(s) && |s.users| <= 0x8000 && IsUser(s, i)
    ensures LoginAnswers(Handle(s, Disconnected(i)), j, code) == LoginAnswers(s, j, code)
  {
    DisconnectedTells(s, i, j);
    ToldNoLogin(s, Handle(s, Disconnected(i)), j,
                if NamesARoom(s, i) then Copies(UserLeft(i), TimesAfterLeave(s, i, s.users[i].roomIdx, j)) else [], code);
  }

  /** No packet answers a login but the login request of an id in use and the result of a check. */
  lemma StepAnswersLogin(s: State, e: Event, j: int, code: int)
    requires InRange(s) && |s.users| <= 0x8000 && Strings(s) && IsUser(s, e.i) && code != LOGIN_USER_ALREADY
    ensures LoginAnswers(Handle(s, e), j, code) == LoginAnswers(s, j, code) + multiset([e])[LoginResult(j, code)]
  {
    match e
    case Connected(i) =>
    case Disconnected(i) => GoingAnswersNoLogin(s, i, j, code);
    case LoginRequest(i, field) => LoginRequestTells(s, i, field, j);
    case LoginResult(i, given) => LoginResultTells(s, i, given, j);
    case EnterRequest(i, room) => EnterAnswersNoLogin(s, i, room, j, code);
    case LeaveRequest(i) => LeaveAnswersNoLogin(s, i, j, code);
    case ChatRequest(i, msg) => ChatAnswersNoLogin(s, i, msg, j, code);
  }

  lemma CountNext(es: seq<Event>, e: Event)
    requires es != []
    ensures multiset(es)[e] == multiset([es[0]])[e] + multiset(es[1..])[e]
  {
    assert es == [es[0]] + es[1..];
  }

  /** Over any run of packets from anyone: a session is told that its login succeeded, or failed with some code,
      exactly as often as a check on its slot did; only that an id is in use it is told without a check. */
  lemma {:induction false} LoginsAreAnsweredByChecks(w: World, es: seq<Event>, j: int, code: int)
    requires InRange(w.chat) && |w.chat.users| <= 0x8000 && Strings(w.chat) && ForUsers(w, es)
    requires code != LOGIN_USER_ALREADY
    ensures LoginAnswers(Run(w, es).chat, j, code)
            == LoginAnswers(w.chat, j, code) + multiset(es)[LoginResult(j, code)]
    decreases |es|
  {
    if es == [] {
    } else {
      StepAnswersLogin(w.chat, es[0], j, code);
      StepKeepsStrings(w, es[0]);
      LoginsAreAnsweredByChecks(Step(w, es[0]), es[1..], j, code);
      CountNext(es, LoginResult(j, code));
    }
  }
}
