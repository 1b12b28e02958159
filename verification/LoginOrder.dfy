/** The order of packets the sequence diagrams show (README.md:32-134), in which the laws of the rooms never break,
    and runs outside it in which they do. */
module LoginOrder {
  import opened Bytes
  import opened Users
  import opened Chats
  import opened ChatRuns
  import opened LoginChecks

  /** The slot's session has asked for a login and waits for the answer. */
  predicate Asking(a: Account, i: int) {
    i in a.world.connected && IsSlot(a, i) && a.checks[i] != [] && a.checks[i][0].own
  }

  /** Requests come from connected sessions; a login request from one not logged in, on a slot with no check
      outstanding, for an id that is not empty and that no other login under way carries. The handlers check
      none of this. Sessions go at any time. */
  predicate Orderly(a: Account, e: Event) {
    && Causal(a, e)
    && match e
       case LoginRequest(i, field) =>
         && i in a.world.connected && a.checks[i] == [] && !LoggedIn(a.world, i) && CString(field) != []
         && forall j :: 0 <= j < |a.world.chat.users| && Asking(a, j) ==> a.world.chat.users[j].id != CString(field)
       case EnterRequest(i, _) => i in a.world.connected
       case LeaveRequest(i) => i in a.world.connected
       case ChatRequest(i, _) => i in a.world.connected
       case _ => true
  }

  /** A success for a session that has gone reaches the next session on the slot. */
  predicate Misdirected(a: Account, e: Event) {
    IsSlot(a, e.i) && e.LoginResult? && e.code == NO_ERROR && e.i in a.world.connected && !Asking(a, e.i)
  }

  /** Nobody is logged in under the empty id. */
  ghost predicate Named(w: World) {
    forall i :: !LoggedInAs(w, [], i)
  }

  /** And there is such a session already. */
  ghost predicate Colliding(a: Account, e: Event) {
    Misdirected(a, e) && !Named(a.world)
  }

  /** Ids in use, and ids being checked, are all different, and the map reserves those in use. */
  ghost predicate Ordered(a: Account) {
    var w := a.world;
    && Valid(a) && Strings(w.chat)
    && (forall i :: IsSlot(a, i) ==> |a.checks[i]| <= 1)
    && (forall i :: IsSlot(a, i) && a.checks[i] != [] ==> !LoggedIn(w, i))
    && (forall i :: IsSlot(a, i) && i in w.connected && !LoggedIn(w, i) ==> (Asking(a, i) <==> w.chat.users[i].id != []))
    && (forall i, j :: Asking(a, i) && Asking(a, j) && w.chat.users[i].id == w.chat.users[j].id ==> i == j)
    && (forall i, j :: Asking(a, i) ==> !LoggedInAs(w, w.chat.users[i].id, j))
    && (forall id, i, j :: LoggedInAs(w, id, i) && LoggedInAs(w, id, j) ==> i == j)
    && (forall id, i :: LoggedInAs(w, id, i) && id != [] ==> id in w.chat.ids)
  }

  lemma AskingOthers(a: Account, e: Event)
    requires Valid(a) && Causal(a, e)
    ensures forall j :: j != e.i ==> (Asking(Advance(a, e), j) <==> Asking(a, j))
    ensures forall id, j :: j != e.i ==> (LoggedInAs(Advance(a, e).world, id, j) <==> LoggedInAs(a.world, id, j))
  {
    forall j | j != e.i ensures Asking(Advance(a, e), j) <==> Asking(a, j) {
      OthersAsBefore(a, e, j);
    }
  }

  lemma SameIdsKeepOrdered(a: Account, a': Account)
    requires Ordered(a) && Valid(a') && Strings(a'.world.chat) && a'.checks == a.checks
    requires a'.world.connected == a.world.connected && a'.world.chat.ids == a.world.chat.ids
    requires |a'.world.chat.users| == |a.world.chat.users|
    requires forall j :: IsSlot(a, j) ==> a'.world.chat.users[j].id == a.world.chat.users[j].id
                                          && (LoggedIn(a'.world, j) <==> LoggedIn(a.world, j))
    ensures Ordered(a')
  {
    assert forall j :: Asking(a', j) <==> Asking(a, j);
    assert forall id, j :: LoggedInAs(a'.world, id, j) <==> LoggedInAs(a.world, id, j);
  }

  lemma ConnectedKeepsOrdered(a: Account, i: int)
    requires Ordered(a) && Causal(a, Connected(i)) && Strings(Advance(a, Connected(i)).world.chat)
    ensures Ordered(Advance(a, Connected(i)))
  {
    var a' := Advance(a, Connected(i));
    AskingOthers(a, Connected(i));
    assert !Asking(a', i) && !LoggedIn(a'.world, i);
    forall j | j != i ensures IsSlot(a', j) <==> IsSlot(a, j) {
      OthersAsBefore(a, Connected(i), j);
    }
  }

  lemma OwnIdIsNobodyElses(a: Account, i: int, j: int)
    requires Ordered(a) && IsSlot(a, i) && i in a.world.connected && a.world.chat.users[i].id != []
    requires LoggedInAs(a.world, a.world.chat.users[i].id, j)
    ensures i == j
  {
    assert LoggedIn(a.world, i) <==> LoggedInAs(a.world, a.world.chat.users[i].id, i);
  }

  lemma DisconnectedKeepsOrdered(a: Account, i: int)
    requires Ordered(a) && Causal(a, Disconnected(i)) && Strings(Advance(a, Disconnected(i)).world.chat)
    ensures Ordered(Advance(a, Disconnected(i)))
  {
    var a', own := Advance(a, Disconnected(i)), a.world.chat.users[i].id;
    AskingOthers(a, Disconnected(i));
    assert !Asking(a', i) && !LoggedIn(a'.world, i);
    forall id, j | LoggedInAs(a'.world, id, j) && id != [] ensures id in a'.world.chat.ids {
      assert LoggedInAs(a.world, id, j) && id in a.world.chat.ids;
      if id == own { OwnIdIsNobodyElses(a, i, j); }
    }
  }

  lemma LoginRequestKeepsOrdered(a: Account, i: int, field: ByteString)
    requires Ordered(a) && Orderly(a, LoginRequest(i, field))
    requires Strings(Advance(a, LoginRequest(i, field)).world.chat)
    ensures Ordered(Advance(a, LoginRequest(i, field)))
  {
    var a', id := Advance(a, LoginRequest(i, field)), CString(field);
    FindReads(a.world.chat.ids, id);
    if Refused(a.world.chat, field) {
      SameIdsKeepOrdered(a, a');
    } else {
      AskingOthers(a, LoginRequest(i, field));
      forall j | j != i ensures IsSlot(a', j) ==> a'.checks[j] == a.checks[j] {
        OthersAsBefore(a, LoginRequest(i, field), j);
      }
      RefusedIff(a.world.chat, field);
      assert forall j :: !LoggedInAs(a.world, id, j);
      assert forall n :: !LoggedInAs(a'.world, n, i);
    }
  }

  lemma FailureKeepsOrdered(a: Account, i: int, code: int)
    requires Ordered(a) && Causal(a, LoginResult(i, code)) && code != NO_ERROR
    requires Strings(Advance(a, LoginResult(i, code)).world.chat)
    ensures Ordered(Advance(a, LoginResult(i, code)))
  {
    var a' := Advance(a, LoginResult(i, code));
    AskingOthers(a, LoginResult(i, code));
    assert !Asking(a', i) && !LoggedIn(a'.world, i);
  }

  lemma SuccessKeepsOrdered(a: Account, i: int)
    requires Ordered(a) && Causal(a, LoginResult(i, NO_ERROR)) && !Colliding(a, LoginResult(i, NO_ERROR))
    requires Strings(Advance(a, LoginResult(i, NO_ERROR)).world.chat)
    ensures Ordered(Advance(a, LoginResult(i, NO_ERROR)))
  {
    var a', own := Advance(a, LoginResult(i, NO_ERROR)), a.world.chat.users[i].id;
    AskingOthers(a, LoginResult(i, NO_ERROR));
    CStringOfString(own);
    assert !Asking(a', i);
    assert forall id :: id in a'.world.chat.ids <==> id in a.world.chat.ids || id == own;
    assert forall j :: i in a.world.connected ==> !LoggedInAs(a.world, own, j);
    assert forall id :: LoggedInAs(a'.world, id, i) <==> i in a.world.connected && id == own;
  }

  /** It survives an orderly packet exactly when that logs no second session in under the empty id. */
  lemma StepKeepsOrderedIff(a: Account, e: Event)
    requires Ordered(a) && Orderly(a, e)
    ensures Ordered(Advance(a, e)) <==> !Colliding(a, e)
  {
    StepKeepsStrings(a.world, e);
    match e
    case Connected(i) => ConnectedKeepsOrdered(a, i);
    case Disconnected(i) => DisconnectedKeepsOrdered(a, i);
    case LoginRequest(i, field) => LoginRequestKeepsOrdered(a, i, field);
    case LoginResult(i, code) =>
      if Colliding(a, e) {
        MisdirectedLetsIn(a, i);
        var j :| LoggedInAs(a.world, [], j);
        assert LoggedInAs(Advance(a, e).world, [], j) && j != i;
      } else if code == NO_ERROR {
        SuccessKeepsOrdered(a, i);
      } else {
        FailureKeepsOrdered(a, i, code);
      }
    case _ => SameIdsKeepOrdered(a, Advance(a, e));
  }

  /** A session that sent no login is logged in, under the empty id. */
  lemma MisdirectedLetsIn(a: Account, i: int)
    requires Ordered(a) && Causal(a, LoginResult(i, NO_ERROR)) && Misdirected(a, LoginResult(i, NO_ERROR))
    ensures LoggedInAs(Advance(a, LoginResult(i, NO_ERROR)).world, [], i)
  {
  }

  // When the laws of the rooms break, in any order in which gone sessions enter no room.

  /** A login answered, or asked for, while the user is in a room; a leave or a disconnect while another member
      carries the same id. */
  ghost predicate BreaksRooms(w: World, e: Event)
    requires InRange(w.chat) && IsUser(w.chat, e.i)
  {
    var u := w.chat.users[e.i];
    match e
    case LoginRequest(i, field) => InARoom(w, i) && !Refused(w.chat, field) && CString(field) != u.id
    case LoginResult(i, code) => InARoom(w, i) && (code == NO_ERROR || u.id != [])
    case Disconnected(i) => NamesARoom(w.chat, i) && !OnlyHolder(w.chat, i, u.roomIdx)
    case LeaveRequest(i) => NamesARoom(w.chat, i) && !OnlyHolder(w.chat, i, u.roomIdx)
    case _ => false
  }

  lemma RoomsBreakIff(a: Account, e: Event)
    requires Valid(a) && Rooms(a.world) && Causal(a, e) && (e.EnterRequest? ==> e.i in a.world.connected)
    ensures !Rooms(Advance(a, e).world) <==> BreaksRooms(a.world, e)
  {
    var w := a.world;
    if InARoom(w, e.i) {
      var r := w.chat.users[e.i].roomIdx;
      assert Present(w, r, e.i) && Listed(w.chat, r, e.i);
    } else {
      NotInRoom(w, e.i);
    }
    StepKeepsIff(ListsStatesAndViews, w, e);
  }

  // In the order of the diagrams they hold.

  lemma OnlyHolderOfItsId(a: Account, i: int)
    requires Ordered(a) && Rooms(a.world) && IsSlot(a, i) && i in a.world.connected && NamesARoom(a.world.chat, i)
    ensures OnlyHolder(a.world.chat, i, a.world.chat.users[i].roomIdx)
  {
    var s, id, room := a.world.chat, a.world.chat.users[i].id, a.world.chat.users[i].roomIdx;
    assert LoggedInAs(a.world, id, i);
    forall u | u in s.rooms[room] && s.users[u].id == id ensures u == i {
      assert Listed(s, room, u) && Present(a.world, room, u);
      assert LoggedInAs(a.world, id, u);
    }
  }

  lemma OrderlyKeepsRooms(a: Account, e: Event)
    requires Ordered(a) && Rooms(a.world) && Orderly(a, e)
    ensures Rooms(Advance(a, e).world)
  {
    if NamesARoom(a.world.chat, e.i) && e.i in a.world.connected {
      OnlyHolderOfItsId(a, e.i);
    }
    RoomsBreakIff(a, e);
  }

  ghost predicate AllOrderly(a: Account, es: seq<Event>)
    requires Valid(a)
    decreases |es|
  {
    es == [] || (Orderly(a, es[0]) && AllOrderly(Advance(a, es[0]), es[1..]))
  }

  lemma {:induction false} OrderlyIsCausal(a: Account, es: seq<Event>)
    requires Valid(a) && AllOrderly(a, es)
    ensures AllCausal(a, es)
    decreases |es|
  {
    if es == [] {
    } else {
      OrderlyIsCausal(Advance(a, es[0]), es[1..]);
    }
  }

  /** No login of the run reaches a second session while another it was not meant for still has the empty id. */
  ghost predicate NoneColliding(a: Account, es: seq<Event>)
    requires Valid(a) && AllOrderly(a, es)
    decreases |es|
  {
    es == [] || (!Colliding(a, es[0]) && NoneColliding(Advance(a, es[0]), es[1..]))
  }

  lemma {:induction false} OrderlyRunKeepsRooms(a: Account, es: seq<Event>)
    requires Ordered(a) && Rooms(a.world) && AllOrderly(a, es) && NoneColliding(a, es)
    ensures AllCausal(a, es) && Ordered(After(a, es)) && Rooms(After(a, es).world)
    decreases |es|
  {
    if es == [] {
    } else {
      StepKeepsOrderedIff(a, es[0]);
      OrderlyKeepsRooms(a, es[0]);
      OrderlyRunKeepsRooms(Advance(a, es[0]), es[1..]);
    }
  }

  // And the id map is exact until an id is stranded.

  lemma NoEntry(s: State, id: ByteString)
    requires forall j :: !Indexed(s, id, j)
    ensures id !in s.ids
  {
    var j := if id in s.ids then s.ids[id] else 0;
    assert !Indexed(s, id, j);
  }

  /** With an exact map, nobody holds the id of a connected session that is not logged in. */
  lemma NotTaken(a: Account, i: int)
    requires Ordered(a) && Index(a.world) && Named(a.world)
    requires IsSlot(a, i) && i in a.world.connected && !LoggedIn(a.world, i)
    ensures a.world.chat.users[i].id !in a.world.chat.ids
  {
    var own := a.world.chat.users[i].id;
    forall j ensures !Indexed(a.world.chat, own, j) {
      assert !LoggedInAs(a.world, own, j);
    }
    NoEntry(a.world.chat, own);
  }

  lemma OrderlyKeepsIndexIff(a: Account, e: Event)
    requires Ordered(a) && Rooms(a.world) && Index(a.world) && Named(a.world) && Orderly(a, e)
    ensures Index(Advance(a, e).world) <==> !Stranding(a.world, e)
  {
    var w := a.world;
    if InARoom(w, e.i) {
      var r := w.chat.users[e.i].roomIdx;
      assert Present(w, r, e.i) && Listed(w.chat, r, e.i);
    }
    if e.i in w.connected && !LoggedIn(w, e.i) { NotTaken(a, e.i); }
    StepKeepsIndexIff(w, e);
  }

  lemma StepKeepsNamedIff(a: Account, e: Event)
    requires Ordered(a) && Named(a.world) && Orderly(a, e)
    ensures Named(Advance(a, e).world) <==> !Misdirected(a, e)
  {
    var w' := Advance(a, e).world;
    if Misdirected(a, e) {
      MisdirectedLetsIn(a, e.i);
    } else {
      AskingOthers(a, e);
      assert forall j :: j != e.i ==> !LoggedInAs(w', [], j);
      assert !LoggedInAs(a.world, [], e.i);
    }
  }

  /** No login of the run succeeds too late to matter. */
  ghost predicate Timely(a: Account, es: seq<Event>)
    requires Valid(a) && AllOrderly(a, es)
    decreases |es|
  {
    es == [] || (!Misdirected(a, es[0]) && !Stranding(a.world, es[0]) && Timely(Advance(a, es[0]), es[1..]))
  }

  ghost predicate Exact(a: Account) {
    Ordered(a) && Rooms(a.world) && Index(a.world) && Named(a.world)
  }

  lemma {:induction false} TimelyRunKeepsExact(a: Account, es: seq<Event>)
    requires Exact(a) && AllOrderly(a, es) && Timely(a, es)
    ensures AllCausal(a, es) && Exact(After(a, es))
    decreases |es|
  {
    if es == [] {
    } else {
      StepKeepsOrderedIff(a, es[0]);
      OrderlyKeepsRooms(a, es[0]);
      OrderlyKeepsIndexIff(a, es[0]);
      StepKeepsNamedIff(a, es[0]);
      TimelyRunKeepsExact(Advance(a, es[0]), es[1..]);
    }
  }

  lemma InitIsExact(users: nat, rooms: nat)
    requires users <= 0x8000
    ensures Exact(InitAccount(users, rooms))
  {
    InitHolds(ListsStatesAndViews, users, rooms);
    InitHolds(MapOfTheLoggedIn, users, rooms);
  }

  /** From an empty server, in this order: the look-up is exact until a login that succeeds too late, and
      the first packet after which it is not is one that strands an id. */
  lemma FindFailsExactlyWhenStranded(users: nat, rooms: nat, es: seq<Event>, e: Event)
    requires users <= 0x8000 && AllOrderly(InitAccount(users, rooms), es) && Timely(InitAccount(users, rooms), es)
    requires AllCausal(InitAccount(users, rooms), es) && Orderly(After(InitAccount(users, rooms), es), e)
    ensures var w := After(InitAccount(users, rooms), es).world;
            FindsExactly(w) && (FindsExactly(Step(w, e)) <==> !Stranding(w, e))
  {
    InitIsExact(users, rooms);
    TimelyRunKeepsExact(InitAccount(users, rooms), es);
    var a := After(InitAccount(users, rooms), es);
    FindsExactlyIffIndex(a.world);
    OrderlyKeepsIndexIff(a, e);
    StepKeepsStrings(a.world, e);
    FindsExactlyIffIndex(Step(a.world, e));
  }

  // Runs outside that order.

  /** A server with one slot and nobody logged in. */
  function OneSlot(connected: set<int>, id: ByteString, checks: seq<Check>): Account {
    Account(World(State([Profile(-1, id, false, NotLoggedIn)], [[]], map[], []), connected), [checks], [{}])
  }

  /** Ask, disconnect, and ask again on the slot before the first answer: `a` is asked for by the old session,
      `b` by the new one. */
  function SlotReusedBy(a: ByteString, b: ByteString): seq<Event> {
    [Connected(0), LoginRequest(0, a), Disconnected(0), Connected(0), LoginRequest(0, b)]
  }

  function SlotReused(a: ByteString, b: ByteString): Account {
    OneSlot({0}, b, [Check(a, false), Check(b, true)])
  }

  lemma OneSlotSteps(checks: seq<Check>, was: ByteString, id: ByteString)
    requires NulFree(id)
    ensures Causal(OneSlot({}, was, checks), Connected(0))
    ensures Advance(OneSlot({}, was, checks), Connected(0)) == OneSlot({0}, [], Disowned(checks))
    ensures Causal(OneSlot({0}, [], checks), LoginRequest(0, id))
    ensures Advance(OneSlot({0}, [], checks), LoginRequest(0, id)) == OneSlot({0}, id, checks + [Check(id, true)])
    ensures Causal(OneSlot({0}, was, checks), Disconnected(0))
    ensures Advance(OneSlot({0}, was, checks), Disconnected(0)) == OneSlot({}, was, checks)
  {
    CStringOfString(id);
    assert {0} - {0} == {} && {} + {0} == {0};
  }

  function AskedBy(a: ByteString): seq<Event> {
    [Connected(0), LoginRequest(0, a)]
  }

  lemma AskedOnce(a: ByteString)
    requires NulFree(a)
    ensures AllCausal(InitAccount(1, 1), AskedBy(a))
    ensures After(InitAccount(1, 1), AskedBy(a)) == OneSlot({0}, a, [Check(a, true)])
  {
    var start := InitAccount(1, 1);
    assert start == OneSlot({}, [], []) && Disowned([]) == [];
    OneSlotSteps([], [], a);
    AfterNext(start, [], Connected(0));
    assert [] + [Connected(0)] == [Connected(0)] && [] + [Check(a, true)] == [Check(a, true)];
    AfterNext(start, [Connected(0)], LoginRequest(0, a));
    assert [Connected(0)] + [LoginRequest(0, a)] == AskedBy(a);
  }

  lemma SlotIsReused(a: ByteString, b: ByteString)
    requires NulFree(a) && NulFree(b)
    ensures AllCausal(InitAccount(1, 1), SlotReusedBy(a, b))
    ensures After(InitAccount(1, 1), SlotReusedBy(a, b)) == SlotReused(a, b)
  {
    var start, p2 := InitAccount(1, 1), AskedBy(a);
    var p3 := p2 + [Disconnected(0)];
    var p4 := p3 + [Connected(0)];
    AskedOnce(a);
    OneSlotSteps([Check(a, true)], a, b);
    OneSlotSteps([Check(a, false)], a, b);
    assert Disowned([Check(a, true)]) == [Check(a, false)];
    assert [Check(a, false)] + [Check(b, true)] == [Check(a, false), Check(b, true)];
    AfterNext(start, p2, Disconnected(0));
    AfterNext(start, p3, Connected(0));
    AfterNext(start, p4, LoginRequest(0, b));
    assert p4 + [LoginRequest(0, b)] == SlotReusedBy(a, b);
  }

  function OldSuccess(a: ByteString, b: ByteString): Account {
    Account(World(State([Profile(-1, b, true, InLobby)], [[]], map[b := 0], [Sent(0, LoginResponse(NO_ERROR))]), {0}),
            [[Check(b, true)]], [{}])
  }

  lemma OldSuccessComes(a: ByteString, b: ByteString)
    requires NulFree(a) && NulFree(b)
    ensures Causal(SlotReused(a, b), LoginResult(0, NO_ERROR))
    ensures Advance(SlotReused(a, b), LoginResult(0, NO_ERROR)) == OldSuccess(a, b)
  {
    CStringOfString(b);
    assert [Check(a, false), Check(b, true)][1..] == [Check(b, true)];
  }

  /** The old session's answer logs the new one in under `b`, which nobody has checked. Until then all laws hold,
      and all but that still do. */
  lemma OldAnswerLetsTheNextIn(a: ByteString, b: ByteString)
    requires NulFree(a) && NulFree(b)
    ensures var before, after := SlotReused(a, b), OldSuccess(a, b);
            && (forall law :: Holds(law, before.world) && Holds(law, after.world))
            && Vouched(before) && !Vouched(after) && LoggedInAs(after.world, b, 0)
  {
    OldSuccessComes(a, b);
    var before, after := SlotReused(a, b), OldSuccess(a, b);
    assert LoggedIn(after.world, 0) && IsSlot(after, 0);
    forall law ensures Holds(law, before.world) && Holds(law, after.world) {
      StepKeepsIff(law, before.world, LoginResult(0, NO_ERROR));
    }
  }

  /** If `b`'s own check then fails, the map answers for it although nobody is logged in under it. This is no
      late success. */
  lemma OwnFailureBreaksTheMap(a: ByteString, b: ByteString, code: int)
    requires NulFree(a) && NulFree(b) && b != [] && code != NO_ERROR
    ensures Causal(OldSuccess(a, b), LoginResult(0, code)) && !Stranding(OldSuccess(a, b).world, LoginResult(0, code))
    ensures var w := Advance(OldSuccess(a, b), LoginResult(0, code)).world;
            !Index(w) && !FindsOnly(w, b) && LoggedInAs(w, [], 0)
  {
    OldAnswerLetsTheNextIn(a, b);
    var w0 := OldSuccess(a, b).world;
    var w := Step(w0, LoginResult(0, code));
    assert Holds(MapOfTheLoggedIn, w0) && LoggedIn(w0, 0);
    StepKeepsIndexIff(w0, LoginResult(0, code));
    FindReads(w.chat.ids, b);
    assert !LoggedInAs(w, b, 0);
  }

  /** If it enters a room first and its own check then succeeds, it is put back in the lobby while the room
      goes on listing it. */
  lemma OwnSuccessBreaksMembership(a: ByteString, b: ByteString)
    requires NulFree(a) && NulFree(b)
    ensures Causal(OldSuccess(a, b), EnterRequest(0, 0))
    ensures var inside := Advance(OldSuccess(a, b), EnterRequest(0, 0));
            && Rooms(inside.world) && Causal(inside, LoginResult(0, NO_ERROR))
            && var w := Advance(inside, LoginResult(0, NO_ERROR)).world;
               !Membership(w) && Listed(w.chat, 0, 0) && w.chat.users[0].domain.InLobby?
  {
    OldAnswerLetsTheNextIn(a, b);
    var w0 := OldSuccess(a, b).world;
    var w1 := Step(w0, EnterRequest(0, 0));
    assert Holds(ListsStatesAndViews, w0);
    StepKeepsIff(ListsStatesAndViews, w0, EnterRequest(0, 0));
    EntersSoleRoom(w0.chat, 0);
    assert [] + [0] == [0];
    assert Listed(w1.chat, 0, 0) && InARoom(w1, 0);
    StepKeepsMembershipIff(w1, LoginResult(0, NO_ERROR));
    assert Listed(Step(w1, LoginResult(0, NO_ERROR)).chat, 0, 0);
  }

  /** Ask, disconnect, answer: the id is in the map with nobody logged in, and is refused for ever. */
  lemma LateSuccessStrands(id: ByteString)
    requires NulFree(id) && id != []
    ensures var es, a := AskedBy(id) + [Disconnected(0)], OneSlot({}, id, [Check(id, true)]);
            && AllCausal(InitAccount(1, 1), es) && After(InitAccount(1, 1), es) == a
            && Causal(a, LoginResult(0, NO_ERROR)) && Stranding(a.world, LoginResult(0, NO_ERROR))
            && StaysBlocked(Advance(a, LoginResult(0, NO_ERROR)), id)
  {
    var a := OneSlot({}, id, [Check(id, true)]);
    AskedOnce(id);
    OneSlotSteps([Check(id, true)], id, id);
    AfterNext(InitAccount(1, 1), AskedBy(id), Disconnected(0));
    assert forall j :: !Carries(a.world, id, j);
    StrandedIdStaysBlockedIff(a, 0);
  }

  /** Two sessions ask for one id, the first having gone before the second asks. */
  function AskedByBoth(id: ByteString): Account {
    var asked := Profile(-1, id, false, NotLoggedIn);
    Account(World(State([asked, asked], [[]], map[], []), {1}), [[Check(id, true)], [Check(id, true)]], [{}, {}])
  }

  function TwoSlots(connected: set<int>, id: ByteString, checks: seq<Check>): Account {
    Account(World(State([Profile(-1, id, false, NotLoggedIn), EMPTY_PROFILE], [[]], map[], []), connected),
            [checks, []], [{}, {}])
  }

  lemma TwoSlotsConnected()
    ensures AllCausal(InitAccount(2, 1), [Connected(0), Connected(1)])
    ensures After(InitAccount(2, 1), [Connected(0), Connected(1)]) == TwoSlots({0, 1}, [], [])
  {
    var start := InitAccount(2, 1);
    assert start == TwoSlots({}, [], []) && Disowned([]) == [] && [] + [Connected(0)] == [Connected(0)];
    AfterNext(start, [], Connected(0));
    assert After(start, [Connected(0)]) == TwoSlots({0}, [], []);
    AfterNext(start, [Connected(0)], Connected(1));
    assert [Connected(0)] + [Connected(1)] == [Connected(0), Connected(1)];
  }

  lemma FirstSlotAsks(id: ByteString)
    requires NulFree(id)
    ensures Causal(TwoSlots({0, 1}, [], []), LoginRequest(0, id))
    ensures Advance(TwoSlots({0, 1}, [], []), LoginRequest(0, id)) == TwoSlots({0, 1}, id, [Check(id, true)])
  {
    CStringOfString(id);
    assert [] + [Check(id, true)] == [Check(id, true)];
  }

  lemma TwoSlotsAsked(id: ByteString)
    requires NulFree(id)
    ensures var es := [Connected(0), Connected(1)] + [LoginRequest(0, id)];
            AllCausal(InitAccount(2, 1), es) && After(InitAccount(2, 1), es) == TwoSlots({0, 1}, id, [Check(id, true)])
  {
    TwoSlotsConnected();
    FirstSlotAsks(id);
    AfterNext(InitAccount(2, 1), [Connected(0), Connected(1)], LoginRequest(0, id));
  }

  function BothAsk(id: ByteString): seq<Event> {
    [Connected(0), Connected(1)] + [LoginRequest(0, id)] + [Disconnected(0)] + [LoginRequest(1, id)]
  }

  lemma FirstGoesSecondAsks(id: ByteString)
    requires NulFree(id)
    ensures Causal(TwoSlots({0, 1}, id, [Check(id, true)]), Disconnected(0))
    ensures Advance(TwoSlots({0, 1}, id, [Check(id, true)]), Disconnected(0)) == TwoSlots({1}, id, [Check(id, true)])
    ensures Causal(TwoSlots({1}, id, [Check(id, true)]), LoginRequest(1, id))
    ensures Advance(TwoSlots({1}, id, [Check(id, true)]), LoginRequest(1, id)) == AskedByBoth(id)
  {
    CStringOfString(id);
    assert {0, 1} - {0} == {1} && [] + [Check(id, true)] == [Check(id, true)];
  }

  lemma BothHaveAsked(id: ByteString)
    requires NulFree(id)
    ensures AllCausal(InitAccount(2, 1), BothAsk(id)) && After(InitAccount(2, 1), BothAsk(id)) == AskedByBoth(id)
  {
    var start, es := InitAccount(2, 1), [Connected(0), Connected(1)] + [LoginRequest(0, id)];
    TwoSlotsAsked(id);
    FirstGoesSecondAsks(id);
    AfterNext(start, es, Disconnected(0));
    AfterNext(start, es + [Disconnected(0)], LoginRequest(1, id));
  }

  /** The late answer to the first then strands the id; but the second's own success takes it, and the
      second's disconnect instead frees it. */
  lemma StrandedIdTakenOrFreed(id: ByteString)
    requires NulFree(id) && id != []
    ensures AllCausal(InitAccount(2, 1), BothAsk(id)) && After(InitAccount(2, 1), BothAsk(id)) == AskedByBoth(id)
    ensures var a := AskedByBoth(id);
            && Causal(a, LoginResult(0, NO_ERROR)) && Stranding(a.world, LoginResult(0, NO_ERROR))
            && var stranded := Advance(a, LoginResult(0, NO_ERROR));
               && Blocked(stranded.world, id) && !StaysBlocked(stranded, id)
               && Causal(stranded, LoginResult(1, NO_ERROR)) && Causal(stranded, Disconnected(1))
               && LoggedInAs(Advance(stranded, LoginResult(1, NO_ERROR)).world, id, 1)
               && FindUserIndexByID(Advance(stranded, Disconnected(1)).world.chat.ids, id).0 == -1
  {
    var a := AskedByBoth(id);
    CStringOfString(id);
    BothHaveAsked(id);
    assert Carries(a.world, id, 1);
    StrandedIdStaysBlockedIff(a, 0);
  }
}
