/** Logins and the checks behind them. A request puts its id in place at once and a check in the queue of the
    Redis worker (Content/redis_manager.cpp, one thread); the answer names a slot and no id, and may come after
    the session that asked has gone. */
module LoginChecks {
  import opened Bytes
  import opened Users
  import opened Chats
  import opened ChatRuns

  /** A password check under way: the id asked for, and whether the slot still has the session that asked. */
  datatype Check = Check(id: ByteString, own: bool)

  /** The server, each slot's outstanding checks, oldest first, and the ids whose checks have succeeded for the
      session that asked. */
  datatype Account = Account(world: World, checks: seq<seq<Check>>, vouched: seq<set<ByteString>>)

  ghost predicate Valid(a: Account) {
    InRange(a.world.chat) && |a.checks| == |a.world.chat.users| && |a.vouched| == |a.world.chat.users|
  }

  predicate IsSlot(a: Account, i: int) {
    IsUser(a.world.chat, i) && i < |a.checks| && i < |a.vouched|
  }

  function InitAccount(users: nat, rooms: nat): Account {
    Account(InitWorld(users, rooms), seq(users, _ => []), seq(users, _ => {}))
  }

  /** What the network and the Redis worker see to; anything else may come from anyone at any time. */
  predicate Causal(a: Account, e: Event) {
    && IsSlot(a, e.i)
    && match e
       case Connected(i) => i !in a.world.connected
       case Disconnected(i) => i in a.world.connected
       case LoginResult(i, _) => a.checks[i] != []
       case _ => true
  }

  function Disowned(checks: seq<Check>): seq<Check> {
    seq(|checks|, k requires 0 <= k < |checks| => checks[k].(own := false))
  }

  function Advance(a: Account, e: Event): (a': Account)
    requires Valid(a) && Causal(a, e)
    ensures Valid(a') && |a'.world.chat.users| == |a.world.chat.users| && a'.world == Step(a.world, e)
  {
    var w := Step(a.world, e);
    match e
    case Connected(i) => Account(w, a.checks[i := Disowned(a.checks[i])], a.vouched[i := {}])
    case LoginRequest(i, field) =>
      if Refused(a.world.chat, field) then a.(world := w)
      else a.(world := w, checks := a.checks[i := a.checks[i] + [Check(CString(field), true)]])
    case LoginResult(i, code) =>
      var head := a.checks[i][0];
      Account(w, a.checks[i := a.checks[i][1..]],
              if code == NO_ERROR && head.own then a.vouched[i := a.vouched[i] + {head.id}] else a.vouched)
    case _ => a.(world := w)
  }

  ghost predicate AllCausal(a: Account, es: seq<Event>)
    requires Valid(a)
    decreases |es|
  {
    es == [] || (Causal(a, es[0]) && AllCausal(Advance(a, es[0]), es[1..]))
  }

  ghost function After(a: Account, es: seq<Event>): (a': Account)
    requires Valid(a) && AllCausal(a, es)
    ensures Valid(a') && |a'.world.chat.users| == |a.world.chat.users|
    decreases |es|
  {
    if es == [] then a else After(Advance(a, es[0]), es[1..])
  }

  lemma {:induction false} AfterNext(a: Account, es: seq<Event>, e: Event)
    requires Valid(a) && AllCausal(a, es) && Causal(After(a, es), e)
    ensures AllCausal(a, es + [e]) && After(a, es + [e]) == Advance(After(a, es), e)
    decreases |es|
  {
    if es == [] {
      assert [e][1..] == [] && AllCausal(Advance(a, e), [e][1..]);
      assert es + [e] == [e];
    } else {
      assert (es + [e])[0] == es[0] && (es + [e])[1..] == es[1..] + [e];
      AfterNext(Advance(a, es[0]), es[1..], e);
    }
  }

  // Whose id was checked.

  /** A session logged in under an id had a check of that very id succeed. */
  ghost predicate Vouched(a: Account) {
    forall i :: LoggedIn(a.world, i) && IsSlot(a, i) ==> a.world.chat.users[i].id in a.vouched[i]
  }

  predicate KeepsVouched(a: Account, e: Event)
    requires Causal(a, e)
  {
    var u := a.world.chat.users[e.i];
    match e
    case LoginRequest(i, field) =>
      LoggedIn(a.world, i) ==> Refused(a.world.chat, field) || CString(field) in a.vouched[i]
    case LoginResult(i, code) =>
      if code == NO_ERROR then
        i in a.world.connected ==> u.id in a.vouched[i] || (a.checks[i][0].own && u.id == a.checks[i][0].id)
      else LoggedIn(a.world, i) ==> [] in a.vouched[i]
    case _ => true
  }

  /** Only the session the packet is from can have its login or its checks changed. */
  lemma OthersAsBefore(a: Account, e: Event, j: int)
    requires Valid(a) && Causal(a, e) && j != e.i
    ensures var a' := Advance(a, e);
            && (IsSlot(a', j) <==> IsSlot(a, j))
            && (LoggedIn(a'.world, j) <==> LoggedIn(a.world, j))
            && (IsSlot(a, j) ==> a'.world.chat.users[j].id == a.world.chat.users[j].id
                                 && a'.vouched[j] == a.vouched[j] && a'.checks[j] == a.checks[j])
  {
  }

  lemma StepKeepsVouchedIff(a: Account, e: Event)
    requires Valid(a) && Vouched(a) && Causal(a, e)
    ensures Vouched(Advance(a, e)) <==> KeepsVouched(a, e)
  {
    var a' := Advance(a, e);
    assert Vouched(a') <==> (LoggedIn(a'.world, e.i) ==> a'.world.chat.users[e.i].id in a'.vouched[e.i]) by {
      forall j | j != e.i ensures LoggedIn(a'.world, j) && IsSlot(a', j) ==> a'.world.chat.users[j].id in a'.vouched[j] {
        OthersAsBefore(a, e, j);
      }
    }
    assert LoggedIn(a.world, e.i) ==> a.world.chat.users[e.i].id in a.vouched[e.i];
  }

  // Which requests are safe, whatever the answers.

  /** A connection to a slot whose checks have all been answered; a login request on such a slot from a session
      that is not logged in, or one that is refused; or one by which nothing changes, from the empty id to the
      empty id. */
  predicate Safe(a: Account, e: Event)
    requires Causal(a, e)
  {
    match e
    case Connected(i) => a.checks[i] == []
    case LoginRequest(i, field) =>
      i in a.world.connected ==>
        || Refused(a.world.chat, field)
        || (a.checks[i] == [] && !LoggedIn(a.world, i))
        || (CString(field) == [] && a.world.chat.users[i].id == [])
    case _ => true
  }

  ghost predicate SoundSlot(loggedIn: bool, id: ByteString, checks: seq<Check>, vouched: set<ByteString>) {
    && (forall k :: 0 <= k < |checks| ==> checks[k] == Check(id, true))
    && vouched == (if loggedIn then {id} else {})
    && (id == [] || (if loggedIn then checks == [] else |checks| <= 1))
  }

  ghost predicate Sound(a: Account) {
    forall i :: i in a.world.connected && IsSlot(a, i) ==>
      SoundSlot(LoggedIn(a.world, i), a.world.chat.users[i].id, a.checks[i], a.vouched[i])
  }

  lemma SafeStepKeepsSound(a: Account, e: Event)
    requires Valid(a) && Sound(a) && Causal(a, e) && Safe(a, e)
    ensures Sound(Advance(a, e))
  {
    var a' := Advance(a, e);
    forall j | j in a'.world.connected && IsSlot(a', j)
      ensures SoundSlot(LoggedIn(a'.world, j), a'.world.chat.users[j].id, a'.checks[j], a'.vouched[j])
    {
      if j != e.i { OthersAsBefore(a, e, j); }
    }
  }

  ghost predicate Answers(es: seq<Event>) {
    forall k :: 0 <= k < |es| ==> es[k].LoginResult?
  }

  ghost predicate VouchedWhateverTheAnswers(a: Account)
    requires Valid(a)
  {
    forall es :: Answers(es) && AllCausal(a, es) ==> Vouched(After(a, es))
  }

  lemma {:induction false} AnswersKeepSound(a: Account, es: seq<Event>)
    requires Valid(a) && Sound(a) && Answers(es) && AllCausal(a, es)
    ensures Vouched(After(a, es))
    decreases |es|
  {
    if es == [] {
    } else {
      SafeStepKeepsSound(a, es[0]);
      AnswersKeepSound(Advance(a, es[0]), es[1..]);
    }
  }

  lemma OneAnswer(a: Account, i: int, code: int)
    requires Valid(a) && Causal(a, LoginResult(i, code)) && !Vouched(Advance(a, LoginResult(i, code)))
    ensures !VouchedWhateverTheAnswers(a)
  {
    var es := [LoginResult(i, code)];
    assert es[1..] == [];
    assert AllCausal(Advance(a, es[0]), es[1..]);
    assert AllCausal(a, es) && Answers(es) && After(a, es) == Advance(a, es[0]);
  }

  lemma TwoAnswers(a: Account, i: int, first: int, second: int)
    requires Valid(a) && Causal(a, LoginResult(i, first))
    requires Causal(Advance(a, LoginResult(i, first)), LoginResult(i, second))
    requires !Vouched(Advance(Advance(a, LoginResult(i, first)), LoginResult(i, second)))
    ensures !VouchedWhateverTheAnswers(a)
  {
    var es := [LoginResult(i, first), LoginResult(i, second)];
    var a1 := Advance(a, es[0]);
    assert es[1..] == [LoginResult(i, second)] && es[1..][1..] == [];
    assert AllCausal(Advance(a1, es[1]), []) && AllCausal(a1, es[1..]) && AllCausal(a, es) && Answers(es);
    assert After(a1, es[1..]) == Advance(a1, es[1]);
  }

  lemma UnsafeConnection(a: Account, i: int)
    requires Valid(a) && Causal(a, Connected(i)) && a.checks[i] != []
    ensures !VouchedWhateverTheAnswers(Advance(a, Connected(i)))
  {
    var a' := Advance(a, Connected(i));
    assert a'.checks[i] != [] && !a'.checks[i][0].own;
    var end := Advance(a', LoginResult(i, NO_ERROR));
    assert LoggedIn(end.world, i) && IsSlot(end, i) && end.world.chat.users[i].id !in end.vouched[i];
    OneAnswer(a', i, NO_ERROR);
  }

  /** A second request: by a session logged in already, or while its first is still being checked. */
  lemma UnsafeRequest(a: Account, i: int, field: ByteString)
    requires Valid(a) && Sound(a) && Causal(a, LoginRequest(i, field)) && !Safe(a, LoginRequest(i, field))
    ensures !VouchedWhateverTheAnswers(Advance(a, LoginRequest(i, field)))
  {
    var a', id, was := Advance(a, LoginRequest(i, field)), CString(field), a.world.chat.users[i].id;
    assert a'.world.chat.users[i].id == id && a'.checks[i] == a.checks[i] + [Check(id, true)];
    assert SoundSlot(LoggedIn(a.world, i), was, a.checks[i], a.vouched[i]);
    if LoggedIn(a.world, i) {
      if id != was {
        assert LoggedIn(a'.world, i) && IsSlot(a', i) && id !in a'.vouched[i];
        assert AllCausal(a', []) && Answers([]) && After(a', []) == a';
      } else {
        SecondAnswerFails(a', i);
      }
    } else if id != was {
      var end := Advance(a', LoginResult(i, NO_ERROR));
      assert a.checks[i][0] == Check(was, true);
      assert LoggedIn(end.world, i) && IsSlot(end, i) && end.vouched[i] == {was};
      OneAnswer(a', i, NO_ERROR);
    } else {
      LetInThenRefused(a', i);
    }
  }

  lemma SecondAnswerFails(a: Account, i: int)
    requires Valid(a) && IsSlot(a, i) && LoggedIn(a.world, i) && a.checks[i] != [] && [] !in a.vouched[i]
    ensures !VouchedWhateverTheAnswers(a)
  {
    var end := Advance(a, LoginResult(i, USER_NOT_IN_ROOM));
    assert LoggedIn(end.world, i) && IsSlot(end, i) && end.world.chat.users[i].id == [];
    OneAnswer(a, i, USER_NOT_IN_ROOM);
  }

  lemma LetInThenRefused(a: Account, i: int)
    requires Valid(a) && IsSlot(a, i) && i in a.world.connected && a.vouched[i] == {}
    requires |a.checks[i]| == 2 && a.checks[i][0].id != []
    ensures !VouchedWhateverTheAnswers(a)
  {
    var first := Advance(a, LoginResult(i, NO_ERROR));
    assert [] !in first.vouched[i] && LoggedIn(first.world, i) && |first.checks[i]| == 1;
    var end := Advance(first, LoginResult(i, USER_NOT_IN_ROOM));
    assert LoggedIn(end.world, i) && IsSlot(end, i) && end.world.chat.users[i].id == [];
    TwoAnswers(a, i, NO_ERROR, USER_NOT_IN_ROOM);
  }

  /** A packet is safe exactly when no answers after it can log a session in under an id not checked for it. */
  lemma SafeIff(a: Account, e: Event)
    requires Valid(a) && Sound(a) && Causal(a, e)
    ensures VouchedWhateverTheAnswers(Advance(a, e)) <==> Safe(a, e)
  {
    if Safe(a, e) {
      SafeStepKeepsSound(a, e);
      forall es | Answers(es) && AllCausal(Advance(a, e), es) ensures Vouched(After(Advance(a, e), es)) {
        AnswersKeepSound(Advance(a, e), es);
      }
    } else if e.Connected? {
      UnsafeConnection(a, e.i);
    } else {
      UnsafeRequest(a, e.i, e.userId);
    }
  }

  ghost predicate AllSafe(a: Account, es: seq<Event>)
    requires Valid(a) && AllCausal(a, es)
    decreases |es|
  {
    es == [] || (Safe(a, es[0]) && AllSafe(Advance(a, es[0]), es[1..]))
  }

  /** At every state of the run, whatever answers come next. */
  ghost predicate AlwaysVouched(a: Account, es: seq<Event>)
    requires Valid(a) && AllCausal(a, es)
    decreases |es|
  {
    VouchedWhateverTheAnswers(a) && (es == [] || AlwaysVouched(Advance(a, es[0]), es[1..]))
  }

  lemma {:induction false} AlwaysVouchedIff(a: Account, es: seq<Event>)
    requires Valid(a) && Sound(a) && AllCausal(a, es)
    ensures AlwaysVouched(a, es) <==> AllSafe(a, es)
    decreases |es|
  {
    forall answers | Answers(answers) && AllCausal(a, answers) ensures Vouched(After(a, answers)) {
      AnswersKeepSound(a, answers);
    }
    if es == [] {
    } else {
      SafeIff(a, es[0]);
      if Safe(a, es[0]) {
        SafeStepKeepsSound(a, es[0]);
        AlwaysVouchedIff(Advance(a, es[0]), es[1..]);
      } else {
        assert !AlwaysVouched(Advance(a, es[0]), es[1..]);
      }
    }
  }

  /** From an empty server: every session logged in under an id has had that id checked, at every moment and
      whatever the answers, exactly when every packet of the run is safe. */
  lemma SessionsAreVouchedIff(users: nat, rooms: nat, es: seq<Event>)
    requires AllCausal(InitAccount(users, rooms), es)
    ensures AlwaysVouched(InitAccount(users, rooms), es) <==> AllSafe(InitAccount(users, rooms), es)
  {
    AlwaysVouchedIff(InitAccount(users, rooms), es);
  }

  // Ids in the map that nobody is logged in under.

  ghost predicate Blocked(w: World, id: ByteString) {
    id in w.chat.ids && w.chat.ids[id] >= 0 && forall i :: !LoggedInAs(w, id, i)
  }

  predicate KeepsBlocked(w: World, e: Event, id: ByteString)
    requires IsUser(w.chat, e.i)
  {
    var u := w.chat.users[e.i];
    match e
    case Disconnected(i) => u.id == id ==> u.domain.InRoom? && !NamesARoom(w.chat, i)
    case LoginResult(i, code) =>
      if code == NO_ERROR then u.id == id ==> i !in w.connected else id == [] ==> !LoggedIn(w, i)
    case _ => true
  }

  /** A blocked id is freed or taken by a disconnect, or a successful login, of a user that carries it, and by
      no other packet. */
  lemma StepKeepsBlockedIff(w: World, e: Event, id: ByteString)
    requires InRange(w.chat) && IsUser(w.chat, e.i) && NulFree(id) && Blocked(w, id)
    ensures Blocked(Step(w, e), id) <==> KeepsBlocked(w, e, id)
  {
    var w' := Step(w, e);
    assert forall j :: j != e.i ==> (LoggedInAs(w', id, j) <==> LoggedInAs(w, id, j));
    assert Blocked(w', id) <==> id in w'.chat.ids && w'.chat.ids[id] >= 0 && !LoggedInAs(w', id, e.i);
    assert !LoggedInAs(w, id, e.i);
    match e
    case LoginRequest(i, field) => FindReads(w.chat.ids, CString(field));
    case _ =>
  }

  /** A blocked id is refused to everybody. */
  lemma BlockedIsRefused(w: World, id: ByteString, j: int)
    requires Blocked(w, id) && NulFree(id) && IsUser(w.chat, j)
    ensures OnLoginRequest(w.chat, j, id) == Reply(w.chat, j, LoginResponse(LOGIN_USER_ALREADY))
  {
    CStringOfString(id);
    FindReads(w.chat.ids, id);
  }

  ghost predicate Carried(w: World, id: ByteString) {
    exists i :: Carries(w, id, i)
  }

  predicate Carries(w: World, id: ByteString, i: int) {
    i in w.connected && IsUser(w.chat, i) && w.chat.users[i].id == id
  }

  lemma UncarriedStaysBlocked(w: World, e: Event, id: ByteString)
    requires InRange(w.chat) && IsUser(w.chat, e.i) && NulFree(id) && id != [] && Blocked(w, id) && !Carried(w, id)
    requires e.Disconnected? ==> e.i in w.connected
    ensures Blocked(Step(w, e), id) && !Carried(Step(w, e), id)
  {
    StepKeepsBlockedIff(w, e, id);
    var w' := Step(w, e);
    assert !Carries(w, id, e.i);
    forall j ensures !Carries(w', id, j) {
      assert !Carries(w, id, j);
      if e.LoginRequest? { FindReads(w.chat.ids, CString(e.userId)); }
    }
  }

  lemma {:induction false} UncarriedStaysBlockedFor(a: Account, es: seq<Event>, id: ByteString)
    requires Valid(a) && AllCausal(a, es) && NulFree(id) && id != [] && Blocked(a.world, id) && !Carried(a.world, id)
    ensures Blocked(After(a, es).world, id)
    decreases |es|
  {
    if es == [] {
    } else {
      UncarriedStaysBlocked(a.world, es[0], id);
      UncarriedStaysBlockedFor(Advance(a, es[0]), es[1..], id);
    }
  }

  ghost predicate StaysBlocked(a: Account, id: ByteString)
    requires Valid(a)
  {
    forall es :: AllCausal(a, es) ==> Blocked(After(a, es).world, id)
  }

  /** A blocked id is refused for ever, whatever happens, exactly when no connected session carries it. */
  lemma StaysBlockedIff(a: Account, id: ByteString)
    requires Valid(a) && NulFree(id) && id != [] && Blocked(a.world, id)
    ensures StaysBlocked(a, id) <==> !Carried(a.world, id)
  {
    if Carried(a.world, id) {
      var i :| Carries(a.world, id, i);
      assert !LoggedInAs(a.world, id, i);
      var es := [Disconnected(i)];
      assert es[1..] == [] && AllCausal(Advance(a, es[0]), es[1..]) && AllCausal(a, es);
      StepKeepsBlockedIff(a.world, es[0], id);
      assert After(a, es) == Advance(a, es[0]);
    } else {
      forall es | AllCausal(a, es) ensures Blocked(After(a, es).world, id) {
        UncarriedStaysBlockedFor(a, es, id);
      }
    }
  }

  /** A login that succeeds after the session that asked for it has gone, for an id that is free. */
  predicate Stranding(w: World, e: Event) {
    e.LoginResult? && e.code == NO_ERROR && e.i !in w.connected && IsUser(w.chat, e.i)
    && w.chat.users[e.i].id !in w.chat.ids
  }

  /** It blocks the id, and for ever exactly when no connected session carries it, too. */
  lemma StrandedIdStaysBlockedIff(a: Account, i: int)
    requires Valid(a) && Index(a.world) && Strings(a.world.chat) && Causal(a, LoginResult(i, NO_ERROR))
    requires Stranding(a.world, LoginResult(i, NO_ERROR)) && a.world.chat.users[i].id != []
    ensures var a', id := Advance(a, LoginResult(i, NO_ERROR)), a.world.chat.users[i].id;
            && Blocked(a'.world, id)
            && (StaysBlocked(a', id) <==> forall j :: !Carries(a.world, id, j))
  {
    var a', id := Advance(a, LoginResult(i, NO_ERROR)), a.world.chat.users[i].id;
    CStringOfString(id);
    forall k ensures !LoggedInAs(a'.world, id, k) {
      assert !Indexed(a.world.chat, id, k) && !LoggedInAs(a.world, id, k);
    }
    assert forall j :: Carries(a'.world, id, j) <==> Carries(a.world, id, j);
    StaysBlockedIff(a', id);
  }
}
