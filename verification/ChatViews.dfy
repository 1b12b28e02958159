/** What the packets sent to a session add up to: its view of the room, and all it has received. */
module ChatViews {
  import opened Bytes
  import opened Users
  import opened Chats

  // What a client believes.

  function Without(es: seq<Entry>, index: int): seq<Entry> {
    if es == [] then []
    else
      var before, last := es[..|es| - 1], es[|es| - 1];
      Without(before, index) + if last.index == index then [] else [last]
  }

  function Believe(view: Option<seq<Entry>>, n: Notice): Option<seq<Entry>> {
    match n
    case UserList(us) => Some(us)
    case NewUser(u) => if view.None? then None else Some(view.value + [u])
    case UserLeft(x) => if view.None? then None else Some(Without(view.value, x))
    case _ => view
  }

  /** Session i's replay of all it was sent: it starts afresh at every user list. */
  function View(log: seq<Sent>, i: int): Option<seq<Entry>> {
    if log == [] then None
    else
      var last := log[|log| - 1];
      var before := View(log[..|log| - 1], i);
      if last.to == i then Believe(before, last.notice) else before
  }

  lemma ViewNext(log: seq<Sent>, m: Sent, i: int)
    ensures View(log + [m], i) == if m.to == i then Believe(View(log, i), m.notice) else View(log, i)
  {
    assert (log + [m])[..|log|] == log;
  }

  lemma BroadcastNext(log: seq<Sent>, list: seq<int>, u: int, n: Notice, pass: int, exceptMe: bool)
    ensures log + Broadcast(list + [u], n, pass, exceptMe)
            == if exceptMe && AsComparedIndex(u) == pass then log + Broadcast(list, n, pass, exceptMe)
               else log + Broadcast(list, n, pass, exceptMe) + [Sent(u, n)]
  {
    assert (list + [u])[..|list|] == list;
  }

  /** A room's broadcast reaches every member once, except the one it is about. */
  lemma {:induction false} ViewAfterBroadcast(log: seq<Sent>, list: seq<int>, n: Notice, pass: int, exceptMe: bool, i: int)
    requires NoDup(list) && forall k :: 0 <= k < |list| ==> 0 <= list[k] < 0x8000
    ensures View(log + Broadcast(list, n, pass, exceptMe), i)
            == if i in list && !(exceptMe && i == pass) then Believe(View(log, i), n) else View(log, i)
  {
    if list == [] {
      assert log + Broadcast(list, n, pass, exceptMe) == log;
    } else {
      var before, last := list[..|list| - 1], list[|list| - 1];
      assert list == before + [last] && last !in before;
      ViewAfterBroadcast(log, before, n, pass, exceptMe, i);
      BroadcastNext(log, before, last, n, pass, exceptMe);
      OwnIndexIsRecognised(last);
      ViewNext(log + Broadcast(before, n, pass, exceptMe), Sent(last, n), i);
    }
  }

  /** A leave is seen as it is, the leaver gone and nobody else, exactly when no other member of the
      room carries the leaver's id. */
  lemma LeaveIsSeenAsItIsIff(users: seq<Profile>, list: seq<int>, i: int)
    requires (forall k :: 0 <= k < |list| ==> 0 <= list[k] < |users|) && 0 <= i < |users|
    ensures Without(Entries(users, list), i) == Entries(users, EraseId(users, list, users[i].id))
            <==> forall u :: u in list && users[u].id == users[i].id ==> u == i
  {
    if forall u :: u in list && users[u].id == users[i].id ==> u == i {
      EraseIsWithout(users, list, i);
    } else {
      var u :| u in list && users[u].id == users[i].id && u != i;
      var e := Entry(u, users[u].id);
      assert e in Entries(users, list) by {
        var k :| 0 <= k < |list| && list[k] == u;
        assert Entries(users, list)[k] == e;
      }
      WithoutKeeps(Entries(users, list), i, e);
      EraseMembers(users, list, users[i].id);
      NotListed(users, EraseId(users, list, users[i].id), e);
    }
  }

  lemma NotListed(users: seq<Profile>, list: seq<int>, e: Entry)
    requires (forall k :: 0 <= k < |list| ==> 0 <= list[k] < |users|) && e.index !in list
    ensures e !in Entries(users, list)
  {
    assert forall k :: 0 <= k < |list| ==> Entries(users, list)[k].index == list[k] && list[k] in list;
  }

  lemma {:induction false} WithoutKeeps(es: seq<Entry>, index: int, e: Entry)
    requires e in es && e.index != index
    ensures e in Without(es, index)
  {
    var before, last := es[..|es| - 1], es[|es| - 1];
    if e != last {
      assert es == before + [last];
      WithoutKeeps(before, index, e);
    }
  }

  lemma WithoutNext(es: seq<Entry>, e: Entry, index: int)
    ensures Without(es + [e], index) == Without(es, index) + if e.index == index then [] else [e]
  {
    assert (es + [e])[..|es|] == es;
  }

  lemma EntriesNext(users: seq<Profile>, list: seq<int>, u: int)
    requires (forall k :: 0 <= k < |list| ==> 0 <= list[k] < |users|) && 0 <= u < |users|
    ensures forall k :: 0 <= k < |list + [u]| ==> 0 <= (list + [u])[k] < |users|
    ensures Entries(users, list + [u]) == Entries(users, list) + [Entry(u, users[u].id)]
  {
  }

  lemma {:induction false} EraseIsWithout(users: seq<Profile>, list: seq<int>, i: int)
    requires (forall k :: 0 <= k < |list| ==> 0 <= list[k] < |users|) && 0 <= i < |users|
    requires forall u :: u in list && users[u].id == users[i].id ==> u == i
    ensures Without(Entries(users, list), i) == Entries(users, EraseId(users, list, users[i].id))
  {
    if list == [] {
    } else {
      var before, last := list[..|list| - 1], list[|list| - 1];
      assert list == before + [last] && forall u :: u in before ==> u in list;
      assert last in list;
      EraseIsWithout(users, before, i);
      EntriesNext(users, before, last);
      WithoutNext(Entries(users, before), Entry(last, users[last].id), i);
      EraseNext(users, before, last, users[i].id);
      if last != i {
        EntriesNext(users, EraseId(users, before, users[i].id), last);
      }
    }
  }

  lemma {:induction false} EraseIsSublist(users: seq<Profile>, list: seq<int>, id: ByteString)
    requires (forall k :: 0 <= k < |list| ==> 0 <= list[k] < |users|) && NoDup(list)
    ensures NoDup(EraseId(users, list, id))
  {
    if list == [] {
    } else {
      var before, last := list[..|list| - 1], list[|list| - 1];
      EraseIsSublist(users, before, id);
      EraseMembers(users, before, id);
      var rest := EraseId(users, before, id);
      assert last !in before;
      assert forall k :: 0 <= k < |rest| ==> rest[k] in rest;
    }
  }

  lemma EntriesSame(users: seq<Profile>, users': seq<Profile>, list: seq<int>)
    requires |users'| == |users| && forall k :: 0 <= k < |list| ==> 0 <= list[k] < |users|
    requires forall u :: u in list ==> users'[u].id == users[u].id
    ensures Entries(users', list) == Entries(users, list)
  {
    assert forall k :: 0 <= k < |list| ==> list[k] in list;
  }

  /** Answers to requests say nothing about rooms. */
  predicate IsResponse(n: Notice) {
    n.LoginResponse? || n.EnterResponse? || n.LeaveResponse? || n.ChatResponse?
  }

  // What each session is sent.

  function Received(log: seq<Sent>, i: int): seq<Notice> {
    if log == [] then []
    else
      var last := log[|log| - 1];
      Received(log[..|log| - 1], i) + if last.to == i then [last.notice] else []
  }

  lemma ReceivedNext(log: seq<Sent>, m: Sent, i: int)
    ensures Received(log + [m], i) == Received(log, i) + if m.to == i then [m.notice] else []
  {
    assert (log + [m])[..|log|] == log;
  }

  lemma {:induction false} ReceivedFromBroadcast(log: seq<Sent>, list: seq<int>, n: Notice, pass: int, i: int)
    requires NoDup(list)
    ensures Received(log + Broadcast(list, n, pass, false), i) == Received(log, i) + if i in list then [n] else []
  {
    if list == [] {
      assert log + Broadcast(list, n, pass, false) == log;
    } else {
      var before, last := list[..|list| - 1], list[|list| - 1];
      assert list == before + [last] && last !in before;
      ReceivedFromBroadcast(log, before, n, pass, i);
      BroadcastNext(log, before, last, n, pass, false);
      ReceivedNext(log + Broadcast(before, n, pass, false), Sent(last, n), i);
    }
  }
}
