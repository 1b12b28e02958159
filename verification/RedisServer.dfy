/** A server's connection pool (`CRedisServer`, Content/RedisClient.cpp), one call at a time. The steps `Borrow`
    and `GiveBack` of module Refresh are shown to change pools exactly as the methods here do. */
module RedisServers {
  import opened Bytes
  import opened SlotTable
  import opened RedisStore
  import opened Refresh

  const RQST_RETRY_TIMES := 3

  function Successes(connects: seq<bool>): nat {
    if connects == [] then 0 else Successes(connects[..|connects| - 1]) + if connects[|connects| - 1] then 1 else 0
  }

  lemma {:induction false} SuccessesAtMostAll(connects: seq<bool>)
    ensures Successes(connects) <= |connects|
  {
    if connects == [] {
    } else {
      SuccessesAtMostAll(connects[..|connects| - 1]);
    }
  }

  /** The connection at the head of the queue goes out. */
  ghost predicate Fetched(p: Pool, p': Pool, c: Conn) {
    p.idle != [] && c == p.idle[0] && p' == p.(idle := p.idle[1..])
  }

  /** A connection comes back to the tail. */
  ghost predicate Returned(p: Pool, p': Pool, c: Conn) {
    p' == p.(idle := p.idle + [c])
  }

  /** In the concurrent protocol a request may borrow connection c, leaving pool p', exactly when
      `FetchConnection` on that pool does so. */
  lemma BorrowIsFetch(s: State, t: Thread, srv: ServerId, c: Conn, p': Pool)
    requires At(s, t, Matched(srv)) && srv in s.live
    ensures RequestStep(s, s.(requests := s.requests[t := Holding(srv, c)], live := s.live[srv := p']), Borrow(t))
            <==> Fetched(s.live[srv], p', c)
  {
    var s' := s.(requests := s.requests[t := Holding(srv, c)], live := s.live[srv := p']);
    assert s'.live[srv] == p' && s'.requests[t] == Holding(srv, c);
  }

  /** And give c back exactly as `ReturnConnection` does. */
  lemma GiveBackIsReturn(s: State, t: Thread, srv: ServerId, c: Conn, p': Pool)
    requires At(s, t, Holding(srv, c)) && srv in s.live
    ensures RequestStep(s, s.(requests := s.requests[t := Leaving], live := s.live[srv := p']), GiveBack(t))
            <==> Returned(s.live[srv], p', c)
  {
    var s' := s.(requests := s.requests[t := Leaving], live := s.live[srv := p']);
    assert s'.live[srv] == p';
  }

  class RedisServer {
    const connNum: nat
    var queIdleConn: seq<Conn>
    var nextConn: Conn
    ghost var out: set<Conn> // fetched and not yet returned

    ghost predicate Valid()
      reads this
    {
      && NoDup(queIdleConn)
      && (forall c :: c in queIdleConn ==> c !in out && c < nextConn)
      && (forall c :: c in out ==> c < nextConn)
    }

    ghost function Known(): Pool
      reads this
    {
      Pool(queIdleConn, (set c | c in queIdleConn) + out)
    }

    predicate IsValid()
      reads this
    {
      |queIdleConn| != 0
    }

    constructor (connNum: nat, connects: seq<bool>)
      requires |connects| == connNum
      ensures Valid() && this.connNum == connNum && out == {}
      ensures FreshPool(Known(), connNum) && |queIdleConn| == Successes(connects)
    {
      this.connNum := connNum;
      queIdleConn := [];
      nextConn := 0;
      out := {};
      new;
      var _ := Initialize(connects);
      SuccessesAtMostAll(connects);
      CountDistinct(queIdleConn);
    }

    /** Only idle connections are deleted; one that is out would come back to the new queue. */
    method CleanConn()
      requires Valid()
      modifies this`queIdleConn
      ensures Valid() && queIdleConn == []
    {
      while queIdleConn != []
        invariant Valid()
        decreases |queIdleConn|
      {
        queIdleConn := queIdleConn[1..];
      }
    }

    method FetchConnection() returns (c: Option<Conn>)
      requires Valid()
      modifies this`queIdleConn, this`out
      ensures Valid() && (c.None? <==> old(queIdleConn) == [])
      ensures c.None? ==> Known() == old(Known()) && out == old(out)
      ensures c.Some? ==> Fetched(old(Known()), Known(), c.value) && out == old(out) + {c.value}
    {
      c := None;
      if queIdleConn != [] {
        c := Some(queIdleConn[0]);
        ghost var before := queIdleConn;
        queIdleConn := queIdleConn[1..];
        out := out + {c.value};
        assert forall d :: d in before <==> d == c.value || d in queIdleConn by {
          assert before == [c.value] + queIdleConn;
        }
      }
    }

    method ReturnConnection(c: Conn)
      requires Valid() && c in out
      modifies this`queIdleConn, this`out
      ensures Valid() && out == old(out) - {c}
      ensures Returned(old(Known()), Known(), c)
    {
      queIdleConn := queIdleConn + [c];
      out := out - {c};
      assert Known().made == old(Known().made);
    }

    /** One attempt per configured connection; those that connect are queued. Together with whatever
        is still out they are all there are, so the configured number is kept when nothing is out. */
    method Initialize(connects: seq<bool>) returns (ok: bool)
      requires Valid() && |connects| == connNum
      modifies this`queIdleConn, this`nextConn
      ensures Valid() && (ok <==> Successes(connects) > 0) && (ok <==> IsValid())
      ensures |queIdleConn| == Successes(connects)
      ensures |Known().made| == Successes(connects) + |out|
      ensures forall c :: c in queIdleConn ==> old(nextConn) <= c
    {
      CleanConn();
      for i := 0 to connNum
        invariant Valid() && |queIdleConn| == Successes(connects[..i])
        invariant forall c :: c in queIdleConn ==> old(nextConn) <= c
        invariant old(nextConn) <= nextConn
      {
        assert connects[..i + 1][..i] == connects[..i];
        assert forall k :: 0 <= k < |queIdleConn| ==> queIdleConn[k] in queIdleConn;
        if connects[i] { queIdleConn := queIdleConn + [nextConn]; }
        nextConn := nextConn + 1;
      }
      assert connects[..connNum] == connects;
      CountDistinct(queIdleConn);
      assert (set c | c in queIdleConn) !! out;
      return |queIdleConn| != 0;
    }

    /** A request borrows the connection at the head of the queue and gives it back at the end, whether
        or not the request succeeds; without one it gives up. */
    method ServRequest(answered: bool) returns (ret: int)
      requires Valid()
      modifies this`queIdleConn, this`out
      ensures Valid() && out == old(out)
      ensures ret == if old(queIdleConn) == [] then RC_NO_RESOURCE else if answered then RC_SUCCESS else RC_RQST_ERR
      ensures queIdleConn == if old(queIdleConn) == [] then [] else old(queIdleConn)[1..] + [old(queIdleConn)[0]]
    {
      var c := None;
      var tries := 0;
      while tries < RQST_RETRY_TIMES
        invariant Valid() && c.None? && queIdleConn == old(queIdleConn) && out == old(out)
        invariant tries > 0 ==> queIdleConn == []
      {
        c := FetchConnection();
        if c.Some? { break; }
        tries := tries + 1;
      }
      if c.None? { return RC_NO_RESOURCE; }
      ret := if answered then RC_SUCCESS else RC_RQST_ERR;
      ReturnConnection(c.value);
    }
  }
}
