/** The refresh protocol has no dead ends: in every reachable state the refresh thread can end the round it is in,
    and every request can leave, so that the lock can be taken again. */
module RefreshProgress {
  import opened Bytes
  import opened SlotTable
  import opened RedisClients
  import opened Refresh

  ghost predicate Leads(path: seq<State>, k: nat)
    requires k + 1 < |path|
  {
    Next(path[k], path[k + 1])
  }

  ghost predicate IsPath(path: seq<State>, s: State, end: State) {
    && path != [] && path[0] == s && path[|path| - 1] == end
    && forall k: nat :: k + 1 < |path| ==> Leads(path, k)
  }

  lemma OneMore(s: State, s': State, path: seq<State>, end: State) returns (longer: seq<State>)
    requires Next(s, s') && IsPath(path, s', end)
    ensures IsPath(longer, s, end)
  {
    longer := [s] + path;
    forall k: nat | k + 1 < |longer| ensures Leads(longer, k) {
      if k > 0 { assert Leads(path, k - 1); }
    }
  }

  // The refresh thread.

  /** How far a round is from its end. */
  ghost function Stages(r: Refresher): nat {
    match r
    case Top => 0
    case Waiting => 0
    case Unlocking => 1
    case Loaded(_) => 2
    case Refilling => 3
    case Listed(_, _) => 4
    case Cleared(_, _) => 5
    case Emptied(_, _) => 6
    case Ready(_, _) => 7
    case Loading => 8
    case Asking(_, _) => 9
    case Locked => 9
  }

  ghost function Undeleted(s: State): set<ServerId> {
    set srv | srv in s.live && srv in s.servers
  }

  /** Servers built, and their table not lost since. */
  ghost predicate WillBeValid(s: State) {
    || s.refresher.Ready? || Rebuilding(s.refresher) || s.refresher == Loaded(true)
    || ((s.refresher.Unlocking? || s.refresher.Top?) && s.valid)
  }

  ghost predicate Closer(s: State, s': State) {
    || Stages(s'.refresher) < Stages(s.refresher)
    || (Stages(s'.refresher) == Stages(s.refresher) && |Undeleted(s')| < |Undeleted(s)|)
  }

  lemma DeleteIsCloser(s: State, srv: ServerId) returns (s': State)
    requires s.refresher.Emptied? && srv in s.servers && srv in s.live
    ensures LoadStep(s, s', Delete(srv)) && s'.refresher == s.refresher && Closer(s, s')
  {
    s' := s.(live := s.live - {srv});
    assert Undeleted(s') == Undeleted(s) - {srv} && srv in Undeleted(s);
  }

  lemma EmptiedGoesOn(s: State) returns (s': State, step: Step)
    requires s.refresher.Emptied?
    ensures LoadStep(s, s', step) && Closer(s, s') && WillBeValid(s')
  {
    if srv :| srv in s.servers && srv in s.live {
      step := Delete(srv);
      s' := DeleteIsCloser(s, srv);
    } else {
      s', step := s.(refresher := Cleared(s.refresher.newTable, s.refresher.newList), servers := []), Clear;
    }
  }

  lemma RebuildGoesOn(s: State) returns (s': State, step: Step)
    requires s.refresher.Ready? || Rebuilding(s.refresher)
    ensures RefreshStep(s, s', step) && Closer(s, s') && WillBeValid(s')
  {
    match s.refresher
    case Ready(newTable, newList) =>
      s', step := s.(refresher := Emptied(newTable, newList), table := []), Empty;
    case Emptied(_, _) =>
      s', step := EmptiedGoesOn(s);
    case Cleared(newTable, newList) =>
      s', step := s.(refresher := Listed(newTable, newList), servers := newList), SetList;
    case Listed(newTable, newList) =>
      s', step := s.(refresher := Loaded(true), table := newTable, version := s.version + 1), SetTable;
  }

  lemma LoadGoesOn(s: State) returns (s': State, step: Step)
    requires Inv(s) && (s.refresher.Loading? || s.refresher.Asking?)
    ensures RefreshStep(s, s', step) && Closer(s, s')
  {
    if s.refresher.Asking? {
      var Asking(srv, c) := s.refresher;
      AskedIsLive(s, srv);
      var p := s.live[srv];
      s', step := s.(refresher := Loading, live := s.live[srv := p.(idle := p.idle + [c])]), Asked;
    } else if s.cluster {
      s', step := s.(refresher := Loaded(false)), LoadFails;
    } else {
      s', step := s.(refresher := Refilling, live := s.live[s.servers[0] := Pool([], {})]), CleanConn;
    }
  }

  lemma AskedIsLive(s: State, srv: ServerId)
    requires Inv(s) && s.refresher.Asking? && s.refresher.srv == srv
    ensures srv in s.live
  {
    var i :| 0 <= i < |s.servers| && s.servers[i] == srv;
  }

  lemma ControlGoesOn(s: State) returns (s': State, step: Step)
    requires Inv(s)
    requires s.refresher.Locked? || s.refresher.Refilling? || s.refresher.Loaded? || s.refresher.Unlocking?
    ensures ControlStep(s, s', step) && Closer(s, s') && (WillBeValid(s) ==> WillBeValid(s'))
  {
    match s.refresher
    case Locked =>
      if s.valid { s', step := s.(writer := false, refresher := Waiting), Wait; }
      else { s', step := s.(refresher := Loading), Start; }
    case Refilling =>
      var srv := s.servers[0];
      s', step := s.(refresher := Loaded(s.live[srv].idle != [])), Refilled;
    case Loaded(ok) =>
      s', step := s.(refresher := Unlocking, valid := ok), SetValid;
    case Unlocking =>
      s', step := s.(refresher := Top, writer := false), Unlock;
  }

  lemma RoundGoesOn(s: State) returns (s': State)
    requires Inv(s) && Exclusive(s.refresher)
    ensures Next(s, s') && Closer(s, s')
    ensures WillBeValid(s) ==> WillBeValid(s')
  {
    var step;
    if s.refresher.Ready? || Rebuilding(s.refresher) {
      s', step := RebuildGoesOn(s);
    } else if s.refresher.Loading? || s.refresher.Asking? {
      s', step := LoadGoesOn(s);
    } else {
      s', step := ControlGoesOn(s);
    }
    assert TakesStep(s, s', step);
  }

  /** From every state in which the refresh thread holds the lock it can, alone, get to give it up; and once the new
      servers have been built, with the client valid. */
  lemma {:induction false} RoundCanEnd(s: State) returns (path: seq<State>, end: State)
    requires Inv(s)
    ensures IsPath(path, s, end) && Inv(end) && !Exclusive(end.refresher)
    ensures WillBeValid(s) ==> end.valid
    decreases Stages(s.refresher), |Undeleted(s)|
  {
    if Exclusive(s.refresher) {
      var s' := RoundGoesOn(s);
      StepKeepsInv(s, s');
      path, end := RoundCanEnd(s');
      path := OneMore(s, s', path, end);
    } else {
      path, end := [s], s;
    }
  }

  // The requests.

  /** How far a request is from leaving. */
  ghost function StepsLeft(r: Request): nat {
    match r
    case Entered => 3
    case Matched(_) => 2
    case Holding(_, _) => 2
    case Leaving => 1
  }

  /** Whatever the others do, a request that has entered can leave: it fails fast, finds no server, gives up or
      gives its connection back. */
  lemma RequestGoesOn(s: State, t: Thread) returns (s': State)
    requires Inv(s) && t in s.requests
    ensures Next(s, s') && s'.refresher == s.refresher
    ensures s'.requests.Keys == if s.requests[t].Leaving? then s.requests.Keys - {t} else s.requests.Keys
    ensures !s.requests[t].Leaving? ==> StepsLeft(s'.requests[t]) < StepsLeft(s.requests[t])
    ensures s'.valid == s.valid
  {
    var step;
    match s.requests[t] {
      case Entered =>
        if s.valid {
          var matched := match MatchedServer(s, -1) case None => Leaving case Some(srv) => Matched(srv);
          s', step := s.(requests := s.requests[t := matched]), Match(t, -1);
        } else {
          s', step := s.(requests := s.requests[t := Leaving]), FailFast(t);
        }
      case Matched(_) =>
        s', step := s.(requests := s.requests[t := Leaving]), GiveUp(t);
      case Holding(srv, c) =>
        UsedIsLive(s, t, srv);
        var p := s.live[srv];
        s', step := s.(requests := s.requests[t := Leaving], live := s.live[srv := p.(idle := p.idle + [c])]), GiveBack(t);
      case Leaving =>
        s', step := s.(readers := s.readers - {t}, requests := s.requests - {t}), Leave(t);
    }
    assert RequestStep(s, s', step) && TakesStep(s, s', step);
  }

  lemma {:induction false} RequestCanLeave(s: State, t: Thread) returns (path: seq<State>, end: State)
    requires Inv(s) && t in s.requests
    ensures IsPath(path, s, end) && Inv(end) && end.requests.Keys == s.requests.Keys - {t}
    ensures end.refresher == s.refresher && end.valid == s.valid
    decreases StepsLeft(s.requests[t])
  {
    var s' := RequestGoesOn(s, t);
    StepKeepsInv(s, s');
    if s.requests[t].Leaving? {
      path, end := [s'], s';
    } else {
      path, end := RequestCanLeave(s', t);
    }
    path := OneMore(s, s', path, end);
  }

  lemma Joined(a: seq<State>, b: seq<State>, s: State, m: State, end: State) returns (path: seq<State>)
    requires IsPath(a, s, m) && IsPath(b, m, end)
    ensures IsPath(path, s, end)
  {
    path := a + b[1..];
    forall k: nat | k + 1 < |path| ensures Leads(path, k) {
      if k + 1 < |a| {
        assert Leads(a, k);
      } else {
        assert Leads(b, k + 1 - |a|);
      }
    }
  }

  lemma {:induction false} RequestsCanLeave(s: State) returns (path: seq<State>, end: State)
    requires Inv(s)
    ensures IsPath(path, s, end) && Inv(end) && end.requests == map[]
    ensures end.refresher == s.refresher && end.valid == s.valid
    decreases |s.requests.Keys|
  {
    if t :| t in s.requests {
      var first, left := RequestCanLeave(s, t);
      var rest;
      rest, end := RequestsCanLeave(left);
      path := Joined(first, rest, s, left, end);
    } else {
      path, end := [s], s;
    }
  }

  lemma LockGoesOn(s: State) returns (s': State)
    requires Inv(s) && !Exclusive(s.refresher) && s.requests == map[]
    ensures Next(s, s') && Exclusive(s'.refresher)
  {
    var step;
    if s.refresher.Top? {
      s', step := s.(writer := true, refresher := Locked), Lock;
    } else {
      s', step := s.(writer := true, refresher := Loading), Wake;
    }
    assert ControlStep(s, s', step) && TakesStep(s, s', step);
  }

  /** No dead end: from every state of every run it is possible that the refresh thread ends the round it is in, that
      every request leaves, and that the thread takes the lock again. */
  lemma LockCanBeTakenAgain(run: seq<State>, i: nat) returns (path: seq<State>, end: State)
    requires IsRun(run) && i < |run|
    ensures IsPath(path, run[i], end) && end.requests == map[] && !Exclusive(end.refresher)
    ensures WillBeValid(run[i]) ==> end.valid
    ensures exists locked :: Next(end, locked) && Exclusive(locked.refresher)
  {
    RunKeepsInv(run, i);
    var round, ended := RoundCanEnd(run[i]);
    var leaving;
    leaving, end := RequestsCanLeave(ended);
    path := Joined(round, leaving, run[i], ended, end);
    var locked := LockGoesOn(end);
  }
}
