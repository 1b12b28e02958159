/** One round of the refresh thread (`CRedisClient::operator()`, Content/RedisClient.cpp), from the moment it has no
    lock to the moment it has assigned `m_bValid`: what it leaves behind, and which requests it lets pass. */
module RefreshRounds {
  import opened Bytes
  import opened SlotTable
  import opened RedisClients
  import opened Refresh

  /** From a state in which the thread does not hold the lock to the end of the round it then starts. */
  ghost predicate IsRound(run: seq<State>, i: nat, j: nat) {
    && IsRun(run) && i < j < |run| && !Exclusive(run[i].refresher) && run[j].refresher.Unlocking?
    && forall k :: i < k < j ==> Exclusive(run[k].refresher)
  }

  /** A table has been installed; or, for a single server, it has a connection again. */
  ghost predicate Succeeded(s0: State, s: State) {
    if s0.cluster then s.version == s0.version + 1
    else s.servers != [] && s.servers[0] in s.live && s.live[s.servers[0]].idle != []
  }

  ghost predicate JustBuilt(s: State, s': State, built: map<ServerId, Pool>) {
    s'.refresher.Ready? && LoadStep(s, s', Build(s'.refresher.newTable, s'.refresher.newList, built))
  }

  function Members(servers: seq<ServerId>): set<ServerId> {
    set i | 0 <= i < |servers| :: servers[i]
  }

  /** Between the building of the new servers, in state r, and the installing of their table. */
  ghost predicate Installing(r: State, s: State) {
    && r.refresher.Ready?
    && match s.refresher
       case Ready(newTable, newList) => s.refresher == r.refresher && SameTable(r, s)
       case Emptied(newTable, newList) =>
         && Ready(newTable, newList) == r.refresher
         && s.table == [] && s.servers == r.servers && s.version == r.version
         && r.live.Keys - Members(r.servers) <= s.live.Keys <= r.live.Keys
       case Cleared(newTable, newList) =>
         && Ready(newTable, newList) == r.refresher
         && s.table == [] && s.servers == [] && s.version == r.version
         && s.live.Keys == r.live.Keys - Members(r.servers)
       case Listed(newTable, newList) =>
         && Ready(newTable, newList) == r.refresher
         && s.table == [] && s.servers == newList && s.version == r.version
         && s.live.Keys == r.live.Keys - Members(r.servers)
       case _ => Installed(r, s)
  }

  ghost predicate Installed(r: State, s: State) {
    && r.refresher.Ready?
    && s.table == r.refresher.newTable && s.servers == r.refresher.newList && s.version == r.version + 1
    && s.live.Keys == r.live.Keys - Members(r.servers)
  }

  /** A single server's pool holds connections made in this round only. */
  ghost predicate Refilled(s0: State, s: State) {
    && SameTable(s0, s) && s.servers != [] && s.servers[0] in s.live && s0.nextConn <= s.nextConn
    && forall c :: c in s.live[s.servers[0]].made ==> s0.nextConn <= c
  }

  ghost predicate Ended(s0: State, r: State, s: State, ok: bool) {
    if s0.cluster then if ok then Installed(r, s) else SameTable(s0, s)
    else Refilled(s0, s) && (ok <==> Succeeded(s0, s))
  }

  ghost predicate Untouched(s0: State, s: State) {
    SameTable(s0, s) && s.nextConn == s0.nextConn
  }

  ghost predicate HasBuilt(s: State) {
    || s.refresher.Ready? || Rebuilding(s.refresher)
    || (s.cluster && s.refresher == Loaded(true)) || (s.cluster && s.refresher.Unlocking? && s.valid)
  }

  /** Where a round that started in s0, and built its servers in r, stands in s. */
  ghost predicate Stage(s0: State, r: State, s: State) {
    && s.cluster == s0.cluster && (s.refresher.Unlocking? || s.valid == s0.valid)
    && (s0.refresher.Top? && s0.valid ==> s.refresher.Locked?)
    && match s.refresher
       case Top => false
       case Waiting => false
       case Locked => Untouched(s0, s)
       case Loading => Untouched(s0, s)
       case Asking(_, _) => Untouched(s0, s)
       case Refilling => Refilled(s0, s)
       case Loaded(ok) => Ended(s0, r, s, ok)
       case Unlocking => Ended(s0, r, s, s.valid)
       case _ => Installing(r, s)
  }

  lemma RoundStarts(s0: State, s: State)
    requires Next(s0, s) && !Exclusive(s0.refresher) && Exclusive(s.refresher)
    ensures Stage(s0, s, s) && !HasBuilt(s)
  {
    var step :| TakesStep(s0, s, step);
    assert !LoadStep(s0, s, step) by {
      if LoadStep(s0, s, step) { LoadFrame(s0, s, step); }
    }
    assert !RequestStep(s0, s, step) by {
      if RequestStep(s0, s, step) { RequestFrame(s0, s, step); }
    }
    LockTaken(s0, s, step);
  }

  lemma LockTaken(s0: State, s: State, step: Step)
    requires ControlStep(s0, s, step) && !Exclusive(s0.refresher)
    ensures Untouched(s0, s) && s.cluster == s0.cluster && s.valid == s0.valid
    ensures if s0.refresher.Top? then s.refresher.Locked? else s.refresher.Loading?
  {
  }

  /** While the thread holds the lock nobody else moves. */
  lemma OnlyTheThreadMoves(s: State, s': State)
    requires LockInv(s) && Next(s, s') && Exclusive(s.refresher)
    ensures exists step :: RefreshStep(s, s', step)
  {
    var step :| TakesStep(s, s', step);
    assert s.writer && s.requests == map[];
    assert !RequestStep(s, s', step);
  }

  lemma ControlStepKeepsStage(s0: State, r: State, s: State, s': State, step: Step)
    requires ModeInv(s) && Stage(s0, r, s) && ControlStep(s, s', step) && Exclusive(s'.refresher)
    ensures Stage(s0, r, s') && (HasBuilt(s') ==> HasBuilt(s))
  {
  }

  lemma BuildStage(s0: State, r: State, s: State, s': State, step: Step)
    requires Stage(s0, r, s) && LoadStep(s, s', step) && step.Build?
    ensures Stage(s0, s', s') && Untouched(s0, s) && JustBuilt(s, s', step.built)
  {
  }

  lemma AskKeepsStage(s0: State, r: State, s: State, s': State, step: Step)
    requires Stage(s0, r, s) && LoadStep(s, s', step) && (step.Ask? || step.Asked?)
    ensures Stage(s0, r, s') && !HasBuilt(s')
  {
  }

  lemma InstallKeepsStage(s0: State, r: State, s: State, s': State, step: Step)
    requires Stage(s0, r, s) && LoadStep(s, s', step) && (step.Empty? || step.SetList? || step.SetTable?)
    requires ModeInv(s)
    ensures Stage(s0, r, s') && HasBuilt(s)
  {
  }

  lemma DeleteKeepsStage(s0: State, r: State, s: State, s': State, step: Step)
    requires Stage(s0, r, s) && LoadStep(s, s', step) && (step.Delete? || step.Clear?)
    ensures Stage(s0, r, s') && HasBuilt(s)
  {
    assert s.refresher.Emptied?;
    assert forall srv :: srv in s.servers <==> srv in Members(s.servers);
  }

  lemma RefillKeepsStage(s0: State, r: State, s: State, s': State, step: Step)
    requires Stage(s0, r, s) && LoadStep(s, s', step) && (step.CleanConn? || step.Push?)
    requires ModeInv(s) && TableInv(s)
    ensures Stage(s0, r, s') && !HasBuilt(s')
  {
    assert s.servers[0] in s.live;
    assert s'.live.Keys == s.live.Keys;
  }

  lemma LoadSteps(s: State, s': State, step: Step)
    requires LoadStep(s, s', step)
    ensures step.Ask? || step.Asked? || step.Build? || step.Delete? || step.Clear? || step.CleanConn? || step.Push?
            || step.Empty? || step.SetList? || step.SetTable?
  {
  }

  /** Any step of the round but the building of new servers. */
  lemma LoadStepKeepsStage(s0: State, r: State, s: State, s': State, step: Step)
    requires ModeInv(s) && TableInv(s) && Stage(s0, r, s) && LoadStep(s, s', step) && !step.Build?
    ensures Stage(s0, r, s') && (HasBuilt(s') ==> HasBuilt(s))
  {
    LoadSteps(s, s', step);
    if step.Ask? || step.Asked? {
      AskKeepsStage(s0, r, s, s', step);
    } else if step.Delete? || step.Clear? {
      DeleteKeepsStage(s0, r, s, s', step);
    } else if step.CleanConn? || step.Push? {
      RefillKeepsStage(s0, r, s, s', step);
    } else {
      InstallKeepsStage(s0, r, s, s', step);
    }
  }

  lemma StepKeepsStage(s0: State, r: State, s: State, s': State) returns (rebuilt: bool, built: map<ServerId, Pool>)
    requires Inv(s) && Stage(s0, r, s) && Next(s, s') && Exclusive(s.refresher) && Exclusive(s'.refresher)
    ensures if rebuilt then Stage(s0, s', s') && Untouched(s0, s) && JustBuilt(s, s', built)
            else Stage(s0, r, s') && (HasBuilt(s') ==> HasBuilt(s))
  {
    OnlyTheThreadMoves(s, s');
    var step :| RefreshStep(s, s', step);
    rebuilt, built := false, map[];
    if ControlStep(s, s', step) {
      ControlStepKeepsStage(s0, r, s, s', step);
    } else if step.Build? {
      rebuilt, built := true, step.built;
      BuildStage(s0, r, s, s', step);
    } else {
      LoadStepKeepsStage(s0, r, s, s', step);
    }
  }

  /** The state in which the new servers had just been built, if they have. */
  ghost predicate StageAt(run: seq<State>, i: nat, b: nat, built: map<ServerId, Pool>, m: nat)
    requires i < b <= m < |run|
  {
    Stage(run[i], run[b], run[m]) && (HasBuilt(run[m]) ==> BuiltAt(run, i, b, built))
  }

  ghost predicate BuiltAt(run: seq<State>, i: nat, b: nat, built: map<ServerId, Pool>)
    requires i < b < |run|
  {
    Untouched(run[i], run[b - 1]) && JustBuilt(run[b - 1], run[b], built)
  }

  lemma StageNext(run: seq<State>, i: nat, b: nat, built: map<ServerId, Pool>, m: nat)
    returns (b': nat, built': map<ServerId, Pool>)
    requires IsRun(run) && i < b <= m && m + 1 < |run| && StageAt(run, i, b, built, m)
    requires Exclusive(run[m].refresher) && Exclusive(run[m + 1].refresher)
    ensures i < b' <= m + 1 && StageAt(run, i, b', built', m + 1)
  {
    RunKeepsInv(run, m);
    assert Follows(run, m);
    var rebuilt;
    rebuilt, built' := StepKeepsStage(run[i], run[b], run[m], run[m + 1]);
    if rebuilt {
      b' := m + 1;
    } else {
      b', built' := b, built;
    }
  }

  lemma FirstStage(run: seq<State>, i: nat)
    requires IsRun(run) && i + 1 < |run| && !Exclusive(run[i].refresher) && Exclusive(run[i + 1].refresher)
    ensures StageAt(run, i, i + 1, map[], i + 1)
  {
    assert Follows(run, i);
    RoundStarts(run[i], run[i + 1]);
  }

  lemma {:induction false} RoundStage(run: seq<State>, i: nat, m: nat)
    returns (b: nat, built: map<ServerId, Pool>)
    requires IsRun(run) && i < m < |run| && !Exclusive(run[i].refresher)
    requires forall k :: i < k <= m ==> Exclusive(run[k].refresher)
    ensures i < b <= m && StageAt(run, i, b, built, m)
    decreases m
  {
    if m == i + 1 {
      FirstStage(run, i);
      b, built := m, map[];
    } else {
      b, built := RoundStage(run, i, m - 1);
      b, built := StageNext(run, i, b, built, m - 1);
    }
  }

  /** Every round ends with the flag saying whether it succeeded: in a cluster, whether a table has been
      installed, and if none has, nothing has changed; for a single server, whether it has a connection, and
      then one that was made in this round. */
  lemma RoundSetsValid(run: seq<State>, i: nat, j: nat)
    requires IsRound(run, i, j)
    ensures run[j].valid <==> Succeeded(run[i], run[j])
    ensures run[j].cluster == run[i].cluster
    ensures run[i].cluster ==> run[j].version == run[i].version + 1 || SameTable(run[i], run[j])
    ensures !run[i].cluster ==> Refilled(run[i], run[j])
  {
    var b, built := RoundStage(run, i, j);
    if run[i].cluster && run[j].valid {
      assert run[b].version == run[i].version;
    }
  }

  /** A round that installs a table: it and the list are those built in the round, of new servers only; the
      servers listed before are gone, and no others. */
  lemma RoundInstalls(run: seq<State>, i: nat, j: nat) returns (b: nat, built: map<ServerId, Pool>)
    requires IsRound(run, i, j) && run[i].cluster && run[j].valid
    ensures i < b < j && BuiltAt(run, i, b, built) && Built(run[b - 1], run[j].table, run[j].servers, built)
    ensures run[j].live.Keys == run[i].live.Keys + built.Keys - Members(run[i].servers)
  {
    b, built := RoundStage(run, i, j);
    InstalledIsBuilt(run[i], run[b - 1], run[b], run[j], built);
  }

  lemma InstalledIsBuilt(s0: State, p: State, r: State, s: State, built: map<ServerId, Pool>)
    requires Untouched(s0, p) && JustBuilt(p, r, built) && Installed(r, s)
    ensures Built(p, s.table, s.servers, built)
    ensures s.live.Keys == s0.live.Keys + built.Keys - Members(s0.servers)
  {
    assert r.live.Keys == p.live.Keys + built.Keys;
  }

  lemma OnlyWaitsWhenValid(s: State, s': State)
    requires Next(s, s') && (s.refresher.Waiting? ==> s.valid) && s'.refresher.Waiting?
    ensures s'.valid
  {
    var step :| TakesStep(s, s', step);
    if RequestStep(s, s', step) {
      RequestFrame(s, s', step);
    } else if LoadStep(s, s', step) {
      LoadFrame(s, s', step);
    }
  }

  lemma {:induction false} WaitingIsValid(run: seq<State>, i: nat)
    requires IsRun(run) && i < |run|
    ensures run[i].refresher.Waiting? ==> run[i].valid
  {
    if i == 0 {
    } else {
      WaitingIsValid(run, i - 1);
      assert Follows(run, i - 1);
      if run[i].refresher.Waiting? { OnlyWaitsWhenValid(run[i - 1], run[i]); }
    }
  }

  /** The thread waits for a notification before a round exactly if the client is valid; otherwise it goes
      ahead at once. */
  lemma RoundWaitsIffValid(run: seq<State>, i: nat, j: nat)
    requires IsRound(run, i, j)
    ensures run[i].refresher.Waiting? <==> run[i].valid
  {
    WaitingIsValid(run, i);
    var b, built := RoundStage(run, i, j);
  }

  ghost predicate CanMatch(s: State, t: Thread, slot: int) {
    exists s' :: RequestStep(s, s', Match(t, slot))
  }

  ghost predicate CanFailFast(s: State, t: Thread) {
    exists s' :: RequestStep(s, s', FailFast(t))
  }

  lemma EnteredGoesByValid(s: State, t: Thread, slot: int)
    requires At(s, t, Entered)
    ensures CanMatch(s, t, slot) <==> s.valid
    ensures CanFailFast(s, t) <==> !s.valid
  {
    var matched := match MatchedServer(s, slot) case None => Leaving case Some(srv) => Matched(srv);
    if s.valid {
      assert RequestStep(s, s.(requests := s.requests[t := matched]), Match(t, slot));
    } else {
      assert RequestStep(s, s.(requests := s.requests[t := Leaving]), FailFast(t));
    }
  }

  lemma OnlySetValidChangesIt(s: State, s': State)
    requires Next(s, s') && !s'.refresher.Unlocking?
    ensures s'.valid == s.valid
  {
    var step :| TakesStep(s, s', step);
    if RequestStep(s, s', step) {
      RequestFrame(s, s', step);
    } else if LoadStep(s, s', step) {
      LoadFrame(s, s', step);
    }
  }

  lemma {:induction false} ValidUntilNextRound(run: seq<State>, j: nat, m: nat)
    requires IsRun(run) && j <= m < |run| && forall k :: j < k <= m ==> !run[k].refresher.Unlocking?
    ensures run[m].valid == run[j].valid
    decreases m
  {
    if j < m {
      ValidUntilNextRound(run, j, m - 1);
      assert Follows(run, m - 1);
      OnlySetValidChangesIt(run[m - 1], run[m]);
    }
  }

  /** From then until another round ends, a request that has entered gets past the validity test exactly if
      the round succeeded, and fails fast exactly if it did not. */
  lemma RequestsPassIff(run: seq<State>, i: nat, j: nat, m: nat, t: Thread, slot: int)
    requires IsRound(run, i, j) && j <= m < |run| && At(run[m], t, Entered)
    requires forall k :: j < k <= m ==> !run[k].refresher.Unlocking?
    ensures CanMatch(run[m], t, slot) <==> Succeeded(run[i], run[j])
    ensures CanFailFast(run[m], t) <==> !Succeeded(run[i], run[j])
  {
    RoundSetsValid(run, i, j);
    ValidUntilNextRound(run, j, m);
    EnteredGoesByValid(run[m], t, slot);
  }
}
