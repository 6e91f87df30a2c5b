/** Refusals of concurrent Sets: whether a call that is refused is told what the whole transaction, run alone, would have
    answered, and the one case in which it is not
    (internal/routepolicy/repository.go:199-264, migrations/postgres/000007_route_policies.up.sql:16-17). */
module PolicyRefusals {
  import opened Basics
  import opened AuditModel
  import opened Text
  import opened RowTrigger
  import opened PolicyStore
  import opened PolicyLocking
  import opened PolicySerial

  /** The CHECK on the version of a policy. */
  ghost predicate Counted(policies: map<string, PolicyRow>) {
    forall id :: id in policies ==> policies[id].audit.version > 0
  }

  /** The transaction would be refused so on these tables. */
  ghost predicate RefusedOn(k: SetCall, st: Store, why: SetError)
    requires Inv(st)
  {
    SetTx(k.env, st, k.input, k.actor) == Err(why)
  }

  /** On these tables the SELECT ... FOR UPDATE finds nothing. */
  ghost predicate FindsNone(k: SetCall, st: Store)
    requires Inv(st)
  {
    Admitted(k, st) && LivePolicy(st.policies, k.input.routeId).None?
  }

  // ---------------------------------------------------------------- one statement

  /** A call that has found no policy meets one now: at its INSERT if it expects none, otherwise at the version it
      expects, which it does not look at again. */
  ghost predicate Overtaken(k: SetCall, st: Store, ph: Phase)
    requires Inv(st)
  {
    && ph.NoPolicy?
    && match LivePolicy(st.policies, k.input.routeId)
       case None => false
       case Some(id) => k.input.expectedVersion in {0, st.policies[id].audit.version}
  }

  lemma RefsRefusedIsSerial(k: SetCall, st: Store, ph: Phase, why: SetError)
    requires Inv(st) && ProcOk(k, st, ph) && Exact(k, st, ph) && Unused(k.env, st) && ph.RefsRead?
    requires Next(k, st, ph) == Refused(why)
    ensures RefusedOn(k, st, why)
  {
    SetRefsIsLocal(k.env, st.refs, ph.id, k.input.permissions, k.actor);
  }

  /** A statement that refuses the call refuses it as the whole transaction, run at that moment, would be refused, if and
      only if the call has not been overtaken. */
  lemma RefusalIsSerialIff(k: SetCall, st: Store, ph: Phase, why: SetError)
    requires Inv(st) && ProcOk(k, st, ph) && Exact(k, st, ph) && Unused(k.env, st) && Counted(st.policies)
    requires !Finished(ph) && Next(k, st, ph) == Refused(why)
    ensures RefusedOn(k, st, why) <==> !Overtaken(k, st, ph)
  {
    if ph.RefsRead? {
      RefsRefusedIsSerial(k, st, ph, why);
    } else if ph.NoPolicy? && LivePolicy(st.policies, k.input.routeId).Some? && k.input.expectedVersion == 0 {
      assert RouteTaken(k.env.dialect, st.policies, k.input.routeId);
    }
  }

  // ---------------------------------------------------------------- every run

  lemma AdvancedStaysCounted(policies: map<string, PolicyRow>, policies': map<string, PolicyRow>, input: SetInput, id: string)
    requires OneLivePolicy(policies) && PolicyAdvanced(policies, policies', input, id) && Counted(policies)
    ensures Counted(policies')
  {
  }

  lemma StaysCounted(st: Store, st': Store, input: SetInput, ok: bool)
    requires Stepped(st, st', input, ok) && Counted(st.policies)
    ensures Counted(st'.policies)
  {
    if ok {
      AdvancedStaysCounted(st.policies, st'.policies, input, LivePolicy(st'.policies, input.routeId).value);
    }
  }

  lemma RunIsCounted(calls: seq<SetCall>, cs: seq<Config>, ms: seq<Move>)
    requires PolicyLocking.IsRun(calls, cs, ms) && Counted(cs[0].st.policies)
    ensures forall i :: 0 <= i < |cs| ==> Counted(cs[i].st.policies)
  {
    RunMoves(calls, cs, ms);
    var good := seq(|cs|, i requires 0 <= i < |cs| => Counted(cs[i].st.policies));
    forall i, j | 0 <= i < j < |good| && j == i + 1 && good[i] ensures good[j] {
      assert Moved(calls, cs[i], cs[i + 1], ms[i]);
      StaysCounted(cs[i].st, cs[i + 1].st, calls[ms[i].p].input, Commits(cs[i], ms[i]));
    }
    HandedOn(good, |cs| - 1);
    forall i | 0 <= i < |cs| ensures Counted(cs[i].st.policies) {
      assert good[i];
    }
  }

  /** How a move changes the phase of a call. */
  ghost predicate PhaseStep(k: SetCall, st: Store, m: Move, p: nat, ph: Phase, ph': Phase)
    requires Inv(st)
  {
    if m.p != p then ph' == ph
    else && !Finished(ph) && ProcOk(k, st, ph) && Exact(k, st, ph) && Unused(k.env, st)
         && ph' == if m.Crash? then Crashed else Next(k, st, ph)
  }

  lemma MakesPhaseStep(calls: seq<SetCall>, c: Config, c': Config, m: Move, p: nat)
    requires Valid(calls, c) && AllExact(calls, c) && Makes(calls, c, c', m) && p < |calls|
    ensures |c'.procs| == |calls| && PhaseStep(calls[p], c.st, m, p, c.procs[p], c'.procs[p])
  {
    assert Exact(calls[p], c.st, c.procs[p]) && ProcOk(calls[p], c.st, c.procs[p]);
  }

  /** A run as one of its calls goes through it. */
  ghost predicate Passes(calls: seq<SetCall>, cs: seq<Config>, ms: seq<Move>, p: nat) {
    && |cs| == |ms| + 1 && p < |calls|
    && (forall i :: 0 <= i < |cs| ==> |cs[i].procs| == |calls| && Inv(cs[i].st) && Counted(cs[i].st.policies))
    && cs[0].procs[p] == Start
    && forall i :: 0 <= i < |ms| ==> PhaseStep(calls[p], cs[i].st, ms[i], p, cs[i].procs[p], cs[i + 1].procs[p])
  }

  lemma RunPasses(calls: seq<SetCall>, cs: seq<Config>, ms: seq<Move>, p: nat)
    requires PolicyLocking.IsRun(calls, cs, ms) && Counted(cs[0].st.policies) && p < |calls|
    ensures Passes(calls, cs, ms, p)
  {
    RunIsExact(calls, cs, ms);
    RunIsCounted(calls, cs, ms);
    forall i | 0 <= i < |ms| ensures PhaseStep(calls[p], cs[i].st, ms[i], p, cs[i].procs[p], cs[i + 1].procs[p]) {
      MakesPhaseStep(calls, cs[i], cs[i + 1], ms[i], p);
    }
  }

  /** This move is the SELECT ... FOR UPDATE of the call, and finds no policy. */
  ghost predicate SelectsNone(calls: seq<SetCall>, cs: seq<Config>, ms: seq<Move>, p: nat, j: nat)
    requires Passes(calls, cs, ms, p)
  {
    j < |ms| && ms[j] == Statement(p) && cs[j].procs[p].RouteSeen? && FindsNone(calls[p], cs[j].st)
  }

  lemma OnlySelectFindsNone(k: SetCall, st: Store, ph: Phase)
    requires Inv(st) && ProcOk(k, st, ph) && Exact(k, st, ph) && !Finished(ph) && Next(k, st, ph).NoPolicy?
    ensures ph.RouteSeen? && FindsNone(k, st)
  {
  }

  /** A call that has found no policy has done so at its SELECT. */
  lemma {:induction false} NoneWasSelected(calls: seq<SetCall>, cs: seq<Config>, ms: seq<Move>, p: nat, i: nat) returns (j: nat)
    requires Passes(calls, cs, ms, p) && i <= |ms| && cs[i].procs[p].NoPolicy?
    ensures j < i && SelectsNone(calls, cs, ms, p, j)
  {
    assert PhaseStep(calls[p], cs[i - 1].st, ms[i - 1], p, cs[i - 1].procs[p], cs[i - 1 + 1].procs[p]);
    if ms[i - 1].p == p {
      OnlySelectFindsNone(calls[p], cs[i - 1].st, cs[i - 1].procs[p]);
      j := i - 1;
    } else {
      j := NoneWasSelected(calls, cs, ms, p, i - 1);
    }
  }

  /** This move refuses the call. */
  ghost predicate RefusedBy(calls: seq<SetCall>, cs: seq<Config>, ms: seq<Move>, p: nat, i: nat, why: SetError)
    requires Passes(calls, cs, ms, p)
  {
    i < |ms| && ms[i] == Statement(p) && cs[i + 1].procs[p] == Refused(why)
  }

  lemma {:induction false} SomeMoveRefuses(calls: seq<SetCall>, cs: seq<Config>, ms: seq<Move>, p: nat, n: nat) returns (i: nat)
    requires Passes(calls, cs, ms, p) && n <= |ms| && cs[n].procs[p].Refused?
    ensures RefusedBy(calls, cs, ms, p, i, cs[n].procs[p].why)
  {
    assert PhaseStep(calls[p], cs[n - 1].st, ms[n - 1], p, cs[n - 1].procs[p], cs[n - 1 + 1].procs[p]);
    if ms[n - 1].p == p { i := n - 1; } else { i := SomeMoveRefuses(calls, cs, ms, p, n - 1); }
  }

  /** The refusal is the answer of the whole transaction on the tables on which the refusing statement ran; or, for a
      call that expects a version where there is no policy, on which the SELECT ran that found none. */
  ghost predicate AnsweredSerially(calls: seq<SetCall>, cs: seq<Config>, ms: seq<Move>, p: nat, i: nat, why: SetError)
    requires Passes(calls, cs, ms, p) && i < |ms|
  {
    || RefusedOn(calls[p], cs[i].st, why)
    || (calls[p].input.expectedVersion != 0
        && exists j :: 0 <= j < i && SelectsNone(calls, cs, ms, p, j) && RefusedOn(calls[p], cs[j].st, why))
  }

  /** The INSERT of a policy meets one that was committed after the SELECT that found none. */
  ghost predicate LateInsert(calls: seq<SetCall>, cs: seq<Config>, ms: seq<Move>, p: nat, i: nat)
    requires Passes(calls, cs, ms, p)
  {
    && i < |ms| && ms[i] == Statement(p) && cs[i].procs[p].NoPolicy? && calls[p].input.expectedVersion == 0
    && LivePolicy(cs[i].st.policies, calls[p].input.routeId).Some?
    && exists j :: 0 <= j < i && SelectsNone(calls, cs, ms, p, j)
  }

  lemma LateInsertFails(k: SetCall, st: Store, ph: Phase)
    requires Inv(st) && ph.NoPolicy? && Exact(k, st, ph) && Counted(st.policies) && k.input.expectedVersion == 0
    requires LivePolicy(st.policies, k.input.routeId).Some?
    ensures Next(k, st, ph) == Refused(DbError) && RefusedOn(k, st, Stale)
  {
    assert RouteTaken(k.env.dialect, st.policies, k.input.routeId);
  }

  lemma NoneIsStale(k: SetCall, st: Store)
    requires Inv(st) && FindsNone(k, st) && k.input.expectedVersion != 0
    ensures RefusedOn(k, st, Stale)
  {
  }

  lemma RefusingMove(calls: seq<SetCall>, cs: seq<Config>, ms: seq<Move>, p: nat, i: nat, why: SetError)
    requires Passes(calls, cs, ms, p) && RefusedBy(calls, cs, ms, p, i, why)
    ensures AnsweredSerially(calls, cs, ms, p, i, why) <==> !LateInsert(calls, cs, ms, p, i)
    ensures LateInsert(calls, cs, ms, p, i) ==> why == DbError && RefusedOn(calls[p], cs[i].st, Stale)
  {
    var k, st, ph := calls[p], cs[i].st, cs[i].procs[p];
    assert PhaseStep(k, st, ms[i], p, ph, cs[i + 1].procs[p]);
    RefusalIsSerialIff(k, st, ph, why);
    if ph.NoPolicy? {
      var j := NoneWasSelected(calls, cs, ms, p, i);
      if k.input.expectedVersion != 0 {
        NoneIsStale(k, cs[j].st);
      } else if LivePolicy(st.policies, k.input.routeId).Some? {
        LateInsertFails(k, st, ph);
      }
    }
  }

  /** Refusals are serializable with one exception. In every interleaving a call that is refused, for whatever reason, is
      answered as the whole transaction is on the tables on which its refusing statement ran (a call that expects a
      version and found no policy: on which its SELECT ran), if and only if that statement is not an INSERT that meets a
      policy committed since the SELECT. Then the call is told of a database error where it is stale. */
  lemma RefusalsAreSerialIff(calls: seq<SetCall>, cs: seq<Config>, ms: seq<Move>, p: nat) returns (i: nat)
    requires PolicyLocking.IsRun(calls, cs, ms) && Counted(cs[0].st.policies) && p < |calls|
    requires p < |cs[|ms|].procs| && cs[|ms|].procs[p].Refused?
    ensures Passes(calls, cs, ms, p) && RefusedBy(calls, cs, ms, p, i, cs[|ms|].procs[p].why)
    ensures AnsweredSerially(calls, cs, ms, p, i, cs[|ms|].procs[p].why) <==> !LateInsert(calls, cs, ms, p, i)
    ensures LateInsert(calls, cs, ms, p, i) ==> cs[|ms|].procs[p].why == DbError && RefusedOn(calls[p], cs[i].st, Stale)
  {
    RunPasses(calls, cs, ms, p);
    i := SomeMoveRefuses(calls, cs, ms, p, |ms|);
    RefusingMove(calls, cs, ms, p, i, cs[|ms|].procs[p].why);
  }

  // ---------------------------------------------------------------- two racing creations

  /** Some run leads to c. */
  ghost predicate Reachable(calls: seq<SetCall>, c: Config) {
    exists cs: seq<Config>, ms: seq<Move> :: PolicyLocking.IsRun(calls, cs, ms) && cs[|ms|] == c
  }

  lemma StartsReachable(calls: seq<SetCall>, c: Config)
    requires PolicyLocking.Initial(calls, c)
    ensures Reachable(calls, c) && Valid(calls, c)
  {
    assert PolicyLocking.IsRun(calls, [c], []);
    RunMoves(calls, [c], []);
  }

  lemma LongerRun(calls: seq<SetCall>, cs: seq<Config>, ms: seq<Move>, c': Config, m: Move)
    requires PolicyLocking.IsRun(calls, cs, ms) && (Valid(calls, cs[|ms|]) ==> Makes(calls, cs[|ms|], c', m))
    ensures PolicyLocking.IsRun(calls, cs + [c'], ms + [m])
  {
    var cs', ms' := cs + [c'], ms + [m];
    forall i | 0 <= i < |ms'| && Valid(calls, cs'[i]) ensures Makes(calls, cs'[i], cs'[i + 1], ms'[i]) {
      if i < |ms| { assert Makes(calls, cs[i], cs[i + 1], ms[i]); }
    }
  }

  lemma StepReachable(calls: seq<SetCall>, c: Config, c': Config, m: Move)
    requires Reachable(calls, c) && Valid(calls, c) && Makes(calls, c, c', m)
    ensures Reachable(calls, c') && Valid(calls, c')
  {
    var cs: seq<Config>, ms: seq<Move> :| PolicyLocking.IsRun(calls, cs, ms) && cs[|ms|] == c;
    LongerRun(calls, cs, ms, c', m);
    assert (cs + [c'])[|ms + [m]|] == c';
    RunMoves(calls, cs + [c'], ms + [m]);
  }

  /** A statement that takes a call from one phase to the next and does not commit. */
  lemma StepTo(calls: seq<SetCall>, c: Config, p: nat, ph: Phase, c': Config)
    requires Reachable(calls, c) && Valid(calls, c) && p < |calls| && !Finished(c.procs[p]) && !Waits(calls[p], c, c.procs[p])
    requires Next(calls[p], c.st, c.procs[p]) == ph && !c.procs[p].RefsWritten?
    requires c' == Config(c.st, c.procs[p := ph],
                          if Holding(ph) then c.holder[calls[p].input.routeId := p]
                          else if Holding(c.procs[p]) then c.holder - {calls[p].input.routeId} else c.holder)
    ensures Reachable(calls, c') && Valid(calls, c')
  {
    StepReachable(calls, c, c', Statement(p));
  }

  lemma CommitIsEnabled(calls: seq<SetCall>, c: Config, p: nat)
    requires Valid(calls, c) && p < |calls| && c.procs[p].RefsWritten?
    ensures Enabled(calls, c, Statement(p))
  {
  }

  lemma AfterCommit(calls: seq<SetCall>, c: Config, p: nat)
    requires Valid(calls, c) && p < |calls| && c.procs[p].RefsWritten? && Enabled(calls, c, Statement(p))
    ensures PolicyLocking.After(calls, c, Statement(p)) ==
            Config(Landed(c.st, c.procs[p]), c.procs[p := Committed], c.holder - {calls[p].input.routeId})
  {
  }

  lemma CommitTo(calls: seq<SetCall>, c: Config, p: nat, c': Config)
    requires Reachable(calls, c) && Valid(calls, c) && p < |calls| && c.procs[p].RefsWritten?
    requires c' == Config(Landed(c.st, c.procs[p]), c.procs[p := Committed], c.holder - {calls[p].input.routeId})
    ensures Reachable(calls, c') && Valid(calls, c')
  {
    CommitIsEnabled(calls, c, p);
    AfterCommit(calls, c, p);
    StepReachable(calls, c, c', Statement(p));
  }

  lemma LooksForPolicy(k: SetCall, st: Store)
    requires Inv(st) && FindsNone(k, st)
    ensures Next(k, st, Start) == RouteSeen && Next(k, st, RouteSeen) == NoPolicy
  {
  }

  lemma BothFindRoute(calls: seq<SetCall>, st: Store)
    requires PolicyLocking.Initial(calls, Config(st, [Start, Start], map[])) && |calls| == 2
    requires FindsNone(calls[0], st) && FindsNone(calls[1], st)
    ensures var c := Config(st, [RouteSeen, RouteSeen], map[]); Reachable(calls, c) && Valid(calls, c)
  {
    LooksForPolicy(calls[0], st);
    LooksForPolicy(calls[1], st);
    StartsReachable(calls, Config(st, [Start, Start], map[]));
    StepTo(calls, Config(st, [Start, Start], map[]), 0, RouteSeen, Config(st, [RouteSeen, Start], map[]));
    StepTo(calls, Config(st, [RouteSeen, Start], map[]), 1, RouteSeen, Config(st, [RouteSeen, RouteSeen], map[]));
  }

  /** Both have looked for the policy. */
  lemma BothFindNone(calls: seq<SetCall>, st: Store)
    requires |calls| == 2 && Inv(st) && FindsNone(calls[0], st) && FindsNone(calls[1], st)
    requires var c := Config(st, [RouteSeen, RouteSeen], map[]); Reachable(calls, c) && Valid(calls, c)
    ensures var c := Config(st, [NoPolicy, NoPolicy], map[]); Reachable(calls, c) && Valid(calls, c)
  {
    LooksForPolicy(calls[0], st);
    LooksForPolicy(calls[1], st);
    StepTo(calls, Config(st, [RouteSeen, RouteSeen], map[]), 0, NoPolicy, Config(st, [NoPolicy, RouteSeen], map[]));
    StepTo(calls, Config(st, [NoPolicy, RouteSeen], map[]), 1, NoPolicy, Config(st, [NoPolicy, NoPolicy], map[]));
  }

  /** The first call in a phase in which it holds the lock, the second as before. */
  function Ahead(calls: seq<SetCall>, st: Store, ph: Phase): Config
    requires |calls| > 0
  {
    Config(st, [ph, NoPolicy], map[calls[0].input.routeId := 0])
  }

  lemma FirstInserts(calls: seq<SetCall>, st: Store, ph: Phase)
    requires |calls| == 2 && Inv(st) && Next(calls[0], st, NoPolicy) == ph && Holding(ph)
    requires var c := Config(st, [NoPolicy, NoPolicy], map[]); Reachable(calls, c) && Valid(calls, c)
    ensures Reachable(calls, Ahead(calls, st, ph)) && Valid(calls, Ahead(calls, st, ph))
  {
    StepTo(calls, Config(st, [NoPolicy, NoPolicy], map[]), 0, ph, Ahead(calls, st, ph));
  }

  lemma FirstGoesOn(calls: seq<SetCall>, st: Store, ph: Phase, ph': Phase)
    requires |calls| == 2 && Reachable(calls, Ahead(calls, st, ph)) && Valid(calls, Ahead(calls, st, ph)) && (ph.PolicyWritten? || ph.RefsRead?)
    requires ProcOk(calls[0], st, ph) && Next(calls[0], st, ph) == ph' && Holding(ph')
    ensures Reachable(calls, Ahead(calls, st, ph')) && Valid(calls, Ahead(calls, st, ph'))
  {
    var c := Ahead(calls, st, ph);
    assert c.holder[calls[0].input.routeId := 0] == c.holder;
    StepTo(calls, c, 0, ph', Ahead(calls, st, ph'));
  }

  lemma CommittedConfig(calls: seq<SetCall>, st: Store, ph: Phase)
    requires |calls| == 2 && ph.RefsWritten?
    ensures var c := Ahead(calls, st, ph);
            Config(Landed(c.st, c.procs[0]), c.procs[0 := Committed], c.holder - {calls[0].input.routeId})
            == Config(Landed(st, ph), [Committed, NoPolicy], map[])
  {
    var c := Ahead(calls, st, ph);
    assert c.procs[0 := Committed] == [Committed, NoPolicy];
    assert c.holder - {calls[0].input.routeId} == map[];
  }

  lemma FirstCommits(calls: seq<SetCall>, st: Store, ph: Phase)
    requires |calls| == 2 && Reachable(calls, Ahead(calls, st, ph)) && Valid(calls, Ahead(calls, st, ph)) && ph.RefsWritten?
    ensures var c := Config(Landed(st, ph), [Committed, NoPolicy], map[]); Reachable(calls, c) && Valid(calls, c)
  {
    CommittedConfig(calls, st, ph);
    CommitTo(calls, Ahead(calls, st, ph), 0, Config(Landed(st, ph), [Committed, NoPolicy], map[]));
  }

  /** What a creation writes, statement by statement. */
  lemma CreationWrites(k: SetCall, st: Store, st': Store) returns (row: PolicyRow, own: map<string, RefRow>)
    requires Inv(st) && FindsNone(k, st) && Unused(k.env, st) && k.input.expectedVersion == 0
    requires SetTx(k.env, st, k.input, k.actor) == Ok(st')
    ensures var id, seen := k.env.policyId, Own(st.refs, k.env.policyId);
            && UniqueKeys(seen) && st' == Landed(st, RefsWritten(id, row, seen, own))
            && Next(k, st, NoPolicy) == PolicyWritten(id, row)
            && Next(k, st, PolicyWritten(id, row)) == RefsRead(id, row, seen)
            && Next(k, st, RefsRead(id, row, seen)) == RefsWritten(id, row, seen, own)
  {
    row := InsertPolicy(k.env, st.policies, k.input, k.actor).value[k.env.policyId];
    SetRefsIsLocal(k.env, st.refs, k.env.policyId, k.input.permissions, k.actor);
    own := SetRefs(k.env, Own(st.refs, k.env.policyId), k.env.policyId, k.input.permissions, k.actor).value;
  }

  lemma FirstRunsAhead(calls: seq<SetCall>, st: Store, id: string, row: PolicyRow, seen: map<string, RefRow>, own: map<string, RefRow>)
    requires |calls| == 2 && Inv(st) && UniqueKeys(seen)
    requires Next(calls[0], st, NoPolicy) == PolicyWritten(id, row)
    requires Next(calls[0], st, PolicyWritten(id, row)) == RefsRead(id, row, seen)
    requires Next(calls[0], st, RefsRead(id, row, seen)) == RefsWritten(id, row, seen, own)
    requires var c := Config(st, [NoPolicy, NoPolicy], map[]); Reachable(calls, c) && Valid(calls, c)
    ensures var c := Config(Landed(st, RefsWritten(id, row, seen, own)), [Committed, NoPolicy], map[]); Reachable(calls, c) && Valid(calls, c)
  {
    FirstInserts(calls, st, PolicyWritten(id, row));
    FirstGoesOn(calls, st, PolicyWritten(id, row), RefsRead(id, row, seen));
    FirstGoesOn(calls, st, RefsRead(id, row, seen), RefsWritten(id, row, seen, own));
    FirstCommits(calls, st, RefsWritten(id, row, seen, own));
  }

  /** Both calls would create the policy of one route, and the first can. */
  ghost predicate Race(calls: seq<SetCall>, st: Store, st': Store)
    requires Inv(st)
  {
    && |calls| == 2 && calls[0].input.routeId == calls[1].input.routeId
    && calls[0].input.expectedVersion == calls[1].input.expectedVersion == 0
    && FindsNone(calls[0], st) && FindsNone(calls[1], st)
    && SetTx(calls[0].env, st, calls[0].input, calls[0].actor) == Ok(st')
  }

  lemma FirstLands(calls: seq<SetCall>, st: Store, st': Store)
    requires PolicyLocking.Initial(calls, Config(st, [Start, Start], map[])) && Race(calls, st, st')
    ensures var c := Config(st', [Committed, NoPolicy], map[]); Reachable(calls, c) && Valid(calls, c)
  {
    BothFindRoute(calls, st);
    BothFindNone(calls, st);
    var row, own := CreationWrites(calls[0], st, st');
    FirstRunsAhead(calls, st, calls[0].env.policyId, row, Own(st.refs, calls[0].env.policyId), own);
  }

  lemma SecondFails(calls: seq<SetCall>, st: Store, st': Store)
    requires Inv(st) && Counted(st.policies) && Race(calls, st, st')
    ensures Inv(st') && Next(calls[1], st', NoPolicy) == Refused(DbError) && RefusedOn(calls[1], st', Stale)
  {
    SetEffect(calls[0].env, st, calls[0].input, calls[0].actor);
    StaysCounted(st, st', calls[0].input, true);
    LateInsertFails(calls[1], st', NoPolicy);
  }

  lemma SecondIsTold(calls: seq<SetCall>, c: Config)
    requires |calls| == 2 && Valid(calls, c) && c.procs == [Committed, NoPolicy] && c.holder == map[]
    requires Next(calls[1], c.st, NoPolicy) == Refused(DbError)
    ensures Enabled(calls, c, Statement(1)) && PolicyLocking.After(calls, c, Statement(1)).procs == [Committed, Refused(DbError)]
  {
  }

  /** The witness: of any two creations of the policy of one route, of which the first is accepted when it runs alone,
      there is a run in which both find no policy, the first commits and the INSERT of the second is answered with a
      database error, where the transaction run then would be stale. */
  lemma RaceLoserIsNotTold(calls: seq<SetCall>, st: Store, st': Store) returns (c: Config)
    requires PolicyLocking.Initial(calls, Config(st, [Start, Start], map[])) && Counted(st.policies) && Race(calls, st, st')
    ensures Reachable(calls, c) && Valid(calls, c) && c == Config(st', [Committed, NoPolicy], map[])
    ensures Enabled(calls, c, Statement(1)) && PolicyLocking.After(calls, c, Statement(1)).procs == [Committed, Refused(DbError)]
    ensures RefusedOn(calls[1], st', Stale)
  {
    FirstLands(calls, st, st');
    c := Config(st', [Committed, NoPolicy], map[]);
    SecondFails(calls, st, st');
    SecondIsTold(calls, c);
  }
}
