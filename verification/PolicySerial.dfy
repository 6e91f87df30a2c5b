/** Concurrent Sets are serializable: whatever the interleaving, the committed tables are those of the committed
    calls run one after the other, each as one `PolicyStore.SetTx`
    (internal/routepolicy/repository.go:199-264). */
module PolicySerial {
  import opened Basics
  import opened AuditModel
  import opened Text
  import opened RowTrigger
  import opened PolicyStore
  import opened PolicyLocking

  // ---------------------------------------------------------------- the permission part looks at its own rows only

  /** `mid` is the table with the policy's rows replaced by `own`. */
  ghost predicate Overlay(e: Env, refs: map<string, RefRow>, own: map<string, RefRow>, mid: map<string, RefRow>, id: string) {
    mid == refs + own && Replaces(refs, own, id) && forall i: nat :: e.refId(i) !in refs
  }

  lemma KeyTakenIsLocal(e: Env, refs: map<string, RefRow>, own: map<string, RefRow>, mid: map<string, RefRow>, id: string, x: string, key: string)
    requires Overlay(e, refs, own, mid, id)
    ensures KeyTaken(e.dialect, mid, x, id, key) <==> KeyTaken(e.dialect, own, x, id, key)
  {
    assert forall y :: y in mid && mid[y].policyId == id ==> y in own && own[y] == mid[y];
    assert forall y :: y in own ==> y in mid && mid[y] == own[y];
  }

  lemma PutIsLocal(e: Env, refs: map<string, RefRow>, own: map<string, RefRow>, mid: map<string, RefRow>, id: string, x: string, row: RefRow)
    requires Overlay(e, refs, own, mid, id) && row.policyId == id && (x in own || x !in refs)
    ensures Overlay(e, refs, own[x := row], mid[x := row], id)
  {
  }

  lemma ApplyOneIsLocal(e: Env, refs: map<string, RefRow>, own: map<string, RefRow>, mid: map<string, RefRow>, id: string,
                        byKey: map<string, string>, p: Permission, i: nat, actor: string)
    requires Overlay(e, refs, own, mid, id) && (p.key in byKey ==> byKey[p.key] in own)
    ensures var a, b := ApplyOne(e, own, id, byKey, p, i, actor), ApplyOne(e, mid, id, byKey, p, i, actor);
            (a.Ok? <==> b.Ok?) && (a.Ok? ==> Overlay(e, refs, a.value, b.value, id))
  {
    var x := if p.key in byKey then byKey[p.key] else e.refId(i);
    KeyTakenIsLocal(e, refs, own, mid, id, x, if x in own && p.key in byKey then own[x].key else p.key);
    var a := ApplyOne(e, own, id, byKey, p, i, actor);
    if a.Ok? {
      PutIsLocal(e, refs, own, mid, id, x, a.value[x]);
    }
  }

  lemma {:induction false} ApplyAllIsLocal(e: Env, refs: map<string, RefRow>, id: string, byKey: map<string, string>, ps: seq<Permission>, actor: string)
    requires (forall k :: k in byKey ==> byKey[k] in Own(refs, id)) && forall i: nat :: e.refId(i) !in refs
    ensures var a, b := ApplyAll(e, Own(refs, id), id, byKey, ps, actor), ApplyAll(e, refs, id, byKey, ps, actor);
            (a.Ok? <==> b.Ok?) && (a.Ok? ==> Overlay(e, refs, a.value, b.value, id))
  {
    if ps == [] {
      assert refs == refs + Own(refs, id);
    } else {
      var n := |ps| - 1;
      ApplyAllIsLocal(e, refs, id, byKey, ps[..n], actor);
      var a, b := ApplyAll(e, Own(refs, id), id, byKey, ps[..n], actor), ApplyAll(e, refs, id, byKey, ps[..n], actor);
      if a.Ok? {
        ApplyOneIsLocal(e, refs, a.value, b.value, id, byKey, ps[n], n, actor);
      }
    }
  }

  lemma RetireIsLocal(e: Env, refs: map<string, RefRow>, own: map<string, RefRow>, mid: map<string, RefRow>, id: string, wanted: set<string>, actor: string)
    requires Overlay(e, refs, own, mid, id)
    ensures RetireRest(e, mid, refs.Keys, id, wanted, actor) == refs + RetireRest(e, own, Own(refs, id).Keys, id, wanted, actor)
  {
    var a, b := RetireRest(e, mid, refs.Keys, id, wanted, actor), refs + RetireRest(e, own, Own(refs, id).Keys, id, wanted, actor);
    assert a.Keys == b.Keys;
    forall x | x in mid ensures a[x] == b[x] {
      if x in own { assert mid[x] == own[x] && (x in refs <==> x in Own(refs, id)); }
    }
  }

  lemma RowOfKeyIsLocal(refs: map<string, RefRow>, id: string)
    requires UniqueKeys(refs)
    ensures UniqueKeys(Own(refs, id)) && RowOfKey(Own(refs, id), id) == RowOfKey(refs, id)
  {
    var own := Own(refs, id);
    forall k | k in RowOfKey(refs, id) ensures k in RowOfKey(own, id) && RowOfKey(own, id)[k] == RowOfKey(refs, id)[k] {
      assert RowOfKey(refs, id)[k] in own;
    }
    forall k | k in RowOfKey(own, id) ensures k in RowOfKey(refs, id) {
      assert RowOfKey(own, id)[k] in refs;
    }
  }

  /** Run on the policy's own rows alone, the permission part does to them what it does in the whole table. */
  lemma SetRefsIsLocal(e: Env, refs: map<string, RefRow>, id: string, ps: seq<Permission>, actor: string)
    requires UniqueKeys(refs) && forall i: nat :: e.refId(i) !in refs
    ensures UniqueKeys(Own(refs, id))
    ensures SetRefs(e, refs, id, ps, actor) ==
              match SetRefs(e, Own(refs, id), id, ps, actor) case Err(err) => Err(err) case Ok(own) => Ok(refs + own)
  {
    RowOfKeyIsLocal(refs, id);
    var byKey := RowOfKey(refs, id);
    ApplyAllIsLocal(e, refs, id, byKey, ps, actor);
    var a, b := ApplyAll(e, Own(refs, id), id, byKey, ps, actor), ApplyAll(e, refs, id, byKey, ps, actor);
    if a.Ok? {
      RetireIsLocal(e, refs, a.value, b.value, id, Keys(ps), actor);
    }
  }

  // ---------------------------------------------------------------- what a call has written is what it would write now

  /** The transaction has passed its first checks. */
  predicate Admitted(k: SetCall, st: Store) {
    !AllSpace(k.actor) && k.input.routeId in st.routes && Live(st.routes[k.input.routeId].audit)
  }

  ghost predicate Wrote(k: SetCall, policies: map<string, PolicyRow>, id: string, row: PolicyRow)
    requires OneLivePolicy(policies)
  {
    SetPolicy(k.env, policies, k.input, k.actor) == Ok((policies[id := row], id))
  }

  ghost predicate Exact(k: SetCall, st: Store, ph: Phase)
    requires OneLivePolicy(st.policies)
  {
    match ph
    case RouteSeen => Admitted(k, st)
    case NoPolicy => Admitted(k, st)
    case Held(_, _) => Admitted(k, st)
    case PolicyWritten(id, row) => Admitted(k, st) && Wrote(k, st.policies, id, row)
    case RefsRead(id, row, seen) => Admitted(k, st) && Wrote(k, st.policies, id, row)
    case RefsWritten(id, row, seen, own) =>
      && Admitted(k, st) && Wrote(k, st.policies, id, row)
      && UniqueKeys(seen) && SetRefs(k.env, seen, id, k.input.permissions, k.actor) == Ok(own)
    case _ => true
  }

  lemma NextIsExact(k: SetCall, st: Store, ph: Phase)
    requires Inv(st) && ProcOk(k, st, ph) && Exact(k, st, ph)
    ensures Exact(k, st, Next(k, st, ph))
  {
  }

  lemma RouteTakenKept(d: Dialect, policies: map<string, PolicyRow>, policies': map<string, PolicyRow>, input: SetInput, id: string, routeId: string)
    requires OneLivePolicy(policies) && PolicyAdvanced(policies, policies', input, id) && routeId != input.routeId
    ensures RouteTaken(d, policies', routeId) <==> RouteTaken(d, policies, routeId)
  {
    assert policies'[id].routeId == input.routeId && (id in policies ==> policies[id].routeId == input.routeId);
    assert forall x :: x in policies && x != id ==> policies'[x] == policies[x];
  }

  /** A commit on another route does not change what the call's policy part would write. */
  lemma WroteKept(k: SetCall, policies: map<string, PolicyRow>, policies': map<string, PolicyRow>, input: SetInput, id: string, mine: string, row: PolicyRow)
    requires OneLivePolicy(policies) && PolicyAdvanced(policies, policies', input, id) && k.input.routeId != input.routeId
    requires Wrote(k, policies, mine, row) && mine != id && k.env.policyId != id
    ensures Wrote(k, policies', mine, row)
  {
    OtherPolicyKept(policies, policies', input, id, k.input.routeId);
    RouteTakenKept(k.env.dialect, policies, policies', input, id, k.input.routeId);
    assert policies[mine := row][mine] == row;
  }

  lemma OthersStayExact(k: SetCall, st: Store, st': Store, input: SetInput, id: string, ph: Phase)
    requires Inv(st) && Inv(st') && st'.routes == st.routes && ProcOk(k, st, ph) && Exact(k, st, ph)
    requires PolicyAdvanced(st.policies, st'.policies, input, id) && k.env.policyId != id
    requires Holding(ph) ==> k.input.routeId != input.routeId
    ensures Exact(k, st', ph)
  {
    if ph.PolicyWritten? || ph.RefsRead? || ph.RefsWritten? {
      ReadyKept(k, st.policies, st'.policies, input, id, ph.id, ph.row);
      WroteKept(k, st.policies, st'.policies, input, id, ph.id, ph.row);
    }
  }

  /** At its commit a call leaves exactly the tables that the whole transaction, run now on what others have
      committed meanwhile, would leave. */
  lemma CommitIsSetTx(k: SetCall, st: Store, ph: Phase)
    requires Inv(st) && ph.RefsWritten? && ProcOk(k, st, ph) && Exact(k, st, ph) && Unused(k.env, st)
    ensures SetTx(k.env, st, k.input, k.actor) == Ok(Landed(st, ph))
  {
    SetRefsIsLocal(k.env, st.refs, ph.id, k.input.permissions, k.actor);
  }

  // ---------------------------------------------------------------- every run

  ghost predicate AllExact(calls: seq<SetCall>, c: Config)
    requires |c.procs| == |calls| && OneLivePolicy(c.st.policies)
  {
    forall p :: 0 <= p < |calls| ==> Exact(calls[p], c.st, c.procs[p])
  }

  lemma CommitKeepsExact(calls: seq<SetCall>, c: Config, q: nat, p: nat)
    requires Inv(c.st) && Distinct(calls) && |c.procs| == |calls| && p < |calls| && q < |calls| && p != q
    requires c.procs[q].RefsWritten? && ProcOk(calls[q], c.st, c.procs[q]) && Unused(calls[q].env, c.st)
    requires ProcOk(calls[p], c.st, c.procs[p]) && Exact(calls[p], c.st, c.procs[p]) && Unused(calls[p].env, c.st)
    requires Holding(c.procs[p]) ==> calls[p].input.routeId != calls[q].input.routeId
    ensures OneLivePolicy(Landed(c.st, c.procs[q]).policies) && Exact(calls[p], Landed(c.st, c.procs[q]), c.procs[p])
  {
    CommitAdvances(calls[q], c.st, c.procs[q]);
    CommitIdIs(calls[q], c.st, c.procs[q]);
    OtherIdsDiffer(calls, p, q, 0, 0);
    OthersStayExact(calls[p], c.st, Landed(c.st, c.procs[q]), calls[q].input, c.procs[q].id, c.procs[p]);
  }

  lemma StepKeepsExact(calls: seq<SetCall>, c: Config, m: Move)
    requires Valid(calls, c) && Distinct(calls) && Enabled(calls, c, m) && AllExact(calls, c)
    ensures Valid(calls, PolicyLocking.After(calls, c, m)) && AllExact(calls, PolicyLocking.After(calls, c, m))
  {
    var c' := PolicyLocking.After(calls, c, m);
    PolicyLocking.StepEffect(calls, c, m);
    forall p | 0 <= p < |calls| ensures Exact(calls[p], c'.st, c'.procs[p]) {
      assert Exact(calls[p], c.st, c.procs[p]) && Exact(calls[m.p], c.st, c.procs[m.p]);
      if p == m.p {
        if m.Statement? && !Commits(c, m) { NextIsExact(calls[p], c.st, c.procs[p]); }
      } else if Commits(c, m) && !c.procs[p].Committed? {
        CommitKeepsExact(calls, c, m.p, p);
      }
    }
  }

  /** A move, told by the store: a commit is one SetTx on the committed tables, anything else leaves them alone. */
  ghost predicate Serially(calls: seq<SetCall>, c: Config, c': Config, m: Move)
    requires Inv(c.st)
  {
    && m.p < |calls|
    && if Commits(c, m) then SetTx(calls[m.p].env, c.st, calls[m.p].input, calls[m.p].actor) == Ok(c'.st) else c'.st == c.st
  }

  lemma StepIsSerial(calls: seq<SetCall>, c: Config, m: Move)
    requires Valid(calls, c) && Distinct(calls) && Enabled(calls, c, m) && AllExact(calls, c)
    ensures Serially(calls, c, PolicyLocking.After(calls, c, m), m)
  {
    if Commits(c, m) {
      assert Exact(calls[m.p], c.st, c.procs[m.p]) && ProcOk(calls[m.p], c.st, c.procs[m.p]);
      CommitIsSetTx(calls[m.p], c.st, c.procs[m.p]);
    }
  }

  /** One call after the other, each as one transaction; a call that is refused leaves the tables as they are. */
  ghost function Serial(st: Store, ks: seq<SetCall>): (r: Store)
    requires Inv(st)
    ensures Inv(r)
  {
    if ks == [] then st
    else
      var mid, k := Serial(st, ks[..|ks| - 1]), ks[|ks| - 1];
      if SetTx(k.env, mid, k.input, k.actor).Ok? then
        SetEffect(k.env, mid, k.input, k.actor);
        SetTx(k.env, mid, k.input, k.actor).value
      else mid
  }

  /** None of the calls is refused when they run one after the other. */
  ghost predicate AllAccepted(st: Store, ks: seq<SetCall>)
    requires Inv(st)
  {
    ks != [] ==>
      var mid, k := Serial(st, ks[..|ks| - 1]), ks[|ks| - 1];
      AllAccepted(st, ks[..|ks| - 1]) && SetTx(k.env, mid, k.input, k.actor).Ok?
  }

  /** The calls that committed in the first n moves, in the order of their commits. */
  ghost function Committers(calls: seq<SetCall>, cs: seq<Config>, ms: seq<Move>, n: nat): seq<SetCall>
    requires n <= |ms| < |cs|
  {
    if n == 0 then []
    else Committers(calls, cs, ms, n - 1) + (if Commits(cs[n - 1], ms[n - 1]) && ms[n - 1].p < |calls| then [calls[ms[n - 1].p]] else [])
  }

  lemma SerialNext(st: Store, ks: seq<SetCall>, k: SetCall, st': Store)
    requires Inv(st) && AllAccepted(st, ks) && SetTx(k.env, Serial(st, ks), k.input, k.actor) == Ok(st')
    ensures AllAccepted(st, ks + [k]) && Serial(st, ks + [k]) == st'
  {
    assert (ks + [k])[..|ks|] == ks;
  }

  lemma MovesAreSerial(calls: seq<SetCall>, c: Config, c': Config, m: Move)
    requires Valid(calls, c) && Distinct(calls) && AllExact(calls, c) && Makes(calls, c, c', m)
    ensures Valid(calls, c') && AllExact(calls, c') && Serially(calls, c, c', m)
  {
    StepKeepsExact(calls, c, m);
    StepIsSerial(calls, c, m);
  }

  lemma RunIsExact(calls: seq<SetCall>, cs: seq<Config>, ms: seq<Move>)
    requires PolicyLocking.IsRun(calls, cs, ms)
    ensures forall i :: 0 <= i < |cs| ==> Valid(calls, cs[i]) && AllExact(calls, cs[i])
  {
    RunMoves(calls, cs, ms);
    var good := seq(|cs|, i requires 0 <= i < |cs| => AllExact(calls, cs[i]));
    forall i, j | 0 <= i < j < |good| && j == i + 1 && good[i] ensures good[j] {
      MovesAreSerial(calls, cs[i], cs[i + 1], ms[i]);
    }
    HandedOn(good, |cs| - 1);
    forall i | 0 <= i < |cs| ensures AllExact(calls, cs[i]) {
      assert good[i];
    }
  }

  lemma RunIsSerially(calls: seq<SetCall>, cs: seq<Config>, ms: seq<Move>)
    requires PolicyLocking.IsRun(calls, cs, ms)
    ensures forall i :: 0 <= i < |cs| ==> Inv(cs[i].st)
    ensures forall i :: 0 <= i < |ms| ==> Serially(calls, cs[i], cs[i + 1], ms[i])
  {
    RunIsExact(calls, cs, ms);
    forall i | 0 <= i < |ms| ensures Serially(calls, cs[i], cs[i + 1], ms[i]) {
      MovesAreSerial(calls, cs[i], cs[i + 1], ms[i]);
    }
  }

  lemma {:induction false} SerialUpTo(calls: seq<SetCall>, cs: seq<Config>, ms: seq<Move>, n: nat)
    requires |cs| == |ms| + 1 && n <= |ms| && forall i :: 0 <= i < |cs| ==> Inv(cs[i].st)
    requires forall i :: 0 <= i < |ms| ==> Serially(calls, cs[i], cs[i + 1], ms[i])
    ensures AllAccepted(cs[0].st, Committers(calls, cs, ms, n)) && cs[n].st == Serial(cs[0].st, Committers(calls, cs, ms, n))
  {
    if n > 0 {
      SerialUpTo(calls, cs, ms, n - 1);
      assert Serially(calls, cs[n - 1], cs[n - 1 + 1], ms[n - 1]);
      var ks := Committers(calls, cs, ms, n - 1);
      if Commits(cs[n - 1], ms[n - 1]) {
        SerialNext(cs[0].st, ks, calls[ms[n - 1].p], cs[n].st);
      } else {
        assert ks + [] == ks;
      }
    }
  }

  /** Serializability: after any interleaving of any number of calls, with refusals and crashes at any point, the
      tables are those of the committed calls run one after the other in the order of their commits, and run so
      none of them is refused. */
  lemma Serializable(calls: seq<SetCall>, cs: seq<Config>, ms: seq<Move>)
    requires PolicyLocking.IsRun(calls, cs, ms)
    ensures Inv(cs[0].st) && AllAccepted(cs[0].st, Committers(calls, cs, ms, |ms|))
    ensures cs[|ms|].st == Serial(cs[0].st, Committers(calls, cs, ms, |ms|))
  {
    RunIsSerially(calls, cs, ms);
    SerialUpTo(calls, cs, ms, |ms|);
  }
}
