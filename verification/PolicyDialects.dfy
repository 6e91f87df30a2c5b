/** The route policy tables on Postgres and on MySQL: under the statements that Set and SyncRoutes issue the two
    stay in step (migrations/postgres/000007_route_policies.up.sql:4-9,
    migrations/mysql/000007_route_policies.up.sql:4-12, internal/routepolicy/repository.go:122-147 and 199-264). */
module PolicyDialects {
  import opened Basics
  import opened AuditModel
  import opened Text
  import opened RowTrigger
  import opened PolicyStore
  import opened RouteSync
  import opened PolicyActors

  predicate SameRef(a: RefRow, b: RefRow) {
    a.policyId == b.policyId && a.key == b.key && a.perm == b.perm && SameAudit(a.audit, b.audit)
  }

  predicate SamePolicy(a: PolicyRow, b: PolicyRow) {
    a.routeId == b.routeId && a.expression == b.expression && a.description == b.description && a.status == b.status
    && SameAudit(a.audit, b.audit)
  }

  predicate SameRoute(a: PolicyStore.RouteRow, b: PolicyStore.RouteRow) {
    FaceOf(a) == FaceOf(b) && SameAudit(a.audit, b.audit)
  }

  ghost predicate SameRefs(a: map<string, RefRow>, b: map<string, RefRow>) {
    a.Keys == b.Keys && forall id :: id in a ==> SameRef(a[id], b[id])
  }

  ghost predicate SamePolicies(a: map<string, PolicyRow>, b: map<string, PolicyRow>) {
    a.Keys == b.Keys && forall id :: id in a ==> SamePolicy(a[id], b[id])
  }

  ghost predicate SameRoutes(a: map<string, PolicyStore.RouteRow>, b: map<string, PolicyStore.RouteRow>) {
    a.Keys == b.Keys && forall id :: id in a ==> SameRoute(a[id], b[id])
  }

  /** Row for row equal but for timestamps: contents, versions, creators, last writers, deleters, live or deleted. */
  ghost predicate SameStore(a: Store, b: Store) {
    SameRoutes(a.routes, b.routes) && SamePolicies(a.policies, b.policies) && SameRefs(a.refs, b.refs)
  }

  /** So two rows of the same id differ in nothing but times: with the audit columns put aside they are equal, the
      discovery time of a route aside; and the audit columns agree in version, in creator, last writer and deleter, and
      in whether there is a time of deletion. */
  lemma SameStoreMeans(a: Store, b: Store, id: string, x: Audit, t: Time)
    requires SameStore(a, b)
    ensures a.policies.Keys == b.policies.Keys && a.refs.Keys == b.refs.Keys && a.routes.Keys == b.routes.Keys
    ensures id in a.policies ==>
              a.policies[id].(audit := x) == b.policies[id].(audit := x) && SameButWhen(a.policies[id].audit, b.policies[id].audit)
    ensures id in a.refs ==> a.refs[id].(audit := x) == b.refs[id].(audit := x) && SameButWhen(a.refs[id].audit, b.refs[id].audit)
    ensures id in a.routes ==>
              && a.routes[id].(audit := x, lastDiscoveredAt := t) == b.routes[id].(audit := x, lastDiscoveredAt := t)
              && SameButWhen(a.routes[id].audit, b.routes[id].audit)
  {
    assert id in a.policies ==> SamePolicy(a.policies[id], b.policies[id]);
    assert id in a.refs ==> SameRef(a.refs[id], b.refs[id]);
    assert id in a.routes ==> SameRoute(a.routes[id], b.routes[id]);
  }

  predicate SameButWhen(a: Audit, b: Audit) {
    a.(createdAt := 0, updatedAt := 0, deletedAt := None) == b.(createdAt := 0, updatedAt := 0, deletedAt := None)
    && (a.deletedAt.Some? <==> b.deletedAt.Some?)
  }

  /** Neither Set nor SyncRoutes deletes a policy or a route. */
  ghost predicate PoliciesLive(policies: map<string, PolicyRow>) {
    forall id :: id in policies ==> Live(policies[id].audit)
  }

  ghost predicate RoutesLive(routes: map<string, PolicyStore.RouteRow>) {
    forall id :: id in routes ==> Live(routes[id].audit) && WellDeleted(routes[id].audit)
  }

  /** The same ids on both sides; the clocks are each database's own. */
  ghost predicate Twins(pg: Env, my: Env) {
    pg.dialect.Postgres? && my.dialect.MySql? && pg.policyId == my.policyId && forall i: nat :: pg.refId(i) == my.refId(i)
  }

  // ---------------------------------------------------------------- Set

  lemma LivePolicyAgrees(pg: map<string, PolicyRow>, my: map<string, PolicyRow>, routeId: string)
    requires SamePolicies(pg, my) && OneLivePolicy(pg) && OneLivePolicy(my)
    ensures LivePolicy(pg, routeId) == LivePolicy(my, routeId)
  {
    var p := LivePolicy(pg, routeId);
    if p.Some? {
      assert SamePolicy(pg[p.value], my[p.value]);
      LivePolicyIs(my, p.value);
    }
  }

  lemma InsertPolicyAgrees(e: Env, e': Env, pg: map<string, PolicyRow>, my: map<string, PolicyRow>, input: SetInput, actor: string)
    requires Twins(e, e') && SamePolicies(pg, my) && PoliciesLive(pg) && Plain(actor)
    requires input.status == "active" || input.status == "disabled"
    ensures var p, m := InsertPolicy(e, pg, input, actor), InsertPolicy(e', my, input, actor);
            && (p.Ok? <==> m.Ok?) && (p.Ok? ==> SamePolicies(p.value, m.value) && PoliciesLive(p.value))
  {
    InsertsAgreeIff(actor, e.ts, e'.ts);
    assert RouteTaken(Postgres, pg, input.routeId) <==> RouteTaken(MySql, my, input.routeId) by {
      if other :| other in pg && pg[other].routeId == input.routeId { assert SamePolicy(pg[other], my[other]); }
      if other :| other in my && my[other].routeId == input.routeId { assert SamePolicy(pg[other], my[other]); }
    }
  }

  lemma UpdatePolicyAgrees(e: Env, e': Env, pg: map<string, PolicyRow>, my: map<string, PolicyRow>, id: string, input: SetInput, actor: string)
    requires Twins(e, e') && SamePolicies(pg, my) && PoliciesLive(pg) && Plain(actor) && id in pg
    requires WellDeleted(pg[id].audit) && WellDeleted(my[id].audit)
    requires input.status == "active" || input.status == "disabled"
    ensures var p, m := UpdatePolicy(e, pg, id, input, actor), UpdatePolicy(e', my, id, input, actor);
            && (p.Ok? <==> m.Ok?) && (p.Ok? ==> SamePolicies(p.value, m.value) && PoliciesLive(p.value))
  {
    assert SamePolicy(pg[id], my[id]);
    UpdatesAgreeIff(pg[id].audit, my[id].audit, Keep, Keep, actor, e.ts, e'.ts);
  }

  lemma SetPolicyAgrees(e: Env, e': Env, pg: map<string, PolicyRow>, my: map<string, PolicyRow>, input: SetInput, actor: string)
    requires Twins(e, e') && SamePolicies(pg, my) && PoliciesOk(pg) && PoliciesOk(my) && PoliciesLive(pg) && Plain(actor)
    requires input.status == "active" || input.status == "disabled"
    ensures var p, m := SetPolicy(e, pg, input, actor), SetPolicy(e', my, input, actor);
            && (p.Err? ==> m == Err(p.error)) && (m.Err? ==> p.Err?)
            && (p.Ok? ==> SamePolicies(p.value.0, m.value.0) && PoliciesLive(p.value.0) && p.value.1 == m.value.1)
  {
    LivePolicyAgrees(pg, my, input.routeId);
    match LivePolicy(pg, input.routeId) {
      case None => InsertPolicyAgrees(e, e', pg, my, input, actor);
      case Some(id) =>
        assert SamePolicy(pg[id], my[id]);
        UpdatePolicyAgrees(e, e', pg, my, id, input, actor);
    }
  }

  lemma RowOfKeyAgrees(pg: map<string, RefRow>, my: map<string, RefRow>, policyId: string)
    requires SameRefs(pg, my) && UniqueKeys(pg) && UniqueKeys(my)
    ensures RowOfKey(pg, policyId) == RowOfKey(my, policyId)
  {
    var p, m := RowOfKey(pg, policyId), RowOfKey(my, policyId);
    forall k | k in p ensures k in m && m[k] == p[k] { assert SameRef(pg[p[k]], my[p[k]]); }
    forall k | k in m ensures k in p { assert SameRef(pg[m[k]], my[m[k]]); }
  }

  /** A row that stands in the way of an insert was inserted by the same call, so it is live, and both indexes see it. */
  lemma KeyTakenAgrees(refs: map<string, RefRow>, mid: map<string, RefRow>, my: map<string, RefRow>, policyId: string, wanted: map<string, Perm>, id: string, key: string)
    requires !HasRow(refs, policyId, key) && PolicyStore.Granted(mid, policyId, wanted) && Others(refs, mid, policyId, wanted) && SameRefs(mid, my)
    ensures KeyTaken(Postgres, mid, id, policyId, key) <==> KeyTaken(MySql, my, id, policyId, key)
  {
    if other :| other in mid && other != id && mid[other].policyId == policyId && mid[other].key == key {
      assert SameRef(mid[other], my[other]);
    }
    if other :| other in my && other != id && my[other].policyId == policyId && my[other].key == key {
      assert SameRef(mid[other], my[other]);
      assert other in refs ==> !(refs[other].policyId == policyId && refs[other].key == key);
    }
  }

  lemma InsertRefAgrees(e: Env, e': Env, pg: map<string, RefRow>, my: map<string, RefRow>, id: string, policyId: string, p: Permission, actor: string)
    requires e.dialect.Postgres? && e'.dialect.MySql? && SameRefs(pg, my) && Plain(actor) && p.perm.scope in SCOPES
    requires KeyTaken(Postgres, pg, id, policyId, p.key) <==> KeyTaken(MySql, my, id, policyId, p.key)
    ensures var a, b := InsertRef(e, pg, id, policyId, p, actor), InsertRef(e', my, id, policyId, p, actor);
            (a.Ok? <==> b.Ok?) && (a.Ok? ==> SameRefs(a.value, b.value))
  {
    InsertsAgreeIff(actor, e.ts, e'.ts);
  }

  lemma ReviseRefAgrees(e: Env, e': Env, pg: map<string, RefRow>, my: map<string, RefRow>, id: string, p: Perm, actor: string)
    requires e.dialect.Postgres? && e'.dialect.MySql? && SameRefs(pg, my) && Plain(actor) && p.scope in SCOPES
    requires UniqueKeys(pg) && UniqueKeys(my) && id in pg && WellDeleted(pg[id].audit) && WellDeleted(my[id].audit)
    ensures var a, b := ReviseRef(e, pg, id, p, actor), ReviseRef(e', my, id, p, actor);
            (a.Ok? <==> b.Ok?) && (a.Ok? ==> SameRefs(a.value, b.value))
  {
    assert SameRef(pg[id], my[id]);
    UpdatesAgreeIff(pg[id].audit, my[id].audit, Revive, Revive, actor, e.ts, e'.ts);
  }

  ghost predicate AllCanonical(ps: seq<Permission>) {
    forall i :: 0 <= i < |ps| ==> ps[i].perm.scope in SCOPES
  }

  lemma ApplyOneAgrees(e: Env, e': Env, refs: map<string, RefRow>, pg: map<string, RefRow>, my: map<string, RefRow>, policyId: string,
                       wanted: map<string, Perm>, byKey: map<string, string>, p: Permission, i: nat, actor: string)
    requires Twins(e, e') && Plain(actor) && p.perm.scope in SCOPES && UniqueKeys(refs) && byKey == RowOfKey(refs, policyId)
    requires Applied(refs, pg, policyId, wanted) && SameRefs(pg, my) && RefsOk(my)
    ensures var a, b := ApplyOne(e, pg, policyId, byKey, p, i, actor), ApplyOne(e', my, policyId, byKey, p, i, actor);
            (a.Ok? <==> b.Ok?) && (a.Ok? ==> SameRefs(a.value, b.value))
  {
    if p.key in byKey {
      ReviseRefAgrees(e, e', pg, my, byKey[p.key], p.perm, actor);
    } else {
      NoRowOfKey(refs, policyId, p.key);
      KeyTakenAgrees(refs, pg, my, policyId, wanted, e.refId(i), p.key);
      InsertRefAgrees(e, e', pg, my, e.refId(i), policyId, p, actor);
    }
  }

  lemma {:induction false} ApplyAllAgrees(e: Env, e': Env, pg: map<string, RefRow>, my: map<string, RefRow>, policyId: string, byKey: map<string, string>, ps: seq<Permission>, actor: string)
    requires Twins(e, e') && Plain(actor) && AllCanonical(ps) && RefsOk(pg) && RefsOk(my) && SameRefs(pg, my)
    requires byKey == RowOfKey(pg, policyId) == RowOfKey(my, policyId)
    ensures var a, b := ApplyAll(e, pg, policyId, byKey, ps, actor), ApplyAll(e', my, policyId, byKey, ps, actor);
            (a.Ok? <==> b.Ok?) && (a.Ok? ==> SameRefs(a.value, b.value))
  {
    if ps != [] {
      var n := |ps| - 1;
      ApplyAllAgrees(e, e', pg, my, policyId, byKey, ps[..n], actor);
      ApplyAllApplied(e, pg, policyId, ps[..n], actor);
      ApplyAllApplied(e', my, policyId, ps[..n], actor);
      var a, b := ApplyAll(e, pg, policyId, byKey, ps[..n], actor), ApplyAll(e', my, policyId, byKey, ps[..n], actor);
      if a.Ok? {
        ApplyOneAgrees(e, e', pg, a.value, b.value, policyId, Wanted(ps[..n]), byKey, ps[n], n, actor);
      }
    }
  }

  lemma RetireRefAgrees(e: Env, e': Env, pg: RefRow, my: RefRow, actor: string)
    requires e.dialect.Postgres? && e'.dialect.MySql? && SameRef(pg, my) && Plain(actor) && WellDeleted(pg.audit) && WellDeleted(my.audit)
    ensures SameRef(RetireRef(e, pg, actor), RetireRef(e', my, actor))
  {
    UpdatesAgreeIff(pg.audit, my.audit, Retire(e.now, actor), Retire(e'.now, actor), actor, e.ts, e'.ts);
  }

  lemma RetireRestAgrees(e: Env, e': Env, pg: map<string, RefRow>, my: map<string, RefRow>, before: set<string>, policyId: string, wanted: set<string>, actor: string)
    requires e.dialect.Postgres? && e'.dialect.MySql? && SameRefs(pg, my) && Plain(actor) && WellDeletedRefs(pg) && WellDeletedRefs(my)
    ensures SameRefs(RetireRest(e, pg, before, policyId, wanted, actor), RetireRest(e', my, before, policyId, wanted, actor))
  {
    forall id | id in pg ensures SameRef(RetireRef(e, pg[id], actor), RetireRef(e', my[id], actor)) && SameRef(pg[id], my[id]) {
      RetireRefAgrees(e, e', pg[id], my[id], actor);
    }
  }

  lemma SetRefsAgrees(e: Env, e': Env, pg: map<string, RefRow>, my: map<string, RefRow>, policyId: string, ps: seq<Permission>, actor: string)
    requires Twins(e, e') && Plain(actor) && AllCanonical(ps) && RefsOk(pg) && RefsOk(my) && SameRefs(pg, my)
    ensures var a, b := SetRefs(e, pg, policyId, ps, actor), SetRefs(e', my, policyId, ps, actor);
            && (a.Err? ==> b == Err(a.error)) && (b.Err? ==> a.Err?)
            && (a.Ok? ==> SameRefs(a.value, b.value))
  {
    RowOfKeyAgrees(pg, my, policyId);
    var byKey := RowOfKey(pg, policyId);
    ApplyAllAgrees(e, e', pg, my, policyId, byKey, ps, actor);
    ApplyAllApplied(e, pg, policyId, ps, actor);
    ApplyAllApplied(e', my, policyId, ps, actor);
    var a, b := ApplyAll(e, pg, policyId, byKey, ps, actor), ApplyAll(e', my, policyId, byKey, ps, actor);
    if a.Ok? {
      RetireRestAgrees(e, e', a.value, b.value, pg.Keys, policyId, Keys(ps), actor);
    }
  }

  /** What the two stores have in common, and what keeps it so. */
  ghost predicate InStep(pg: Store, my: Store) {
    SameStore(pg, my) && Inv(pg) && Inv(my) && PoliciesLive(pg.policies) && RoutesLive(pg.routes) && RoutesLive(my.routes)
  }

  /** A Set whose status and scopes are the canonical ones, by an actor without surrounding blanks, succeeds on both
      databases or fails on both for the same reason, and leaves them in step. */
  lemma SetAgrees(e: Env, e': Env, pg: Store, my: Store, input: SetInput, actor: string)
    requires Twins(e, e') && InStep(pg, my) && Plain(actor) && AllCanonical(input.permissions)
    requires input.status == "active" || input.status == "disabled"
    ensures var a, b := SetTx(e, pg, input, actor), SetTx(e', my, input, actor);
            && (a.Err? ==> b == Err(a.error)) && (b.Err? ==> a.Err?)
            && (a.Ok? ==> InStep(a.value, b.value))
  {
    assert input.routeId in pg.routes ==> SameRoute(pg.routes[input.routeId], my.routes[input.routeId]);
    SetPolicyAgrees(e, e', pg.policies, my.policies, input, actor);
    var p := SetPolicy(e, pg.policies, input, actor);
    if p.Ok? {
      SetRefsAgrees(e, e', pg.refs, my.refs, p.value.1, input.permissions, actor);
      SetStaysInStep(e, e', pg, my, input, actor);
    }
  }

  lemma SetStaysInStep(e: Env, e': Env, pg: Store, my: Store, input: SetInput, actor: string)
    requires Inv(pg) && Inv(my)
    ensures SetTx(e, pg, input, actor).Ok? ==> Inv(SetTx(e, pg, input, actor).value)
    ensures SetTx(e', my, input, actor).Ok? ==> Inv(SetTx(e', my, input, actor).value)
  {
    if SetTx(e, pg, input, actor).Ok? { SetEffect(e, pg, input, actor); }
    if SetTx(e', my, input, actor).Ok? { SetEffect(e', my, input, actor); }
  }

  // ---------------------------------------------------------------- exactly when

  lemma {:induction false} AcceptedIsCanonical(e: Env, refs: map<string, RefRow>, policyId: string, byKey: map<string, string>, ps: seq<Permission>, actor: string)
    requires e.dialect.Postgres? && forall k :: k in byKey ==> byKey[k] in refs
    ensures ApplyAll(e, refs, policyId, byKey, ps, actor).Ok? ==> AllCanonical(ps)
  {
    if ps != [] {
      var n := |ps| - 1;
      AcceptedIsCanonical(e, refs, policyId, byKey, ps[..n], actor);
      assert ps == ps[..n] + [ps[n]];
    }
  }

  lemma PlainAcceptsIff(e: Env, e': Env, pg: Store, my: Store, input: SetInput, actor: string)
    requires Twins(e, e') && InStep(pg, my) && Plain(actor) && (input.status == "active" || input.status == "disabled")
    ensures SetTx(e, pg, input, actor).Ok? <==> SetTx(e', my, input, actor).Ok? && AllCanonical(input.permissions)
  {
    if SetTx(e, pg, input, actor).Ok? {
      var id := SetPolicy(e, pg.policies, input, actor).value.1;
      AcceptedIsCanonical(e, pg.refs, id, RowOfKey(pg.refs, id), input.permissions, actor);
    }
    if AllCanonical(input.permissions) { SetAgrees(e, e', pg, my, input, actor); }
  }

  lemma SomebodyPlain() returns (actor: string)
    ensures Plain(actor) && !AllSpace(actor)
  {
    actor := "x";
    assert |actor| == 1 && actor[0] == 'x' && !IsSpace(actor[0]);
    assert SqlTrim(actor) == actor;
  }

  /** Postgres accepts a Set exactly when MySQL does and every scope is canonical, whoever makes it. */
  lemma AcceptsIff(e: Env, e': Env, pg: Store, my: Store, input: SetInput, actor: string)
    requires Twins(e, e') && InStep(pg, my) && (input.status == "active" || input.status == "disabled")
    ensures SetTx(e, pg, input, actor).Ok? <==> SetTx(e', my, input, actor).Ok? && AllCanonical(input.permissions)
  {
    if !AllSpace(actor) {
      var other := SomebodyPlain();
      PlainAcceptsIff(e, e', pg, my, input, other);
      SetByAnyone(e, pg, input, actor, other);
      SetByAnyone(e', my, input, actor, other);
    }
  }

  /** A store in step with the one before a Set is not in step with the one after it. */
  lemma SetTakesOutOfStep(pg: Store, my: Store, my': Store, input: SetInput)
    requires Inv(my) && Inv(my') && SamePolicies(pg.policies, my.policies) && Advanced(my, my', input)
    ensures !SamePolicies(pg.policies, my'.policies)
  {
    var id := LivePolicy(my'.policies, input.routeId).value;
    if id in my.policies {
      assert SamePolicy(pg.policies[id], my.policies[id]);
      assert my'.policies[id].audit.version == my.policies[id].audit.version + 1;
    }
  }

  lemma WriterIsRecorded(e: Env, policies: map<string, PolicyRow>, input: SetInput, actor: string)
    requires OneLivePolicy(policies) && SetPolicy(e, policies, input, actor).Ok?
    ensures var (ps, id) := SetPolicy(e, policies, input, actor).value;
            id in ps && ps[id].audit.updatedBy == TriggerActor(e.dialect, actor)
            && id == (match LivePolicy(policies, input.routeId) case None => e.policyId case Some(p) => p)
  {
  }

  lemma InStepNeedsPlain(e: Env, e': Env, pg: Store, my: Store, input: SetInput, actor: string)
    requires Twins(e, e') && InStep(pg, my)
    requires SetTx(e, pg, input, actor).Ok? && SetTx(e', my, input, actor).Ok?
    requires SamePolicies(SetTx(e, pg, input, actor).value.policies, SetTx(e', my, input, actor).value.policies)
    ensures Plain(actor)
  {
    LivePolicyAgrees(pg.policies, my.policies, input.routeId);
    WriterIsRecorded(e, pg.policies, input, actor);
    WriterIsRecorded(e', my.policies, input, actor);
    var (a, id) := SetPolicy(e, pg.policies, input, actor).value;
    var (b, id') := SetPolicy(e', my.policies, input, actor).value;
    assert id == id' && SamePolicy(a[id], b[id]);
  }

  lemma BothAccept(e: Env, e': Env, pg: Store, my: Store, input: SetInput, actor: string)
    requires Twins(e, e') && InStep(pg, my)
    requires SetTx(e, pg, input, actor).Ok? && SetTx(e', my, input, actor).Ok?
    requires SameStore(SetTx(e, pg, input, actor).value, SetTx(e', my, input, actor).value)
    ensures AllCanonical(input.permissions) && Plain(actor)
  {
    var id := SetPolicy(e, pg.policies, input, actor).value.1;
    AcceptedIsCanonical(e, pg.refs, id, RowOfKey(pg.refs, id), input.permissions, actor);
    InStepNeedsPlain(e, e', pg, my, input, actor);
  }

  lemma OnlyMySqlAccepts(e': Env, pg: Store, my: Store, input: SetInput, actor: string)
    requires InStep(pg, my) && SetTx(e', my, input, actor).Ok?
    ensures !SameStore(pg, SetTx(e', my, input, actor).value)
  {
    SetEffect(e', my, input, actor);
    SetTakesOutOfStep(pg, my, SetTx(e', my, input, actor).value, input);
  }

  /** A Set that MySQL accepts leaves the two databases in step if and only if its scopes are canonical and its actor
      has no spaces at the ends. */
  lemma SetInStepIff(e: Env, e': Env, pg: Store, my: Store, input: SetInput, actor: string)
    requires Twins(e, e') && InStep(pg, my) && (input.status == "active" || input.status == "disabled")
    requires SetTx(e', my, input, actor).Ok?
    ensures var a, b := SetTx(e, pg, input, actor), SetTx(e', my, input, actor).value;
            SameStore(if a.Ok? then a.value else pg, b) <==> AllCanonical(input.permissions) && Plain(actor)
  {
    var a, b := SetTx(e, pg, input, actor), SetTx(e', my, input, actor).value;
    if AllCanonical(input.permissions) && Plain(actor) {
      SetAgrees(e, e', pg, my, input, actor);
    }
    if a.Err? {
      OnlyMySqlAccepts(e', pg, my, input, actor);
    } else if SameStore(a.value, b) {
      BothAccept(e, e', pg, my, input, actor);
    }
  }

  // ---------------------------------------------------------------- SyncRoutes

  lemma TouchedAgrees(t: Clock, t': Clock, pg: Audit, my: Audit, actor: string)
    requires t.dialect.Postgres? && t'.dialect.MySql? && SameAudit(pg, my) && Live(pg) && WellDeleted(pg) && WellDeleted(my)
    requires Plain(actor) && TriggerActor(Postgres, actor) != "" && TriggerActor(MySql, actor) != ""
    ensures SameAudit(Touched(t, pg, actor), Touched(t', my, actor))
    ensures Live(Touched(t, pg, actor)) && WellDeleted(Touched(t, pg, actor)) && WellDeleted(Touched(t', my, actor))
  {
    UpdatesAgreeIff(pg, my, Keep, Keep, actor, t.ts, t'.ts);
  }

  lemma StopIfAgrees(t: Clock, t': Clock, pg: PolicyStore.RouteRow, my: PolicyStore.RouteRow, service: string, protocol: string, actor: string)
    requires t.dialect.Postgres? && t'.dialect.MySql? && SameRoute(pg, my) && Live(pg.audit) && WellDeleted(pg.audit) && WellDeleted(my.audit)
    requires Plain(actor) && TriggerActor(Postgres, actor) != "" && TriggerActor(MySql, actor) != ""
    ensures var a, b := StopIf(t, pg, service, protocol, actor), StopIf(t', my, service, protocol, actor);
            SameRoute(a, b) && Live(a.audit) && WellDeleted(a.audit) && WellDeleted(b.audit)
  {
    TouchedAgrees(t, t', pg.audit, my.audit, actor);
  }

  lemma StopAllAgrees(t: Clock, t': Clock, pg: map<string, PolicyStore.RouteRow>, my: map<string, PolicyStore.RouteRow>, service: string, protocol: string, actor: string)
    requires t.dialect.Postgres? && t'.dialect.MySql? && SameRoutes(pg, my) && RoutesLive(pg) && RoutesLive(my)
    requires Plain(actor) && TriggerActor(Postgres, actor) != "" && TriggerActor(MySql, actor) != ""
    ensures var a, b := StopAll(t, pg, service, protocol, actor), StopAll(t', my, service, protocol, actor);
            SameRoutes(a, b) && RoutesLive(a) && RoutesLive(b)
  {
    var a, b := StopAll(t, pg, service, protocol, actor), StopAll(t', my, service, protocol, actor);
    forall id | id in pg ensures SameRoute(a[id], b[id]) && Live(a[id].audit) && WellDeleted(a[id].audit) && WellDeleted(b[id].audit) {
      assert SameRoute(pg[id], my[id]);
      StopIfAgrees(t, t', pg[id], my[id], service, protocol, actor);
    }
  }

  lemma IdentityTakenAgrees(pg: map<string, PolicyStore.RouteRow>, my: map<string, PolicyStore.RouteRow>, r: Route)
    requires SameRoutes(pg, my) && RoutesLive(pg)
    ensures IdentityTaken(Postgres, pg, r) <==> IdentityTaken(MySql, my, r)
  {
    if other :| other in pg && other != r.id && SameIdentity(pg[other], r) { assert SameRoute(pg[other], my[other]); }
    if other :| other in my && other != r.id && SameIdentity(my[other], r) { assert SameRoute(pg[other], my[other]); }
  }

  lemma UpsertAgrees(t: Clock, t': Clock, pg: map<string, PolicyStore.RouteRow>, my: map<string, PolicyStore.RouteRow>, r: Route, actor: string)
    requires t.dialect.Postgres? && t'.dialect.MySql? && SameRoutes(pg, my) && RoutesLive(pg) && RoutesLive(my)
    requires Plain(actor) && TriggerActor(Postgres, actor) != "" && TriggerActor(MySql, actor) != ""
    ensures var a, b := Upsert(t, pg, r, actor), Upsert(t', my, r, actor);
            (a.Ok? <==> b.Ok?) && (a.Ok? ==> SameRoutes(a.value, b.value) && RoutesLive(a.value) && RoutesLive(b.value))
  {
    IdentityTakenAgrees(pg, my, r);
    InsertsAgreeIff(actor, t.ts, t'.ts);
    if r.id in pg {
      assert SameRoute(pg[r.id], my[r.id]);
      TouchedAgrees(t, t', pg[r.id].audit, my[r.id].audit, actor);
    }
  }

  lemma {:induction false} UpsertAllAgrees(t: Clock, t': Clock, pg: map<string, PolicyStore.RouteRow>, my: map<string, PolicyStore.RouteRow>, rs: seq<Route>, actor: string)
    requires t.dialect.Postgres? && t'.dialect.MySql? && SameRoutes(pg, my) && RoutesLive(pg) && RoutesLive(my)
    requires Plain(actor) && TriggerActor(Postgres, actor) != "" && TriggerActor(MySql, actor) != ""
    ensures var a, b := UpsertAll(t, pg, rs, actor), UpsertAll(t', my, rs, actor);
            (a.Ok? <==> b.Ok?) && (a.Ok? ==> SameRoutes(a.value, b.value) && RoutesLive(a.value) && RoutesLive(b.value))
  {
    if rs != [] {
      var n := |rs| - 1;
      UpsertAllAgrees(t, t', pg, my, rs[..n], actor);
      var a, b := UpsertAll(t, pg, rs[..n], actor), UpsertAll(t', my, rs[..n], actor);
      if a.Ok? { UpsertAgrees(t, t', a.value, b.value, rs[n], actor); }
    }
  }

  lemma SyncAgrees(t: Clock, t': Clock, pg: map<string, PolicyStore.RouteRow>, my: map<string, PolicyStore.RouteRow>, rs: seq<Route>, actor: string)
    requires t.dialect.Postgres? && t'.dialect.MySql? && SameRoutes(pg, my) && RoutesLive(pg) && RoutesLive(my) && Plain(actor)
    ensures var a, b := SyncTx(t, pg, rs, actor), SyncTx(t', my, rs, actor);
            && (a.Err? ==> b == Err(a.error)) && (b.Err? ==> a.Err?)
            && (a.Ok? ==> SameRoutes(a.value, b.value) && RoutesLive(a.value) && RoutesLive(b.value))
  {
    if rs != [] && !AllSpace(actor) {
      ActorIsRecorded(Postgres, actor);
      ActorIsRecorded(MySql, actor);
      StopAllAgrees(t, t', pg, my, rs[0].service, rs[0].protocol, actor);
      UpsertAllAgrees(t, t', StopAll(t, pg, rs[0].service, rs[0].protocol, actor),
                      StopAll(t', my, rs[0].service, rs[0].protocol, actor), rs, actor);
    }
  }

  // ---------------------------------------------------------------- runs

  /** One transaction of either kind, with what the clocks and the id generator give it. */
  datatype Call =
    | Setting(input: SetInput, actor: string, env: Env)
    | Syncing(routes: seq<Route>, actor: string, clock: Clock)

  /** The tables after the transaction: as before if it fails. */
  ghost function After(st: Store, c: Call): Store
    requires Inv(st)
  {
    match c
    case Setting(input, actor, env) => (match SetTx(env, st, input, actor) case Err(_) => st case Ok(st') => st')
    case Syncing(rs, actor, clock) =>
      (match SyncTx(clock, st.routes, rs, actor) case Err(_) => st case Ok(routes) => st.(routes := routes))
  }

  lemma AfterKeepsInv(st: Store, c: Call)
    requires Inv(st)
    ensures Inv(After(st, c))
  {
    if c.Setting? && SetTx(c.env, st, c.input, c.actor).Ok? { SetEffect(c.env, st, c.input, c.actor); }
  }

  /** The same call on the two databases. */
  ghost predicate SameCall(pg: Call, my: Call) {
    match pg
    case Setting(input, actor, env) =>
      && my.Setting? && my.input == input && my.actor == actor && Twins(env, my.env)
      && (input.status == "active" || input.status == "disabled")
    case Syncing(rs, actor, clock) =>
      my.Syncing? && my.routes == rs && my.actor == actor && clock.dialect.Postgres? && my.clock.dialect.MySql?
  }

  /** If the store accepts the call, its actor has no spaces at the ends and its scopes, if it is a Set, are canonical. */
  ghost predicate Sound(st: Store, c: Call)
    requires Inv(st)
  {
    match c
    case Setting(input, actor, env) => SetTx(env, st, input, actor).Ok? ==> AllCanonical(input.permissions) && Plain(actor)
    case Syncing(rs, actor, clock) => SyncTx(clock, st.routes, rs, actor).Ok? ==> Plain(actor)
  }

  lemma SettingAgreesIff(e: Env, e': Env, pg: Store, my: Store, input: SetInput, actor: string)
    requires InStep(pg, my) && SameCall(Setting(input, actor, e), Setting(input, actor, e'))
    ensures InStep(After(pg, Setting(input, actor, e)), After(my, Setting(input, actor, e'))) <==> Sound(my, Setting(input, actor, e'))
  {
    AcceptsIff(e, e', pg, my, input, actor);
    if AllCanonical(input.permissions) && Plain(actor) { SetAgrees(e, e', pg, my, input, actor); }
    if SetTx(e', my, input, actor).Ok? { SetInStepIff(e, e', pg, my, input, actor); }
  }

  /** A sync is accepted on both databases or on neither, and leaves them in step if and only if its actor has no spaces
      at the ends. */
  lemma SyncInStepIff(t: Clock, t': Clock, pg: map<string, PolicyStore.RouteRow>, my: map<string, PolicyStore.RouteRow>, rs: seq<Route>, actor: string)
    requires t.dialect.Postgres? && t'.dialect.MySql? && SameRoutes(pg, my) && RoutesLive(pg) && RoutesLive(my)
    ensures var a, b := SyncTx(t, pg, rs, actor), SyncTx(t', my, rs, actor);
            && (a.Ok? <==> b.Ok?)
            && (a.Ok? ==> (SameRoutes(a.value, b.value) <==> Plain(actor)))
            && (a.Ok? && Plain(actor) ==> RoutesLive(a.value) && RoutesLive(b.value))
  {
    if !AllSpace(actor) {
      var other := SomebodyPlain();
      SyncAgrees(t, t', pg, my, rs, other);
      SyncByAnyone(t, pg, rs, actor, other);
      SyncByAnyone(t', my, rs, actor, other);
    }
    if Plain(actor) { SyncAgrees(t, t', pg, my, rs, actor); }
    var a, b := SyncTx(t, pg, rs, actor), SyncTx(t', my, rs, actor);
    if a.Ok? && SameRoutes(a.value, b.value) {
      SyncIsRecorded(t, pg, rs, actor);
      SyncIsRecorded(t', my, rs, actor);
      var id := rs[|rs| - 1].id;
      assert SameRoute(a.value[id], b.value[id]);
    }
  }

  lemma CallAgreesIff(pg: Store, my: Store, c: Call, c': Call)
    requires InStep(pg, my) && SameCall(c, c')
    ensures InStep(After(pg, c), After(my, c')) <==> Sound(my, c')
  {
    match c {
      case Setting(input, actor, env) => SettingAgreesIff(env, c'.env, pg, my, input, actor);
      case Syncing(rs, actor, clock) => SyncInStepIff(clock, c'.clock, pg.routes, my.routes, rs, actor);
    }
  }

  ghost function Run(st: Store, cs: seq<Call>): (st': Store)
    requires Inv(st)
    ensures Inv(st')
  {
    if cs == [] then st
    else
      var mid := Run(st, cs[..|cs| - 1]);
      AfterKeepsInv(mid, cs[|cs| - 1]);
      After(mid, cs[|cs| - 1])
  }

  /** The two databases are in step at every moment of the run. */
  ghost predicate AlwaysInStep(pg: Store, my: Store, cs: seq<Call>, cs': seq<Call>)
    requires Inv(pg) && Inv(my) && |cs| == |cs'|
  {
    InStep(Run(pg, cs), Run(my, cs')) && (cs != [] ==> AlwaysInStep(pg, my, cs[..|cs| - 1], cs'[..|cs| - 1]))
  }

  /** Every call of the run that the store accepts is sound. */
  ghost predicate AllSound(st: Store, cs: seq<Call>)
    requires Inv(st)
  {
    cs != [] ==> AllSound(st, cs[..|cs| - 1]) && Sound(Run(st, cs[..|cs| - 1]), cs[|cs| - 1])
  }

  /** Over every run of Set and SyncRoutes calls the two databases hold the same rows at every moment (same contents,
      versions, creators and deleters, live and deleted alike; only the timestamps are each database's own) if and
      only if every call that MySQL accepts is by an actor without spaces at the ends and every Set among them has
      canonical scopes. */
  lemma {:induction false} InStepIff(pg: Store, my: Store, cs: seq<Call>, cs': seq<Call>)
    requires InStep(pg, my) && |cs| == |cs'| && forall i :: 0 <= i < |cs| ==> SameCall(cs[i], cs'[i])
    ensures AlwaysInStep(pg, my, cs, cs') <==> AllSound(my, cs')
  {
    if cs != [] {
      var n := |cs| - 1;
      InStepIff(pg, my, cs[..n], cs'[..n]);
      if AlwaysInStep(pg, my, cs[..n], cs'[..n]) {
        LastInStep(pg, my, cs[..n], cs'[..n]);
        CallAgreesIff(Run(pg, cs[..n]), Run(my, cs'[..n]), cs[n], cs'[n]);
      }
    }
  }

  lemma LastInStep(pg: Store, my: Store, cs: seq<Call>, cs': seq<Call>)
    requires Inv(pg) && Inv(my) && |cs| == |cs'| && AlwaysInStep(pg, my, cs, cs')
    ensures InStep(Run(pg, cs), Run(my, cs'))
  {
  }
}
