/** Who makes a change does not decide whether it is accepted: Set and SyncRoutes accept a call of any actor they record
    exactly when they accept it of any other (internal/routepolicy/repository.go:122-147 and 199-264). */
module PolicyActors {
  import opened Basics
  import opened AuditModel
  import opened Text
  import opened RowTrigger
  import opened PolicyStore
  import opened RouteSync

  // ---------------------------------------------------------------- Set

  /** The same rows for the indexes: what they name and whether they are live. */
  ghost predicate SameShape(a: map<string, RefRow>, b: map<string, RefRow>) {
    a.Keys == b.Keys
    && forall id :: id in a ==> a[id].policyId == b[id].policyId && a[id].key == b[id].key && Live(a[id].audit) == Live(b[id].audit)
  }

  lemma KeyTakenByShape(d: Dialect, a: map<string, RefRow>, b: map<string, RefRow>, id: string, policyId: string, key: string)
    requires SameShape(a, b)
    ensures KeyTaken(d, a, id, policyId, key) <==> KeyTaken(d, b, id, policyId, key)
  {
  }

  lemma ApplyOneByShape(e: Env, a: map<string, RefRow>, b: map<string, RefRow>, policyId: string, byKey: map<string, string>, p: Permission, i: nat,
                        actor: string, other: string)
    requires TriggerActor(e.dialect, actor) != "" && TriggerActor(e.dialect, other) != ""
    requires SameShape(a, b) && (p.key in byKey ==> byKey[p.key] in a)
    ensures var r, r' := ApplyOne(e, a, policyId, byKey, p, i, actor), ApplyOne(e, b, policyId, byKey, p, i, other);
            (r.Ok? <==> r'.Ok?) && (r.Ok? ==> SameShape(r.value, r'.value))
  {
    var id := if p.key in byKey then byKey[p.key] else e.refId(i);
    KeyTakenByShape(e.dialect, a, b, id, if p.key in byKey then a[id].policyId else policyId, if p.key in byKey then a[id].key else p.key);
  }

  lemma {:induction false} ApplyAllByShape(e: Env, refs: map<string, RefRow>, policyId: string, byKey: map<string, string>, ps: seq<Permission>,
                                           actor: string, other: string)
    requires TriggerActor(e.dialect, actor) != "" && TriggerActor(e.dialect, other) != "" && forall k :: k in byKey ==> byKey[k] in refs
    ensures var r, r' := ApplyAll(e, refs, policyId, byKey, ps, actor), ApplyAll(e, refs, policyId, byKey, ps, other);
            (r.Ok? <==> r'.Ok?) && (r.Ok? ==> SameShape(r.value, r'.value))
  {
    if ps != [] {
      var n := |ps| - 1;
      ApplyAllByShape(e, refs, policyId, byKey, ps[..n], actor, other);
      var a, b := ApplyAll(e, refs, policyId, byKey, ps[..n], actor), ApplyAll(e, refs, policyId, byKey, ps[..n], other);
      if a.Ok? { ApplyOneByShape(e, a.value, b.value, policyId, byKey, ps[n], n, actor, other); }
    }
  }

  lemma SetPolicyByAnyone(e: Env, policies: map<string, PolicyRow>, input: SetInput, actor: string, other: string)
    requires OneLivePolicy(policies) && TriggerActor(e.dialect, actor) != "" && TriggerActor(e.dialect, other) != ""
    ensures var r, r' := SetPolicy(e, policies, input, actor), SetPolicy(e, policies, input, other);
            (r.Ok? <==> r'.Ok?) && (r.Ok? ==> r.value.1 == r'.value.1)
  {
  }

  /** A Set is accepted of anyone or of no one. */
  lemma SetByAnyone(e: Env, st: Store, input: SetInput, actor: string, other: string)
    requires Inv(st) && !AllSpace(actor) && !AllSpace(other)
    ensures SetTx(e, st, input, actor).Ok? <==> SetTx(e, st, input, other).Ok?
  {
    ActorIsRecorded(e.dialect, actor);
    ActorIsRecorded(e.dialect, other);
    SetPolicyByAnyone(e, st.policies, input, actor, other);
    var p := SetPolicy(e, st.policies, input, actor);
    if p.Ok? {
      ApplyAllByShape(e, st.refs, p.value.1, RowOfKey(st.refs, p.value.1), input.permissions, actor, other);
    }
  }

  // ---------------------------------------------------------------- SyncRoutes

  ghost predicate SameRouteShape(a: map<string, PolicyStore.RouteRow>, b: map<string, PolicyStore.RouteRow>) {
    a.Keys == b.Keys && forall id :: id in a ==> SameRouteIdentity(a[id], b[id])
  }

  predicate SameRouteIdentity(a: PolicyStore.RouteRow, b: PolicyStore.RouteRow) {
    a.service == b.service && a.protocol == b.protocol && a.method_ == b.method_ && a.path == b.path && Live(a.audit) == Live(b.audit)
  }

  lemma IdentityTakenByShape(d: Dialect, a: map<string, PolicyStore.RouteRow>, b: map<string, PolicyStore.RouteRow>, r: Route)
    requires SameRouteShape(a, b) && IdentityTaken(d, a, r)
    ensures IdentityTaken(d, b, r)
  {
    var other :| other in a && other != r.id && SameIdentity(a[other], r) && (d.MySql? || Live(a[other].audit));
    assert SameRouteIdentity(a[other], b[other]);
  }

  lemma UpsertByShape(t: Clock, a: map<string, PolicyStore.RouteRow>, b: map<string, PolicyStore.RouteRow>, r: Route, actor: string, other: string)
    requires TriggerActor(t.dialect, actor) != "" && TriggerActor(t.dialect, other) != "" && SameRouteShape(a, b)
    ensures var x, y := Upsert(t, a, r, actor), Upsert(t, b, r, other);
            (x.Ok? <==> y.Ok?) && (x.Ok? ==> SameRouteShape(x.value, y.value))
  {
    if IdentityTaken(t.dialect, a, r) { IdentityTakenByShape(t.dialect, a, b, r); }
    if IdentityTaken(t.dialect, b, r) { IdentityTakenByShape(t.dialect, b, a, r); }
    if r.id in a { assert SameRouteIdentity(a[r.id], b[r.id]); }
  }

  lemma {:induction false} UpsertAllByShape(t: Clock, a: map<string, PolicyStore.RouteRow>, b: map<string, PolicyStore.RouteRow>, rs: seq<Route>,
                                            actor: string, other: string)
    requires TriggerActor(t.dialect, actor) != "" && TriggerActor(t.dialect, other) != "" && SameRouteShape(a, b)
    ensures var x, y := UpsertAll(t, a, rs, actor), UpsertAll(t, b, rs, other);
            (x.Ok? <==> y.Ok?) && (x.Ok? ==> SameRouteShape(x.value, y.value))
  {
    if rs != [] {
      var n := |rs| - 1;
      UpsertAllByShape(t, a, b, rs[..n], actor, other);
      var x, y := UpsertAll(t, a, rs[..n], actor), UpsertAll(t, b, rs[..n], other);
      if x.Ok? { UpsertByShape(t, x.value, y.value, rs[n], actor, other); }
    }
  }

  lemma StopAllByShape(t: Clock, rows: map<string, PolicyStore.RouteRow>, service: string, protocol: string, actor: string, other: string)
    requires TriggerActor(t.dialect, actor) != "" && TriggerActor(t.dialect, other) != ""
    ensures SameRouteShape(StopAll(t, rows, service, protocol, actor), StopAll(t, rows, service, protocol, other))
  {
  }

  /** So is a sync. */
  lemma SyncByAnyone(t: Clock, rows: map<string, PolicyStore.RouteRow>, rs: seq<Route>, actor: string, other: string)
    requires !AllSpace(actor) && !AllSpace(other)
    ensures SyncTx(t, rows, rs, actor).Ok? <==> SyncTx(t, rows, rs, other).Ok?
  {
    ActorIsRecorded(t.dialect, actor);
    ActorIsRecorded(t.dialect, other);
    if rs != [] {
      StopAllByShape(t, rows, rs[0].service, rs[0].protocol, actor, other);
      UpsertAllByShape(t, StopAll(t, rows, rs[0].service, rs[0].protocol, actor), StopAll(t, rows, rs[0].service, rs[0].protocol, other), rs, actor, other);
    }
  }

  /** A sync that is accepted has written its last route, and says who wrote it. */
  lemma SyncIsRecorded(t: Clock, rows: map<string, PolicyStore.RouteRow>, rs: seq<Route>, actor: string)
    requires SyncTx(t, rows, rs, actor).Ok?
    ensures rs != [] && rs[|rs| - 1].id in SyncTx(t, rows, rs, actor).value
    ensures SyncTx(t, rows, rs, actor).value[rs[|rs| - 1].id].audit.updatedBy == TriggerActor(t.dialect, actor)
  {
    ActorIsRecorded(t.dialect, actor);
  }
}
