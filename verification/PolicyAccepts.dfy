/** Which Sets the tables accept, told from the input and the tables alone
    (internal/routepolicy/repository.go:199-264, migrations/postgres/000007_route_policies.up.sql:16-20,
    migrations/mysql/000007_route_policies.up.sql:2-3). */
module PolicyAccepts {
  import opened Basics
  import opened AuditModel
  import opened Text
  import opened RowTrigger
  import opened PolicyStore
  import opened RouteSync

  /** A key that the input names twice has a row already, perhaps a deleted one. */
  ghost predicate NewKeysOnce(refs: map<string, RefRow>, policyId: string, ps: seq<Permission>) {
    forall i, j :: 0 <= i < j < |ps| && ps[i].key == ps[j].key ==> HasRow(refs, policyId, ps[j].key)
  }

  predicate Canonical(d: Dialect, p: Permission) {
    d.Postgres? ==> p.perm.scope == "tenant" || p.perm.scope == "platform" || p.perm.scope == "principal"
  }

  ghost predicate PermissionsFit(d: Dialect, refs: map<string, RefRow>, policyId: string, ps: seq<Permission>) {
    NewKeysOnce(refs, policyId, ps) && forall i :: 0 <= i < |ps| ==> Canonical(d, ps[i])
  }

  /** The ids the call gives to new rows are all different and in no table. */
  ghost predicate NewIds(e: Env, policies: map<string, PolicyRow>, refs: map<string, RefRow>) {
    && e.policyId !in policies && (forall i: nat :: e.refId(i) !in refs)
    && forall i: nat, j: nat :: i != j ==> e.refId(i) != e.refId(j)
  }

  // ---------------------------------------------------------------- the permissions

  lemma {:induction false} IdsBelow(e: Env, refs: map<string, RefRow>, policyId: string, byKey: map<string, string>, ps: seq<Permission>, actor: string)
    requires forall k :: k in byKey ==> byKey[k] in refs
    ensures var r := ApplyAll(e, refs, policyId, byKey, ps, actor);
            r.Ok? ==> forall x :: x in r.value && x !in refs ==> exists i :: 0 <= i < |ps| && x == e.refId(i)
  {
    if ps != [] {
      IdsBelow(e, refs, policyId, byKey, ps[..|ps| - 1], actor);
    }
  }

  lemma ReviseAccepts(e: Env, mid: map<string, RefRow>, id: string, p: Permission, actor: string)
    requires TriggerActor(e.dialect, actor) != "" && UniqueKeys(mid) && id in mid
    ensures ReviseRef(e, mid, id, p.perm, actor).Ok? <==> Canonical(e.dialect, p)
  {
    assert !KeyTaken(e.dialect, mid, id, mid[id].policyId, mid[id].key);
  }

  lemma InsertAccepts(e: Env, refs: map<string, RefRow>, mid: map<string, RefRow>, policyId: string, wanted: map<string, Perm>,
                      id: string, p: Permission, actor: string)
    requires TriggerActor(e.dialect, actor) != "" && Applied(refs, mid, policyId, wanted) && id !in mid && !HasRow(refs, policyId, p.key)
    ensures InsertRef(e, mid, id, policyId, p, actor).Ok? <==> p.key !in wanted && Canonical(e.dialect, p)
  {
    if p.key in wanted.Keys {
      assert HasRow(mid, policyId, p.key);
      var x :| x in mid && mid[x].policyId == policyId && mid[x].key == p.key;
      assert KeyTaken(e.dialect, mid, id, policyId, p.key);
    }
  }

  lemma NextFits(refs: map<string, RefRow>, policyId: string, ps: seq<Permission>)
    requires ps != []
    ensures var n := |ps| - 1;
            NewKeysOnce(refs, policyId, ps) <==>
            NewKeysOnce(refs, policyId, ps[..n]) && (HasRow(refs, policyId, ps[n].key) || ps[n].key !in Keys(ps[..n]))
  {
    var n := |ps| - 1;
    if ps[n].key in Keys(ps[..n]) {
      var i :| 0 <= i < n && ps[..n][i].key == ps[n].key;
      assert ps[i].key == ps[n].key;
    }
    assert forall i :: 0 <= i < n ==> ps[..n][i] == ps[i] && ps[i].key in Keys(ps[..n]);
    assert forall i, j :: 0 <= i < j < n ==> ps[..n][i].key == ps[i].key && ps[..n][j].key == ps[j].key;
  }

  lemma OneAccepts(e: Env, refs: map<string, RefRow>, mid: map<string, RefRow>, policyId: string, ps: seq<Permission>, actor: string)
    requires TriggerActor(e.dialect, actor) != "" && UniqueKeys(refs) && ps != []
    requires Applied(refs, mid, policyId, Wanted(ps[..|ps| - 1])) && e.refId(|ps| - 1) !in mid
    ensures var n := |ps| - 1;
            ApplyOne(e, mid, policyId, RowOfKey(refs, policyId), ps[n], n, actor).Ok? <==>
            Canonical(e.dialect, ps[n]) && (HasRow(refs, policyId, ps[n].key) || ps[n].key !in Keys(ps[..n]))
  {
    var n := |ps| - 1;
    NoRowOfKey(refs, policyId, ps[n].key);
    if HasRow(refs, policyId, ps[n].key) {
      ReviseAccepts(e, mid, RowOfKey(refs, policyId)[ps[n].key], ps[n], actor);
    } else {
      InsertAccepts(e, refs, mid, policyId, Wanted(ps[..n]), e.refId(n), ps[n], actor);
    }
  }

  lemma {:induction false} AllAccepts(e: Env, refs: map<string, RefRow>, policyId: string, ps: seq<Permission>, actor: string)
    requires TriggerActor(e.dialect, actor) != "" && RefsOk(refs)
    requires forall i: nat :: e.refId(i) !in refs
    requires forall i: nat, j: nat :: i != j ==> e.refId(i) != e.refId(j)
    ensures ApplyAll(e, refs, policyId, RowOfKey(refs, policyId), ps, actor).Ok? <==> PermissionsFit(e.dialect, refs, policyId, ps)
  {
    if ps != [] {
      var n := |ps| - 1;
      AllAccepts(e, refs, policyId, ps[..n], actor);
      NextFits(refs, policyId, ps);
      assert (forall i :: 0 <= i < |ps| ==> Canonical(e.dialect, ps[i])) <==>
             (forall i :: 0 <= i < n ==> Canonical(e.dialect, ps[..n][i])) && Canonical(e.dialect, ps[n]) by {
        assert forall i :: 0 <= i < n ==> ps[..n][i] == ps[i];
      }
      var mid := ApplyAll(e, refs, policyId, RowOfKey(refs, policyId), ps[..n], actor);
      if mid.Ok? {
        ApplyAllApplied(e, refs, policyId, ps[..n], actor);
        IdsBelow(e, refs, policyId, RowOfKey(refs, policyId), ps[..n], actor);
        OneAccepts(e, refs, mid.value, policyId, ps, actor);
      }
    }
  }

  // ---------------------------------------------------------------- the policy

  /** MySQL's unique index counts deleted rows, so there the route may have no row at all. */
  ghost predicate PolicyFits(d: Dialect, policies: map<string, PolicyRow>, input: SetInput)
    requires OneLivePolicy(policies)
  {
    && input.expectedVersion == VersionOf(policies, input.routeId)
    && (d.Postgres? ==> input.status == "active" || input.status == "disabled")
    && (d.MySql? && LivePolicy(policies, input.routeId).None? ==> forall id :: id in policies ==> policies[id].routeId != input.routeId)
  }

  lemma PolicyAccepts(e: Env, policies: map<string, PolicyRow>, input: SetInput, actor: string)
    requires TriggerActor(e.dialect, actor) != "" && OneLivePolicy(policies) && e.policyId !in policies
    ensures SetPolicy(e, policies, input, actor).Ok? <==> PolicyFits(e.dialect, policies, input)
    ensures SetPolicy(e, policies, input, actor).Ok? ==>
              SetPolicy(e, policies, input, actor).value.1 ==
              (match LivePolicy(policies, input.routeId) case None => e.policyId case Some(id) => id)
  {
  }

  /** The route exists and is not deleted. */
  predicate RouteThere(st: Store, routeId: string) {
    routeId in st.routes && st.routes[routeId].audit.deletedAt.None?
  }

  /** A refusal says that the route is missing, or else that the version expected is not that of its policy, 0 if it has
      none; everything else, a blank actor first of all, is an error of the database. */
  lemma RefusedIff(e: Env, st: Store, input: SetInput, actor: string)
    requires Inv(st)
    ensures var tx := SetTx(e, st, input, actor);
            && (tx == Err(RouteMissing) <==> !AllSpace(actor) && !RouteThere(st, input.routeId))
            && (tx == Err(Stale) <==> !AllSpace(actor) && RouteThere(st, input.routeId)
                                      && input.expectedVersion != VersionOf(st.policies, input.routeId))
  {
  }

  /** The tables accept a Set if and only if its actor is not blank, its route is there, it expects the version of the
      route's policy (0 if it has none), and its permissions and, on Postgres, its status and scopes are in order. */
  lemma AcceptedIff(e: Env, st: Store, input: SetInput, actor: string)
    requires Inv(st) && NewIds(e, st.policies, st.refs)
    ensures SetTx(e, st, input, actor).Ok? <==>
            && !AllSpace(actor) && RouteThere(st, input.routeId)
            && PolicyFits(e.dialect, st.policies, input)
            && PermissionsFit(e.dialect, st.refs,
                              match LivePolicy(st.policies, input.routeId) case None => e.policyId case Some(id) => id,
                              input.permissions)
  {
    if !AllSpace(actor) {
      ActorIsRecorded(e.dialect, actor);
      PolicyAccepts(e, st.policies, input, actor);
      var id := match LivePolicy(st.policies, input.routeId) case None => e.policyId case Some(id) => id;
      AllAccepts(e, st.refs, id, input.permissions, actor);
    }
  }
}
