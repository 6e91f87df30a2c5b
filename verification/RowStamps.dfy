/** What the triggers stamp on the rows that a Set or a sync writes: the time and the actor of the statement, while the
    creation of a row stays (migrations/postgres/000007_route_policies.up.sql:1-10,
    migrations/mysql/000007_route_policies.up.sql:4-12, internal/routepolicy/repository.go:122-147 and 199-264). */
module RowStamps {
  import opened Basics
  import opened AuditModel
  import opened Text
  import opened RowTrigger
  import opened PolicyStore
  import RouteSync

  /** A row created by the actor at the time. */
  predicate CreatedBy(now: Audit, actor: string, ts: Time) {
    && now.createdAt == now.updatedAt == ts && now.createdBy == now.updatedBy == actor
    && now.version == 1 && now.deletedAt.None? && now.deletedBy.None?
  }

  /** A row written again by the actor at the time. */
  predicate WrittenBy(was: Audit, now: Audit, actor: string, ts: Time) {
    && now.createdAt == was.createdAt && now.createdBy == was.createdBy && now.updatedAt == ts && now.updatedBy == actor
    && now.version == was.version + 1
  }

  lemma InsertStamps(d: Dialect, actor: string, ts: Time)
    ensures OnInsert(d, actor, ts).Ok? <==> TriggerActor(d, actor) != ""
    ensures OnInsert(d, actor, ts).Ok? ==> CreatedBy(OnInsert(d, actor, ts).value, TriggerActor(d, actor), ts)
  {
  }

  /** An UPDATE that leaves the deletion columns alone keeps them; one that revives a row clears them; one that deletes a
      live row names the actor, and the time of the statement on Postgres or the time it was given on MySQL. */
  lemma UpdateStamps(d: Dialect, was: Audit, touch: Touch, actor: string, ts: Time)
    requires WellDeleted(was)
    ensures OnUpdate(d, was, touch, actor, ts).Ok? <==> TriggerActor(d, actor) != ""
    ensures OnUpdate(d, was, touch, actor, ts).Ok? ==>
              var now := OnUpdate(d, was, touch, actor, ts).value;
              && WrittenBy(was, now, TriggerActor(d, actor), ts)
              && (touch.Keep? ==> now.deletedAt == was.deletedAt && now.deletedBy == was.deletedBy)
              && (touch.Revive? ==> now.deletedAt.None? && now.deletedBy.None?)
              && (touch.Retire? && was.deletedAt.None? ==>
                    now.deletedBy == Some(TriggerActor(d, actor)) && now.deletedAt == Some(if d.Postgres? then ts else touch.at))
  {
  }

  /** A row that was there was written by this actor at this time, one that was not was created so. */
  predicate Stamped(was: Option<Audit>, now: Audit, actor: string, ts: Time) {
    match was
    case None => now.createdAt == now.updatedAt == ts && now.createdBy == now.updatedBy == actor
    case Some(a) =>
      now.updatedAt == ts && now.updatedBy == actor && now.createdAt == a.createdAt && now.createdBy == a.createdBy && now.version > a.version
  }

  /** Written once more, whether before or not. */
  lemma StampedAgain(was: Option<Audit>, mid: Audit, now: Audit, actor: string, ts: Time)
    requires (was == Some(mid) || Stamped(was, mid, actor, ts)) && WrittenBy(mid, now, actor, ts)
    ensures Stamped(was, now, actor, ts)
  {
  }

  // ---------------------------------------------------------------- Set

  function RefAudit(refs: map<string, RefRow>, id: string): Option<Audit> {
    if id in refs then Some(refs[id].audit) else None
  }

  /** Each row is as it was, or stamped. */
  ghost predicate RefsStamped(e: Env, actor: string, refs: map<string, RefRow>, refs': map<string, RefRow>) {
    refs.Keys <= refs'.Keys
    && forall id :: id in refs' ==>
         (id in refs && refs'[id] == refs[id]) || Stamped(RefAudit(refs, id), refs'[id].audit, TriggerActor(e.dialect, actor), e.ts)
  }

  lemma PutStamped(e: Env, actor: string, refs: map<string, RefRow>, mid: map<string, RefRow>, id: string, row: RefRow)
    requires RefsStamped(e, actor, refs, mid) && Stamped(RefAudit(refs, id), row.audit, TriggerActor(e.dialect, actor), e.ts)
    ensures RefsStamped(e, actor, refs, mid[id := row])
  {
  }

  lemma ReviseStamps(e: Env, refs: map<string, RefRow>, mid: map<string, RefRow>, id: string, p: Perm, actor: string)
    requires RefsStamped(e, actor, refs, mid) && id in mid
    ensures var r := ReviseRef(e, mid, id, p, actor); r.Ok? ==> RefsStamped(e, actor, refs, r.value)
  {
    var r := ReviseRef(e, mid, id, p, actor);
    if r.Ok? {
      StampedAgain(RefAudit(refs, id), mid[id].audit, r.value[id].audit, TriggerActor(e.dialect, actor), e.ts);
      PutStamped(e, actor, refs, mid, id, r.value[id]);
    }
  }

  lemma ApplyOneStamps(e: Env, refs: map<string, RefRow>, mid: map<string, RefRow>, policyId: string, byKey: map<string, string>,
                       p: Permission, i: nat, actor: string)
    requires RefsStamped(e, actor, refs, mid) && (p.key in byKey ==> byKey[p.key] in mid)
    ensures var r := ApplyOne(e, mid, policyId, byKey, p, i, actor); r.Ok? ==> RefsStamped(e, actor, refs, r.value)
  {
    var r := ApplyOne(e, mid, policyId, byKey, p, i, actor);
    if p.key in byKey {
      ReviseStamps(e, refs, mid, byKey[p.key], p.perm, actor);
    } else if r.Ok? {
      PutStamped(e, actor, refs, mid, e.refId(i), r.value[e.refId(i)]);
    }
  }

  lemma {:induction false} ApplyAllStamps(e: Env, refs: map<string, RefRow>, policyId: string, byKey: map<string, string>, ps: seq<Permission>, actor: string)
    requires forall k :: k in byKey ==> byKey[k] in refs
    ensures var r := ApplyAll(e, refs, policyId, byKey, ps, actor); r.Ok? ==> RefsStamped(e, actor, refs, r.value)
  {
    if ps != [] {
      var n := |ps| - 1;
      ApplyAllStamps(e, refs, policyId, byKey, ps[..n], actor);
      var mid := ApplyAll(e, refs, policyId, byKey, ps[..n], actor);
      if mid.Ok? { ApplyOneStamps(e, refs, mid.value, policyId, byKey, ps[n], n, actor); }
    }
  }

  lemma RetireStamps(e: Env, refs: map<string, RefRow>, mid: map<string, RefRow>, before: set<string>, policyId: string, wanted: set<string>, actor: string)
    requires RefsStamped(e, actor, refs, mid)
    ensures RefsStamped(e, actor, refs, RetireRest(e, mid, before, policyId, wanted, actor))
  {
  }

  lemma PolicyStamps(e: Env, policies: map<string, PolicyRow>, input: SetInput, actor: string)
    requires OneLivePolicy(policies) && SetPolicy(e, policies, input, actor).Ok?
    ensures var (policies', id) := SetPolicy(e, policies, input, actor).value;
            && id in policies' && policies'[id].routeId == input.routeId
            && match LivePolicy(policies, input.routeId)
               case None => id !in policies && CreatedBy(policies'[id].audit, TriggerActor(e.dialect, actor), e.ts)
               case Some(p) => p == id && WrittenBy(policies[id].audit, policies'[id].audit, TriggerActor(e.dialect, actor), e.ts)
  {
  }

  /** Every row a Set writes carries the time of the statement and its actor; the policy always does. What it does not
      write stays as it was; and a row that was there keeps its creation. */
  lemma SetStamps(e: Env, st: Store, input: SetInput, actor: string)
    requires Inv(st) && SetTx(e, st, input, actor).Ok?
    ensures var st' := SetTx(e, st, input, actor).value;
            && RefsStamped(e, actor, st.refs, st'.refs)
            && OneLivePolicy(st'.policies) && LivePolicy(st'.policies, input.routeId).Some?
            && var id := LivePolicy(st'.policies, input.routeId).value;
               match LivePolicy(st.policies, input.routeId)
               case None => CreatedBy(st'.policies[id].audit, TriggerActor(e.dialect, actor), e.ts)
               case Some(p) => p == id && WrittenBy(st.policies[id].audit, st'.policies[id].audit, TriggerActor(e.dialect, actor), e.ts)
  {
    PolicyStamps(e, st.policies, input, actor);
    SetEffect(e, st, input, actor);
    var id := SetPolicy(e, st.policies, input, actor).value.1;
    SetPolicyEffect(e, st.policies, input, actor);
    ApplyAllStamps(e, st.refs, id, RowOfKey(st.refs, id), input.permissions, actor);
    var mid := ApplyAll(e, st.refs, id, RowOfKey(st.refs, id), input.permissions, actor).value;
    RetireStamps(e, st.refs, mid, st.refs.Keys, id, Keys(input.permissions), actor);
  }

  // ---------------------------------------------------------------- SyncRoutes

  function RouteAudit(rows: map<string, RouteRow>, id: string): Option<Audit> {
    if id in rows then Some(rows[id].audit) else None
  }

  /** Each row is as it was and not listed, or stamped; the listed routes are discovered now, the others when they were. */
  ghost predicate RoutesStamped(t: RouteSync.Clock, actor: string, rows: map<string, RouteRow>, rows': map<string, RouteRow>, listed: set<string>) {
    && rows'.Keys == rows.Keys + listed
    && (forall id :: id in rows' ==>
          (id in rows && id !in listed && rows'[id] == rows[id])
          || Stamped(RouteAudit(rows, id), rows'[id].audit, TriggerActor(t.dialect, actor), t.ts))
    && forall id :: id in rows' ==> rows'[id].lastDiscoveredAt == if id in listed then t.now else rows[id].lastDiscoveredAt
  }

  lemma StopStamps(t: RouteSync.Clock, rows: map<string, RouteRow>, service: string, protocol: string, actor: string)
    requires TriggerActor(t.dialect, actor) != ""
    ensures RoutesStamped(t, actor, rows, RouteSync.StopAll(t, rows, service, protocol, actor), {})
  {
  }

  lemma PutRouteStamped(t: RouteSync.Clock, actor: string, rows: map<string, RouteRow>, mid: map<string, RouteRow>, listed: set<string>,
                        id: string, row: RouteRow)
    requires RoutesStamped(t, actor, rows, mid, listed) && row.lastDiscoveredAt == t.now
    requires Stamped(RouteAudit(rows, id), row.audit, TriggerActor(t.dialect, actor), t.ts)
    ensures RoutesStamped(t, actor, rows, mid[id := row], listed + {id})
  {
  }

  lemma UpsertStamps(t: RouteSync.Clock, rows: map<string, RouteRow>, mid: map<string, RouteRow>, listed: set<string>, r: RouteSync.Route, actor: string)
    requires TriggerActor(t.dialect, actor) != "" && RoutesStamped(t, actor, rows, mid, listed)
    ensures var u := RouteSync.Upsert(t, mid, r, actor); u.Ok? ==> RoutesStamped(t, actor, rows, u.value, listed + {r.id})
  {
    var u := RouteSync.Upsert(t, mid, r, actor);
    if u.Ok? {
      if r.id in mid {
        StampedAgain(RouteAudit(rows, r.id), mid[r.id].audit, u.value[r.id].audit, TriggerActor(t.dialect, actor), t.ts);
      }
      PutRouteStamped(t, actor, rows, mid, listed, r.id, u.value[r.id]);
    }
  }

  lemma {:induction false} UpsertAllStamps(t: RouteSync.Clock, rows: map<string, RouteRow>, stopped: map<string, RouteRow>, rs: seq<RouteSync.Route>, actor: string)
    requires TriggerActor(t.dialect, actor) != "" && RoutesStamped(t, actor, rows, stopped, {})
    ensures var u := RouteSync.UpsertAll(t, stopped, rs, actor); u.Ok? ==> RoutesStamped(t, actor, rows, u.value, RouteSync.Ids(rs))
  {
    if rs != [] {
      var n := |rs| - 1;
      UpsertAllStamps(t, rows, stopped, rs[..n], actor);
      var mid := RouteSync.UpsertAll(t, stopped, rs[..n], actor);
      if mid.Ok? { UpsertStamps(t, rows, mid.value, RouteSync.Ids(rs[..n]), rs[n], actor); }
      assert RouteSync.Ids(rs) == RouteSync.Ids(rs[..n]) + {rs[n].id} by {
        assert forall i :: 0 <= i < n ==> rs[..n][i] == rs[i];
      }
    } else {
      assert RouteSync.Ids(rs) == {};
    }
  }

  /** Every route row a sync writes carries the time of the statement and its actor, keeps its creation, and the listed
      routes carry the time they were discovered. */
  lemma SyncStamps(t: RouteSync.Clock, rows: map<string, RouteRow>, rs: seq<RouteSync.Route>, actor: string)
    requires RouteSync.SyncTx(t, rows, rs, actor).Ok?
    ensures RoutesStamped(t, actor, rows, RouteSync.SyncTx(t, rows, rs, actor).value, RouteSync.Ids(rs))
  {
    RouteSync.ActorIsRecorded(t.dialect, actor);
    StopStamps(t, rows, rs[0].service, rs[0].protocol, actor);
    UpsertAllStamps(t, rows, RouteSync.StopAll(t, rows, rs[0].service, rs[0].protocol, actor), rs, actor);
  }
}
