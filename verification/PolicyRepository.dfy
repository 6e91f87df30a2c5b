/** `Repository.Set` statement by statement: a transaction over the three tables that commits or rolls back
    (internal/routepolicy/repository.go:199-264, internal/database/transaction.go:22-44). */
module PolicyRepository {
  import opened Basics
  import opened AuditModel
  import opened Text
  import opened RowTrigger
  import opened PolicyStore

  // ---------------------------------------------------------------- how the loops meet their specifications

  lemma {:induction false} ErrStays(e: Env, refs: map<string, RefRow>, policyId: string, byKey: map<string, string>, ps: seq<Permission>, i: nat, actor: string)
    requires (forall k :: k in byKey ==> byKey[k] in refs) && i <= |ps|
    requires ApplyAll(e, refs, policyId, byKey, ps[..i], actor).Err?
    ensures ApplyAll(e, refs, policyId, byKey, ps, actor).Err?
  {
    if i == |ps| {
      assert ps[..i] == ps;
    } else {
      var n := |ps| - 1;
      assert ps[..n][..i] == ps[..i];
      ErrStays(e, refs, policyId, byKey, ps[..n], i, actor);
    }
  }

  lemma ApplyNext(e: Env, refs: map<string, RefRow>, policyId: string, byKey: map<string, string>, ps: seq<Permission>, i: nat, actor: string, mid: map<string, RefRow>)
    requires (forall k :: k in byKey ==> byKey[k] in refs) && i < |ps|
    requires ApplyAll(e, refs, policyId, byKey, ps[..i], actor) == Ok(mid)
    ensures forall k :: k in byKey ==> byKey[k] in mid
    ensures ApplyAll(e, refs, policyId, byKey, ps[..i + 1], actor) == ApplyOne(e, mid, policyId, byKey, ps[i], i, actor)
  {
    assert ps[..i + 1][..i] == ps[..i];
  }

  lemma KeysNext(ps: seq<Permission>, i: nat)
    requires i < |ps|
    ensures Keys(ps[..i + 1]) == Keys(ps[..i]) + {ps[i].key}
  {
    forall k | k in Keys(ps[..i + 1]) ensures k in Keys(ps[..i]) + {ps[i].key} {
      var j :| 0 <= j < i + 1 && ps[..i + 1][j].key == k;
      if j < i { assert ps[..i][j].key == k; }
    }
    forall k | k in Keys(ps[..i]) + {ps[i].key} ensures k in Keys(ps[..i + 1]) {
      if k == ps[i].key {
        assert ps[..i + 1][i].key == k;
      } else {
        var j :| 0 <= j < i && ps[..i][j].key == k;
        assert ps[..i + 1][j].key == k;
      }
    }
  }

  /** The ids are those of the policy's rows, each once. */
  ghost predicate RowsOf(refs: map<string, RefRow>, policyId: string, ids: seq<string>) {
    && (forall i :: 0 <= i < |ids| ==> ids[i] in refs && refs[ids[i]].policyId == policyId)
    && (forall id :: id in refs && refs[id].policyId == policyId ==> id in ids)
    && (forall i, j :: 0 <= i < j < |ids| ==> ids[i] != ids[j])
  }

  lemma KeptRows(refs0: map<string, RefRow>, mid: map<string, RefRow>, policyId: string, existing: seq<string>)
    requires RowsOf(refs0, policyId, existing) && RowsKept(refs0, mid, policyId)
    ensures forall id :: id in existing ==> id in mid
    ensures forall id :: id in mid ==> (id in existing <==> id in refs0.Keys && mid[id].policyId == policyId)
  {
  }

  class Repository {
    const dialect: Dialect
    var routes: map<string, RouteRow>
    var policies: map<string, PolicyRow>
    var refs: map<string, RefRow>

    constructor (dialect: Dialect)
      ensures this.dialect == dialect && Tables() == Store(map[], map[], map[])
    {
      this.dialect := dialect;
      routes, policies, refs := map[], map[], map[];
    }

    ghost function Tables(): Store
      reads this
    {
      Store(routes, policies, refs)
    }

    /** SELECT ... FROM route_policy_definitions WHERE route_id = ? AND deleted_at IS NULL FOR UPDATE */
    method SelectPolicy(routeId: string) returns (found: Option<string>)
      requires OneLivePolicy(policies)
      ensures found == LivePolicy(policies, routeId)
    {
      found := None;
      var rest := policies.Keys;
      while rest != {}
        invariant rest <= policies.Keys && found.None?
        invariant forall id :: id in policies && id !in rest ==> !(Live(policies[id].audit) && policies[id].routeId == routeId)
        decreases |rest|
      {
        var id :| id in rest;
        if Live(policies[id].audit) && policies[id].routeId == routeId {
          return Some(id);
        }
        rest := rest - {id};
      }
    }

    /** SELECT ... FROM route_policy_permission_refs WHERE policy_id = ?, soft-deleted rows included */
    method SelectRefs(policyId: string) returns (existing: seq<string>)
      ensures RowsOf(refs, policyId, existing)
    {
      existing := [];
      var rest := refs.Keys;
      while rest != {}
        invariant rest <= refs.Keys
        invariant forall i :: 0 <= i < |existing| ==> existing[i] in refs && existing[i] !in rest && refs[existing[i]].policyId == policyId
        invariant forall id :: id in refs && id !in rest && refs[id].policyId == policyId ==> id in existing
        invariant forall i, j :: 0 <= i < j < |existing| ==> existing[i] != existing[j]
        decreases |rest|
      {
        var id :| id in rest;
        if refs[id].policyId == policyId {
          existing := existing + [id];
        }
        rest := rest - {id};
      }
    }

    method IndexByKey(policyId: string, existing: seq<string>) returns (byKey: map<string, string>)
      requires UniqueKeys(refs) && RowsOf(refs, policyId, existing)
      ensures byKey == RowOfKey(refs, policyId)
    {
      byKey := map[];
      for i := 0 to |existing|
        invariant forall k :: k in byKey ==> byKey[k] in existing[..i] && refs[byKey[k]].key == k
        invariant forall j :: 0 <= j < i ==> refs[existing[j]].key in byKey && byKey[refs[existing[j]].key] == existing[j]
      {
        byKey := byKey[refs[existing[i]].key := existing[i]];
      }
    }

    /** The policy row of the call, inserted or updated under its lock. */
    method WritePolicy(e: Env, input: SetInput, actor: string) returns (r: Result<string, SetError>)
      requires OneLivePolicy(policies)
      modifies this`policies
      ensures match SetPolicy(e, old(policies), input, actor)
              case Err(err) => r == Err(err) && policies == old(policies)
              case Ok((ps, id)) => r == Ok(id) && policies == ps
    {
      var row := SelectPolicy(input.routeId);
      match row {
        case None =>
          if input.expectedVersion != 0 {
            return Err(Stale);
          }
          match InsertPolicy(e, policies, input, actor) {
            case Err(_) => return Err(DbError);
            case Ok(ps) => policies := ps;
          }
          return Ok(e.policyId);
        case Some(id) =>
          if policies[id].audit.version != input.expectedVersion {
            return Err(Stale);
          }
          match UpdatePolicy(e, policies, id, input, actor) {
            case Err(_) => return Err(DbError);
            case Ok(ps) => policies := ps;
          }
          return Ok(id);
      }
    }

    /** Each wanted permission is updated and revived if the policy has a row for its key, else inserted. */
    method GrantWanted(e: Env, policyId: string, byKey: map<string, string>, ps: seq<Permission>, actor: string)
      returns (r: Result<(), SetError>, desired: set<string>)
      requires forall k :: k in byKey ==> byKey[k] in refs
      modifies this`refs
      ensures match ApplyAll(e, old(refs), policyId, byKey, ps, actor)
              case Err(_) => r == Err(DbError)
              case Ok(mid) => r == Ok(()) && refs == mid && desired == Keys(ps)
    {
      ghost var refs0 := refs;
      desired := {};
      for i := 0 to |ps|
        invariant ApplyAll(e, refs0, policyId, byKey, ps[..i], actor) == Ok(refs)
        invariant desired == Keys(ps[..i])
      {
        ApplyNext(e, refs0, policyId, byKey, ps, i, actor, refs);
        KeysNext(ps, i);
        desired := desired + {ps[i].key};
        var written := if ps[i].key in byKey then ReviseRef(e, refs, byKey[ps[i].key], ps[i].perm, actor)
                       else InsertRef(e, refs, e.refId(i), policyId, ps[i], actor);
        match written {
          case Err(_) =>
            ErrStays(e, refs0, policyId, byKey, ps, i + 1, actor);
            return Err(DbError), desired;
          case Ok(next) => refs := next;
        }
      }
      assert ps[..|ps|] == ps;
      r := Ok(());
    }

    /** The rows that were there before and are no longer wanted are retired. */
    method RetireUnwanted(e: Env, policyId: string, existing: seq<string>, desired: set<string>, actor: string, ghost before: set<string>)
      requires forall i, j :: 0 <= i < j < |existing| ==> existing[i] != existing[j]
      requires forall id :: id in existing ==> id in refs
      requires forall id :: id in refs ==> (id in existing <==> id in before && refs[id].policyId == policyId)
      modifies this`refs
      ensures refs == RetireRest(e, old(refs), before, policyId, desired, actor)
    {
      ghost var mid := refs;
      ghost var goal := RetireRest(e, refs, before, policyId, desired, actor);
      for j := 0 to |existing|
        invariant refs.Keys == mid.Keys
        invariant forall id :: id in mid ==> refs[id] == if id in existing[..j] then goal[id] else mid[id]
      {
        var id := existing[j];
        assert id !in existing[..j] && existing[..j + 1] == existing[..j] + [id];
        if refs[id].key !in desired {
          refs := refs[id := RetireRef(e, refs[id], actor)];
        }
      }
      assert existing[..|existing|] == existing;
    }

    /** The permission rows of the call. */
    method WriteRefs(e: Env, policyId: string, ps: seq<Permission>, actor: string) returns (r: Result<(), SetError>)
      requires RefsOk(refs)
      modifies this`refs
      ensures match SetRefs(e, old(refs), policyId, ps, actor)
              case Err(err) => r == Err(err)
              case Ok(refs') => r == Ok(()) && refs == refs'
    {
      ghost var refs0 := refs;
      var existing := SelectRefs(policyId);
      var byKey := IndexByKey(policyId, existing);
      var desired;
      r, desired := GrantWanted(e, policyId, byKey, ps, actor);
      if r.Ok? {
        ApplyAllApplied(e, refs0, policyId, ps, actor);
        KeptRows(refs0, refs, policyId, existing);
        RetireUnwanted(e, policyId, existing, desired, actor, refs0.Keys);
      }
    }

    /** The transaction: everything is written or nothing is. An error of the COMMIT does not say which. */
    method Set(e: Env, input: SetInput, actor: string, commit: Commit) returns (r: Result<(), SetError>)
      requires e.dialect == dialect && Inv(Tables())
      modifies this
      ensures match SetTx(e, old(Tables()), input, actor)
              case Err(err) => r == Err(err) && Tables() == old(Tables())
              case Ok(st') => r == (if commit.CommitStands? then Ok(()) else Err(DbError))
                              && Tables() == if commit.CommitFails? then old(Tables()) else st'
      ensures Inv(Tables())
    {
      if AllSpace(actor) {
        return Err(DbError);
      }
      var policies0, refs0 := policies, refs;
      ghost var st := Store(routes, policies0, refs0);
      r := SetRows(e, input, actor);
      if r.Err? || commit.CommitFails? {
        policies, refs := policies0, refs0;
      } else {
        SetEffect(e, st, input, actor);
      }
      if r.Ok? && !commit.CommitStands? {
        r := Err(DbError);
      }
    }

    /** The statements of the transaction. */
    method SetRows(e: Env, input: SetInput, actor: string) returns (r: Result<(), SetError>)
      requires Inv(Tables()) && !AllSpace(actor)
      modifies this`policies, this`refs
      ensures match SetTx(e, old(Tables()), input, actor)
              case Err(err) => r == Err(err)
              case Ok(st') => r == Ok(()) && Tables() == st'
    {
      if input.routeId !in routes || !Live(routes[input.routeId].audit) {
        return Err(RouteMissing);
      }
      var id := WritePolicy(e, input, actor);
      if id.Err? {
        return Err(id.error);
      }
      r := WriteRefs(e, id.value, input.permissions, actor);
    }
  }
}
