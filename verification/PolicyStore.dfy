/** The route policy tables and the transaction of `Repository.Set`: optimistic locking on the version that the
    trigger counts, and reconciliation of the permission rows by update, insert and soft delete
    (internal/routepolicy/repository.go:199-264). */
module PolicyStore {
  import opened Basics
  import opened AuditModel
  import opened Text
  import opened RowTrigger

  datatype RouteRow = RouteRow(
    protocol: string, method_: string, path: string, operation: string, description: string, service: string,
    sourceVersion: string, status: string, lastDiscoveredAt: Time, audit: Audit)

  datatype PolicyRow = PolicyRow(routeId: string, expression: string, description: string, status: string, audit: Audit)

  datatype RefRow = RefRow(policyId: string, key: string, perm: Perm, audit: Audit)

  /** What a permission reference grants. */
  datatype Perm = Perm(resource: string, action: string, scope: string)

  datatype Permission = Permission(key: string, perm: Perm)

  datatype SetInput = SetInput(
    routeId: string, expression: string, description: string, status: string,
    expectedVersion: int, permissions: seq<Permission>)

  /** The three tables, keyed by id. */
  datatype Store = Store(routes: map<string, RouteRow>, policies: map<string, PolicyRow>, refs: map<string, RefRow>)

  datatype SetError = RouteMissing | Stale | DbError

  /** What becomes of a COMMIT: it takes effect, it fails, or it takes effect and its reply is lost. The caller sees
      an error in both of the latter cases. */
  datatype Commit = CommitStands | CommitFails | ReplyLost

  /** The clock of the service, the clock of the database, the ids the UUID generator returns. */
  datatype Env = Env(dialect: Dialect, now: Time, ts: Time, policyId: string, refId: nat -> string)

  // ---------------------------------------------------------------- the statements

  const SCOPES := {"tenant", "platform", "principal"}

  /** Another row stands in the way of (policy, key): the unique index of Postgres covers live rows, the one of
      MySQL all rows. */
  predicate KeyTaken(d: Dialect, refs: map<string, RefRow>, id: string, policyId: string, key: string) {
    exists other :: other in refs && other != id && refs[other].policyId == policyId && refs[other].key == key
                    && (d.MySql? || Live(refs[other].audit))
  }

  predicate RouteTaken(d: Dialect, policies: map<string, PolicyRow>, routeId: string) {
    exists other :: other in policies && policies[other].routeId == routeId && (d.MySql? || Live(policies[other].audit))
  }

  function InsertPolicy(e: Env, policies: map<string, PolicyRow>, input: SetInput, actor: string): Result<map<string, PolicyRow>, ()> {
    match OnInsert(e.dialect, actor, e.ts)
    case Err(_) => Err(())
    case Ok(audit) =>
      if e.policyId in policies || RouteTaken(e.dialect, policies, input.routeId)
         || (e.dialect.Postgres? && input.status != "active" && input.status != "disabled") then Err(())
      else Ok(policies[e.policyId := PolicyRow(input.routeId, input.expression, input.description, input.status, audit)])
  }

  function UpdatePolicy(e: Env, policies: map<string, PolicyRow>, id: string, input: SetInput, actor: string): Result<map<string, PolicyRow>, ()>
    requires id in policies
  {
    match OnUpdate(e.dialect, policies[id].audit, Keep, actor, e.ts)
    case Err(_) => Err(())
    case Ok(audit) =>
      if e.dialect.Postgres? && input.status != "active" && input.status != "disabled" then Err(())
      else Ok(policies[id := PolicyRow(policies[id].routeId, input.expression, input.description, input.status, audit)])
  }

  function InsertRef(e: Env, refs: map<string, RefRow>, id: string, policyId: string, p: Permission, actor: string): Result<map<string, RefRow>, ()> {
    match OnInsert(e.dialect, actor, e.ts)
    case Err(_) => Err(())
    case Ok(audit) =>
      if id in refs || KeyTaken(e.dialect, refs, id, policyId, p.key) || (e.dialect.Postgres? && p.perm.scope !in SCOPES) then Err(())
      else Ok(refs[id := RefRow(policyId, p.key, p.perm, audit)])
  }

  /** UPDATE ... SET resource, action, scope, deleted_at = NULL, deleted_by = NULL WHERE id = ? */
  function ReviseRef(e: Env, refs: map<string, RefRow>, id: string, p: Perm, actor: string): Result<map<string, RefRow>, ()>
    requires id in refs
  {
    match OnUpdate(e.dialect, refs[id].audit, Revive, actor, e.ts)
    case Err(_) => Err(())
    case Ok(audit) =>
      if KeyTaken(e.dialect, refs, id, refs[id].policyId, refs[id].key) || (e.dialect.Postgres? && p.scope !in SCOPES) then Err(())
      else Ok(refs[id := refs[id].(perm := p, audit := audit)])
  }

  /** UPDATE ... SET deleted_at = ?, deleted_by = ? WHERE id = ? AND deleted_at IS NULL */
  function RetireRef(e: Env, row: RefRow, actor: string): RefRow {
    if !Live(row.audit) then row
    else match OnUpdate(e.dialect, row.audit, Retire(e.now, actor), actor, e.ts)
      case Err(_) => row
      case Ok(audit) => row.(audit := audit)
  }

  // ---------------------------------------------------------------- the invariant

  /** At most one row per (policy, key), counting the soft-deleted ones: more than Postgres enforces. */
  ghost predicate UniqueKeys(refs: map<string, RefRow>) {
    forall a, b :: a in refs && b in refs && a != b && refs[a].policyId == refs[b].policyId ==> refs[a].key != refs[b].key
  }

  ghost predicate OneLivePolicy(policies: map<string, PolicyRow>) {
    forall a, b :: a in policies && b in policies && a != b && Live(policies[a].audit) && Live(policies[b].audit) ==>
      policies[a].routeId != policies[b].routeId
  }

  /** Every permission row belongs to a policy row. */
  ghost predicate Referenced(ids: set<string>, refs: map<string, RefRow>) {
    forall id :: id in refs ==> refs[id].policyId in ids
  }

  ghost predicate WellDeletedRefs(refs: map<string, RefRow>) {
    forall id :: id in refs ==> WellDeleted(refs[id].audit)
  }

  ghost predicate RefsOk(refs: map<string, RefRow>) {
    UniqueKeys(refs) && WellDeletedRefs(refs)
  }

  ghost predicate PoliciesOk(policies: map<string, PolicyRow>) {
    OneLivePolicy(policies) && forall id :: id in policies ==> WellDeleted(policies[id].audit)
  }

  ghost predicate Inv(st: Store) {
    PoliciesOk(st.policies) && RefsOk(st.refs) && Referenced(st.policies.Keys, st.refs)
  }

  // ---------------------------------------------------------------- the transaction

  /** The live policy of a route, as SELECT ... FOR UPDATE finds it. */
  ghost function LivePolicy(policies: map<string, PolicyRow>, routeId: string): (r: Option<string>)
    requires OneLivePolicy(policies)
    ensures r.Some? ==> r.value in policies && Live(policies[r.value].audit) && policies[r.value].routeId == routeId
    ensures r.None? <==> forall id :: id in policies ==> !(Live(policies[id].audit) && policies[id].routeId == routeId)
  {
    if id :| id in policies && Live(policies[id].audit) && policies[id].routeId == routeId then Some(id) else None
  }

  /** The rows of a policy by key, live or deleted. */
  ghost function RowOfKey(refs: map<string, RefRow>, policyId: string): (m: map<string, string>)
    requires UniqueKeys(refs)
    ensures forall k :: k in m ==> m[k] in refs && refs[m[k]].policyId == policyId && refs[m[k]].key == k
    ensures forall id :: id in refs && refs[id].policyId == policyId ==> refs[id].key in m && m[refs[id].key] == id
  {
    map id | id in refs && refs[id].policyId == policyId :: refs[id].key := id
  }

  /** One permission of the input: its row is updated and revived if the policy has one for the key, otherwise
      a row is inserted. */
  function ApplyOne(e: Env, refs: map<string, RefRow>, policyId: string, byKey: map<string, string>, p: Permission, i: nat, actor: string): Result<map<string, RefRow>, ()>
    requires p.key in byKey ==> byKey[p.key] in refs
  {
    if p.key in byKey then ReviseRef(e, refs, byKey[p.key], p.perm, actor) else InsertRef(e, refs, e.refId(i), policyId, p, actor)
  }

  function ApplyAll(e: Env, refs: map<string, RefRow>, policyId: string, byKey: map<string, string>, ps: seq<Permission>, actor: string): (r: Result<map<string, RefRow>, ()>)
    requires forall k :: k in byKey ==> byKey[k] in refs
    ensures r.Ok? ==> refs.Keys <= r.value.Keys
  {
    if ps == [] then Ok(refs)
    else
      var n := |ps| - 1;
      match ApplyAll(e, refs, policyId, byKey, ps[..n], actor)
      case Err(_) => Err(())
      case Ok(mid) => ApplyOne(e, mid, policyId, byKey, ps[n], n, actor)
  }

  function Keys(ps: seq<Permission>): set<string> {
    set i | 0 <= i < |ps| :: ps[i].key
  }

  /** The rows of the policy that existed before and are no longer wanted are retired. */
  function RetireRest(e: Env, refs: map<string, RefRow>, before: set<string>, policyId: string, wanted: set<string>, actor: string): map<string, RefRow> {
    map id | id in refs ::
      if id in before && refs[id].policyId == policyId && refs[id].key !in wanted then RetireRef(e, refs[id], actor) else refs[id]
  }

  /** The policy row of the call: inserted, or updated if the version is the expected one. */
  ghost function SetPolicy(e: Env, policies: map<string, PolicyRow>, input: SetInput, actor: string): Result<(map<string, PolicyRow>, string), SetError>
    requires OneLivePolicy(policies)
  {
    match LivePolicy(policies, input.routeId)
    case None =>
      if input.expectedVersion != 0 then Err(Stale)
      else (match InsertPolicy(e, policies, input, actor) case Err(_) => Err(DbError) case Ok(ps) => Ok((ps, e.policyId)))
    case Some(id) =>
      if policies[id].audit.version != input.expectedVersion then Err(Stale)
      else (match UpdatePolicy(e, policies, id, input, actor) case Err(_) => Err(DbError) case Ok(ps) => Ok((ps, id)))
  }

  /** The permission rows of the call. */
  ghost function SetRefs(e: Env, refs: map<string, RefRow>, policyId: string, ps: seq<Permission>, actor: string): Result<map<string, RefRow>, SetError>
    requires UniqueKeys(refs)
  {
    match ApplyAll(e, refs, policyId, RowOfKey(refs, policyId), ps, actor)
    case Err(_) => Err(DbError)
    case Ok(mid) => Ok(RetireRest(e, mid, refs.Keys, policyId, Keys(ps), actor))
  }

  /** Repository.Set as one transaction. */
  ghost function SetTx(e: Env, st: Store, input: SetInput, actor: string): Result<Store, SetError>
    requires Inv(st)
  {
    if AllSpace(actor) then Err(DbError)
    else if input.routeId !in st.routes || !Live(st.routes[input.routeId].audit) then Err(RouteMissing)
    else match SetPolicy(e, st.policies, input, actor)
      case Err(err) => Err(err)
      case Ok((policies, id)) =>
        match SetRefs(e, st.refs, id, input.permissions, actor)
        case Err(err) => Err(err)
        case Ok(refs) => Ok(Store(st.routes, policies, refs))
  }

  // ---------------------------------------------------------------- what a Set does to the permission rows

  /** The permissions an input asks for; a repeated key counts with its last occurrence. */
  function Wanted(ps: seq<Permission>): (m: map<string, Perm>)
    ensures m.Keys == Keys(ps)
  {
    if ps == [] then map[] else
      var n := |ps| - 1;
      assert Keys(ps) == Keys(ps[..n]) + {ps[n].key} by {
        assert forall i :: 0 <= i < n ==> ps[..n][i] == ps[i];
      }
      Wanted(ps[..n])[ps[n].key := ps[n].perm]
  }

  /** The live permissions of a policy. */
  ghost function LivePerms(refs: map<string, RefRow>, policyId: string): map<string, Perm>
    requires UniqueKeys(refs)
  {
    map id | id in refs && refs[id].policyId == policyId && Live(refs[id].audit) :: refs[id].key := refs[id].perm
  }

  /** Rows are kept: none is removed, none changes its policy, key or creation, versions never fall, and the rows
      of other policies are untouched. */
  ghost predicate RowsKept(refs: map<string, RefRow>, refs': map<string, RefRow>, policyId: string) {
    && (forall id :: id in refs ==>
          && id in refs' && refs'[id].policyId == refs[id].policyId && refs'[id].key == refs[id].key
          && refs'[id].audit.createdBy == refs[id].audit.createdBy && refs'[id].audit.createdAt == refs[id].audit.createdAt
          && refs'[id].audit.version >= refs[id].audit.version
          && (refs[id].policyId != policyId ==> refs'[id] == refs[id]))
    && (forall id :: id in refs' && id !in refs ==> refs'[id].policyId == policyId)
  }

  ghost predicate HasRow(refs: map<string, RefRow>, policyId: string, key: string) {
    exists id :: id in refs && refs[id].policyId == policyId && refs[id].key == key
  }

  /** Each wanted key has a row. */
  ghost predicate Covered(mid: map<string, RefRow>, policyId: string, wanted: map<string, Perm>) {
    forall k :: k in wanted.Keys ==> HasRow(mid, policyId, k)
  }

  /** The rows of wanted keys are live with the wanted content. */
  ghost predicate Granted(mid: map<string, RefRow>, policyId: string, wanted: map<string, Perm>) {
    forall id :: id in mid && mid[id].policyId == policyId && mid[id].key in wanted ==>
      Live(mid[id].audit) && mid[id].perm == wanted[mid[id].key]
  }

  /** All other rows are old and as they were. */
  ghost predicate Others(refs: map<string, RefRow>, mid: map<string, RefRow>, policyId: string, wanted: map<string, Perm>) {
    forall id :: id in mid && (mid[id].policyId != policyId || mid[id].key !in wanted) ==> id in refs && mid[id] == refs[id]
  }

  /** Halfway through the permissions. */
  ghost predicate Applied(refs: map<string, RefRow>, mid: map<string, RefRow>, policyId: string, wanted: map<string, Perm>) {
    && UniqueKeys(mid) && WellDeletedRefs(mid) && RowsKept(refs, mid, policyId)
    && Covered(mid, policyId, wanted) && Granted(mid, policyId, wanted) && Others(refs, mid, policyId, wanted)
  }

  /** `row` takes the place of the policy's row for its key, or is the first row for it. */
  ghost predicate Fits(mid: map<string, RefRow>, policyId: string, id: string, row: RefRow) {
    && row.policyId == policyId
    && if id in mid
       then && mid[id].policyId == policyId && mid[id].key == row.key && row.audit.version >= mid[id].audit.version
            && row.audit.createdAt == mid[id].audit.createdAt && row.audit.createdBy == mid[id].audit.createdBy
       else !HasRow(mid, policyId, row.key)
  }

  lemma PutApplied(refs: map<string, RefRow>, mid: map<string, RefRow>, policyId: string, wanted: map<string, Perm>, id: string, row: RefRow)
    requires Applied(refs, mid, policyId, wanted) && Fits(mid, policyId, id, row) && Live(row.audit) && WellDeleted(row.audit)
    ensures Applied(refs, mid[id := row], policyId, wanted[row.key := row.perm])
  {
    PutKeeps(refs, mid, policyId, id, row);
    PutCovered(mid, policyId, wanted, id, row);
    PutGranted(mid, policyId, wanted, id, row);
  }

  lemma PutCovered(mid: map<string, RefRow>, policyId: string, wanted: map<string, Perm>, id: string, row: RefRow)
    requires Covered(mid, policyId, wanted) && Fits(mid, policyId, id, row)
    ensures Covered(mid[id := row], policyId, wanted[row.key := row.perm])
  {
    var mid', wanted' := mid[id := row], wanted[row.key := row.perm];
    forall k | k in wanted'.Keys ensures HasRow(mid', policyId, k) {
      if k != row.key {
        assert HasRow(mid, policyId, k);
        var x :| x in mid && mid[x].policyId == policyId && mid[x].key == k;
        assert mid'[x].key == k;
      } else {
        assert mid'[id].key == k;
      }
    }
  }

  lemma PutGranted(mid: map<string, RefRow>, policyId: string, wanted: map<string, Perm>, id: string, row: RefRow)
    requires UniqueKeys(mid) && Granted(mid, policyId, wanted) && Fits(mid, policyId, id, row) && Live(row.audit)
    ensures Granted(mid[id := row], policyId, wanted[row.key := row.perm])
  {
  }

  lemma PutKeeps(refs: map<string, RefRow>, mid: map<string, RefRow>, policyId: string, id: string, row: RefRow)
    requires UniqueKeys(mid) && RowsKept(refs, mid, policyId) && Fits(mid, policyId, id, row)
    ensures UniqueKeys(mid[id := row]) && RowsKept(refs, mid[id := row], policyId)
  {
  }

  /** An insert the unique index lets through adds a key the policy had no row for, not even a deleted one: a row
      for it would have been inserted by this call, and then it is live. */
  lemma FreshKey(d: Dialect, refs: map<string, RefRow>, mid: map<string, RefRow>, policyId: string, wanted: map<string, Perm>, key: string, target: string)
    requires !HasRow(refs, policyId, key) && Granted(mid, policyId, wanted) && Others(refs, mid, policyId, wanted)
    requires !KeyTaken(d, mid, target, policyId, key) && target !in mid
    ensures !HasRow(mid, policyId, key)
  {
  }

  lemma NoRowOfKey(refs: map<string, RefRow>, policyId: string, key: string)
    requires UniqueKeys(refs)
    ensures key in RowOfKey(refs, policyId) <==> HasRow(refs, policyId, key)
  {
  }

  /** The row that one permission of the input writes. */
  lemma OneFits(e: Env, mid: map<string, RefRow>, policyId: string, byKey: map<string, string>, p: Permission, i: nat, actor: string)
    requires p.key in byKey ==> byKey[p.key] in mid && mid[byKey[p.key]].policyId == policyId && mid[byKey[p.key]].key == p.key
                                && WellDeleted(mid[byKey[p.key]].audit)
    requires p.key !in byKey && e.refId(i) !in mid && !KeyTaken(e.dialect, mid, e.refId(i), policyId, p.key) ==> !HasRow(mid, policyId, p.key)
    ensures var r, id := ApplyOne(e, mid, policyId, byKey, p, i, actor), if p.key in byKey then byKey[p.key] else e.refId(i);
            r.Ok? ==>
              && id in r.value && r.value == mid[id := r.value[id]] && Fits(mid, policyId, id, r.value[id])
              && Live(r.value[id].audit) && WellDeleted(r.value[id].audit) && r.value[id].key == p.key && r.value[id].perm == p.perm
  {
  }

  lemma ApplyOneApplied(e: Env, refs: map<string, RefRow>, mid: map<string, RefRow>, policyId: string, wanted: map<string, Perm>, p: Permission, i: nat, actor: string)
    requires UniqueKeys(refs) && Applied(refs, mid, policyId, wanted)
    ensures ApplyOne(e, mid, policyId, RowOfKey(refs, policyId), p, i, actor).Ok? ==>
              Applied(refs, ApplyOne(e, mid, policyId, RowOfKey(refs, policyId), p, i, actor).value, policyId, wanted[p.key := p.perm])
  {
    var byKey := RowOfKey(refs, policyId);
    NoRowOfKey(refs, policyId, p.key);
    if p.key !in byKey && e.refId(i) !in mid && !KeyTaken(e.dialect, mid, e.refId(i), policyId, p.key) {
      FreshKey(e.dialect, refs, mid, policyId, wanted, p.key, e.refId(i));
    }
    OneFits(e, mid, policyId, byKey, p, i, actor);
    var r := ApplyOne(e, mid, policyId, byKey, p, i, actor);
    if r.Ok? {
      var id := if p.key in byKey then byKey[p.key] else e.refId(i);
      PutApplied(refs, mid, policyId, wanted, id, r.value[id]);
    }
  }

  lemma {:induction false} ApplyAllApplied(e: Env, refs: map<string, RefRow>, policyId: string, ps: seq<Permission>, actor: string)
    requires UniqueKeys(refs) && WellDeletedRefs(refs)
    ensures var r := ApplyAll(e, refs, policyId, RowOfKey(refs, policyId), ps, actor);
            r.Ok? ==> Applied(refs, r.value, policyId, Wanted(ps))
  {
    if ps != [] {
      var n := |ps| - 1;
      ApplyAllApplied(e, refs, policyId, ps[..n], actor);
      var r := ApplyAll(e, refs, policyId, RowOfKey(refs, policyId), ps[..n], actor);
      if r.Ok? {
        ApplyOneApplied(e, refs, r.value, policyId, Wanted(ps[..n]), ps[n], n, actor);
      }
    }
  }

  /** A row as an update that retires it leaves it. */
  ghost predicate Retired(row: RefRow, row': RefRow) {
    && row'.policyId == row.policyId && row'.key == row.key && !Live(row'.audit) && row'.audit.version >= row.audit.version
    && row'.audit.createdAt == row.audit.createdAt && row'.audit.createdBy == row.audit.createdBy
  }

  lemma RetireRefRetires(e: Env, row: RefRow, actor: string)
    requires TriggerActor(e.dialect, actor) != ""
    ensures Retired(row, RetireRef(e, row, actor))
  {
  }

  /** Some unwanted rows of the policy are retired, everything else is as it was. */
  ghost predicate Swept(refs: map<string, RefRow>, mid: map<string, RefRow>, refs': map<string, RefRow>, policyId: string, wanted: set<string>) {
    && refs'.Keys == mid.Keys
    && forall id :: id in mid ==>
         if id in refs && mid[id].policyId == policyId && mid[id].key !in wanted then Retired(mid[id], refs'[id]) else refs'[id] == mid[id]
  }

  lemma SweptUnique(refs: map<string, RefRow>, mid: map<string, RefRow>, refs': map<string, RefRow>, policyId: string, wanted: set<string>)
    requires RefsOk(mid) && Swept(refs, mid, refs', policyId, wanted)
    ensures RefsOk(refs')
  {
    forall id | id in mid ensures refs'[id].policyId == mid[id].policyId && refs'[id].key == mid[id].key && WellDeleted(refs'[id].audit) {}
  }

  lemma SweptKept(refs: map<string, RefRow>, mid: map<string, RefRow>, refs': map<string, RefRow>, policyId: string, wanted: set<string>)
    requires RowsKept(refs, mid, policyId) && Swept(refs, mid, refs', policyId, wanted)
    ensures RowsKept(refs, refs', policyId)
  {
  }

  lemma SweptCovered(refs: map<string, RefRow>, mid: map<string, RefRow>, refs': map<string, RefRow>, policyId: string, wanted: map<string, Perm>)
    requires Covered(mid, policyId, wanted) && Swept(refs, mid, refs', policyId, wanted.Keys)
    ensures Covered(refs', policyId, wanted)
  {
    forall k | k in wanted.Keys ensures HasRow(refs', policyId, k) {
      assert HasRow(mid, policyId, k);
      var x :| x in mid && mid[x].policyId == policyId && mid[x].key == k;
      assert refs'[x].key == k;
    }
  }

  lemma SweptGranted(refs: map<string, RefRow>, mid: map<string, RefRow>, refs': map<string, RefRow>, policyId: string, wanted: map<string, Perm>)
    requires Granted(mid, policyId, wanted) && Others(refs, mid, policyId, wanted) && Swept(refs, mid, refs', policyId, wanted.Keys)
    ensures Granted(refs', policyId, wanted)
    ensures forall id :: id in refs' && refs'[id].policyId == policyId && Live(refs'[id].audit) ==> refs'[id].key in wanted
  {
    forall id | id in refs' && refs'[id].policyId == policyId
      ensures if refs'[id].key in wanted then Live(refs'[id].audit) && refs'[id].perm == wanted[refs'[id].key] else !Live(refs'[id].audit)
    {
      assert id in mid && mid[id].key == refs'[id].key && mid[id].policyId == policyId;
    }
  }

  lemma RetireRestSweeps(e: Env, refs: map<string, RefRow>, mid: map<string, RefRow>, policyId: string, wanted: set<string>, actor: string)
    requires TriggerActor(e.dialect, actor) != ""
    ensures Swept(refs, mid, RetireRest(e, mid, refs.Keys, policyId, wanted, actor), policyId, wanted)
  {
    forall id | id in mid ensures Retired(mid[id], RetireRef(e, mid[id], actor)) {
      RetireRefRetires(e, mid[id], actor);
    }
  }

  lemma LivePermsAre(refs: map<string, RefRow>, policyId: string, wanted: map<string, Perm>)
    requires UniqueKeys(refs) && Covered(refs, policyId, wanted) && Granted(refs, policyId, wanted)
    requires forall id :: id in refs && refs[id].policyId == policyId && Live(refs[id].audit) ==> refs[id].key in wanted
    ensures LivePerms(refs, policyId) == wanted
  {
    var live := LivePerms(refs, policyId);
    forall k | k in wanted.Keys ensures k in live && live[k] == wanted[k] {
      assert HasRow(refs, policyId, k);
      var x :| x in refs && refs[x].policyId == policyId && refs[x].key == k;
      assert refs[x].key in live;
    }
    assert forall k :: k in live ==> k in wanted;
  }

  /** After the permission part of a Set the live permissions of the policy are exactly those of the input, and
      no row was removed, re-keyed or taken from another policy: a revived key keeps its row. */
  lemma SetRefsEffect(e: Env, refs: map<string, RefRow>, policyId: string, ps: seq<Permission>, actor: string)
    requires UniqueKeys(refs) && WellDeletedRefs(refs) && TriggerActor(e.dialect, actor) != ""
    requires SetRefs(e, refs, policyId, ps, actor).Ok?
    ensures var refs' := SetRefs(e, refs, policyId, ps, actor).value;
            UniqueKeys(refs') && WellDeletedRefs(refs') && RowsKept(refs, refs', policyId) && LivePerms(refs', policyId) == Wanted(ps)
  {
    ApplyAllApplied(e, refs, policyId, ps, actor);
    var mid := ApplyAll(e, refs, policyId, RowOfKey(refs, policyId), ps, actor).value;
    RetireRestSweeps(e, refs, mid, policyId, Keys(ps), actor);
    var refs' := RetireRest(e, mid, refs.Keys, policyId, Keys(ps), actor);
    SweptUnique(refs, mid, refs', policyId, Keys(ps));
    SweptKept(refs, mid, refs', policyId, Keys(ps));
    SweptCovered(refs, mid, refs', policyId, Wanted(ps));
    SweptGranted(refs, mid, refs', policyId, Wanted(ps));
    LivePermsAre(refs', policyId, Wanted(ps));
  }

  // ---------------------------------------------------------------- what a Set does to the store

  /** The version of the route's policy, 0 if it has none: what `ExpectedVersion` is compared with. */
  ghost function VersionOf(policies: map<string, PolicyRow>, routeId: string): int
    requires OneLivePolicy(policies)
  {
    match LivePolicy(policies, routeId) case None => 0 case Some(id) => policies[id].audit.version
  }

  /** The live permissions of the route's policy. */
  ghost function PermsOf(policies: map<string, PolicyRow>, refs: map<string, RefRow>, routeId: string): map<string, Perm>
    requires OneLivePolicy(policies) && UniqueKeys(refs)
  {
    match LivePolicy(policies, routeId) case None => map[] case Some(id) => LivePerms(refs, id)
  }

  lemma LivePolicyIs(policies: map<string, PolicyRow>, id: string)
    requires OneLivePolicy(policies) && id in policies && Live(policies[id].audit)
    ensures LivePolicy(policies, policies[id].routeId) == Some(id)
  {
  }

  /** The policy part of a successful Set: row `id` was inserted or updated, its version is one more than the
      expected one, which was the version found, and every other policy row is as before. */
  ghost predicate PolicyAdvanced(policies: map<string, PolicyRow>, policies': map<string, PolicyRow>, input: SetInput, id: string)
    requires OneLivePolicy(policies)
  {
    && PoliciesOk(policies') && policies'.Keys == policies.Keys + {id}
    && (forall x :: x in policies && x != id ==> policies'[x] == policies[x])
    && LivePolicy(policies', input.routeId) == Some(id)
    && policies'[id].expression == input.expression && policies'[id].description == input.description
    && policies'[id].status == input.status && policies'[id].audit.version == input.expectedVersion + 1
    && (match LivePolicy(policies, input.routeId)
        case None => id !in policies && input.expectedVersion == 0
        case Some(p) => p == id && policies[id].audit.version == input.expectedVersion)
  }

  lemma SetPolicyEffect(e: Env, policies: map<string, PolicyRow>, input: SetInput, actor: string)
    requires PoliciesOk(policies) && SetPolicy(e, policies, input, actor).Ok?
    ensures var (policies', id) := SetPolicy(e, policies, input, actor).value;
            PolicyAdvanced(policies, policies', input, id) && TriggerActor(e.dialect, actor) != ""
  {
    var (policies', id) := SetPolicy(e, policies, input, actor).value;
    assert policies'[id].routeId == input.routeId && Live(policies'[id].audit);
    LivePolicyIs(policies', id);
  }

  /** The permission part: the live permissions of the policy are the input's, its other rows are retired, and no
      row was removed, re-keyed or taken from another policy. */
  ghost predicate RefsAdvanced(refs: map<string, RefRow>, refs': map<string, RefRow>, policyId: string, ps: seq<Permission>) {
    RefsOk(refs') && RowsKept(refs, refs', policyId) && LivePerms(refs', policyId) == Wanted(ps)
  }

  /** What a successful Set with this input does to the store. */
  ghost predicate Advanced(st: Store, st': Store, input: SetInput)
    requires OneLivePolicy(st.policies) && OneLivePolicy(st'.policies)
  {
    && st'.routes == st.routes
    && match LivePolicy(st'.policies, input.routeId)
       case None => false
       case Some(id) =>
         PolicyAdvanced(st.policies, st'.policies, input, id) && RefsAdvanced(st.refs, st'.refs, id, input.permissions)
  }

  lemma StillReferenced(ids: set<string>, refs: map<string, RefRow>, refs': map<string, RefRow>, id: string)
    requires Referenced(ids, refs) && RowsKept(refs, refs', id)
    ensures Referenced(ids + {id}, refs')
  {
  }

  /** A successful Set keeps the invariant and advances the store. */
  lemma SetEffect(e: Env, st: Store, input: SetInput, actor: string)
    requires Inv(st) && SetTx(e, st, input, actor).Ok?
    ensures Inv(SetTx(e, st, input, actor).value) && Advanced(st, SetTx(e, st, input, actor).value, input)
  {
    var (policies, id) := SetPolicy(e, st.policies, input, actor).value;
    var refs := SetRefs(e, st.refs, id, input.permissions, actor).value;
    SetPolicyEffect(e, st.policies, input, actor);
    SetRefsEffect(e, st.refs, id, input.permissions, actor);
    StillReferenced(st.policies.Keys, st.refs, refs, id);
    assert SetTx(e, st, input, actor).value == Store(st.routes, policies, refs);
  }

  lemma OtherPolicyKept(policies: map<string, PolicyRow>, policies': map<string, PolicyRow>, input: SetInput, id: string, routeId: string)
    requires OneLivePolicy(policies) && PolicyAdvanced(policies, policies', input, id) && routeId != input.routeId
    ensures LivePolicy(policies', routeId) == LivePolicy(policies, routeId) != Some(id)
  {
    var p := LivePolicy(policies, routeId);
    if p.Some? { LivePolicyIs(policies', p.value); }
  }

  lemma SameRowsSamePerm(m: map<string, RefRow>, m': map<string, RefRow>, id: string, k: string)
    requires UniqueKeys(m) && UniqueKeys(m') && k in LivePerms(m, id)
    requires forall x :: x in m && m[x].policyId == id ==> x in m' && m'[x] == m[x]
    ensures k in LivePerms(m', id) && LivePerms(m', id)[k] == LivePerms(m, id)[k]
  {
    var x :| x in m && m[x].policyId == id && Live(m[x].audit) && m[x].key == k;
    assert m'[x] == m[x];
  }

  /** Tables with the same rows of a policy grant it the same. */
  lemma SameRowsSamePerms(m: map<string, RefRow>, m': map<string, RefRow>, id: string)
    requires UniqueKeys(m) && UniqueKeys(m')
    requires forall x :: x in m && m[x].policyId == id ==> x in m' && m'[x] == m[x]
    requires forall x :: x in m' && m'[x].policyId == id ==> x in m && m[x] == m'[x]
    ensures LivePerms(m', id) == LivePerms(m, id)
  {
    forall k | k in LivePerms(m, id) ensures k in LivePerms(m', id) && LivePerms(m', id)[k] == LivePerms(m, id)[k] {
      SameRowsSamePerm(m, m', id, k);
    }
    forall k | k in LivePerms(m', id) ensures k in LivePerms(m, id) {
      SameRowsSamePerm(m', m, id, k);
    }
  }

  lemma OtherPermsKept(refs: map<string, RefRow>, refs': map<string, RefRow>, id: string, other: string)
    requires UniqueKeys(refs) && UniqueKeys(refs') && RowsKept(refs, refs', id) && other != id
    ensures LivePerms(refs', other) == LivePerms(refs, other)
  {
    SameRowsSamePerms(refs, refs', other);
  }

  /** How a step moves the version and the permissions of a route. */
  ghost predicate FaceMoves(v: int, v': int, ps: map<string, Perm>, ps': map<string, Perm>, input: SetInput, ok: bool, routeId: string) {
    if ok && input.routeId == routeId then v == input.expectedVersion && v' == v + 1 && ps' == Wanted(input.permissions)
    else v' == v && ps' == ps
  }

  lemma OwnMoves(policies: map<string, PolicyRow>, policies': map<string, PolicyRow>, refs': map<string, RefRow>, input: SetInput, id: string)
    requires OneLivePolicy(policies) && PolicyAdvanced(policies, policies', input, id) && UniqueKeys(refs')
    ensures VersionOf(policies, input.routeId) == input.expectedVersion && VersionOf(policies', input.routeId) == input.expectedVersion + 1
    ensures PermsOf(policies', refs', input.routeId) == LivePerms(refs', id)
  {
  }

  lemma OthersStay(policies: map<string, PolicyRow>, policies': map<string, PolicyRow>, refs: map<string, RefRow>, refs': map<string, RefRow>,
                   input: SetInput, id: string, routeId: string)
    requires OneLivePolicy(policies) && UniqueKeys(refs) && UniqueKeys(refs') && RowsKept(refs, refs', id)
    requires PolicyAdvanced(policies, policies', input, id) && routeId != input.routeId
    ensures VersionOf(policies', routeId) == VersionOf(policies, routeId)
    ensures PermsOf(policies', refs', routeId) == PermsOf(policies, refs, routeId)
  {
    OtherPolicyKept(policies, policies', input, id, routeId);
    var p := LivePolicy(policies, routeId);
    if p.Some? {
      assert policies'[p.value] == policies[p.value];
      OtherPermsKept(refs, refs', id, p.value);
    }
  }

  // ---------------------------------------------------------------- runs of Sets

  datatype SetCall = SetCall(env: Env, input: SetInput, actor: string)

  /** One call: committed, or refused and rolled back. */
  ghost predicate Does(c: SetCall, st: Store, st': Store, ok: bool)
    requires Inv(st)
  {
    match SetTx(c.env, st, c.input, c.actor)
    case Err(_) => !ok && st' == st
    case Ok(next) => ok && st' == next
  }

  /** The store before the first call and after each of them, and which calls were committed. */
  ghost predicate IsRun(sts: seq<Store>, calls: seq<SetCall>, oks: seq<bool>) {
    && |sts| == |calls| + 1 == |oks| + 1 && Inv(sts[0])
    && forall i :: 0 <= i < |calls| && Inv(sts[i]) ==> Does(calls[i], sts[i], sts[i + 1], oks[i])
  }

  /** A call told by its effect. */
  ghost predicate Stepped(st: Store, st': Store, input: SetInput, ok: bool) {
    Inv(st) && Inv(st') && if ok then Advanced(st, st', input) else st' == st
  }

  lemma DoesStep(c: SetCall, st: Store, st': Store, ok: bool)
    requires Inv(st) && Does(c, st, st', ok)
    ensures Stepped(st, st', c.input, ok)
  {
    if ok { SetEffect(c.env, st, c.input, c.actor); }
  }

  /** What holds at first and is handed on at every step holds throughout. */
  lemma {:induction false} HandedOn(good: seq<bool>, n: nat)
    requires n < |good| && good[0] && forall i, j :: 0 <= i < j < |good| && j == i + 1 && good[i] ==> good[j]
    ensures forall i :: 0 <= i <= n ==> good[i]
  {
    if n > 0 {
      HandedOn(good, n - 1);
      assert good[n - 1] ==> good[n];
    }
  }

  lemma RunSteps(sts: seq<Store>, calls: seq<SetCall>, oks: seq<bool>)
    requires IsRun(sts, calls, oks)
    ensures forall i :: 0 <= i < |sts| ==> Inv(sts[i])
    ensures forall i :: 0 <= i < |calls| ==> Stepped(sts[i], sts[i + 1], calls[i].input, oks[i])
  {
    forall i | 0 <= i < |calls| && Inv(sts[i]) ensures Stepped(sts[i], sts[i + 1], calls[i].input, oks[i]) {
      DoesStep(calls[i], sts[i], sts[i + 1], oks[i]);
    }
    var good := seq(|sts|, i requires 0 <= i < |sts| => Inv(sts[i]));
    forall i, j | 0 <= i < j < |good| && j == i + 1 && good[i] ensures good[j] {
      assert Stepped(sts[i], sts[i + 1], calls[i].input, oks[i]);
    }
    HandedOn(good, |sts| - 1);
    forall i | 0 <= i < |sts| ensures Inv(sts[i]) {
      assert good[i];
    }
  }

  /** The inputs committed on the route by the first `n` calls, in order. */
  function CommittedOn(calls: seq<SetCall>, oks: seq<bool>, routeId: string, n: nat): seq<SetInput>
    requires n <= |calls| == |oks|
  {
    if n == 0 then []
    else CommittedOn(calls, oks, routeId, n - 1)
         + (if oks[n - 1] && calls[n - 1].input.routeId == routeId then [calls[n - 1].input] else [])
  }

  /** What the committed inputs say about the version and the permissions of the route. */
  ghost predicate Accounts(v0: int, ps0: map<string, Perm>, v: int, ps: map<string, Perm>, done: seq<SetInput>) {
    && v == v0 + |done|
    && (forall k :: 0 <= k < |done| ==> done[k].expectedVersion == v0 + k)
    && ps == if done == [] then ps0 else Wanted(done[|done| - 1].permissions)
  }

  lemma {:induction false} FacesAccount(vs: seq<int>, pss: seq<map<string, Perm>>, calls: seq<SetCall>, oks: seq<bool>, routeId: string, n: nat)
    requires |vs| == |pss| == |calls| + 1 == |oks| + 1 && n <= |calls|
    requires forall i :: 0 <= i < n ==> FaceMoves(vs[i], vs[i + 1], pss[i], pss[i + 1], calls[i].input, oks[i], routeId)
    ensures Accounts(vs[0], pss[0], vs[n], pss[n], CommittedOn(calls, oks, routeId, n))
  {
    if n > 0 {
      FacesAccount(vs, pss, calls, oks, routeId, n - 1);
      assert FaceMoves(vs[n - 1], vs[n - 1 + 1], pss[n - 1], pss[n - 1 + 1], calls[n - 1].input, oks[n - 1], routeId);
    }
  }

  lemma StepMoves(st: Store, st': Store, input: SetInput, ok: bool, routeId: string)
    requires Stepped(st, st', input, ok)
    ensures FaceMoves(VersionOf(st.policies, routeId), VersionOf(st'.policies, routeId),
                      PermsOf(st.policies, st.refs, routeId), PermsOf(st'.policies, st'.refs, routeId), input, ok, routeId)
  {
    if ok {
      var id := LivePolicy(st'.policies, input.routeId).value;
      if routeId == input.routeId { OwnMoves(st.policies, st'.policies, st'.refs, input, id); }
      else { OthersStay(st.policies, st'.policies, st.refs, st'.refs, input, id, routeId); }
    }
  }

  lemma StoresAccount(sts: seq<Store>, calls: seq<SetCall>, oks: seq<bool>, routeId: string)
    requires |sts| == |calls| + 1 == |oks| + 1
    requires forall i :: 0 <= i < |sts| ==> Inv(sts[i])
    requires forall i :: 0 <= i < |calls| ==> Stepped(sts[i], sts[i + 1], calls[i].input, oks[i])
    ensures Inv(sts[0]) && Inv(sts[|calls|])
    ensures var a, b := sts[0], sts[|calls|];
            Accounts(VersionOf(a.policies, routeId), PermsOf(a.policies, a.refs, routeId),
                     VersionOf(b.policies, routeId), PermsOf(b.policies, b.refs, routeId), CommittedOn(calls, oks, routeId, |calls|))
  {
    var vs := seq(|sts|, i requires 0 <= i < |sts| => VersionOf(sts[i].policies, routeId));
    var pss := seq(|sts|, i requires 0 <= i < |sts| => PermsOf(sts[i].policies, sts[i].refs, routeId));
    forall i | 0 <= i < |calls| ensures FaceMoves(vs[i], vs[i + 1], pss[i], pss[i + 1], calls[i].input, oks[i], routeId) {
      StepMoves(sts[i], sts[i + 1], calls[i].input, oks[i], routeId);
    }
    FacesAccount(vs, pss, calls, oks, routeId, |calls|);
  }

  /** Over every run of Sets, on any routes and with refusals in between: the version of a route's policy counts
      the committed Sets on it, the k-th of them (from 0) expected the starting version plus k, and the live
      permissions are exactly those of the last one. */
  lemma VersionCountsCommits(sts: seq<Store>, calls: seq<SetCall>, oks: seq<bool>, routeId: string)
    requires IsRun(sts, calls, oks)
    ensures var a, b := sts[0], sts[|calls|];
            && Inv(a) && Inv(b)
            && Accounts(VersionOf(a.policies, routeId), PermsOf(a.policies, a.refs, routeId),
                        VersionOf(b.policies, routeId), PermsOf(b.policies, b.refs, routeId), CommittedOn(calls, oks, routeId, |calls|))
  {
    RunSteps(sts, calls, oks);
    StoresAccount(sts, calls, oks, routeId);
  }

  lemma {:induction false} RowsForever(sts: seq<Store>, calls: seq<SetCall>, oks: seq<bool>, i: nat, j: nat, id: string)
    requires |sts| == |calls| + 1 == |oks| + 1 && i <= j <= |calls| && id in sts[i].refs
    requires forall k :: 0 <= k < j ==> Stepped(sts[k], sts[k + 1], calls[k].input, oks[k])
    ensures id in sts[j].refs && sts[j].refs[id].policyId == sts[i].refs[id].policyId && sts[j].refs[id].key == sts[i].refs[id].key
    decreases j
  {
    if i < j {
      RowsForever(sts, calls, oks, i, j - 1, id);
      assert Stepped(sts[j - 1], sts[j], calls[j - 1].input, oks[j - 1]);
    }
  }

  /** Over every run no permission row is removed and each keeps its policy and key, so a key that is retired and
      wanted again gets its old row back: there is never a second row for a policy and key, deleted rows included. */
  lemma RowsAreForever(sts: seq<Store>, calls: seq<SetCall>, oks: seq<bool>, i: nat, j: nat, id: string, id': string)
    requires IsRun(sts, calls, oks) && i <= j <= |calls| && id in sts[i].refs
    ensures id in sts[j].refs && sts[j].refs[id].policyId == sts[i].refs[id].policyId && sts[j].refs[id].key == sts[i].refs[id].key
    ensures id' in sts[j].refs && sts[j].refs[id'].policyId == sts[i].refs[id].policyId && sts[j].refs[id'].key == sts[i].refs[id].key ==> id' == id
  {
    RunSteps(sts, calls, oks);
    RowsForever(sts, calls, oks, i, j, id);
  }
}
