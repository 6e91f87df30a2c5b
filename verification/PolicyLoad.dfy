/** `Repository.Load`: the definitions every node compiles into its snapshot
    (internal/routepolicy/repository.go:65-108). */
module PolicyLoad {
  import opened Basics
  import opened AuditModel
  import opened Text
  import opened RowTrigger
  import opened PolicyStore

  datatype Scope = TenantScope | PlatformScope | PrincipalScope

  datatype Grant = Grant(id: string, key: string, resource: string, action: string, scope: Scope)

  datatype Definition = Definition(id: string, routeId: string, expression: string, permissions: map<string, Grant>, version: int)

  function ParseScope(value: string): Option<Scope> {
    match value
    case "tenant" => Some(TenantScope)
    case "platform" => Some(PlatformScope)
    case "principal" => Some(PrincipalScope)
    case _ => None
  }

  /** The literals "tenant", "platform" and "principal" name the three scopes, nothing else names one. */
  lemma ScopesAreNamed(value: string)
    ensures ParseScope(value) == Some(TenantScope) <==> value == "tenant"
    ensures ParseScope(value) == Some(PlatformScope) <==> value == "platform"
    ensures ParseScope(value) == Some(PrincipalScope) <==> value == "principal"
    ensures ParseScope(value).None? <==> value !in {"tenant", "platform", "principal"}
  {
  }

  /** The policies Load reads: live and active. */
  predicate Active(policies: map<string, PolicyRow>, id: string) {
    id in policies && Live(policies[id].audit) && policies[id].status == "active"
  }

  /** The second SELECT: live references of policies that are active when it runs. */
  predicate Joined(policies: map<string, PolicyRow>, refs: map<string, RefRow>, id: string) {
    id in refs && Live(refs[id].audit) && Active(policies, refs[id].policyId)
  }

  /** The definition of a policy as read by the first SELECT, with the references the second one found. */
  ghost predicate Defines(d: Definition, row: PolicyRow, policies: map<string, PolicyRow>, refs: map<string, RefRow>) {
    && d.routeId == row.routeId && d.expression == row.expression && d.version == row.audit.version
    && (forall k :: k in d.permissions ==> Gives(refs, policies, d.id, d.permissions[k]) && d.permissions[k].key == k)
    && (forall x :: Joined(policies, refs, x) && refs[x].policyId == d.id ==> refs[x].key in d.permissions && d.permissions[refs[x].key].id == x)
  }

  /** A grant is one of the policy's own references. */
  ghost predicate Gives(refs: map<string, RefRow>, policies: map<string, PolicyRow>, policyId: string, g: Grant) {
    && Joined(policies, refs, g.id) && refs[g.id].policyId == policyId && refs[g.id].key == g.key
    && refs[g.id].perm.resource == g.resource && refs[g.id].perm.action == g.action && ParseScope(refs[g.id].perm.scope) == Some(g.scope)
  }

  /** Some reference that Load would use names no scope. */
  ghost predicate BadScope(first: map<string, PolicyRow>, policies: map<string, PolicyRow>, refs: map<string, RefRow>) {
    exists x :: x in refs && Joined(policies, refs, x) && Active(first, refs[x].policyId) && ParseScope(refs[x].perm.scope).None?
  }

  /** What Load answers, having read the policies of `first` and then the references of (policies, refs). */
  ghost predicate Loads(first: map<string, PolicyRow>, policies: map<string, PolicyRow>, refs: map<string, RefRow>, defs: seq<Definition>) {
    && (forall i, j :: 0 <= i < j < |defs| ==> defs[i].id != defs[j].id)
    && (forall i :: 0 <= i < |defs| ==> Active(first, defs[i].id) && Defines(defs[i], first[defs[i].id], policies, refs))
    && (forall id :: Active(first, id) ==> exists i :: 0 <= i < |defs| && defs[i].id == id)
  }

  method SelectActive(policies: map<string, PolicyRow>) returns (ids: seq<string>)
    ensures forall i :: 0 <= i < |ids| ==> Active(policies, ids[i])
    ensures forall i, j :: 0 <= i < j < |ids| ==> ids[i] != ids[j]
    ensures forall id :: Active(policies, id) ==> id in ids
  {
    ids := [];
    var rest := policies.Keys;
    while rest != {}
      invariant rest <= policies.Keys
      invariant forall i :: 0 <= i < |ids| ==> Active(policies, ids[i]) && ids[i] !in rest
      invariant forall i, j :: 0 <= i < j < |ids| ==> ids[i] != ids[j]
      invariant forall id :: Active(policies, id) && id !in rest ==> id in ids
      decreases |rest|
    {
      var id :| id in rest;
      rest := rest - {id};
      if Active(policies, id) {
        ids := ids + [id];
      }
    }
  }

  method SelectJoined(policies: map<string, PolicyRow>, refs: map<string, RefRow>) returns (rows: seq<string>)
    ensures forall i :: 0 <= i < |rows| ==> Joined(policies, refs, rows[i])
    ensures forall id :: Joined(policies, refs, id) ==> id in rows
  {
    rows := [];
    var rest := refs.Keys;
    while rest != {}
      invariant rest <= refs.Keys
      invariant forall i :: 0 <= i < |rows| ==> Joined(policies, refs, rows[i])
      invariant forall id :: Joined(policies, refs, id) && id !in rest ==> id in rows
      decreases |rest|
    {
      var id :| id in rest;
      rest := rest - {id};
      if Joined(policies, refs, id) {
        rows := rows + [id];
      }
    }
  }

  /** What the second loop has put into the definition of one policy, after the references `done`. */
  ghost predicate Filled(permissions: map<string, Grant>, policies: map<string, PolicyRow>, refs: map<string, RefRow>, id: string, done: seq<string>) {
    && (forall k :: k in permissions ==> Gives(refs, policies, id, permissions[k]) && permissions[k].key == k && permissions[k].id in done)
    && (forall x :: x in done && x in refs && refs[x].policyId == id ==> refs[x].key in permissions && permissions[refs[x].key].id == x)
  }

  lemma FillOwn(permissions: map<string, Grant>, policies: map<string, PolicyRow>, refs: map<string, RefRow>, id: string, done: seq<string>, x: string, scope: Scope)
    requires UniqueKeys(refs) && Filled(permissions, policies, refs, id, done)
    requires Joined(policies, refs, x) && refs[x].policyId == id && ParseScope(refs[x].perm.scope) == Some(scope)
    ensures Filled(permissions[refs[x].key := Grant(x, refs[x].key, refs[x].perm.resource, refs[x].perm.action, scope)], policies, refs, id, done + [x])
  {
  }

  lemma FillOther(permissions: map<string, Grant>, policies: map<string, PolicyRow>, refs: map<string, RefRow>, id: string, done: seq<string>, x: string)
    requires Filled(permissions, policies, refs, id, done) && x in refs && refs[x].policyId != id
    ensures Filled(permissions, policies, refs, id, done + [x])
  {
  }

  ghost predicate Broken(ids: seq<string>, refs: map<string, RefRow>, rows: seq<string>) {
    exists x :: x in rows && x in refs && refs[x].policyId in ids && ParseScope(refs[x].perm.scope).None?
  }

  /** The second loop: each reference goes to the definition of its policy, if the first SELECT found it. */
  method FillPermissions(ids: seq<string>, policies: map<string, PolicyRow>, refs: map<string, RefRow>, rows: seq<string>)
    returns (r: Result<map<string, map<string, Grant>>, ()>)
    requires UniqueKeys(refs) && forall i :: 0 <= i < |rows| ==> Joined(policies, refs, rows[i])
    ensures r.Ok? ==> (forall id :: id in r.value <==> id in ids) && forall id :: id in ids ==> Filled(r.value[id], policies, refs, id, rows)
    ensures r.Err? <==> Broken(ids, refs, rows)
  {
    var byId: map<string, map<string, Grant>> := map i | 0 <= i < |ids| :: ids[i] := map[];
    for j := 0 to |rows|
      invariant forall id :: id in byId <==> id in ids
      invariant forall id :: id in ids ==> Filled(byId[id], policies, refs, id, rows[..j])
      invariant forall x :: x in rows[..j] && refs[x].policyId in ids ==> ParseScope(refs[x].perm.scope).Some?
    {
      var x := rows[j];
      var row := refs[x];
      assert rows[..j + 1] == rows[..j] + [x];
      forall id | id in ids && id != row.policyId ensures Filled(byId[id], policies, refs, id, rows[..j + 1]) {
        FillOther(byId[id], policies, refs, id, rows[..j], x);
      }
      if row.policyId in byId {
        var scope := ParseScope(row.perm.scope);
        if scope.None? {
          return Err(());
        }
        FillOwn(byId[row.policyId], policies, refs, row.policyId, rows[..j], x, scope.value);
        byId := byId[row.policyId := byId[row.policyId][row.key := Grant(x, row.key, row.perm.resource, row.perm.action, scope.value)]];
      }
    }
    assert rows[..|rows|] == rows;
    r := Ok(byId);
  }

  lemma BrokenIsBadScope(first: map<string, PolicyRow>, policies: map<string, PolicyRow>, refs: map<string, RefRow>, ids: seq<string>, rows: seq<string>)
    requires forall id :: id in ids <==> Active(first, id)
    requires forall x :: x in rows <==> Joined(policies, refs, x)
    ensures Broken(ids, refs, rows) <==> BadScope(first, policies, refs)
  {
  }

  lemma FilledDefines(d: Definition, row: PolicyRow, policies: map<string, PolicyRow>, refs: map<string, RefRow>, rows: seq<string>)
    requires d.routeId == row.routeId && d.expression == row.expression && d.version == row.audit.version
    requires Filled(d.permissions, policies, refs, d.id, rows) && forall x :: x in rows <==> Joined(policies, refs, x)
    ensures Defines(d, row, policies, refs)
  {
  }

  function DefinitionOf(id: string, row: PolicyRow, permissions: map<string, Grant>): Definition {
    Definition(id, row.routeId, row.expression, permissions, row.audit.version)
  }

  /** Load runs two SELECTs; a commit can fall between them, so the references may be newer than the policies.
      It fails exactly when a reference it would use names no scope, and otherwise answers every policy that was
      active at the first SELECT, each with its own references and no other's. */
  method Load(first: map<string, PolicyRow>, policies: map<string, PolicyRow>, refs: map<string, RefRow>) returns (r: Result<seq<Definition>, ()>)
    requires UniqueKeys(refs)
    ensures r.Err? <==> BadScope(first, policies, refs)
    ensures r.Ok? ==> Loads(first, policies, refs, r.value)
  {
    var ids := SelectActive(first);
    var rows := SelectJoined(policies, refs);
    var byId := FillPermissions(ids, policies, refs, rows);
    BrokenIsBadScope(first, policies, refs, ids, rows);
    if byId.Err? {
      return Err(());
    }
    var defs: seq<Definition> := [];
    for i := 0 to |ids|
      invariant |defs| == i
      invariant forall j :: 0 <= j < i ==> defs[j].id == ids[j] && Defines(defs[j], first[ids[j]], policies, refs)
    {
      var d := DefinitionOf(ids[i], first[ids[i]], byId.value[ids[i]]);
      FilledDefines(d, first[ids[i]], policies, refs, rows);
      defs := defs + [d];
    }
    r := Ok(defs);
  }

  // ---------------------------------------------------------------- what a load sees of a Set

  /** The definition grants exactly these permissions. */
  ghost predicate GrantsExactly(d: Definition, wanted: map<string, Perm>) {
    && d.permissions.Keys == wanted.Keys
    && forall k :: k in wanted.Keys ==>
         && d.permissions[k].key == k && d.permissions[k].resource == wanted[k].resource
         && d.permissions[k].action == wanted[k].action && Some(d.permissions[k].scope) == ParseScope(wanted[k].scope)
  }

  lemma LivePermsGranted(d: Definition, row: PolicyRow, policies: map<string, PolicyRow>, refs: map<string, RefRow>)
    requires UniqueKeys(refs) && Active(policies, d.id) && Defines(d, row, policies, refs)
    ensures GrantsExactly(d, LivePerms(refs, d.id))
  {
    var live := LivePerms(refs, d.id);
    forall k | k in live ensures k in d.permissions {
      var x :| x in refs && refs[x].policyId == d.id && Live(refs[x].audit) && refs[x].key == k;
      assert Joined(policies, refs, x);
    }
    forall k | k in d.permissions ensures k in live && live[k] == refs[d.permissions[k].id].perm {
      assert Gives(refs, policies, d.id, d.permissions[k]);
    }
  }

  /** The definition is what the input asks for. */
  ghost predicate Answers(d: Definition, input: SetInput) {
    && d.routeId == input.routeId && d.expression == input.expression && d.version == input.expectedVersion + 1
    && GrantsExactly(d, Wanted(input.permissions))
  }

  lemma DefinitionAnswers(d: Definition, policies: map<string, PolicyRow>, policies': map<string, PolicyRow>, refs': map<string, RefRow>, input: SetInput)
    requires OneLivePolicy(policies) && PolicyAdvanced(policies, policies', input, d.id) && Active(policies', d.id)
    requires UniqueKeys(refs') && LivePerms(refs', d.id) == Wanted(input.permissions) && Defines(d, policies'[d.id], policies', refs')
    ensures Answers(d, input)
  {
    LivePermsGranted(d, policies'[d.id], policies', refs');
  }

  /** The input is answered, once. */
  ghost predicate AnsweredOnce(defs: seq<Definition>, input: SetInput) {
    exists i :: 0 <= i < |defs| && Answers(defs[i], input) && forall j :: 0 <= j < |defs| && defs[j].routeId == input.routeId ==> j == i
  }

  lemma LoadAnswers(policies: map<string, PolicyRow>, policies': map<string, PolicyRow>, refs': map<string, RefRow>,
                    input: SetInput, id: string, defs: seq<Definition>)
    requires OneLivePolicy(policies) && PolicyAdvanced(policies, policies', input, id) && Active(policies', id)
    requires UniqueKeys(refs') && LivePerms(refs', id) == Wanted(input.permissions) && Loads(policies', policies', refs', defs)
    ensures AnsweredOnce(defs, input)
  {
    var i :| 0 <= i < |defs| && defs[i].id == id;
    DefinitionAnswers(defs[i], policies, policies', refs', input);
    forall j | 0 <= j < |defs| && defs[j].routeId == input.routeId ensures j == i {
      OneDefinitionPerRoute(policies', refs', defs, i, j);
    }
  }

  /** A load that follows a Set: the route's policy, if active, is answered once, with the expression of the input,
      one more than the expected version, and exactly the permissions of the input. */
  lemma LoadAfterSet(st: Store, st': Store, input: SetInput, defs: seq<Definition>)
    requires Inv(st) && Inv(st') && Advanced(st, st', input) && input.status == "active"
    requires Loads(st'.policies, st'.policies, st'.refs, defs)
    ensures AnsweredOnce(defs, input)
    ensures forall i :: 0 <= i < |defs| && defs[i].routeId == input.routeId ==> ScopesAs(defs[i], Wanted(input.permissions))
  {
    LoadAnswers(st.policies, st'.policies, st'.refs, input, LivePolicy(st'.policies, input.routeId).value, defs);
    AnswerIsScoped(defs, input);
  }

  lemma AnswerIsScoped(defs: seq<Definition>, input: SetInput)
    requires AnsweredOnce(defs, input)
    ensures forall i :: 0 <= i < |defs| && defs[i].routeId == input.routeId ==> ScopesAs(defs[i], Wanted(input.permissions))
  {
    var i :| 0 <= i < |defs| && Answers(defs[i], input) && forall j :: 0 <= j < |defs| && defs[j].routeId == input.routeId ==> j == i;
    GrantsAreScoped(defs[i], Wanted(input.permissions));
  }

  lemma GrantsAreScoped(d: Definition, wanted: map<string, Perm>)
    requires GrantsExactly(d, wanted)
    ensures ScopesAs(d, wanted)
  {
    forall k | k in wanted.Keys ensures wanted[k].scope == ScopeName(d.permissions[k].scope) {
      ScopesAreNamed(wanted[k].scope);
    }
  }

  function ScopeName(scope: Scope): string {
    match scope
    case TenantScope => "tenant"
    case PlatformScope => "platform"
    case PrincipalScope => "principal"
  }

  /** Each grant has the resource, the action and the scope that the input names in words for its key. */
  ghost predicate ScopesAs(d: Definition, wanted: map<string, Perm>) {
    d.permissions.Keys == wanted.Keys
    && forall k :: k in wanted.Keys ==>
         && d.permissions[k].resource == wanted[k].resource && d.permissions[k].action == wanted[k].action
         && wanted[k].scope == ScopeName(d.permissions[k].scope)
  }

  lemma OneDefinitionPerRoute(policies: map<string, PolicyRow>, refs: map<string, RefRow>, defs: seq<Definition>, i: nat, j: nat)
    requires OneLivePolicy(policies) && Loads(policies, policies, refs, defs)
    requires i < |defs| && j < |defs| && defs[i].routeId == defs[j].routeId
    ensures i == j
  {
    assert Active(policies, defs[i].id) && Active(policies, defs[j].id);
  }

  /** A disabled policy is not answered. */
  lemma DisabledIsAbsent(st: Store, st': Store, input: SetInput, defs: seq<Definition>, i: nat)
    requires Inv(st) && Inv(st') && Advanced(st, st', input) && input.status != "active"
    requires Loads(st'.policies, st'.policies, st'.refs, defs) && i < |defs|
    ensures defs[i].routeId != input.routeId
  {
    assert Active(st'.policies, defs[i].id);
    if defs[i].routeId == input.routeId { LivePolicyIs(st'.policies, defs[i].id); }
  }

  /** Every live reference of an active policy lands in the definition of its policy, and in no other. */
  lemma ReferencesLandOnce(policies: map<string, PolicyRow>, refs: map<string, RefRow>, defs: seq<Definition>, x: string)
    requires Loads(policies, policies, refs, defs) && Joined(policies, refs, x)
    ensures exists i :: 0 <= i < |defs| && defs[i].id == refs[x].policyId
              && refs[x].key in defs[i].permissions && defs[i].permissions[refs[x].key].id == x
              && forall j, k :: 0 <= j < |defs| && k in defs[j].permissions && defs[j].permissions[k].id == x ==> j == i && k == refs[x].key
  {
    var i :| 0 <= i < |defs| && defs[i].id == refs[x].policyId;
    assert Defines(defs[i], policies[defs[i].id], policies, refs);
    forall j, k | 0 <= j < |defs| && k in defs[j].permissions && defs[j].permissions[k].id == x ensures j == i && k == refs[x].key {
      assert Defines(defs[j], policies[defs[j].id], policies, refs);
      assert Gives(refs, policies, defs[j].id, defs[j].permissions[k]);
    }
  }

  /** The permissions the second SELECT finds for the route of a Set just committed. */
  function Found(input: SetInput): map<string, Perm> {
    if input.status == "active" then Wanted(input.permissions) else map[]
  }

  lemma SameScope(a: string, b: string)
    requires ParseScope(a).Some? && ParseScope(a) == ParseScope(b)
    ensures a == b
  {
  }

  /** A definition grants one set of permissions exactly. */
  lemma GrantsOne(d: Definition, w: map<string, Perm>, w': map<string, Perm>)
    requires GrantsExactly(d, w)
    ensures GrantsExactly(d, w') <==> w == w'
  {
    if GrantsExactly(d, w') {
      forall k | k in w ensures k in w' && w[k] == w'[k] {
        assert k in w'.Keys && w.Keys == w'.Keys;
        SameScope(w[k].scope, w'[k].scope);
      }
    }
  }

  lemma InactiveGrantsNothing(d: Definition, row: PolicyRow, policies: map<string, PolicyRow>, refs: map<string, RefRow>)
    requires Defines(d, row, policies, refs)
    ensures d.permissions == map[] || Active(policies, d.id)
  {
    if d.permissions != map[] {
      var k :| k in d.permissions;
      assert Gives(refs, policies, d.id, d.permissions[k]);
    }
  }

  /** What a load torn by a Set between its two SELECTs answers for the policy: the expression and the version before
      the Set, with the permissions after it, or with none if the Set disables the policy. */
  lemma TornDefinition(st: Store, st': Store, input: SetInput, d: Definition)
    requires OneLivePolicy(st.policies) && PolicyAdvanced(st.policies, st'.policies, input, d.id) && UniqueKeys(st'.refs)
    requires LivePerms(st'.refs, d.id) == Wanted(input.permissions)
    requires LivePolicy(st.policies, input.routeId) == Some(d.id) && Defines(d, st.policies[d.id], st'.policies, st'.refs)
    ensures d.routeId == input.routeId && d.expression == st.policies[d.id].expression && d.version == input.expectedVersion
    ensures GrantsExactly(d, Found(input))
  {
    if input.status == "active" {
      LivePermsGranted(d, st.policies[d.id], st'.policies, st'.refs);
    } else {
      InactiveGrantsNothing(d, st.policies[d.id], st'.policies, st'.refs);
    }
  }

  /** Over every Set that commits between the two SELECTs of a load. A policy that was active at the first SELECT is
      answered with its old expression and version and what the second SELECT finds for it; that is the policy as it
      was before the Set if and only if its permissions were already those. It is never the policy as it is after the
      Set, whose version is another. A policy that was not active at the first SELECT is not answered, even if the Set
      has activated it. */
  lemma TornLoadIff(st: Store, st': Store, input: SetInput, defs: seq<Definition>, i: nat)
    requires Inv(st) && Inv(st') && Advanced(st, st', input) && Loads(st.policies, st'.policies, st'.refs, defs)
    requires i < |defs| && defs[i].routeId == input.routeId
    ensures LivePolicy(st.policies, input.routeId) == Some(defs[i].id) && Active(st.policies, defs[i].id)
    ensures defs[i].expression == st.policies[defs[i].id].expression && defs[i].version == input.expectedVersion
    ensures defs[i].version != st'.policies[defs[i].id].audit.version
    ensures GrantsExactly(defs[i], Found(input))
    ensures GrantsExactly(defs[i], LivePerms(st.refs, defs[i].id)) <==> LivePerms(st.refs, defs[i].id) == Found(input)
  {
    var d := defs[i];
    LivePolicyIs(st.policies, d.id);
    TornDefinition(st, st', input, d);
    GrantsOne(d, Found(input), LivePerms(st.refs, d.id));
  }

  /** The route is answered exactly when its policy was active at the first SELECT. */
  lemma TornLoadAnswersIff(st: Store, st': Store, input: SetInput, defs: seq<Definition>)
    requires Inv(st) && Loads(st.policies, st'.policies, st'.refs, defs)
    ensures (exists i :: 0 <= i < |defs| && defs[i].routeId == input.routeId)
            <==> match LivePolicy(st.policies, input.routeId) case None => false case Some(id) => Active(st.policies, id)
  {
    if i :| 0 <= i < |defs| && defs[i].routeId == input.routeId {
      LivePolicyIs(st.policies, defs[i].id);
    }
  }

  /** So a load torn by a Set that changes the permissions of an active policy answers a mixture that the tables never
      held: old expression and version, new permissions. */
  lemma TornLoad(st: Store, st': Store, input: SetInput, id: string, defs: seq<Definition>)
    requires Inv(st) && Inv(st') && Advanced(st, st', input) && Loads(st.policies, st'.policies, st'.refs, defs)
    requires LivePolicy(st.policies, input.routeId) == Some(id) && Active(st.policies, id) && LivePerms(st.refs, id) != Found(input)
    ensures exists i :: 0 <= i < |defs| && defs[i].id == id && defs[i].expression == st.policies[id].expression
              && defs[i].version == input.expectedVersion && GrantsExactly(defs[i], Found(input)) && !GrantsExactly(defs[i], LivePerms(st.refs, id))
  {
    var i :| 0 <= i < |defs| && defs[i].id == id;
    TornLoadIff(st, st', input, defs, i);
  }

  /** Load answers at all exactly as long as each committed input had canonical scopes: after a Set on tables that
      load, they load unless the policy is active and a scope of the input is none of the three. */
  lemma LoadsAgainIff(st: Store, st': Store, input: SetInput)
    requires Inv(st) && Inv(st') && Advanced(st, st', input) && !BadScope(st.policies, st.policies, st.refs)
    ensures BadScope(st'.policies, st'.policies, st'.refs) <==> input.status == "active" && AsksBadScope(Wanted(input.permissions))
  {
    var id := LivePolicy(st'.policies, input.routeId).value;
    if input.status == "active" && AsksBadScope(Wanted(input.permissions)) {
      BadScopeStops(st'.policies, st'.refs, id);
    }
    if BadScope(st'.policies, st'.policies, st'.refs) {
      BadScopeIsOwn(st, st', input, id);
    }
  }

  lemma BadScopeIsOwn(st: Store, st': Store, input: SetInput, id: string)
    requires OneLivePolicy(st.policies) && !BadScope(st.policies, st.policies, st.refs)
    requires PolicyAdvanced(st.policies, st'.policies, input, id) && RowsKept(st.refs, st'.refs, id) && UniqueKeys(st'.refs)
    requires BadScope(st'.policies, st'.policies, st'.refs)
    ensures input.status == "active" && AsksBadScope(LivePerms(st'.refs, id))
  {
    var x :| x in st'.refs && Joined(st'.policies, st'.refs, x) && ParseScope(st'.refs[x].perm.scope).None?;
    OtherRefsLoad(st, st', input, id, x);
    LiveBadScopeAsks(st'.refs, id, x);
  }

  lemma LiveBadScopeAsks(refs: map<string, RefRow>, id: string, x: string)
    requires UniqueKeys(refs) && x in refs && refs[x].policyId == id && Live(refs[x].audit) && ParseScope(refs[x].perm.scope).None?
    ensures AsksBadScope(LivePerms(refs, id))
  {
    assert refs[x].key in LivePerms(refs, id);
  }

  predicate AsksBadScope(wanted: map<string, Perm>) {
    exists k :: k in wanted && ParseScope(wanted[k].scope).None?
  }

  lemma BadScopeStops(policies: map<string, PolicyRow>, refs: map<string, RefRow>, id: string)
    requires UniqueKeys(refs) && Active(policies, id) && AsksBadScope(LivePerms(refs, id))
    ensures BadScope(policies, policies, refs)
  {
    var live := LivePerms(refs, id);
    var k :| k in live && ParseScope(live[k].scope).None?;
    var x :| x in refs && refs[x].policyId == id && Live(refs[x].audit) && refs[x].key == k;
    assert Joined(policies, refs, x);
  }

  lemma OtherRefsLoad(st: Store, st': Store, input: SetInput, id: string, x: string)
    requires OneLivePolicy(st.policies) && !BadScope(st.policies, st.policies, st.refs)
    requires PolicyAdvanced(st.policies, st'.policies, input, id) && RowsKept(st.refs, st'.refs, id)
    requires Joined(st'.policies, st'.refs, x) && ParseScope(st'.refs[x].perm.scope).None?
    ensures st'.refs[x].policyId == id
  {
    if st'.refs[x].policyId != id {
      assert x in st.refs && st.refs[x] == st'.refs[x];
      assert Joined(st.policies, st.refs, x);
    }
  }
}
