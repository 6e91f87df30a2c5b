/** `Service.Set`: validation, the write, the refresh of the local snapshot
    (internal/routepolicy/service.go:64-121). */
module PolicyService {
  import opened Basics
  import opened AuditModel
  import opened Text
  import opened RowTrigger
  import opened PolicyStore
  import opened PolicyAccepts
  import opened PolicyLoad
  import opened PolicyRepository

  /** What happens around the transaction: what becomes of its COMMIT, whether the snapshot compiles (of what the tables
      hold, which need not be what validation compiled: `LoadsCompiledIff`) and loads, whether
      the revision can be read, whether the operation log takes the entry, whether the closing read succeeds. */
  datatype Weather = Weather(commit: Commit, reloads: bool, revises: bool, logs: bool, rereads: bool)

  /** The compiler of policy expressions, given the permission keys in scope. */
  type Compiler = (string, set<string>) -> bool

  /** The input with the fields of its own trimmed; the permissions stay as they came. */
  function Clean(input: SetInput): SetInput {
    input.(routeId := TrimSpace(input.routeId), expression := TrimSpace(input.expression),
           description := TrimSpace(input.description), status := TrimSpace(input.status))
  }

  function TrimRef(p: Permission): Permission {
    Permission(TrimSpace(p.key), Perm(TrimSpace(p.perm.resource), TrimSpace(p.perm.action), TrimSpace(p.perm.scope)))
  }

  function TrimRefs(ps: seq<Permission>): seq<Permission> {
    seq(|ps|, i requires 0 <= i < |ps| => TrimRef(ps[i]))
  }

  predicate GoodRef(t: Permission) {
    ParseScope(t.perm.scope).Some? && t.key != "" && t.perm.resource != "" && t.perm.action != ""
  }

  /** Each reference is complete and no two have the same key. */
  ghost predicate GoodRefs(ts: seq<Permission>) {
    (forall i :: 0 <= i < |ts| ==> GoodRef(ts[i])) && forall i, j :: 0 <= i < j < |ts| ==> ts[i].key != ts[j].key
  }

  predicate GoodHead(input: SetInput) {
    input.routeId != "" && input.expression != "" && (input.status == "active" || input.status == "disabled") && input.expectedVersion >= 0
  }

  ghost predicate Acceptable(input: SetInput, compiles: Compiler) {
    GoodHead(Clean(input)) && GoodRefs(TrimRefs(input.permissions)) && compiles(TrimSpace(input.expression), Keys(TrimRefs(input.permissions)))
  }

  /** The loop over the references, each trimmed in a copy; `keys` plays definition.Permissions. */
  method CheckRefs(ps: seq<Permission>) returns (good: bool, keys: set<string>)
    ensures good <==> GoodRefs(TrimRefs(ps))
    ensures good ==> keys == Keys(TrimRefs(ps))
  {
    keys := {};
    ghost var ts := TrimRefs(ps);
    for i := 0 to |ps|
      invariant keys == Keys(ts[..i])
      invariant GoodRefs(ts[..i])
    {
      var t := TrimRef(ps[i]);
      assert t == ts[i];
      good := CheckRef(t, keys, ts, i);
      if !good {
        return;
      }
      keys := keys + {t.key};
    }
    assert ts[..|ps|] == ts;
    good := true;
  }

  method CheckRef(t: Permission, keys: set<string>, ghost ts: seq<Permission>, ghost i: nat) returns (good: bool)
    requires i < |ts| && ts[i] == t && keys == Keys(ts[..i]) && GoodRefs(ts[..i])
    ensures good ==> GoodRefs(ts[..i + 1]) && Keys(ts[..i + 1]) == keys + {t.key}
    ensures !good ==> !GoodRefs(ts)
  {
    KeysNext(ts, i);
    if !GoodRef(t) {
      return false;
    }
    if t.key in keys {
      ghost var j :| 0 <= j < i && ts[..i][j].key == t.key;
      assert ts[j].key == ts[i].key;
      return false;
    }
    forall j | 0 <= j < i ensures ts[j].key != t.key {
      assert ts[..i][j].key in keys;
    }
    good := true;
  }

  class Service {
    const repository: Repository
    /** What the local snapshot was last replaced with. */
    var snapshot: seq<Definition>

    constructor (repository: Repository)
      ensures this.repository == repository && snapshot == []
    {
      this.repository := repository;
      snapshot := [];
    }

    /** Manager.RefreshSource with nobody else writing. */
    method Refresh(w: Weather) returns (ok: bool)
      requires Inv(repository.Tables())
      modifies this`snapshot
      ensures var loads := w.reloads && !BadScope(repository.policies, repository.policies, repository.refs);
              && (ok <==> loads && w.revises)
              && if loads then Loads(repository.policies, repository.policies, repository.refs, snapshot) else snapshot == old(snapshot)
    {
      var loaded := Load(repository.policies, repository.policies, repository.refs);
      if !w.reloads || loaded.Err? {
        return false;
      }
      snapshot := loaded.value;
      ok := w.revises;
    }

    /** The tables the transaction leaves and the answer that validation, transaction, refresh, operation log and closing
        read make of it; the snapshot is loaded from the tables left, or untouched. */
    method Set(actor: Option<string>, input: SetInput, compiles: Compiler, e: Env, w: Weather) returns (r: Result<(), Error>)
      requires e.dialect == repository.dialect && Inv(repository.Tables())
      modifies this`snapshot, repository
      ensures Inv(repository.Tables())
      ensures var st, refusal := old(repository.Tables()), Refusal(actor, input, compiles);
              var tx := SetTx(e, st, Clean(input), if actor.Some? then actor.value else "");
              && (repository.Tables(), r) == Answer(refusal, tx, w, st)
              && if Refreshes(refusal, tx, w) then Loads(repository.policies, repository.policies, repository.refs, snapshot)
                 else snapshot == old(snapshot)
      ensures Told(actor, input, compiles, e, old(repository.Tables()), w, r)
    {
      AnswerIs(actor, input, compiles, e, w, repository.Tables());
      if actor.None? || AllSpace(actor.value) {
        return Err(Unauthorized);
      }
      var clean := Clean(input);
      if !GoodHead(clean) {
        return Err(Invalid);
      }
      var good, keys := CheckRefs(input.permissions);
      if !good || !compiles(clean.expression, keys) {
        return Err(Invalid);
      }
      var written := repository.Set(e, clean, actor.value, w.commit);
      match written {
        case Err(RouteMissing) => return Err(NotFound);
        case Err(Stale) => return Err(Conflict);
        case Err(DbError) => return Err(Internal);
        case Ok(_) =>
      }
      var refreshed := Refresh(w);
      r := if refreshed && w.logs then (if w.rereads then Ok(()) else Err(Internal)) else Err(Unavailable);
    }
  }

  /** What validation says: the refusal, or None if the tables decide. */
  ghost function Refusal(actor: Option<string>, input: SetInput, compiles: Compiler): Option<Error> {
    if actor.None? || AllSpace(actor.value) then Some(Unauthorized)
    else if !Acceptable(input, compiles) then Some(Invalid)
    else None
  }

  /** The tables a load can be made from. */
  ghost predicate Loadable(st: Store) {
    !BadScope(st.policies, st.policies, st.refs)
  }

  /** The tables the call leaves and the answer it gives, from what the transaction would do. */
  ghost function Answer(refusal: Option<Error>, tx: Result<Store, SetError>, w: Weather, st: Store): (Store, Result<(), Error>) {
    if refusal.Some? then (st, Err(refusal.value))
    else match tx
      case Err(RouteMissing) => (st, Err(NotFound))
      case Err(Stale) => (st, Err(Conflict))
      case Err(DbError) => (st, Err(Internal))
      case Ok(st') =>
        if w.commit.CommitFails? then (st, Err(Internal))
        else if w.commit.ReplyLost? then (st', Err(Internal))
        else if !(w.reloads && Loadable(st') && w.revises && w.logs) then (st', Err(Unavailable))
        else (st', if w.rereads then Ok(()) else Err(Internal))
  }

  /** The call replaces the snapshot. */
  ghost predicate Refreshes(refusal: Option<Error>, tx: Result<Store, SetError>, w: Weather) {
    refusal.None? && tx.Ok? && w.commit.CommitStands? && w.reloads && Loadable(tx.value)
  }

  // ---------------------------------------------------------------- when a call is answered how

  function TrimmedKeys(ps: seq<Permission>): set<string> {
    set i | 0 <= i < |ps| :: TrimSpace(ps[i].key)
  }

  /** The fields that validation asks for are there and in order, and the expression compiles with the keys given. */
  ghost predicate WellPosed(input: SetInput, compiles: Compiler) {
    var ps := input.permissions;
    && TrimSpace(input.routeId) != "" && TrimSpace(input.expression) != ""
    && TrimSpace(input.status) in {"active", "disabled"} && input.expectedVersion >= 0
    && (forall i :: 0 <= i < |ps| ==>
          && TrimSpace(ps[i].key) != "" && TrimSpace(ps[i].perm.resource) != "" && TrimSpace(ps[i].perm.action) != ""
          && TrimSpace(ps[i].perm.scope) in {"tenant", "platform", "principal"})
    && (forall i, j :: 0 <= i < j < |ps| ==> TrimSpace(ps[i].key) != TrimSpace(ps[j].key))
    && compiles(TrimSpace(input.expression), TrimmedKeys(ps))
  }

  lemma KeysAreTrimmed(ps: seq<Permission>)
    ensures Keys(TrimRefs(ps)) == TrimmedKeys(ps)
  {
    var ts := TrimRefs(ps);
    forall i | 0 <= i < |ps| ensures ts[i].key in Keys(ts) && ts[i].key == TrimSpace(ps[i].key) {}
  }

  lemma GoodRefIs(p: Permission)
    ensures TrimRef(p) == Permission(TrimSpace(p.key), Perm(TrimSpace(p.perm.resource), TrimSpace(p.perm.action), TrimSpace(p.perm.scope)))
    ensures GoodRef(TrimRef(p)) <==>
            && TrimSpace(p.key) != "" && TrimSpace(p.perm.resource) != "" && TrimSpace(p.perm.action) != ""
            && TrimSpace(p.perm.scope) in {"tenant", "platform", "principal"}
  {
    ScopesAreNamed(TrimSpace(p.perm.scope));
  }

  lemma GoodRefsAre(ps: seq<Permission>)
    ensures GoodRefs(TrimRefs(ps)) <==>
            && (forall i :: 0 <= i < |ps| ==> GoodRef(TrimRef(ps[i])))
            && forall i, j :: 0 <= i < j < |ps| ==> TrimSpace(ps[i].key) != TrimSpace(ps[j].key)
  {
    var ts := TrimRefs(ps);
    assert forall i :: 0 <= i < |ps| ==> ts[i] == TrimRef(ps[i]) && ts[i].key == TrimSpace(ps[i].key);
  }

  lemma AcceptableIs(input: SetInput, compiles: Compiler)
    ensures Acceptable(input, compiles) <==> WellPosed(input, compiles)
  {
    var ps := input.permissions;
    KeysAreTrimmed(ps);
    GoodRefsAre(ps);
    forall i | 0 <= i < |ps|
      ensures GoodRef(TrimRef(ps[i])) <==>
              && TrimSpace(ps[i].key) != "" && TrimSpace(ps[i].perm.resource) != "" && TrimSpace(ps[i].perm.action) != ""
              && TrimSpace(ps[i].perm.scope) in {"tenant", "platform", "principal"} {
      GoodRefIs(ps[i]);
    }
  }

  /** The input as it is written: without the blanks around the fields of its own, the permissions as they came. */
  function Written(input: SetInput): SetInput {
    SetInput(TrimSpace(input.routeId), TrimSpace(input.expression), TrimSpace(input.description), TrimSpace(input.status),
             input.expectedVersion, input.permissions)
  }

  /** The answer, told from the call, the tables and the course of events. */
  ghost predicate Told(actor: Option<string>, input: SetInput, compiles: Compiler, e: Env, st: Store, w: Weather, r: Result<(), Error>)
    requires Inv(st)
  {
    var known, posed := actor.Some? && !AllSpace(actor.value), WellPosed(input, compiles);
    var route := TrimSpace(input.routeId);
    && (r == Err(Unauthorized) <==> !known)
    && (r == Err(Invalid) <==> known && !posed)
    && (r == Err(NotFound) <==> known && posed && !RouteThere(st, route))
    && (r == Err(Conflict) <==> known && posed && RouteThere(st, route) && input.expectedVersion != VersionOf(st.policies, route))
    && (known && posed && RouteThere(st, route) && input.expectedVersion == VersionOf(st.policies, route) ==>
          var tx := SetTx(e, st, Written(input), actor.value);
          var stands := tx.Ok? && w.commit.CommitStands?;
          var refreshed := stands && w.reloads && Loadable(tx.value) && w.revises;
          && (r == Err(Unavailable) <==> stands && !(refreshed && w.logs))
          && (r == Ok(()) <==> refreshed && w.logs && w.rereads)
          && (r == Err(Internal) <==> !stands || (refreshed && w.logs && !w.rereads)))
  }

  lemma AnswerByTx(tx: Result<Store, SetError>, w: Weather, st: Store)
    ensures var r := Answer(None, tx, w, st).1;
            var stands := tx.Ok? && w.commit.CommitStands?;
            var refreshed := stands && w.reloads && Loadable(tx.value) && w.revises;
            && (r == Err(NotFound) <==> tx == Err(RouteMissing)) && (r == Err(Conflict) <==> tx == Err(Stale))
            && r != Err(Unauthorized) && r != Err(Invalid)
            && (r == Err(Unavailable) <==> stands && !(refreshed && w.logs))
            && (r == Ok(()) <==> refreshed && w.logs && w.rereads)
            && (tx.Ok? || tx == Err(DbError) ==> (r == Err(Internal) <==> !stands || (refreshed && w.logs && !w.rereads)))
  {
  }

  lemma ToldByTx(actor: string, input: SetInput, compiles: Compiler, e: Env, w: Weather, st: Store)
    requires Inv(st) && !AllSpace(actor) && WellPosed(input, compiles)
    ensures Told(Some(actor), input, compiles, e, st, w, Answer(None, SetTx(e, st, Written(input), actor), w, st).1)
  {
    var tx := SetTx(e, st, Written(input), actor);
    RefusedIff(e, st, Written(input), actor);
    AnswerByTx(tx, w, st);
    assert tx.Err? ==> tx.error in {RouteMissing, Stale, DbError};
  }

  /** Unauthorized without an actor; invalid if the call is not well posed; not found if the route is not there; conflict
      if the version expected is not that of the route's policy, 0 if it has none; unavailable if the write stands and
      the load, the revision or the operation log fails; internal if the write did not come through, or everything did
      but the closing read. */
  lemma AnswerIs(actor: Option<string>, input: SetInput, compiles: Compiler, e: Env, w: Weather, st: Store)
    requires Inv(st)
    ensures var tx := SetTx(e, st, Clean(input), if actor.Some? then actor.value else "");
            Told(actor, input, compiles, e, st, w, Answer(Refusal(actor, input, compiles), tx, w, st).1)
  {
    AcceptableIs(input, compiles);
    assert Clean(input) == Written(input);
    if Refusal(actor, input, compiles).None? {
      ToldByTx(actor.value, input, compiles, e, w, st);
    }
  }

  // ---------------------------------------------------------------- what an answer tells

  /** The answers that tell the caller what has become of the tables, `tx` being what the transaction would do: success
      and "unavailable" mean that its write stands, success also that the snapshot was loaded from it; unauthorized,
      invalid, not found and conflict mean that nothing was written. */
  lemma AnswerTells(refusal: Option<Error>, tx: Result<Store, SetError>, w: Weather, st: Store)
    requires refusal in {None, Some(Unauthorized), Some(Invalid)}
    ensures var (st', r) := Answer(refusal, tx, w, st);
            && (r.Ok? || r.error == Unavailable ==> refusal.None? && tx == Ok(st'))
            && (r.Err? && r.error != Unavailable && r.error != Internal ==> st' == st)
            && (r.Ok? ==> Refreshes(refusal, tx, w))
  {
  }

  /** "Internal" tells nothing: whenever the tables accept a Set there are two courses of events that differ in the
      COMMIT alone, both answered so, of which one has written and the other has not. And there is a third, in which
      even the snapshot is loaded and only the closing read fails. */
  lemma InternalTellsNothing(w: Weather, st: Store, st': Store)
    ensures Answer(None, Ok(st'), w.(commit := CommitFails), st) == (st, Err(Internal))
    ensures Answer(None, Ok(st'), w.(commit := ReplyLost), st) == (st', Err(Internal))
    ensures Loadable(st') ==> Answer(None, Ok(st'), Weather(CommitStands, true, true, true, false), st) == (st', Err(Internal))
  {
  }

  // ---------------------------------------------------------------- scopes with blanks around them

  ghost predicate AllScoped(refs: map<string, RefRow>) {
    forall id :: id in refs ==> ParseScope(refs[id].perm.scope).Some?
  }

  lemma {:induction false} ApplyKeepsScopes(e: Env, refs: map<string, RefRow>, policyId: string, byKey: map<string, string>, ps: seq<Permission>, actor: string)
    requires e.dialect.Postgres? && AllScoped(refs) && forall k :: k in byKey ==> byKey[k] in refs
    ensures var r := ApplyAll(e, refs, policyId, byKey, ps, actor); r.Ok? ==> AllScoped(r.value)
  {
    if ps != [] {
      ApplyKeepsScopes(e, refs, policyId, byKey, ps[..|ps| - 1], actor);
    }
  }

  /** The CHECK of Postgres keeps every scope canonical, so no Set, whatever blanks its caller sent, can make Load
      fail there. */
  lemma PostgresAlwaysLoads(e: Env, st: Store, input: SetInput, actor: string)
    requires Inv(st) && e.dialect.Postgres? && AllScoped(st.refs) && SetTx(e, st, input, actor).Ok?
    ensures var st' := SetTx(e, st, input, actor).value;
            AllScoped(st'.refs) && forall first :: !BadScope(first, st'.policies, st'.refs)
  {
    var id := SetPolicy(e, st.policies, input, actor).value.1;
    ApplyKeepsScopes(e, st.refs, id, RowOfKey(st.refs, id), input.permissions, actor);
  }

  /** MySQL has no such CHECK and the service trims only its copy: a scope sent as " tenant" passes validation, is
      committed with its blank, and from then on Load fails, for every policy. */
  lemma MySqlPaddedScopeStopsLoad(e: Env, st: Store, input: SetInput, actor: string, route: RouteRow)
    requires e.dialect.MySql? && SqlTrim(actor) != "" && !AllSpace(actor)
    requires st == Store(map[input.routeId := route], map[], map[]) && Live(route.audit)
    requires input.status == "active" && input.expectedVersion == 0
    requires input.permissions == [Permission("k", Perm("r", "a", " tenant"))]
    ensures GoodRefs(TrimRefs(input.permissions))
    ensures SetTx(e, st, input, actor).Ok?
    ensures var st' := SetTx(e, st, input, actor).value; BadScope(st'.policies, st'.policies, st'.refs)
  {
    PaddedTrims(input.permissions);
    PaddedIsTaken(e, input.permissions, actor);
    SetEffect(e, st, input, actor);
    var st' := SetTx(e, st, input, actor).value;
    PaddedWanted(input.permissions);
    LoadsAgainIff(st, st', input);
  }

  lemma PaddedTrims(ps: seq<Permission>)
    requires ps == [Permission("k", Perm("r", "a", " tenant"))]
    ensures GoodRefs(TrimRefs(ps))
  {
    assert " tenant"[1..] == "tenant";
    TrimOfTrimmed("tenant");
    TrimOfTrimmed("k");
    TrimOfTrimmed("r");
    TrimOfTrimmed("a");
    assert TrimRef(ps[0]) == Permission("k", Perm("r", "a", "tenant"));
  }

  lemma PaddedIsTaken(e: Env, ps: seq<Permission>, actor: string)
    requires e.dialect.MySql? && SqlTrim(actor) != "" && ps == [Permission("k", Perm("r", "a", " tenant"))]
    ensures SetRefs(e, map[], e.policyId, ps, actor).Ok?
  {
    assert ps[..0] == [];
    assert ApplyAll(e, map[], e.policyId, RowOfKey(map[], e.policyId), ps[..0], actor) == Ok(map[]);
  }

  lemma PaddedWanted(ps: seq<Permission>)
    requires ps == [Permission("k", Perm("r", "a", " tenant"))]
    ensures AsksBadScope(Wanted(ps))
  {
    assert ps[..0] == [] && Wanted(ps) == map["k" := ps[0].perm];
    assert "k" in Wanted(ps) && Wanted(ps)["k"].scope == " tenant";
    assert |" tenant"| == 7 && |"tenant"| == 6 && |"platform"| == 8 && |"principal"| == 9;
  }

  // ---------------------------------------------------------------- what was compiled and what is loaded

  /** The definition that validation compiles, as an input. */
  function Compiled(input: SetInput): SetInput {
    Clean(input).(permissions := TrimRefs(input.permissions))
  }

  lemma {:induction false} WantedAt(ts: seq<Permission>, i: nat)
    requires i < |ts| && forall i, j :: 0 <= i < j < |ts| ==> ts[i].key != ts[j].key
    ensures ts[i].key in Wanted(ts) && Wanted(ts)[ts[i].key] == ts[i].perm
  {
    if i < |ts| - 1 { WantedAt(ts[..|ts| - 1], i); }
  }

  lemma WantedKeysTrimmed(ps: seq<Permission>, k: string)
    requires k in Wanted(TrimRefs(ps))
    ensures Trimmed(k)
  {
    var i :| 0 <= i < |ps| && TrimRefs(ps)[i].key == k;
  }

  lemma SameKeysTrimmed(ps: seq<Permission>, i: nat)
    requires i < |ps| && Wanted(ps).Keys == Wanted(TrimRefs(ps)).Keys
    ensures TrimSpace(ps[i].key) == ps[i].key
  {
    assert ps[i].key in Wanted(ps).Keys;
    WantedKeysTrimmed(ps, ps[i].key);
    TrimOfTrimmed(ps[i].key);
  }

  /** Trimming the references changes what is wanted if it changes any of them. */
  lemma WantedTells(ps: seq<Permission>)
    requires GoodRefs(TrimRefs(ps)) && Wanted(ps) == Wanted(TrimRefs(ps))
    ensures TrimRefs(ps) == ps
  {
    var ts := TrimRefs(ps);
    forall i | 0 <= i < |ps| ensures ts[i].key == ps[i].key {
      SameKeysTrimmed(ps, i);
    }
    forall i | 0 <= i < |ps| ensures ts[i] == ps[i] {
      WantedAt(ts, i);
      WantedAt(ps, i);
    }
  }

  lemma ScopesDiffer(a: string, b: string)
    requires ParseScope(a).Some? && ParseScope(a) == ParseScope(b)
    ensures a == b
  {
  }

  lemma GrantsOneMap(d: Definition, a: map<string, Perm>, b: map<string, Perm>)
    requires GrantsExactly(d, a) && GrantsExactly(d, b)
    ensures a == b
  {
    forall k | k in a ensures k in b && a[k] == b[k] {
      ScopesDiffer(a[k].scope, b[k].scope);
    }
  }

  lemma AnsweredBoth(defs: seq<Definition>, a: SetInput, b: SetInput)
    requires AnsweredOnce(defs, a) && AnsweredOnce(defs, b) && a.routeId == b.routeId
    ensures Wanted(a.permissions) == Wanted(b.permissions)
  {
    var i :| 0 <= i < |defs| && Answers(defs[i], a) && forall j :: 0 <= j < |defs| && defs[j].routeId == a.routeId ==> j == i;
    var j :| 0 <= j < |defs| && Answers(defs[j], b);
    assert j == i;
    GrantsOneMap(defs[i], Wanted(a.permissions), Wanted(b.permissions));
  }

  lemma {:induction false} TrimmedAsksNone(ps: seq<Permission>)
    requires forall i :: 0 <= i < |ps| ==> ParseScope(ps[i].perm.scope).Some?
    ensures !AsksBadScope(Wanted(ps))
  {
    if ps != [] { TrimmedAsksNone(ps[..|ps| - 1]); }
  }

  /** An active Set that validation accepts and that is committed makes the tables load, and load the definition that
      validation compiled, if and only if no field of its permissions has blanks at its ends. */
  lemma LoadsCompiledIff(st: Store, st': Store, input: SetInput, defs: seq<Definition>)
    requires Inv(st) && Inv(st') && Loadable(st) && Advanced(st, st', Clean(input))
    requires Clean(input).status == "active" && GoodRefs(TrimRefs(input.permissions))
    requires Loadable(st') ==> Loads(st'.policies, st'.policies, st'.refs, defs)
    ensures Loadable(st') && AnsweredOnce(defs, Compiled(input)) <==> TrimRefs(input.permissions) == input.permissions
  {
    if TrimRefs(input.permissions) == input.permissions {
      TrimmedAsksNone(input.permissions);
      LoadsAgainIff(st, st', Clean(input));
    }
    if Loadable(st') {
      LoadAfterSet(st, st', Clean(input), defs);
      if AnsweredOnce(defs, Compiled(input)) {
        AnsweredBoth(defs, Clean(input), Compiled(input));
        WantedTells(input.permissions);
      }
    }
  }

  /** The witness, on Postgres: a key with a blank passes validation without it, is committed with it, and every load
      answers the route with the blank key and without the one that was compiled. */
  lemma PaddedKeyLoadsAnother(e: Env, st: Store, input: SetInput, actor: string, route: RouteRow, defs: seq<Definition>) returns (st': Store)
    requires e.dialect.Postgres? && !AllSpace(actor)
    requires st == Store(map[input.routeId := route], map[], map[]) && Live(route.audit)
    requires Clean(input) == input && input.status == "active" && input.expectedVersion == 0
    requires input.permissions == [Permission(" k", Perm("r", "a", "tenant"))]
    ensures GoodRefs(TrimRefs(input.permissions)) && SetTx(e, st, input, actor) == Ok(st') && Loadable(st')
    ensures Loads(st'.policies, st'.policies, st'.refs, defs) ==> AnsweredOnce(defs, input) && !AnsweredOnce(defs, Compiled(input))
  {
    PaddedKeyTrims(input.permissions);
    st' := PaddedKeyCommits(e, st, input, actor, route);
    if Loads(st'.policies, st'.policies, st'.refs, defs) {
      LoadsAnother(st, st', input, defs);
    }
  }

  lemma PaddedKeyCommits(e: Env, st: Store, input: SetInput, actor: string, route: RouteRow) returns (st': Store)
    requires e.dialect.Postgres? && !AllSpace(actor) && input.status == "active" && input.expectedVersion == 0
    requires st == Store(map[input.routeId := route], map[], map[]) && Live(route.audit)
    requires input.permissions == [Permission(" k", Perm("r", "a", "tenant"))]
    ensures Inv(st) && Loadable(st) && SetTx(e, st, input, actor) == Ok(st')
    ensures Inv(st') && Advanced(st, st', input) && Loadable(st')
  {
    PaddedKeyIsTaken(e, input.permissions, actor);
    PaddedKeyTrims(input.permissions);
    st' := SetTx(e, st, input, actor).value;
    SetEffect(e, st, input, actor);
    LoadsAgainIff(st, st', input);
  }

  lemma LoadsAnother(st: Store, st': Store, input: SetInput, defs: seq<Definition>)
    requires Inv(st) && Inv(st') && Loadable(st) && Advanced(st, st', Clean(input)) && Clean(input).status == "active"
    requires GoodRefs(TrimRefs(input.permissions)) && TrimRefs(input.permissions) != input.permissions
    requires Loadable(st') && Loads(st'.policies, st'.policies, st'.refs, defs)
    ensures AnsweredOnce(defs, Clean(input)) && !AnsweredOnce(defs, Compiled(input))
  {
    LoadAfterSet(st, st', Clean(input), defs);
    LoadsCompiledIff(st, st', input, defs);
  }

  lemma PaddedKeyTrims(ps: seq<Permission>)
    requires ps == [Permission(" k", Perm("r", "a", "tenant"))]
    ensures GoodRefs(TrimRefs(ps)) && TrimRefs(ps) != ps && !AsksBadScope(Wanted(ps))
  {
    assert ParseScope("tenant") == Some(TenantScope);
    TrimmedAsksNone(ps);
    assert " k"[1..] == "k";
    TrimOfTrimmed("tenant");
    TrimOfTrimmed("k");
    TrimOfTrimmed("r");
    TrimOfTrimmed("a");
    assert TrimRef(ps[0]) == Permission("k", Perm("r", "a", "tenant"));
    assert TrimRefs(ps)[0].key == "k" && ps[0].key[0] == ' ';
  }

  lemma PaddedKeyIsTaken(e: Env, ps: seq<Permission>, actor: string)
    requires e.dialect.Postgres? && actor != "" && ps == [Permission(" k", Perm("r", "a", "tenant"))]
    ensures SetRefs(e, map[], e.policyId, ps, actor).Ok?
  {
    assert ps[..0] == [];
    assert ApplyAll(e, map[], e.policyId, RowOfKey(map[], e.policyId), ps[..0], actor) == Ok(map[]);
  }
}
