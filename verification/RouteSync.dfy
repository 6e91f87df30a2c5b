/** `Repository.SyncRoutes`: every instance tells the tables which routes it serves
    (internal/routepolicy/repository.go:122-147). */
module RouteSync {
  import opened Basics
  import opened AuditModel
  import opened Text
  import opened RowTrigger
  import PolicyStore

  type RouteRow = PolicyStore.RouteRow

  /** platformpolicy.Route: a route with the stable id of its identity. */
  datatype Route = Route(
    id: string, protocol: string, method_: string, path: string, operation: string, description: string,
    service: string, sourceVersion: string)

  datatype Clock = Clock(dialect: Dialect, now: Time, ts: Time)

  datatype SyncError = NoRoutes | DbError

  predicate SameIdentity(row: RouteRow, r: Route) {
    row.service == r.service && row.protocol == r.protocol && row.method_ == r.method_ && row.path == r.path
  }

  /** The unique index on the identity: live rows on Postgres, all rows on MySQL. */
  predicate IdentityTaken(d: Dialect, rows: map<string, RouteRow>, r: Route) {
    exists other :: other in rows && other != r.id && SameIdentity(rows[other], r) && (d.MySql? || Live(rows[other].audit))
  }

  // ---------------------------------------------------------------- the statements

  /** A row the first UPDATE makes inactive. */
  predicate Stops(row: RouteRow, service: string, protocol: string) {
    row.service == service && row.protocol == protocol && row.status == "active" && Live(row.audit)
  }

  function Touched(t: Clock, was: Audit, actor: string): Audit
    requires TriggerActor(t.dialect, actor) != ""
  {
    OnUpdate(t.dialect, was, Keep, actor, t.ts).value
  }

  function StopRow(t: Clock, row: RouteRow, actor: string): RouteRow
    requires TriggerActor(t.dialect, actor) != ""
  {
    row.(status := "inactive", audit := Touched(t, row.audit, actor))
  }

  function StopIf(t: Clock, row: RouteRow, service: string, protocol: string, actor: string): RouteRow
    requires TriggerActor(t.dialect, actor) != ""
  {
    if Stops(row, service, protocol) then StopRow(t, row, actor) else row
  }

  /** UPDATE route_definitions SET status = 'inactive' WHERE service_name = ? AND protocol = ? AND status = 'active' AND
      deleted_at IS NULL */
  function StopAll(t: Clock, rows: map<string, RouteRow>, service: string, protocol: string, actor: string): map<string, RouteRow>
    requires TriggerActor(t.dialect, actor) != ""
  {
    map id | id in rows :: StopIf(t, rows[id], service, protocol, actor)
  }

  function RowOf(t: Clock, r: Route, audit: Audit): RouteRow {
    PolicyStore.RouteRow(r.protocol, r.method_, r.path, r.operation, r.description, r.service, r.sourceVersion, "active", t.now, audit)
  }

  /** The live row of the id is rewritten; without one a row is inserted, which fails when the id or the identity
      is taken. */
  function Upsert(t: Clock, rows: map<string, RouteRow>, r: Route, actor: string): Result<map<string, RouteRow>, ()>
    requires TriggerActor(t.dialect, actor) != ""
  {
    if IdentityTaken(t.dialect, rows, r) then Err(())
    else if r.id in rows then
      if Live(rows[r.id].audit) then Ok(rows[r.id := RowOf(t, r, Touched(t, rows[r.id].audit, actor))]) else Err(())
    else Ok(rows[r.id := RowOf(t, r, OnInsert(t.dialect, actor, t.ts).value)])
  }

  function UpsertAll(t: Clock, rows: map<string, RouteRow>, rs: seq<Route>, actor: string): Result<map<string, RouteRow>, ()>
    requires TriggerActor(t.dialect, actor) != ""
  {
    if rs == [] then Ok(rows)
    else match UpsertAll(t, rows, rs[..|rs| - 1], actor)
      case Err(_) => Err(())
      case Ok(mid) => Upsert(t, mid, rs[|rs| - 1], actor)
  }

  lemma {:induction false} OnlyBlanksTrimToNothing(s: string)
    ensures SqlTrim(s) == "" ==> AllSpace(s)
    decreases |s|
  {
    if s != "" && s[0] == ' ' {
      OnlyBlanksTrimToNothing(s[1..]);
      assert forall i :: 0 < i < |s| ==> s[i] == s[1..][i - 1];
    } else if s != "" && s[|s| - 1] == ' ' {
      OnlyBlanksTrimToNothing(s[..|s| - 1]);
      assert forall i :: 0 <= i < |s| - 1 ==> s[i] == s[..|s| - 1][i];
    }
  }

  /** An actor the transaction accepts is one the triggers record. */
  lemma ActorIsRecorded(d: Dialect, actor: string)
    requires !AllSpace(actor)
    ensures TriggerActor(d, actor) != ""
  {
    OnlyBlanksTrimToNothing(actor);
  }

  /** SyncRoutes as one transaction. */
  function SyncTx(t: Clock, rows: map<string, RouteRow>, rs: seq<Route>, actor: string): Result<map<string, RouteRow>, SyncError> {
    if rs == [] then Err(NoRoutes)
    else if AllSpace(actor) then Err(DbError)
    else
      ActorIsRecorded(t.dialect, actor);
      match UpsertAll(t, StopAll(t, rows, rs[0].service, rs[0].protocol, actor), rs, actor)
      case Err(_) => Err(DbError)
      case Ok(rows') => Ok(rows')
  }

  // ---------------------------------------------------------------- the imperative form

  lemma {:induction false} UpsertErrStays(t: Clock, rows: map<string, RouteRow>, rs: seq<Route>, i: nat, actor: string)
    requires TriggerActor(t.dialect, actor) != "" && i <= |rs| && UpsertAll(t, rows, rs[..i], actor).Err?
    ensures UpsertAll(t, rows, rs, actor).Err?
  {
    if i == |rs| {
      assert rs[..i] == rs;
    } else {
      assert rs[..|rs| - 1][..i] == rs[..i];
      UpsertErrStays(t, rows, rs[..|rs| - 1], i, actor);
    }
  }

  class RouteTable {
    var rows: map<string, RouteRow>

    constructor ()
      ensures rows == map[]
    {
      rows := map[];
    }

    method StopRows(t: Clock, service: string, protocol: string, actor: string)
      requires TriggerActor(t.dialect, actor) != ""
      modifies this
      ensures rows == StopAll(t, old(rows), service, protocol, actor)
    {
      ghost var goal := StopAll(t, rows, service, protocol, actor);
      var rest := rows.Keys;
      while rest != {}
        invariant rows.Keys == old(rows).Keys && rest <= rows.Keys
        invariant forall id :: id in rows ==> rows[id] == if id in rest then old(rows)[id] else goal[id]
        decreases |rest|
      {
        var id :| id in rest;
        if Stops(rows[id], service, protocol) {
          rows := rows[id := StopRow(t, rows[id], actor)];
        }
        rest := rest - {id};
      }
    }

    /** All or nothing; an error of the COMMIT does not say which. */
    method SyncRoutes(t: Clock, rs: seq<Route>, actor: string, commit: PolicyStore.Commit) returns (r: Result<(), SyncError>)
      modifies this
      ensures match SyncTx(t, old(rows), rs, actor)
              case Err(err) => r == Err(err) && rows == old(rows)
              case Ok(rows') => r == (if commit.CommitStands? then Ok(()) else Err(DbError))
                                && rows == if commit.CommitFails? then old(rows) else rows'
    {
      if |rs| == 0 {
        return Err(NoRoutes);
      }
      if AllSpace(actor) {
        return Err(DbError);
      }
      ActorIsRecorded(t.dialect, actor);
      var rows0 := rows;
      StopRows(t, rs[0].service, rs[0].protocol, actor);
      ghost var stopped := rows;
      for i := 0 to |rs|
        invariant UpsertAll(t, stopped, rs[..i], actor) == Ok(rows)
      {
        assert rs[..i + 1][..i] == rs[..i];
        match Upsert(t, rows, rs[i], actor) {
          case Err(_) =>
            UpsertErrStays(t, stopped, rs, i + 1, actor);
            rows := rows0;
            return Err(DbError);
          case Ok(next) => rows := next;
        }
      }
      assert rs[..|rs|] == rs;
      if commit.CommitFails? {
        rows := rows0;
      }
      r := if commit.CommitStands? then Ok(()) else Err(DbError);
    }
  }

  // ---------------------------------------------------------------- what a sync comes to

  /** A route row without its audit columns and discovery time. */
  datatype Face = Face(
    protocol: string, method_: string, path: string, operation: string, description: string, service: string,
    sourceVersion: string, status: string, live: bool)

  function FaceOf(row: RouteRow): Face {
    Face(row.protocol, row.method_, row.path, row.operation, row.description, row.service, row.sourceVersion, row.status, Live(row.audit))
  }

  function Faces(rows: map<string, RouteRow>): map<string, Face> {
    map id | id in rows :: FaceOf(rows[id])
  }

  predicate IsPair(f: Face, service: string, protocol: string) {
    f.service == service && f.protocol == protocol
  }

  function StopFace(f: Face, service: string, protocol: string): Face {
    if IsPair(f, service, protocol) && f.status == "active" && f.live then f.(status := "inactive") else f
  }

  function StopFaces(fs: map<string, Face>, service: string, protocol: string): map<string, Face> {
    map id | id in fs :: StopFace(fs[id], service, protocol)
  }

  function RouteFace(r: Route): Face {
    Face(r.protocol, r.method_, r.path, r.operation, r.description, r.service, r.sourceVersion, "active", true)
  }

  function Ids(rs: seq<Route>): set<string> {
    set i | 0 <= i < |rs| :: rs[i].id
  }

  /** The listed routes by id; a repeated id counts with its last occurrence. */
  function Listed(rs: seq<Route>): (m: map<string, Face>)
    ensures m.Keys == Ids(rs)
    ensures forall id :: id in m ==> m[id].live && m[id].status == "active" && exists i :: 0 <= i < |rs| && rs[i].id == id && m[id] == RouteFace(rs[i])
  {
    if rs == [] then map[]
    else
      var n := |rs| - 1;
      assert Ids(rs) == Ids(rs[..n]) + {rs[n].id} by {
        assert forall i :: 0 <= i < n ==> rs[..n][i] == rs[i];
      }
      Listed(rs[..n])[rs[n].id := RouteFace(rs[n])]
  }

  /** The rows of the listed routes' service and protocol stop, the listed routes run. */
  function SyncFaces(fs: map<string, Face>, rs: seq<Route>): map<string, Face>
    requires rs != []
  {
    StopFaces(fs, rs[0].service, rs[0].protocol) + Listed(rs)
  }

  lemma {:induction false} UpsertAllFaces(t: Clock, rows: map<string, RouteRow>, rs: seq<Route>, actor: string)
    requires TriggerActor(t.dialect, actor) != ""
    ensures var r := UpsertAll(t, rows, rs, actor); r.Ok? ==> Faces(r.value) == Faces(rows) + Listed(rs)
  {
    if rs != [] {
      var n := |rs| - 1;
      UpsertAllFaces(t, rows, rs[..n], actor);
      var mid := UpsertAll(t, rows, rs[..n], actor);
      if mid.Ok? {
        UpsertFaces(t, mid.value, rs[n], actor);
        MergeOne(Faces(rows), Listed(rs[..n]), rs[n].id, RouteFace(rs[n]));
      }
    }
  }

  lemma MergeOne(a: map<string, Face>, b: map<string, Face>, id: string, f: Face)
    ensures (a + b)[id := f] == a + b[id := f]
  {
  }

  lemma UpsertFaces(t: Clock, rows: map<string, RouteRow>, r: Route, actor: string)
    requires TriggerActor(t.dialect, actor) != ""
    ensures var u := Upsert(t, rows, r, actor); u.Ok? ==> Faces(u.value) == Faces(rows)[r.id := RouteFace(r)]
  {
  }

  lemma StopAllFaces(t: Clock, rows: map<string, RouteRow>, service: string, protocol: string, actor: string)
    requires TriggerActor(t.dialect, actor) != ""
    ensures Faces(StopAll(t, rows, service, protocol, actor)) == StopFaces(Faces(rows), service, protocol)
  {
  }

  /** The loop of UPDATEs and INSERTs comes to one assignment of the whole table. */
  lemma SyncIsAssignment(t: Clock, rows: map<string, RouteRow>, rs: seq<Route>, actor: string)
    requires SyncTx(t, rows, rs, actor).Ok?
    ensures rs != [] && Faces(SyncTx(t, rows, rs, actor).value) == SyncFaces(Faces(rows), rs)
  {
    ActorIsRecorded(t.dialect, actor);
    StopAllFaces(t, rows, rs[0].service, rs[0].protocol, actor);
    UpsertAllFaces(t, StopAll(t, rows, rs[0].service, rs[0].protocol, actor), rs, actor);
  }

  /** A list as an instance sends it: one service, one protocol. */
  ghost predicate Shared(rs: seq<Route>, service: string, protocol: string) {
    rs != [] && forall i :: 0 <= i < |rs| ==> rs[i].service == service && rs[i].protocol == protocol
  }

  /** After a sync the active rows of the pair are exactly the listed ids, and no id has gone. */
  lemma ActiveAreListed(t: Clock, rows: map<string, RouteRow>, rs: seq<Route>, actor: string, service: string, protocol: string)
    requires Shared(rs, service, protocol) && SyncTx(t, rows, rs, actor).Ok?
    ensures var rows' := SyncTx(t, rows, rs, actor).value;
            && rows'.Keys == rows.Keys + Ids(rs)
            && (forall id :: id in rows' && IsPair(FaceOf(rows'[id]), service, protocol) && Live(rows'[id].audit) ==>
                  (rows'[id].status == "active" <==> id in Ids(rs)))
            && forall id :: id in Ids(rs) ==> IsPair(FaceOf(rows'[id]), service, protocol) && Live(rows'[id].audit)
  {
    SyncIsAssignment(t, rows, rs, actor);
    var rows' := SyncTx(t, rows, rs, actor).value;
    var fs := Faces(rows');
    assert rows'.Keys == fs.Keys;
    forall id | id in rows' ensures fs[id] == FaceOf(rows'[id]) {}
    assert rs[0].service == service && rs[0].protocol == protocol;
  }

  // ---------------------------------------------------------------- with stable ids

  /** The id is computed from the identity, and differs for different ones. */
  type Identifier = (string, string, string, string) -> string

  ghost predicate Injective(idOf: Identifier) {
    forall p, m, x, s, p', m', x', s' :: idOf(p, m, x, s) == idOf(p', m', x', s') ==> p == p' && m == m' && x == x' && s == s'
  }

  predicate RouteStable(idOf: Identifier, r: Route) {
    r.id == idOf(r.protocol, r.method_, r.path, r.service)
  }

  predicate FaceStable(idOf: Identifier, id: string, f: Face) {
    id == idOf(f.protocol, f.method_, f.path, f.service)
  }

  /** Stable ids and no soft-deleted row. */
  ghost predicate Stable(idOf: Identifier, rows: map<string, RouteRow>) {
    forall id :: id in rows ==> FaceStable(idOf, id, FaceOf(rows[id])) && Live(rows[id].audit)
  }

  ghost predicate StableRoutes(idOf: Identifier, rs: seq<Route>) {
    forall i :: 0 <= i < |rs| ==> RouteStable(idOf, rs[i])
  }

  lemma UpsertSucceeds(t: Clock, rows: map<string, RouteRow>, r: Route, actor: string, idOf: Identifier)
    requires TriggerActor(t.dialect, actor) != "" && Stable(idOf, rows) && RouteStable(idOf, r)
    ensures Upsert(t, rows, r, actor).Ok? && Stable(idOf, Upsert(t, rows, r, actor).value)
  {
  }

  lemma {:induction false} UpsertAllSucceeds(t: Clock, rows: map<string, RouteRow>, rs: seq<Route>, actor: string, idOf: Identifier)
    requires TriggerActor(t.dialect, actor) != "" && Stable(idOf, rows) && StableRoutes(idOf, rs)
    ensures UpsertAll(t, rows, rs, actor).Ok? && Stable(idOf, UpsertAll(t, rows, rs, actor).value)
  {
    if rs != [] {
      var n := |rs| - 1;
      UpsertAllSucceeds(t, rows, rs[..n], actor, idOf);
      UpsertSucceeds(t, UpsertAll(t, rows, rs[..n], actor).value, rs[n], actor, idOf);
    }
  }

  /** With stable ids and nothing soft-deleted a sync of a non-empty list always succeeds. */
  lemma SyncSucceeds(t: Clock, rows: map<string, RouteRow>, rs: seq<Route>, actor: string, idOf: Identifier)
    requires Stable(idOf, rows) && StableRoutes(idOf, rs) && rs != [] && !AllSpace(actor)
    ensures SyncTx(t, rows, rs, actor).Ok? && Stable(idOf, SyncTx(t, rows, rs, actor).value)
  {
    ActorIsRecorded(t.dialect, actor);
    UpsertAllSucceeds(t, StopAll(t, rows, rs[0].service, rs[0].protocol, actor), rs, actor, idOf);
  }

  lemma {:induction false} UpsertAllKeeps(t: Clock, rows: map<string, RouteRow>, rs: seq<Route>, actor: string, id: string)
    requires TriggerActor(t.dialect, actor) != "" && UpsertAll(t, rows, rs, actor).Ok? && id in rows
    ensures var rows' := UpsertAll(t, rows, rs, actor).value;
            && id in rows' && rows'[id].audit.createdBy == rows[id].audit.createdBy && rows'[id].audit.createdAt == rows[id].audit.createdAt
            && rows'[id].audit.version >= rows[id].audit.version && (id !in Ids(rs) ==> rows'[id] == rows[id])
  {
    if rs != [] {
      var n := |rs| - 1;
      UpsertAllKeeps(t, rows, rs[..n], actor, id);
      assert id in Ids(rs[..n]) ==> id in Ids(rs) by {
        assert forall i :: 0 <= i < n ==> rs[..n][i] == rs[i];
      }
      assert rs[n].id in Ids(rs);
    }
  }

  /** A sync changes no row of another service or protocol, not even its audit columns; and no row loses its
      creator or its place. */
  lemma OtherPairsUntouched(t: Clock, rows: map<string, RouteRow>, rs: seq<Route>, actor: string, service: string, protocol: string, idOf: Identifier, id: string)
    requires Stable(idOf, rows) && StableRoutes(idOf, rs) && Injective(idOf)
    requires Shared(rs, service, protocol) && SyncTx(t, rows, rs, actor).Ok? && id in rows
    ensures var rows' := SyncTx(t, rows, rs, actor).value;
            && id in rows' && rows'[id].audit.createdBy == rows[id].audit.createdBy && rows'[id].audit.version >= rows[id].audit.version
            && (!IsPair(FaceOf(rows[id]), service, protocol) ==> rows'[id] == rows[id])
  {
    ActorIsRecorded(t.dialect, actor);
    var stopped := StopAll(t, rows, rs[0].service, rs[0].protocol, actor);
    UpsertAllKeeps(t, stopped, rs, actor, id);
    if i :| 0 <= i < |rs| && rs[i].id == id {
      assert RouteStable(idOf, rs[i]) && FaceStable(idOf, id, FaceOf(rows[id]));
    }
  }

  /** Syncing the same list again, at any time and by anyone, changes nothing but audit columns and discovery times. */
  lemma SyncTwice(t: Clock, t': Clock, rows: map<string, RouteRow>, rs: seq<Route>, actor: string, actor': string, idOf: Identifier)
    requires Stable(idOf, rows) && StableRoutes(idOf, rs) && rs != [] && !AllSpace(actor) && !AllSpace(actor')
    ensures var once := SyncTx(t, rows, rs, actor);
            && once.Ok?
            && var twice := SyncTx(t', once.value, rs, actor');
               twice.Ok? && Faces(twice.value) == Faces(once.value)
  {
    SyncSucceeds(t, rows, rs, actor, idOf);
    var once := SyncTx(t, rows, rs, actor).value;
    SyncSucceeds(t', once, rs, actor', idOf);
    SyncIsAssignment(t, rows, rs, actor);
    SyncIsAssignment(t', once, rs, actor');
    SyncFacesTwice(Faces(rows), rs);
  }

  lemma SyncFacesTwice(fs: map<string, Face>, rs: seq<Route>)
    requires rs != []
    ensures SyncFaces(SyncFaces(fs, rs), rs) == SyncFaces(fs, rs)
  {
  }

  lemma StopPasses(fs: map<string, Face>, m: map<string, Face>, service: string, protocol: string)
    requires forall id :: id in m ==> !IsPair(m[id], service, protocol)
    ensures StopFaces(fs + m, service, protocol) == StopFaces(fs, service, protocol) + m
  {
  }

  lemma StopsCommute(fs: map<string, Face>, service: string, protocol: string, service': string, protocol': string)
    ensures StopFaces(StopFaces(fs, service, protocol), service', protocol') == StopFaces(StopFaces(fs, service', protocol'), service, protocol)
  {
    var a, b := StopFaces(fs, service, protocol), StopFaces(fs, service', protocol');
    forall id | id in fs ensures StopFace(a[id], service', protocol') == StopFace(b[id], service, protocol) {
      assert a[id] == StopFace(fs[id], service, protocol) && b[id] == StopFace(fs[id], service', protocol');
    }
  }

  lemma MergesCommute(fs: map<string, Face>, m: map<string, Face>, m': map<string, Face>)
    requires m.Keys !! m'.Keys
    ensures fs + m + m' == fs + m' + m
  {
  }

  lemma AssignmentsCommute(fs: map<string, Face>, m: map<string, Face>, m': map<string, Face>,
                           service: string, protocol: string, service': string, protocol': string)
    requires (service, protocol) != (service', protocol') && m.Keys !! m'.Keys
    requires (forall id :: id in m ==> IsPair(m[id], service, protocol)) && forall id :: id in m' ==> IsPair(m'[id], service', protocol')
    ensures StopFaces(StopFaces(fs, service, protocol) + m, service', protocol') + m'
            == StopFaces(StopFaces(fs, service', protocol') + m', service, protocol) + m
  {
    StopPasses(StopFaces(fs, service, protocol), m, service', protocol');
    StopPasses(StopFaces(fs, service', protocol'), m', service, protocol);
    StopsCommute(fs, service, protocol, service', protocol');
    MergesCommute(StopFaces(StopFaces(fs, service, protocol), service', protocol'), m, m');
  }

  lemma SyncFacesCommute(fs: map<string, Face>, rs: seq<Route>, rs': seq<Route>, service: string, protocol: string, service': string, protocol': string)
    requires Shared(rs, service, protocol) && Shared(rs', service', protocol') && (service, protocol) != (service', protocol')
    requires Ids(rs) !! Ids(rs')
    ensures SyncFaces(SyncFaces(fs, rs), rs') == SyncFaces(SyncFaces(fs, rs'), rs)
  {
    assert rs[0].service == service && rs[0].protocol == protocol && rs'[0].service == service' && rs'[0].protocol == protocol';
    AssignmentsCommute(fs, Listed(rs), Listed(rs'), service, protocol, service', protocol');
  }

  lemma DisjointIds(rs: seq<Route>, rs': seq<Route>, service: string, protocol: string, service': string, protocol': string, idOf: Identifier)
    requires Shared(rs, service, protocol) && Shared(rs', service', protocol') && (service, protocol) != (service', protocol')
    requires StableRoutes(idOf, rs) && StableRoutes(idOf, rs') && Injective(idOf)
    ensures Ids(rs) !! Ids(rs')
  {
    forall i, j | 0 <= i < |rs| && 0 <= j < |rs'| ensures rs[i].id != rs'[j].id {
      assert RouteStable(idOf, rs[i]) && RouteStable(idOf, rs'[j]);
    }
  }

  /** Syncs of two different services or protocols may come in either order. */
  lemma SyncsCommute(t: Clock, t': Clock, rows: map<string, RouteRow>, rs: seq<Route>, rs': seq<Route>, actor: string, actor': string,
                     service: string, protocol: string, service': string, protocol': string, idOf: Identifier)
    requires Shared(rs, service, protocol) && Shared(rs', service', protocol') && (service, protocol) != (service', protocol')
    requires Stable(idOf, rows) && StableRoutes(idOf, rs) && StableRoutes(idOf, rs') && Injective(idOf)
    requires !AllSpace(actor) && !AllSpace(actor')
    ensures var a, b := SyncTx(t, rows, rs, actor), SyncTx(t', rows, rs', actor');
            && a.Ok? && b.Ok?
            && var ab, ba := SyncTx(t', a.value, rs', actor'), SyncTx(t, b.value, rs, actor);
               ab.Ok? && ba.Ok? && Faces(ab.value) == Faces(ba.value)
  {
    SyncSucceeds(t, rows, rs, actor, idOf);
    SyncSucceeds(t', rows, rs', actor', idOf);
    var a, b := SyncTx(t, rows, rs, actor).value, SyncTx(t', rows, rs', actor').value;
    SyncSucceeds(t', a, rs', actor', idOf);
    SyncSucceeds(t, b, rs, actor, idOf);
    SyncIsAssignment(t, rows, rs, actor);
    SyncIsAssignment(t', rows, rs', actor');
    SyncIsAssignment(t', a, rs', actor');
    SyncIsAssignment(t, b, rs, actor);
    DisjointIds(rs, rs', service, protocol, service', protocol', idOf);
    SyncFacesCommute(Faces(rows), rs, rs', service, protocol, service', protocol');
  }
}
