/** `Service.Record` as one call running alone: the checks, the completion of the record, the write of
    both rows in one transaction (internal/audit/service.go:44-103). The interleaved form is Ledger. */
module RecordService {
  import opened Basics
  import opened AuditModel
  import opened AuditTrigger
  import opened Text
  import opened Ledger

  /** The libraries the call depends on. */
  datatype Oracle = Oracle(
    isUuid: string -> bool,
    redact: string -> Option<string>,
    verify: (string, string) -> Verdict)

  /** What goes wrong with the database, if anything: the Get before the write, an error before the commit takes
      effect, a commit that takes effect although its reply is lost, the Get after a duplicate key. */
  datatype Fault = NoFault | FirstGetFails | BeforeCommit | ReplyLost | SecondGetFails

  /** The clock of the service, the clock of the database, and the UUID generator. */
  datatype Env = Env(now: Time, ts: Time, newId: string, fault: Fault)

  function EnforceTenant(caller: Caller, tenant: string): (r: Option<Error>)
    ensures r.None? <==> (caller.kind.System? || (TrimSpace(caller.tenantId) != "" && caller.tenantId == TrimSpace(tenant)))
  {
    if caller.kind.User? && (TrimSpace(caller.tenantId) == "" || caller.tenantId != TrimSpace(tenant)) then Some(Forbidden) else None
  }

  function VerifyApplication(o: Oracle, tenant: string, application: string, required: bool): (r: Option<Error>)
    ensures r.None? <==> if TrimSpace(application) == "" then !required
                         else TrimSpace(tenant) != "" && o.verify(TrimSpace(tenant), TrimSpace(application)).Granted?
  {
    var t, a := TrimSpace(tenant), TrimSpace(application);
    if a == "" then (if required then Some(Invalid) else None)
    else if t == "" then Some(Invalid)
    else match o.verify(t, a)
      case Granted => None
      case NotGranted => Some(Forbidden)
      case VerifierDown => Some(Unavailable)
  }

  function Trim(v: Record): Record {
    v.(tenantId := TrimSpace(v.tenantId), applicationId := TrimSpace(v.applicationId), action := TrimSpace(v.action),
       resourceType := TrimSpace(v.resourceType), resourceId := TrimSpace(v.resourceId),
       sourceService := TrimSpace(v.sourceService))
  }

  /** Everything before the database is asked: the completed record or the refusal. */
  function Prepare(o: Oracle, caller: Option<Caller>, value: Record, env: Env): (r: Result<Record, Error>)
    ensures r.Ok? ==> caller.Some? && Prepared(r.value, caller.value.id)
    ensures r.Ok? ==> r.value.id == (if value.id == "" then env.newId else value.id) && r.value.tenantId == TrimSpace(value.tenantId)
    ensures r.Ok? && caller.value.kind.User? ==> r.value.tenantId == caller.value.tenantId
  {
    var v := Trim(value);
    if v.action == "" || v.resourceType == "" || v.resourceId == "" || v.sourceService == "" then Err(Invalid)
    else if caller.None? then Err(Unauthorized)
    else
      var c := caller.value;
      TrimIdempotent(value.tenantId);
      match EnforceTenant(c, v.tenantId)
      case Some(e) => Err(e)
      case None =>
        match if c.kind.User? then VerifyApplication(o, v.tenantId, v.applicationId, false) else None
        case Some(e) => Err(e)
        case None =>
          match (o.redact(v.beforeSummary), o.redact(v.afterSummary))
          case (Some(before), Some(after)) =>
            if v.id != "" && !o.isUuid(v.id) then Err(Invalid)
            else Ok(v.(id := if v.id == "" then env.newId else v.id,
                       actorId := if v.actorId == "" then c.id else v.actorId,
                       actorType := if v.actorId == "" then TypeName(c.kind) else v.actorType,
                       occurredAt := if v.occurredAt == ZERO_TIME then env.now else v.occurredAt,
                       beforeSummary := before, afterSummary := after,
                       audit := Audit(1, env.now, c.id, env.now, c.id, None, None)))
          case _ => Err(Invalid)
  }

  function TypeName(kind: CallerType): string {
    if kind.User? then "user" else "system"
  }

  // ---------------------------------------------------------------- what a call asks for

  /** The four fields a call has to fill. */
  predicate Complete(value: Record) {
    TrimSpace(value.action) != "" && TrimSpace(value.resourceType) != "" && TrimSpace(value.resourceId) != "" && TrimSpace(value.sourceService) != ""
  }

  /** A user names a tenant that is not its own. */
  predicate Foreign(c: Caller, tenant: string) {
    c.kind.User? && (AllSpace(c.tenantId) || c.tenantId != TrimSpace(tenant))
  }

  /** An application is named, and the verifier says this of it. */
  predicate Verified(o: Oracle, tenant: string, application: string, verdict: Verdict) {
    TrimSpace(application) != "" && o.verify(TrimSpace(tenant), TrimSpace(application)) == verdict
  }

  /** A user names no application, or one that its tenant is granted. */
  predicate MayUse(o: Oracle, c: Caller, value: Record) {
    c.kind.User? && TrimSpace(value.applicationId) != "" ==> Verified(o, value.tenantId, value.applicationId, Granted)
  }

  /** Both summaries are JSON and the id, if there is one, is a UUID. */
  predicate Readable(o: Oracle, value: Record) {
    o.redact(value.beforeSummary).Some? && o.redact(value.afterSummary).Some? && (value.id == "" || o.isUuid(value.id))
  }

  /** The checks accept the call. */
  predicate Recordable(o: Oracle, caller: Option<Caller>, value: Record) {
    && Complete(value) && caller.Some? && !Foreign(caller.value, value.tenantId) && MayUse(o, caller.value, value)
    && Readable(o, value)
  }

  /** Why they refuse one. */
  predicate NotRecordedFor(o: Oracle, caller: Option<Caller>, value: Record, e: Error) {
    match e
    case Unauthorized => Complete(value) && caller.None?
    case Forbidden =>
      && Complete(value) && caller.Some? && caller.value.kind.User?
      && (Foreign(caller.value, value.tenantId) || Verified(o, value.tenantId, value.applicationId, NotGranted))
    case Unavailable =>
      && Complete(value) && caller.Some? && caller.value.kind.User?
      && !Foreign(caller.value, value.tenantId) && Verified(o, value.tenantId, value.applicationId, VerifierDown)
    case Invalid =>
      || !Complete(value)
      || (caller.Some? && !Foreign(caller.value, value.tenantId) && MayUse(o, caller.value, value) && !Readable(o, value))
    case _ => false
  }

  function IdOf(value: Record, env: Env): string {
    if value.id == "" then env.newId else value.id
  }

  /** The record holds what was sent: the summaries redacted, most fields without the blanks around them, and the caller
      as the actor if none is named. */
  predicate Carries(o: Oracle, c: Caller, value: Record, env: Env, r: Record) {
    && r.id == IdOf(value, env) && r.tenantId == TrimSpace(value.tenantId) && r.applicationId == TrimSpace(value.applicationId)
    && (if value.actorId == "" then r.actorId == c.id && r.actorType == (if c.kind.User? then "user" else "system")
        else r.actorId == value.actorId && r.actorType == value.actorType)
    && r.action == TrimSpace(value.action)
    && r.resourceType == TrimSpace(value.resourceType) && r.resourceId == TrimSpace(value.resourceId)
    && r.requestId == value.requestId && r.traceId == value.traceId && r.sourceService == TrimSpace(value.sourceService)
    && o.redact(value.beforeSummary) == Some(r.beforeSummary) && o.redact(value.afterSummary) == Some(r.afterSummary)
    && r.occurredAt == if value.occurredAt == ZERO_TIME then env.now else value.occurredAt
  }

  /** The checks accept exactly the calls they should, refuse the others for the right reason, and what they make of an
      accepted one holds what was sent. */
  lemma PrepareIs(o: Oracle, caller: Option<Caller>, value: Record, env: Env)
    ensures Prepare(o, caller, value, env).Ok? <==> Recordable(o, caller, value)
    ensures forall e :: Prepare(o, caller, value, env) == Err(e) <==> NotRecordedFor(o, caller, value, e)
    ensures Prepare(o, caller, value, env).Ok? ==>
              var v := Prepare(o, caller, value, env).value;
              && Carries(o, caller.value, value, env, v)
              && v.audit == Audit(1, env.now, caller.value.id, env.now, caller.value.id, None, None)
  {
    if caller.Some? { TrimsToNothing(caller.value.tenantId); }
    TrimIdempotent(value.tenantId);
    TrimIdempotent(value.applicationId);
  }

  /** Repository.Get on a paired ledger. */
  function Lookup(db: Db, id: string, tenant: string): (r: Option<Record>)
    requires Paired(db)
    ensures GetResult(db, id, tenant, r)
  {
    if id in db.keys && Stored(db, id).tenantId == tenant then Some(Stored(db, id)) else None
  }

  /** The transaction of one call and the Get that follows a duplicate. */
  function Write(db: Db, v: Record, actor: string, env: Env): (Db, Result<Record, Error>)
    requires Paired(db)
  {
    if env.fault.BeforeCommit? || AllSpace(actor) then (db, Err(Internal))
    else match ImmutableRow(Insert, actor, env.ts)
      case Err(_) => (db, Err(Internal))
      case Ok(audit) =>
        if v.id in db.keys then
          (db, if env.fault.SecondGetFails? then Err(Internal)
               else match Lookup(db, v.id, v.tenantId) case Some(e) => Ok(e) case None => Err(Internal))
        else
          (Committed(db, KeyRow(v.id, v.occurredAt, audit), v.(audit := audit)),
           if env.fault.ReplyLost? then Err(Internal) else Ok(v))
  }

  /** The part of a call that touches the database: the pre-check when the caller named the id, then the
      write. */
  function Land(db: Db, v: Record, actor: string, givenId: bool, env: Env): (Db, Result<Record, Error>)
    requires Paired(db)
  {
    if givenId && env.fault.FirstGetFails? then (db, Err(Internal))
    else if givenId && Lookup(db, v.id, v.tenantId).Some? then (db, Ok(Lookup(db, v.id, v.tenantId).value))
    else Write(db, v, actor, env)
  }

  /** The whole call. */
  function RecordSpec(o: Oracle, db: Db, caller: Option<Caller>, value: Record, env: Env): (Db, Result<Record, Error>)
    requires Paired(db)
  {
    match Prepare(o, caller, value, env)
    case Err(e) => (db, Err(e))
    case Ok(v) => Land(db, v, caller.value.id, value.id != "", env)
  }

  /** Nothing goes wrong before the commit takes effect. */
  predicate Lasts(caller: Caller, value: Record, env: Env) {
    !env.fault.BeforeCommit? && !(value.id != "" && env.fault.FirstGetFails?) && !AllSpace(caller.id)
  }

  /** The database lets the call succeed: a new id is written and the reply arrives; a stored one is of the same tenant and
      is read, by the Get before the write if the call names it, or else by the Get after. */
  ghost predicate Answers(db: Db, caller: Caller, value: Record, env: Env)
    requires Paired(db)
  {
    var id := IdOf(value, env);
    if id !in db.keys then Lasts(caller, value, env) && !env.fault.ReplyLost?
    else && Stored(db, id).tenantId == TrimSpace(value.tenantId)
         && if value.id != "" then !env.fault.FirstGetFails? else Lasts(caller, value, env) && !env.fault.SecondGetFails?
  }

  /** What a call has come to, told from what was sent: it wrote a record or none, and was answered so. */
  ghost predicate Recorded(o: Oracle, db: Db, caller: Option<Caller>, value: Record, env: Env, db': Db, r: Result<Record, Error>)
    requires Paired(db)
  {
    var id := IdOf(value, env);
    && Paired(db')
    && (if Recordable(o, caller, value) && Lasts(caller.value, value, env) && id !in db.keys
        then
          && db'.keys.Keys == db.keys.Keys + {id} && Carries(o, caller.value, value, env, Stored(db', id))
          && Stored(db', id).audit == Audit(1, env.ts, caller.value.id, env.ts, caller.value.id, None, None)
        else db' == db)
    && (forall e :: e != Internal ==> (r == Err(e) <==> NotRecordedFor(o, caller, value, e)))
    && (r.Ok? <==> Recordable(o, caller, value) && Answers(db, caller.value, value, env))
    && (r.Ok? ==> if id in db.keys then r.value == Stored(db, id) else Carries(o, caller.value, value, env, r.value))
  }

  lemma RecordIs(o: Oracle, db: Db, caller: Option<Caller>, value: Record, env: Env)
    requires Paired(db)
    ensures var (db', r) := RecordSpec(o, db, caller, value, env); Recorded(o, db, caller, value, env, db', r)
  {
    PrepareIs(o, caller, value, env);
    var p := Prepare(o, caller, value, env);
    if p.Ok? {
      LandIs(db, p.value, caller.value.id, value.id != "", env);
    }
  }

  lemma LandIs(db: Db, v: Record, actor: string, givenId: bool, env: Env)
    requires Paired(db) && Prepared(v, actor)
    ensures var (db', r) := Land(db, v, actor, givenId, env);
            && Paired(db')
            && (if !env.fault.BeforeCommit? && !(givenId && env.fault.FirstGetFails?) && !AllSpace(actor) && v.id !in db.keys
                then db'.keys.Keys == db.keys.Keys + {v.id} && Stored(db', v.id) == v.(audit := Audit(1, env.ts, actor, env.ts, actor, None, None))
                else db' == db)
            && (r.Err? ==> r.error == Internal)
            && (r.Ok? ==> r.value == if v.id in db.keys then Stored(db, v.id) else v)
            && (r.Ok? <==> if v.id !in db.keys then !env.fault.BeforeCommit? && !(givenId && env.fault.FirstGetFails?) && !AllSpace(actor) && !env.fault.ReplyLost?
                           else && Stored(db, v.id).tenantId == v.tenantId
                                && if givenId then !env.fault.FirstGetFails?
                                   else !env.fault.BeforeCommit? && !AllSpace(actor) && !env.fault.SecondGetFails?)
  {
    LandEffect(db, v, actor, givenId, env);
  }

  /** The service with its database. */
  class AuditService {
    var db: Db

    ghost predicate Valid()
      reads this
    {
      Paired(db)
    }

    constructor ()
      ensures Valid() && db == Db(map[], map[])
    {
      db := Db(map[], map[]);
    }

    /** Repository.Create inside Transactor.Within: both rows are written to the transaction's copies and
        installed together by the commit. */
    method Create(v: Record, actor: string, env: Env) returns (err: Option<Error>, duplicate: bool)
      requires Valid() && Prepared(v, actor)
      modifies this
      ensures Valid()
      ensures duplicate <==> !env.fault.BeforeCommit? && !AllSpace(actor) && actor != "" && v.id in old(db.keys)
      ensures duplicate ==> db == old(db) && err == Some(Internal)
      ensures !duplicate ==> (db, if err.Some? then Err(err.value) else Ok(v)) == Write(old(db), v, actor, env)
    {
      var keys, records := db.keys, db.records;
      if env.fault.BeforeCommit? || AllSpace(actor) { return Some(Internal), false; }
      var stamped := ImmutableRow(Insert, actor, env.ts);
      if stamped.Err? { return Some(Internal), false; }
      if v.id in keys { return Some(Internal), true; }
      keys := keys[v.id := KeyRow(v.id, v.occurredAt, stamped.value)];
      records := records[(v.id, v.occurredAt) := v.(audit := stamped.value)];
      db := Db(keys, records);
      return (if env.fault.ReplyLost? then Some(Internal) else None), false;
    }

    method Record(o: Oracle, caller: Option<Caller>, value: Record, env: Env) returns (r: Result<Record, Error>)
      requires Valid()
      modifies this
      ensures Valid()
      ensures (db, r) == RecordSpec(o, old(db), caller, value, env)
      ensures Recorded(o, old(db), caller, value, env, db, r)
    {
      RecordIs(o, db, caller, value, env);
      var prepared := Prepare(o, caller, value, env);
      if prepared.Err? { return Err(prepared.error); }
      var v := prepared.value;
      if value.id != "" {
        if env.fault.FirstGetFails? { return Err(Internal); }
        var existing := Lookup(db, v.id, v.tenantId);
        if existing.Some? { return Ok(existing.value); }
      }
      var err, duplicate := Create(v, caller.value.id, env);
      if duplicate && !env.fault.SecondGetFails? {
        var existing := Lookup(db, v.id, v.tenantId);
        if existing.Some? { return Ok(existing.value); }
      }
      if err.Some? { return Err(err.value); }
      return Ok(v);
    }
  }

  /** What a call can do to the ledger: nothing, or add the one record it names under a new id. A
      failed call changes nothing unless only the reply was lost, and a successful one is stored. */
  lemma LandEffect(db: Db, v: Record, actor: string, givenId: bool, env: Env)
    requires Paired(db) && Prepared(v, actor)
    ensures var (db', r) := Land(db, v, actor, givenId, env);
            && Paired(db') && Grows(db, db')
            && (r.Err? && !env.fault.ReplyLost? ==> db' == db)
            && (db' != db ==> v.id !in db.keys && db'.keys.Keys == db.keys.Keys + {v.id}
                              && SameButTimes(Stored(db', v.id), v))
            && (r.Ok? ==> v.id in db'.keys && SameButTimes(r.value, Stored(db', v.id)) && r.value.tenantId == v.tenantId)
  {
    var (db', r) := Land(db, v, actor, givenId, env);
    LandKeeps(db, v, actor, givenId, env);
    if db' != db {
      assert Stored(db', v.id) == v.(audit := ImmutableRow(Insert, actor, env.ts).value);
      assert db'.keys.Keys == db.keys.Keys + {v.id};
    }
  }

  lemma LandKeeps(db: Db, v: Record, actor: string, givenId: bool, env: Env)
    requires Paired(db) && Prepared(v, actor)
    ensures Paired(Land(db, v, actor, givenId, env).0) && Grows(db, Land(db, v, actor, givenId, env).0)
  {
    var row := ImmutableRow(Insert, actor, env.ts);
    if row.Ok? && v.id !in db.keys {
      CommittedKeeps(db, KeyRow(v.id, v.occurredAt, row.value), v.(audit := row.value));
    }
  }

  lemma CommittedKeeps(db: Db, key: KeyRow, row: Record)
    requires Paired(db) && key.id == row.id && key.occurredAt == row.occurredAt && row.id !in db.keys && row.audit.deletedAt.None?
    ensures Paired(Committed(db, key, row)) && Grows(db, Committed(db, key, row))
  {
  }

  /** Recording an id again, with any content and at any later time, writes nothing and answers with the stored record,
      unless that cannot be read. */
  lemma ReplayIsReadOnly(db: Db, v: Record, actor: string, givenId: bool, env: Env, v': Record, actor': string, env': Env)
    requires Paired(db) && Prepared(v, actor) && Land(db, v, actor, givenId, env).1.Ok?
    requires v'.id == v.id && v'.tenantId == v.tenantId
    ensures var (db1, r) := Land(db, v, actor, givenId, env);
            && Paired(db1) && v.id in db1.keys
            && Land(db1, v', actor', true, env') == (db1, if env'.fault.FirstGetFails? then Err(Internal) else Ok(Stored(db1, v.id)))
            && SameButTimes(Stored(db1, v.id), r.value)
  {
    LandEffect(db, v, actor, givenId, env);
    var (db1, r) := Land(db, v, actor, givenId, env);
    assert Untimed(r.value).tenantId == Untimed(Stored(db1, v.id)).tenantId;
  }

  /** What a user can record: whatever the call, a record it adds belongs to the user's own tenant, and to no application
      or to one that the verifier grants that tenant; and a record it is answered with is of that tenant too. */
  lemma UserRecordsOwnRows(o: Oracle, db: Db, caller: Caller, value: Record, env: Env)
    requires Paired(db) && caller.kind.User?
    ensures var (db', r) := RecordSpec(o, db, Some(caller), value, env);
            && Paired(db')
            && (forall id :: id in db'.keys && id !in db.keys ==> OwnRow(o, caller, Stored(db', id)))
            && (r.Ok? ==> r.value.tenantId == caller.tenantId)
  {
    var p := Prepare(o, Some(caller), value, env);
    if p.Ok? {
      PreparedIsOwn(o, caller, value, env);
      LandEffect(db, p.value, caller.id, value.id != "", env);
      StoredIsOwn(o, db, caller, p.value, value.id != "", env);
    }
  }

  predicate OwnRow(o: Oracle, caller: Caller, r: Record) {
    r.tenantId == caller.tenantId && (r.applicationId == "" || o.verify(r.tenantId, r.applicationId).Granted?)
  }

  lemma PreparedIsOwn(o: Oracle, caller: Caller, value: Record, env: Env)
    requires caller.kind.User? && Prepare(o, Some(caller), value, env).Ok?
    ensures OwnRow(o, caller, Prepare(o, Some(caller), value, env).value)
  {
    TrimIdempotent(value.tenantId);
    TrimIdempotent(value.applicationId);
  }

  lemma StoredIsOwn(o: Oracle, db: Db, caller: Caller, v: Record, givenId: bool, env: Env)
    requires Paired(db) && Prepared(v, caller.id) && OwnRow(o, caller, v)
    ensures var db' := Land(db, v, caller.id, givenId, env).0;
            Paired(db') && forall id :: id in db'.keys && id !in db.keys ==> OwnRow(o, caller, Stored(db', id))
  {
    LandEffect(db, v, caller.id, givenId, env);
    var db' := Land(db, v, caller.id, givenId, env).0;
    if db' != db {
      assert Untimed(Stored(db', v.id)).tenantId == v.tenantId && Untimed(Stored(db', v.id)).applicationId == v.applicationId;
    }
  }

  /** The protocol's state when the call at hand is the youngest one and stands at `pc`. */
  ghost function At(db: Db, others: seq<Call>, v: Record, actor: string, pc: Pc): Sys {
    Sys(db, others + [Call(v, actor, pc)])
  }

  /** `acts` leads from `s` to `s'`. */
  ghost predicate Leads(s: Sys, acts: seq<Action>, s': Sys)
    decreases |acts|
  {
    if acts == [] then s == s' else Enabled(s, acts[0]) && Leads(Apply(s, acts[0]), acts[1..], s')
  }

  lemma {:induction false} LeadsOn(s: Sys, acts: seq<Action>, mid: Sys, more: seq<Action>, s': Sys)
    requires Leads(s, acts, mid) && Leads(mid, more, s')
    ensures Leads(s, acts + more, s')
    decreases |acts|
  {
    if acts == [] {
      assert acts + more == more;
    } else {
      LeadsOn(Apply(s, acts[0]), acts[1..], mid, more, s');
      assert (acts + more)[1..] == acts[1..] + more;
    }
  }

  /** The statements of the transaction, from BEGIN to the answer. */
  lemma WriteLeads(s: Sys, others: seq<Call>, v: Record, actor: string, env: Env) returns (acts: seq<Action>)
    requires Inv(s) && s == At(s.db, others, v, actor, Opening) && Prepared(v, actor) && !KeyLocked(s, |others|, v.id)
    ensures var (db', r) := Write(s.db, v, actor, env);
            Leads(s, acts, At(db', others, v, actor, Finished(if r.Ok? then Some(r.value) else None)))
  {
    var p, db := |others|, s.db;
    if env.fault.BeforeCommit? {
      acts := [Fault(p)];
      assert Apply(s, Fault(p)) == At(db, others, v, actor, Finished(None));
      return;
    }
    acts := [OpenTx(p)];
    if AllSpace(actor) {
      assert Apply(s, OpenTx(p)) == At(db, others, v, actor, Finished(None));
      return;
    }
    var s1 := At(db, others, v, actor, WritingKey);
    assert Apply(s, OpenTx(p)) == s1;
    assert forall q :: 0 <= q < |others| ==> s1.calls[q] == s.calls[q];
    assert !KeyLocked(s1, p, v.id);
    if v.id in db.keys {
      var found := if env.fault.SecondGetFails? then None else Lookup(db, v.id, v.tenantId);
      var last := if env.fault.SecondGetFails? then Fault(p) else Refetch(p, found);
      DuplicateLeads(s1, others, v, actor, env, found, last);
      LeadsOn(s, acts, s1, [WriteKey(p, env.ts), last], At(db, others, v, actor, Finished(found)));
      acts := acts + [WriteKey(p, env.ts), last];
    } else {
      FreshLeads(s1, others, v, actor, env);
      var more := [WriteKey(p, env.ts), WriteRecord(p, env.ts), Commit(p, env.fault.ReplyLost?)];
      var (db', r) := Write(s.db, v, actor, env);
      LeadsOn(s, acts, s1, more, At(db', others, v, actor, Finished(if r.Ok? then Some(r.value) else None)));
      acts := acts + more;
    }
  }

  lemma DuplicateLeads(s: Sys, others: seq<Call>, v: Record, actor: string, env: Env, found: Option<Record>, last: Action)
    requires s == At(s.db, others, v, actor, WritingKey) && !KeyLocked(s, |others|, v.id) && actor != "" && v.id in s.db.keys
    requires (last == Refetch(|others|, found) && GetResult(s.db, v.id, v.tenantId, found)) || (last == Fault(|others|) && found.None?)
    ensures Leads(s, [WriteKey(|others|, env.ts), last], At(s.db, others, v, actor, Finished(found)))
  {
    var p := |others|;
    var acts := [WriteKey(p, env.ts), last];
    var s1 := At(s.db, others, v, actor, Refetching);
    assert Apply(s, acts[0]) == s1;
    assert Apply(s1, acts[1]) == At(s.db, others, v, actor, Finished(found));
    assert Leads(s1, acts[1..], At(s.db, others, v, actor, Finished(found)));
  }

  lemma FreshLeads(s: Sys, others: seq<Call>, v: Record, actor: string, env: Env)
    requires Paired(s.db) && s == At(s.db, others, v, actor, WritingKey) && !KeyLocked(s, |others|, v.id)
    requires v.id !in s.db.keys && !env.fault.BeforeCommit? && !AllSpace(actor)
    ensures var (db', r) := Write(s.db, v, actor, env);
            Leads(s, [WriteKey(|others|, env.ts), WriteRecord(|others|, env.ts), Commit(|others|, env.fault.ReplyLost?)],
                  At(db', others, v, actor, Finished(if r.Ok? then Some(r.value) else None)))
  {
    var p, audit := |others|, ImmutableRow(Insert, actor, env.ts).value;
    var acts := [WriteKey(p, env.ts), WriteRecord(p, env.ts), Commit(p, env.fault.ReplyLost?)];
    var key, row := KeyRow(v.id, v.occurredAt, audit), v.(audit := audit);
    var s1, s2 := At(s.db, others, v, actor, WritingRecord(key)), At(s.db, others, v, actor, Committing(key, row));
    var s3 := At(Committed(s.db, key, row), others, v, actor, Finished(if env.fault.ReplyLost? then None else Some(v)));
    assert Apply(s, acts[0]) == s1;
    assert Apply(s1, acts[1]) == s2;
    assert Apply(s2, acts[2]) == s3;
    assert Leads(s3, [], s3);
    assert acts[2..][1..] == [];
    assert Leads(s2, acts[2..], s3);
    assert acts[1..][1..] == acts[2..];
    assert Leads(s1, acts[1..], s3);
  }

  /** The call running alone is a run of the protocol: from any reachable state of the ledger in which
      nobody holds its key, the protocol has steps that reach the same database with the same answer. */
  lemma RefinesProtocol(s: Sys, v: Record, actor: string, givenId: bool, env: Env) returns (acts: seq<Action>)
    requires Inv(s) && Prepared(v, actor) && !KeyLocked(s, |s.calls|, v.id)
    ensures var (db', r) := Land(s.db, v, actor, givenId, env);
            Leads(s, acts, At(db', s.calls, v, actor, Finished(if r.Ok? then Some(r.value) else None)))
  {
    var p := |s.calls|;
    var found := Lookup(s.db, v.id, v.tenantId);
    acts := [Begin(v, actor, givenId)];
    var s1 := At(s.db, s.calls, v, actor, if givenId then Checking else Opening);
    assert Apply(s, acts[0]) == s1 && Leads(s1, acts[1..], s1);
    StepKeepsInv(s, acts[0]);
    if givenId && env.fault.FirstGetFails? {
      var s2 := At(s.db, s.calls, v, actor, Finished(None));
      assert Apply(s1, Fault(p)) == s2;
      assert Leads(s2, [Fault(p)][1..], s2);
      LeadsOn(s, acts, s1, [Fault(p)], s2);
      acts := acts + [Fault(p)];
      return;
    }
    if givenId {
      var s2 := At(s.db, s.calls, v, actor, if found.Some? then Finished(found) else Opening);
      assert Apply(s1, PreCheck(p, found)) == s2;
      assert Leads(s2, [PreCheck(p, found)][1..], s2);
      LeadsOn(s, acts, s1, [PreCheck(p, found)], s2);
      acts := acts + [PreCheck(p, found)];
      StepKeepsInv(s1, PreCheck(p, found));
      s1 := s2;
      if found.Some? { return; }
    }
    assert !KeyLocked(s1, p, v.id);
    var rest := WriteLeads(s1, s.calls, v, actor, env);
    var (db', r) := Write(s.db, v, actor, env);
    LeadsOn(s, acts, s1, rest, At(db', s.calls, v, actor, Finished(if r.Ok? then Some(r.value) else None)));
    acts := acts + rest;
  }
}
