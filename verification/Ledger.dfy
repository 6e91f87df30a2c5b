/** The append-only audit ledger as a protocol: any number of concurrent `Record` calls, interleaved
    statement by statement, with rollbacks, lost commit replies and crashes
    (internal/audit/service.go, internal/audit/repository.go, internal/database/transaction.go).
    The database is Postgres at READ COMMITTED. `audit_records` has the primary key (id, occurred_at),
    so that an id is recorded only once follows from the protocol, not from the table. */
module Ledger {
  import opened Basics
  import opened AuditModel
  import opened AuditTrigger
  import opened Text

  datatype KeyRow = KeyRow(id: string, occurredAt: Time, audit: Audit)

  /** The committed contents of the two tables, each keyed by its primary key. */
  datatype Db = Db(keys: map<string, KeyRow>, records: map<(string, Time), Record>)

  /** Where a call of `Record` stands. `WritingKey` .. `Committing` hold an open transaction. */
  datatype Pc =
    | Checking
    | Opening
    | WritingKey
    | WritingRecord(key: KeyRow)
    | Committing(key: KeyRow, row: Record)
    | Refetching
    | Finished(answer: Option<Record>)
    | Crashed

  /** A call: the validated and completed record, and the caller set as audit actor. */
  datatype Call = Call(value: Record, actor: string, pc: Pc)

  datatype Sys = Sys(db: Db, calls: seq<Call>)

  datatype Action =
    | Begin(value: Record, actor: string, givenId: bool)
    | PreCheck(p: nat, found: Option<Record>)
    | OpenTx(p: nat)
    | WriteKey(p: nat, ts: Time)
    | WriteRecord(p: nat, ts: Time)
    | Commit(p: nat, replyLost: bool)
    | Refetch(p: nat, found: Option<Record>)
    | Fault(p: nat)
    | Crash(p: nat)
    | Tamper(op: Op, onKeys: bool, key: KeyRow, row: Record, actor: string, ts: Time)

  /** What `SELECT ... WHERE id = ? AND tenant_id = ? AND deleted_at IS NULL` may return. */
  ghost predicate GetResult(db: Db, id: string, tenant: string, found: Option<Record>) {
    match found
    case Some(r) => r in db.records.Values && Matches(r, id, tenant)
    case None => forall k :: k in db.records ==> !Matches(db.records[k], id, tenant)
  }

  predicate Matches(r: Record, id: string, tenant: string) {
    r.id == id && r.tenantId == tenant && r.audit.deletedAt.None?
  }

  /** The call has written its key and neither committed nor rolled back: the key is locked. */
  predicate Holds(c: Call) {
    c.pc.WritingRecord? || c.pc.Committing?
  }

  predicate Running(c: Call) {
    !c.pc.Finished? && !c.pc.Crashed?
  }

  ghost predicate KeyLocked(s: Sys, p: nat, id: string) {
    exists q :: 0 <= q < |s.calls| && q != p && Holds(s.calls[q]) && s.calls[q].value.id == id
  }

  /** `value` is what the service hands to the transaction: it has stamped the audit columns itself. */
  predicate Prepared(value: Record, actor: string) {
    && value.audit.createdBy == actor && value.audit.updatedBy == actor
    && value.audit.version == 1 && value.audit.deletedAt.None? && value.audit.deletedBy.None?
  }

  ghost predicate Enabled(s: Sys, a: Action) {
    match a
    case Begin(value, actor, _) => Prepared(value, actor)
    case PreCheck(p, found) =>
      p < |s.calls| && s.calls[p].pc.Checking? && GetResult(s.db, s.calls[p].value.id, s.calls[p].value.tenantId, found)
    case OpenTx(p) => p < |s.calls| && s.calls[p].pc.Opening?
    case WriteKey(p, _) => p < |s.calls| && s.calls[p].pc.WritingKey? && !KeyLocked(s, p, s.calls[p].value.id)
    case WriteRecord(p, _) => p < |s.calls| && s.calls[p].pc.WritingRecord?
    case Commit(p, _) => p < |s.calls| && s.calls[p].pc.Committing?
    case Refetch(p, found) =>
      p < |s.calls| && s.calls[p].pc.Refetching? && GetResult(s.db, s.calls[p].value.id, s.calls[p].value.tenantId, found)
    case Fault(p) => p < |s.calls| && Running(s.calls[p])
    case Crash(p) => p < |s.calls| && Running(s.calls[p])
    case Tamper(op, _, _, _, _, _) => !op.Insert?
  }

  function Goto(s: Sys, p: nat, pc: Pc): (s': Sys)
    requires p < |s.calls|
  {
    s.(calls := s.calls[p := s.calls[p].(pc := pc)])
  }

  /** One statement (or crash) of one call. */
  ghost function Apply(s: Sys, a: Action): Sys
    requires Enabled(s, a)
  {
    match a
    case Begin(value, actor, givenId) => s.(calls := s.calls + [Call(value, actor, if givenId then Checking else Opening)])
    case PreCheck(p, found) => Goto(s, p, if found.Some? then Finished(found) else Opening)
    case OpenTx(p) => Goto(s, p, if AllSpace(s.calls[p].actor) then Finished(None) else WritingKey)
    case WriteKey(p, ts) =>
      var c := s.calls[p];
      (match ImmutableRow(Insert, c.actor, ts)
       case Err(_) => Goto(s, p, Finished(None))
       case Ok(audit) =>
         if c.value.id in s.db.keys then Goto(s, p, Refetching)
         else Goto(s, p, WritingRecord(KeyRow(c.value.id, c.value.occurredAt, audit))))
    case WriteRecord(p, ts) =>
      var c := s.calls[p];
      (match ImmutableRow(Insert, c.actor, ts)
       case Err(_) => Goto(s, p, Finished(None))
       case Ok(audit) =>
         if (c.value.id, c.value.occurredAt) in s.db.records then Goto(s, p, Finished(None))
         else Goto(s, p, Committing(c.pc.key, c.value.(audit := audit))))
    case Commit(p, replyLost) =>
      var c := s.calls[p];
      Goto(s.(db := Committed(s.db, c.pc.key, c.pc.row)), p, Finished(if replyLost then None else Some(c.value)))
    case Refetch(p, found) => Goto(s, p, Finished(found))
    case Fault(p) => Goto(s, p, Finished(None))
    case Crash(p) => Goto(s, p, Crashed)
    case Tamper(op, onKeys, key, row, actor, ts) =>
      (match ImmutableRow(op, actor, ts)
       case Err(_) => s
       case Ok(audit) => s.(db := Overwritten(s.db, op, onKeys, key.(audit := audit), row.(audit := audit))))
  }

  /** What an UPDATE or DELETE of one row would do if the trigger let it through. */
  function Overwritten(db: Db, op: Op, onKeys: bool, key: KeyRow, row: Record): Db {
    if onKeys then db.(keys := if op.Update? then db.keys[key.id := key] else db.keys - {key.id})
    else db.(records := if op.Update? then db.records[(row.id, row.occurredAt) := row] else db.records - {(row.id, row.occurredAt)})
  }

  function Committed(db: Db, key: KeyRow, row: Record): Db {
    Db(db.keys[key.id := key], db.records[(row.id, row.occurredAt) := row])
  }

  ghost predicate Step(s: Sys, s': Sys) {
    exists a :: Enabled(s, a) && s' == Apply(s, a)
  }

  /** A run from an empty ledger. */
  ghost predicate IsRun(run: seq<Sys>) {
    && run != [] && run[0] == Sys(Db(map[], map[]), [])
    && forall i :: 0 <= i < |run| - 1 ==> Step(run[i], run[i + 1])
  }

  // ---------------------------------------------------------------- the invariant

  /** Each key row has its record, and each record its key row. */
  ghost predicate Paired(db: Db) {
    && (forall id :: id in db.keys ==> (id, db.keys[id].occurredAt) in db.records)
    && (forall k :: k in db.records ==>
          && k.0 in db.keys && db.keys[k.0].occurredAt == k.1
          && db.records[k].id == k.0 && db.records[k].occurredAt == k.1 && db.records[k].audit.deletedAt.None?)
  }

  /** The stored record of an id. */
  function Stored(db: Db, id: string): Record
    requires id in db.keys && (id, db.keys[id].occurredAt) in db.records
  {
    db.records[(id, db.keys[id].occurredAt)]
  }

  ghost predicate CallInv(db: Db, c: Call) {
    && Prepared(c.value, c.actor)
    && match c.pc
       case WritingRecord(key) => c.value.id !in db.keys && key.id == c.value.id && key.occurredAt == c.value.occurredAt
       case Committing(key, row) =>
         && c.value.id !in db.keys && key.id == c.value.id && key.occurredAt == c.value.occurredAt
         && SameButTimes(row, c.value)
       case Refetching => c.value.id in db.keys
       case Finished(Some(r)) =>
         && r.id == c.value.id && r.tenantId == c.value.tenantId
         && r.id in db.keys && (r.id, db.keys[r.id].occurredAt) in db.records && SameButTimes(r, Stored(db, r.id))
       case _ => true
  }

  ghost predicate Exclusive(calls: seq<Call>) {
    forall p, q :: 0 <= p < q < |calls| && Holds(calls[p]) && Holds(calls[q]) ==> calls[p].value.id != calls[q].value.id
  }

  ghost predicate Inv(s: Sys) {
    && Paired(s.db)
    && Exclusive(s.calls)
    && forall p :: 0 <= p < |s.calls| ==> CallInv(s.db, s.calls[p])
  }

  // ---------------------------------------------------------------- every step keeps it

  ghost predicate Grows(db: Db, db': Db) {
    && (forall id :: id in db.keys ==> id in db'.keys && db'.keys[id] == db.keys[id])
    && (forall k :: k in db.records ==> k in db'.records && db'.records[k] == db.records[k])
  }

  /** Exactly how a step can change the database: not at all, or by the commit of one call, which adds
      that call's own key and record under an id that was not there. */
  lemma StepEffect(s: Sys, a: Action)
    requires Inv(s) && Enabled(s, a)
    ensures Apply(s, a).db == s.db || (a.Commit? && s.calls[a.p].value.id !in s.db.keys
              && Apply(s, a).db == Committed(s.db, s.calls[a.p].pc.key, s.calls[a.p].pc.row))
    ensures Grows(s.db, Apply(s, a).db) && Paired(Apply(s, a).db)
  {
    if a.Commit? {
      var c := s.calls[a.p];
      assert CallInv(s.db, c);
      assert Untimed(c.pc.row).occurredAt == c.value.occurredAt && Untimed(c.pc.row).id == c.value.id;
      assert Untimed(c.pc.row).audit.deletedAt == c.value.audit.deletedAt;
    }
  }

  lemma OtherCallKept(s: Sys, a: Action, q: nat)
    requires Inv(s) && Enabled(s, a) && q < |s.calls|
    requires a.Begin? || a.Tamper? || a.p != q
    ensures CallInv(Apply(s, a).db, s.calls[q])
  {
    StepEffect(s, a);
    var c := s.calls[q];
    assert CallInv(s.db, c);
    if a.Commit? && Holds(c) {
      assert s.calls[a.p].value.id != c.value.id;
    }
  }

  lemma OwnCallKept(s: Sys, a: Action)
    requires Inv(s) && Enabled(s, a) && !a.Begin? && !a.Tamper?
    ensures CallInv(Apply(s, a).db, Apply(s, a).calls[a.p])
  {
    StepEffect(s, a);
    var c := s.calls[a.p];
    assert CallInv(s.db, c);
    match a
    case PreCheck(p, found) => if found.Some? { FoundIsStored(s.db, c.value.id, c.value.tenantId, found.value); }
    case Refetch(p, found) => if found.Some? { FoundIsStored(s.db, c.value.id, c.value.tenantId, found.value); }
    case Commit(p, replyLost) =>
      var db' := Apply(s, a).db;
      assert Untimed(c.pc.row).occurredAt == c.value.occurredAt && Untimed(c.pc.row).id == c.value.id;
      assert Stored(db', c.value.id) == c.pc.row;
    case _ =>
  }

  lemma FoundIsStored(db: Db, id: string, tenant: string, r: Record)
    requires Paired(db) && GetResult(db, id, tenant, Some(r))
    ensures id in db.keys && r == Stored(db, id) && r.tenantId == tenant
  {
    var k :| k in db.records && db.records[k] == r;
    assert k == (id, db.keys[id].occurredAt);
  }

  lemma StepKeepsInv(s: Sys, a: Action)
    requires Inv(s) && Enabled(s, a)
    ensures Inv(Apply(s, a))
  {
    var s' := Apply(s, a);
    StepEffect(s, a);
    forall q | 0 <= q < |s'.calls| ensures CallInv(s'.db, s'.calls[q]) {
      if q < |s.calls| && (a.Begin? || a.Tamper? || a.p != q) {
        OtherCallKept(s, a, q);
      } else if q < |s.calls| {
        OwnCallKept(s, a);
      }
    }
    StepKeepsLocks(s, a);
  }

  /** No two open transactions hold the same key. */
  lemma StepKeepsLocks(s: Sys, a: Action)
    requires Inv(s) && Enabled(s, a)
    ensures Exclusive(Apply(s, a).calls)
  {
    var s' := Apply(s, a);
    forall p, q | 0 <= p < q < |s'.calls| && Holds(s'.calls[p]) && Holds(s'.calls[q])
      ensures s'.calls[p].value.id != s'.calls[q].value.id
    {
      if a.WriteKey? && (p == a.p || q == a.p) {
        var other := if p == a.p then q else p;
        assert Holds(s.calls[other]);
        assert !KeyLocked(s, a.p, s.calls[a.p].value.id);
      }
    }
  }

  lemma {:induction false} RunKeepsInv(run: seq<Sys>, i: nat)
    requires IsRun(run) && i < |run|
    ensures Inv(run[i])
  {
    if i > 0 {
      RunKeepsInv(run, i - 1);
      assert Step(run[i - 1], run[i - 1 + 1]);
      var a :| Enabled(run[i - 1], a) && run[i] == Apply(run[i - 1], a);
      StepKeepsInv(run[i - 1], a);
    }
  }

  // ---------------------------------------------------------------- main results

  /** In every reachable state the two tables hold the same ids, and no id is recorded twice, whatever
      its occurred_at. */
  lemma OneRecordPerId(run: seq<Sys>, i: nat)
    requires IsRun(run) && i < |run|
    ensures var db := run[i].db;
            && (forall id :: id in db.keys <==> exists t :: (id, t) in db.records)
            && (forall id, t, t' :: (id, t) in db.records && (id, t') in db.records ==> t == t')
  {
    RunKeepsInv(run, i);
  }

  /** A committed row is never changed and never removed, although calls crash, fail and overlap and
      although UPDATE and DELETE statements are attempted. */
  lemma {:induction false} CommittedRowsStay(run: seq<Sys>, i: nat, j: nat)
    requires IsRun(run) && i <= j < |run|
    ensures Grows(run[i].db, run[j].db)
    decreases j
  {
    if i < j {
      CommittedRowsStay(run, i, j - 1);
      RunKeepsInv(run, j - 1);
      assert Step(run[j - 1], run[j - 1 + 1]);
      var a :| Enabled(run[j - 1], a) && run[j] == Apply(run[j - 1], a);
      StepEffect(run[j - 1], a);
    }
  }

  /** A successful answer is durable: from then on the ledger holds that record, for that tenant. */
  lemma AnswersAreDurable(run: seq<Sys>, i: nat, j: nat, p: nat)
    requires IsRun(run) && i <= j < |run| && p < |run[i].calls| && run[i].calls[p].pc.Finished?
    requires run[i].calls[p].pc.answer.Some?
    ensures var r := run[i].calls[p].pc.answer.value;
            && r.id in run[j].db.keys && (r.id, run[j].db.keys[r.id].occurredAt) in run[j].db.records
            && SameButTimes(r, Stored(run[j].db, r.id)) && r.tenantId == run[i].calls[p].value.tenantId
  {
    RunKeepsInv(run, i);
    assert CallInv(run[i].db, run[i].calls[p]);
    CommittedRowsStay(run, i, j);
  }

  /** All successful calls for one id, at any two moments of a run, are answered with the same record
      up to the created and updated timestamps, and they named the same tenant. */
  lemma ReplaysAgree(run: seq<Sys>, i: nat, p: nat, j: nat, q: nat)
    requires IsRun(run) && i <= j < |run|
    requires p < |run[i].calls| && run[i].calls[p].pc.Finished? && run[i].calls[p].pc.answer.Some?
    requires q < |run[j].calls| && run[j].calls[q].pc.Finished? && run[j].calls[q].pc.answer.Some?
    requires run[i].calls[p].value.id == run[j].calls[q].value.id
    ensures SameButTimes(run[i].calls[p].pc.answer.value, run[j].calls[q].pc.answer.value)
    ensures run[i].calls[p].value.tenantId == run[j].calls[q].value.tenantId
  {
    AnswersAreDurable(run, i, j, p);
    AnswersAreDurable(run, j, j, q);
    RunKeepsInv(run, i);
    RunKeepsInv(run, j);
    assert CallInv(run[i].db, run[i].calls[p]) && CallInv(run[j].db, run[j].calls[q]);
    var a, b := run[i].calls[p].pc.answer.value, run[j].calls[q].pc.answer.value;
    assert Untimed(a).tenantId == a.tenantId && Untimed(b).tenantId == b.tenantId;
  }

  /** The Get after a duplicate key finds the record exactly when the call's tenant owns the id. */
  lemma RefetchFindsIffTenantMatches(run: seq<Sys>, i: nat, p: nat, found: Option<Record>)
    requires IsRun(run) && i < |run| && p < |run[i].calls| && run[i].calls[p].pc.Refetching?
    requires Enabled(run[i], Refetch(p, found))
    ensures run[i].calls[p].value.id in run[i].db.keys
    ensures (run[i].calls[p].value.id, run[i].db.keys[run[i].calls[p].value.id].occurredAt) in run[i].db.records
    ensures found.Some? <==> Stored(run[i].db, run[i].calls[p].value.id).tenantId == run[i].calls[p].value.tenantId
  {
    RunKeepsInv(run, i);
    var c := run[i].calls[p];
    assert CallInv(run[i].db, c);
    if found.Some? {
      FoundIsStored(run[i].db, c.value.id, c.value.tenantId, found.value);
    } else {
      assert !Matches(run[i].db.records[(c.value.id, run[i].db.keys[c.value.id].occurredAt)], c.value.id, c.value.tenantId);
    }
  }

  /** Once another tenant owns the id, a call for it never succeeds and never writes: its steps leave the
      database as it was. */
  lemma ForeignIdFails(run: seq<Sys>, i: nat, p: nat)
    requires IsRun(run) && i < |run| && p < |run[i].calls|
    requires run[i].calls[p].value.id in run[i].db.keys
    requires (run[i].calls[p].value.id, run[i].db.keys[run[i].calls[p].value.id].occurredAt) in run[i].db.records
    requires Stored(run[i].db, run[i].calls[p].value.id).tenantId != run[i].calls[p].value.tenantId
    ensures run[i].calls[p].pc.Finished? ==> run[i].calls[p].pc.answer.None?
    ensures forall a :: Enabled(run[i], a) && !a.Begin? && !a.Tamper? && a.p == p ==> Apply(run[i], a).db == run[i].db
  {
    RunKeepsInv(run, i);
    var c := run[i].calls[p];
    assert CallInv(run[i].db, c);
    assert Untimed(Stored(run[i].db, c.value.id)).tenantId == Stored(run[i].db, c.value.id).tenantId;
    assert c.pc.Finished? ==> c.pc.answer.None?;
    forall a | Enabled(run[i], a) && !a.Begin? && !a.Tamper? && a.p == p ensures Apply(run[i], a).db == run[i].db {
      StepEffect(run[i], a);
    }
  }

  /** No deadlock: a call that waits for a key waits for a call that is not itself waiting and can
      commit or continue, so some step without a fault is always possible while any call runs. */
  lemma NoDeadlock(run: seq<Sys>, i: nat, p: nat)
    requires IsRun(run) && i < |run| && p < |run[i].calls| && Running(run[i].calls[p])
    ensures exists a :: Enabled(run[i], a) && !a.Begin? && !a.Tamper? && !a.Fault? && !a.Crash?
  {
    var s := run[i];
    var c := s.calls[p];
    match c.pc
    case Checking => var f := SomeGet(s.db, c.value.id, c.value.tenantId); assert Enabled(s, PreCheck(p, f));
    case Refetching => var f := SomeGet(s.db, c.value.id, c.value.tenantId); assert Enabled(s, Refetch(p, f));
    case Opening => assert Enabled(s, OpenTx(p));
    case WritingKey =>
      if KeyLocked(s, p, c.value.id) {
        var q :| 0 <= q < |s.calls| && q != p && Holds(s.calls[q]) && s.calls[q].value.id == c.value.id;
        if s.calls[q].pc.WritingRecord? { assert Enabled(s, WriteRecord(q, 0)); } else { assert Enabled(s, Commit(q, false)); }
      } else {
        assert Enabled(s, WriteKey(p, 0));
      }
    case WritingRecord(_) => assert Enabled(s, WriteRecord(p, 0));
    case Committing(_, _) => assert Enabled(s, Commit(p, false));
  }

  lemma SomeGet(db: Db, id: string, tenant: string) returns (found: Option<Record>)
    ensures GetResult(db, id, tenant, found)
  {
    if k :| k in db.records && Matches(db.records[k], id, tenant) {
      found := Some(db.records[k]);
    } else {
      found := None;
    }
  }
}
