/** The BEFORE-triggers on the three route policy tables, in their Postgres and MySQL forms
    (migrations/postgres/000007_route_policies.up.sql:1-10,
    migrations/mysql/000007_route_policies.up.sql:4-12). */
module RowTrigger {
  import opened Basics
  import opened AuditModel
  import opened Text

  datatype Dialect = Postgres | MySql

  /** What an UPDATE statement does to the deletion columns of the row. */
  datatype Touch = Keep | Revive | Retire(at: Time, who: string)

  /** NEW.deleted_at and NEW.deleted_by as the trigger finds them. */
  function Proposed(was: Audit, touch: Touch): Audit {
    match touch
    case Keep => was
    case Revive => was.(deletedAt := None, deletedBy := None)
    case Retire(at, who) => was.(deletedAt := Some(at), deletedBy := Some(who))
  }

  /** SQL TRIM: spaces only. */
  function SqlTrim(s: string): string
    decreases |s|
  {
    if s != "" && s[0] == ' ' then SqlTrim(s[1..])
    else if s != "" && s[|s| - 1] == ' ' then SqlTrim(s[..|s| - 1])
    else s
  }

  /** The actor a trigger records, "" when it finds none. */
  function TriggerActor(d: Dialect, actor: string): string {
    if d.MySql? then SqlTrim(actor) else actor
  }

  function OnInsert(d: Dialect, actor: string, ts: Time): Result<Audit, ()> {
    var a := TriggerActor(d, actor);
    if a == "" then Err(()) else Ok(Audit(1, ts, a, ts, a, None, None))
  }

  function OnUpdate(d: Dialect, was: Audit, touch: Touch, actor: string, ts: Time): Result<Audit, ()> {
    var a := TriggerActor(d, actor);
    var next := Proposed(was, touch);
    if a == "" then Err(())
    else
      var base := was.(updatedAt := ts, updatedBy := a, version := was.version + 1);
      if d.Postgres? then
        if was.deletedAt.None? && next.deletedAt.Some? then Ok(base.(deletedAt := Some(ts), deletedBy := Some(a)))
        else if was.deletedAt.Some? && next.deletedAt.None? then Ok(base.(deletedAt := None, deletedBy := None))
        else Ok(base)
      else
        Ok(base.(deletedAt := next.deletedAt,
                 deletedBy := if next.deletedAt.None? then None
                              else if was.deletedAt.None? then Some(a) else was.deletedBy))
  }

  /** SQL TRIM takes off the spaces at the ends, and nothing else. */
  lemma {:induction false} SqlTrimIs(s: string) returns (i: nat, j: nat)
    ensures i <= j <= |s| && SqlTrim(s) == s[i..j]
    ensures (forall k :: 0 <= k < i ==> s[k] == ' ') && forall k :: j <= k < |s| ==> s[k] == ' '
    ensures i < j ==> s[i] != ' ' && s[j - 1] != ' '
    decreases |s|
  {
    if s != "" && s[0] == ' ' {
      i, j := SqlTrimIs(s[1..]);
      assert s[1..][i..j] == s[i + 1..j + 1];
      assert forall k :: 0 < k < |s| ==> s[k] == s[1..][k - 1];
      i, j := i + 1, j + 1;
    } else if s != "" && s[|s| - 1] == ' ' {
      var t := s[..|s| - 1];
      i, j := SqlTrimIs(t);
      assert t[i..j] == s[i..j] && forall k :: 0 <= k < |t| ==> t[k] == s[k];
    } else {
      i, j := 0, |s|;
    }
  }

  predicate Live(a: Audit) { a.deletedAt.None? }

  /** A live row names nobody as its deleter. */
  predicate WellDeleted(a: Audit) { Live(a) ==> a.deletedBy.None? }

  /** Equal in version, creator, last writer, deleter and in being live or deleted. */
  predicate SameAudit(a: Audit, b: Audit) {
    a.version == b.version && a.createdBy == b.createdBy && a.updatedBy == b.updatedBy && a.deletedBy == b.deletedBy
    && Live(a) == Live(b)
  }

  /** No spaces at the ends: what SQL TRIM leaves alone. */
  predicate Plain(actor: string) {
    SqlTrim(actor) == actor
  }

  /** Both triggers refuse, or both accept with audit columns that agree. */
  predicate Agree(pg: Result<Audit, ()>, my: Result<Audit, ()>) {
    (pg.Ok? <==> my.Ok?) && (pg.Ok? ==> SameAudit(pg.value, my.value) && WellDeleted(pg.value) && WellDeleted(my.value))
  }

  /** On rows that agree the two triggers accept the same updates and leave rows that agree, whatever the update does
      to the deletion columns, if and only if the actor has no spaces at its ends. */
  lemma UpdatesAgreeIff(pg: Audit, my: Audit, touch: Touch, touch': Touch, actor: string, ts: Time, ts': Time)
    requires SameAudit(pg, my) && WellDeleted(pg) && WellDeleted(my)
    requires touch == touch' || (touch.Retire? && touch'.Retire?)
    ensures Agree(OnUpdate(Postgres, pg, touch, actor, ts), OnUpdate(MySql, my, touch', actor, ts')) <==> Plain(actor)
  {
  }

  lemma InsertsAgreeIff(actor: string, ts: Time, ts': Time)
    ensures Agree(OnInsert(Postgres, actor, ts), OnInsert(MySql, actor, ts')) <==> Plain(actor)
  {
  }

  /** In what an update leaves, agreement does not cover the time of a deletion: deleting a deleted row again moves
      that time on MySQL only, if it is another one. */
  lemma DeletedAgainIff(was: Audit, at: Time, who: string, actor: string, ts: Time)
    requires was.deletedAt.Some? && Plain(actor) && actor != ""
    ensures OnUpdate(Postgres, was, Retire(at, who), actor, ts).value.deletedAt == was.deletedAt
    ensures OnUpdate(MySql, was, Retire(at, who), actor, ts).value.deletedAt == was.deletedAt <==> was.deletedAt == Some(at)
  {
  }
}
