/** The BEFORE-trigger on audit_records and audit_record_keys
    (migrations/postgres/000005_database_audit.up.sql). */
module AuditTrigger {
  import opened Basics
  import opened AuditModel

  datatype Op = Insert | Update | Delete

  /** audit_immutable_row: what the row's audit columns become, or the error that rejects the statement.
      `actor` is the transaction's app.actor_id, "" when it was never set. */
  function ImmutableRow(op: Op, actor: string, ts: Time): (r: Result<Audit, ()>)
    ensures r.Ok? <==> op.Insert? && actor != ""
    ensures r.Ok? ==> r.value.createdBy == r.value.updatedBy == actor && r.value.createdAt == r.value.updatedAt == ts
    ensures r.Ok? ==> r.value.version == 1 && r.value.deletedAt.None? && r.value.deletedBy.None?
  {
    if op.Delete? || op.Update? || actor == "" then Err(())
    else Ok(Audit(1, ts, actor, ts, actor, None, None))
  }
}
