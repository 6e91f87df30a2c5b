/** The rows and requests of the audit service (internal/audit/model.go). */
module AuditModel {
  import opened Basics

  type Time = int

  /** time.Time's zero value: "not set". */
  const ZERO_TIME: Time := 0

  /** The columns the database triggers own, on every table of the service. */
  datatype Audit = Audit(
    version: int,
    createdAt: Time,
    createdBy: string,
    updatedAt: Time,
    updatedBy: string,
    deletedAt: Option<Time>,
    deletedBy: Option<string>)

  datatype Record = Record(
    id: string,
    tenantId: string,
    applicationId: string,
    actorId: string,
    actorType: string,
    action: string,
    resourceType: string,
    resourceId: string,
    requestId: string,
    traceId: string,
    sourceService: string,
    beforeSummary: string,
    afterSummary: string,
    occurredAt: Time,
    audit: Audit)

  /** Two records that differ at most in the timestamps the database sets. */
  ghost predicate SameButTimes(a: Record, b: Record) {
    Untimed(a) == Untimed(b)
  }

  function Untimed(a: Record): Record {
    a.(audit := a.audit.(createdAt := ZERO_TIME, updatedAt := ZERO_TIME))
  }

  datatype Filter = Filter(
    keyword: string,
    ids: seq<string>,
    tenantId: string,
    applicationId: string,
    actorId: string,
    actorType: string,
    action: string,
    resourceType: string,
    resourceId: string,
    requestId: string,
    traceId: string,
    sourceService: string,
    occurredFrom: Time,
    occurredTo: Time,
    page: int,
    pageSize: int)

  datatype CallerType = User | System

  datatype Caller = Caller(id: string, kind: CallerType, tenantId: string)

  /** The application verifier's answer (appaccess.Verifier). */
  datatype Verdict = Granted | NotGranted | VerifierDown

  datatype Error = Invalid | Unauthorized | Forbidden | NotFound | Conflict | Unavailable | Internal
}
