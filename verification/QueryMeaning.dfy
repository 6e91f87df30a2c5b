/** What a query asks for, told from the filter as the caller sent it: which calls are allowed, which rows they get and
    what the others are answered (internal/audit/service.go:128-205, internal/audit/repository.go:74-112). */
module QueryMeaning {
  import opened Basics
  import opened AuditModel
  import opened Text
  import opened QueryFilter
  import opened Paging
  import opened RecordService

  /** A value that was given, blanks around it aside, is the row's. */
  predicate Given(value: string, column: string) {
    TrimSpace(value) != "" ==> column == TrimSpace(value)
  }

  /** The row is asked for. */
  ghost predicate Asks(filter: Filter, r: Record) {
    && r.tenantId == TrimSpace(filter.tenantId) && r.audit.deletedAt.None?
    && Given(filter.applicationId, r.applicationId)
    && Given(filter.actorId, r.actorId)
    && Given(filter.actorType, r.actorType)
    && Given(filter.action, r.action)
    && Given(filter.resourceType, r.resourceType)
    && Given(filter.resourceId, r.resourceId)
    && Given(filter.requestId, r.requestId)
    && Given(filter.traceId, r.traceId)
    && Given(filter.sourceService, r.sourceService)
    && AsksId(filter.ids, r.id)
    && (TrimSpace(filter.keyword) != "" ==> KeywordHit(TrimSpace(filter.keyword), r))
    && (filter.occurredFrom != ZERO_TIME ==> filter.occurredFrom <= r.occurredAt)
    && (filter.occurredTo != ZERO_TIME ==> r.occurredAt <= filter.occurredTo)
  }

  /** All ids are blank, or the id is one of them. */
  ghost predicate AsksId(ids: seq<string>, id: string) {
    (forall i :: 0 <= i < |ids| ==> TrimSpace(ids[i]) == "") || (id != "" && exists i :: 0 <= i < |ids| && TrimSpace(ids[i]) == id)
  }

  lemma NormalIds(ids: seq<string>, id: string)
    ensures (CleanIds(ids) != [] ==> id in CleanIds(ids)) <==> AsksId(ids, id)
  {
    CleanIdsMembers(ids, id);
    if CleanIds(ids) != [] {
      CleanIdsMembers(ids, CleanIds(ids)[0]);
    } else {
      forall i | 0 <= i < |ids| ensures TrimSpace(ids[i]) == "" {
        CleanIdsMembers(ids, TrimSpace(ids[i]));
      }
    }
  }

  /** The normalised filter, whatever its page, is met by the rows that are asked for. */
  lemma NormalMeets(filter: Filter, page: int, size: int, r: Record)
    ensures Meets(Normalize(filter).(page := page, pageSize := size), r) <==> Asks(filter, r)
  {
    NormalIds(filter.ids, r.id);
  }

  /** The rows of a table that are asked for, in its order. */
  ghost function Asked(table: seq<Record>, filter: Filter): (rows: seq<Record>)
    ensures forall r :: r in rows <==> r in table && Asks(filter, r)
  {
    if table == [] then []
    else (if Asks(filter, table[0]) then [table[0]] else []) + Asked(table[1..], filter)
  }

  lemma {:induction false} MeetingIsAsked(table: seq<Record>, filter: Filter, page: int, size: int)
    ensures Meeting(table, Normalize(filter).(page := page, pageSize := size)) == Asked(table, filter)
  {
    if table != [] {
      MeetingIsAsked(table[1..], filter, page, size);
      NormalMeets(filter, page, size, table[0]);
    }
  }

  // ---------------------------------------------------------------- who may ask for what

  /** At most 100 different ids, each a UUID; a keyword of at most 200 bytes; bounds in order; and with a keyword both of
      them, at most 31 days apart. */
  ghost predicate WellFormed(o: Oracle, filter: Filter) {
    && |CleanIds(filter.ids)| <= 100
    && (forall i :: 0 <= i < |filter.ids| && TrimSpace(filter.ids[i]) != "" ==> o.isUuid(TrimSpace(filter.ids[i])))
    && ByteLength(TrimSpace(filter.keyword)) <= 200
    && (filter.occurredFrom != ZERO_TIME && filter.occurredTo != ZERO_TIME ==> filter.occurredFrom <= filter.occurredTo)
    && (TrimSpace(filter.keyword) != "" ==>
          && filter.occurredFrom != ZERO_TIME && filter.occurredTo != ZERO_TIME
          && filter.occurredTo <= filter.occurredFrom + 2_678_400_000_000_000)
  }

  /** The call is allowed. */
  ghost predicate Allowed(o: Oracle, caller: Option<Caller>, filter: Filter) {
    && caller.Some? && TrimSpace(filter.tenantId) != "" && !Foreign(caller.value, filter.tenantId) && WellFormed(o, filter)
    && (caller.value.kind.User? ==> Verified(o, filter.tenantId, filter.applicationId, Granted))
    && filter.pageSize <= 100
  }

  /** Why a call that is not allowed is refused. */
  ghost predicate RefusedFor(o: Oracle, caller: Option<Caller>, filter: Filter, e: Error) {
    match e
    case Unauthorized => caller.None?
    case Forbidden =>
      && caller.Some? && caller.value.kind.User? && TrimSpace(filter.tenantId) != ""
      && (Foreign(caller.value, filter.tenantId) || (WellFormed(o, filter) && Verified(o, filter.tenantId, filter.applicationId, NotGranted)))
    case Unavailable =>
      && caller.Some? && caller.value.kind.User? && TrimSpace(filter.tenantId) != "" && !Foreign(caller.value, filter.tenantId)
      && WellFormed(o, filter) && Verified(o, filter.tenantId, filter.applicationId, VerifierDown)
    case Invalid =>
      && caller.Some?
      && (TrimSpace(filter.tenantId) == ""
          || (!Foreign(caller.value, filter.tenantId)
              && (!WellFormed(o, filter)
                  || (caller.value.kind.User? && TrimSpace(filter.applicationId) == "")
                  || (filter.pageSize > 100 && (caller.value.kind.User? ==> Verified(o, filter.tenantId, filter.applicationId, Granted))))))
    case _ => false
  }
}
