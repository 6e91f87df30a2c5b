/** `Service.Query` over the repository (internal/audit/service.go:128-176,
    internal/audit/repository.go:59-72). */
module AuditQuery {
  import opened Basics
  import opened AuditModel
  import opened Text
  import opened QueryFilter
  import opened QueryMeaning
  import opened Paging
  import opened RecordService

  /** The table as the two statements of one query see it, an append may fall between them; and whether one of them
      fails. */
  datatype View = View(atCount: seq<Record>, atSelect: seq<Record>, fails: bool)

  /** SELECT ... WHERE ... ORDER BY occurred_at DESC, id DESC LIMIT ? OFFSET ?, all marks bound by position. */
  function SqlSelect(table: seq<Record>, parts: seq<Clause>, args: seq<Arg>): seq<Record>
    requires |args| == AllMarks(parts) + 2
    requires args[|args| - 2].Num? && args[|args| - 1].Num? && args[|args| - 2].n >= 0 && args[|args| - 1].n >= 0
  {
    Slice(OrderBy(Where(table, parts, args[..|args| - 2])), args[|args| - 1].n, args[|args| - 2].n)
  }

  /** Repository.Query: the page asked for out of all matches, and their number, or the error of a statement. */
  method SelectPage(view: View, f: Filter) returns (r: Option<(seq<Record>, nat)>)
    requires f.page >= 1 && f.pageSize >= 0
    ensures r == if view.fails then None
                 else Some((PageOf(Matches(view.atSelect, f), f.page, f.pageSize), |Matches(view.atCount, f)|))
  {
    var parts, args := QueryWhere(f);
    if view.fails { return None; }
    WhereIsMeeting(view.atCount, parts, args, f);
    WhereIsMeeting(view.atSelect, parts, args, f);
    var total := |Where(view.atCount, parts, args)|;
    var bound := args + [Num(f.pageSize), Num((f.page - 1) * f.pageSize)];
    assert bound[..|bound| - 2] == args;
    return Some((SqlSelect(view.atSelect, parts, bound), total));
  }

  /** 31 days in nanoseconds. */
  const MAX_KEYWORD_RANGE := 31 * 24 * 3600 * 1_000_000_000

  /** The checks a normalised filter has to pass before the caller's application is verified. */
  function Malformed(o: Oracle, f: Filter): bool {
    || |f.ids| > 100 || (exists i :: 0 <= i < |f.ids| && !o.isUuid(f.ids[i])) || ByteLength(f.keyword) > 200
    || (f.occurredFrom != ZERO_TIME && f.occurredTo != ZERO_TIME && f.occurredFrom > f.occurredTo)
    || (f.keyword != "" && (f.occurredFrom == ZERO_TIME || f.occurredTo == ZERO_TIME
                            || f.occurredTo - f.occurredFrom > MAX_KEYWORD_RANGE))
  }

  /** The filter the repository is asked with, or the refusal. */
  function Admit(o: Oracle, caller: Option<Caller>, filter: Filter): (r: Result<Filter, Error>)
    ensures r.Ok? ==> r.value.page >= 1 && 1 <= r.value.pageSize <= 100 && caller.Some?
    ensures r.Ok? && caller.value.kind.User? ==>
              && r.value.tenantId == caller.value.tenantId && r.value.applicationId != ""
              && o.verify(r.value.tenantId, r.value.applicationId).Granted?
  {
    if caller.None? then Err(Unauthorized)
    else if TrimSpace(filter.tenantId) == "" then Err(Invalid)
    else match EnforceTenant(caller.value, filter.tenantId)
      case Some(e) => Err(e)
      case None =>
        var f := Normalize(filter);
        if Malformed(o, f) then Err(Invalid)
        else
          TrimOfTrimmed(f.applicationId);
          TrimOfTrimmed(f.tenantId);
          match if caller.value.kind.User? then VerifyApplication(o, f.tenantId, f.applicationId, true) else None
          case Some(e) => Err(e)
          case None =>
            var size := if f.pageSize <= 0 then 20 else f.pageSize;
            if size > 100 then Err(Invalid)
            else Ok(f.(page := if f.page <= 0 then 1 else f.page, pageSize := size))
  }

  datatype Page = Page(records: seq<Record>, total: nat, page: int, pageSize: int)

  /** The answer a query has to give: a page of the matches in their order, and how many there are. */
  ghost function QueryAnswer(o: Oracle, caller: Option<Caller>, filter: Filter, view: View): Result<Page, Error> {
    match Admit(o, caller, filter)
    case Err(e) => Err(e)
    case Ok(f) =>
      if view.fails then Err(Internal)
      else Ok(Page(PageOf(Matches(view.atSelect, f), f.page, f.pageSize), |Matches(view.atCount, f)|, f.page, f.pageSize))
  }

  lemma MalformedIff(o: Oracle, filter: Filter)
    ensures Malformed(o, Normalize(filter)) <==> !WellFormed(o, filter)
  {
    var ids := CleanIds(filter.ids);
    forall i | 0 <= i < |ids| ensures exists j :: 0 <= j < |filter.ids| && TrimSpace(filter.ids[j]) == ids[i] {
      CleanIdsMembers(filter.ids, ids[i]);
    }
    forall j | 0 <= j < |filter.ids| && TrimSpace(filter.ids[j]) != "" ensures TrimSpace(filter.ids[j]) in ids {
      CleanIdsMembers(filter.ids, TrimSpace(filter.ids[j]));
    }
  }

  /** A query is admitted if and only if it is allowed, with its first page and 20 records a page if it does not say
      otherwise; and refused with an error exactly for the reasons of that error. */
  lemma AdmitIs(o: Oracle, caller: Option<Caller>, filter: Filter)
    ensures Admit(o, caller, filter).Ok? <==> Allowed(o, caller, filter)
    ensures Admit(o, caller, filter).Ok? ==>
              Admit(o, caller, filter).value == Normalize(filter).(page := if filter.page <= 0 then 1 else filter.page,
                                                                  pageSize := if filter.pageSize <= 0 then 20 else filter.pageSize)
    ensures forall e :: Admit(o, caller, filter) == Err(e) <==> RefusedFor(o, caller, filter, e)
  {
    MalformedIff(o, filter);
    if caller.Some? { TrimsToNothing(caller.value.tenantId); }
    TrimIdempotent(filter.tenantId);
    TrimIdempotent(filter.applicationId);
  }

  lemma MatchesAsked(table: seq<Record>, filter: Filter, page: int, size: int)
    ensures Matches(table, Normalize(filter).(page := page, pageSize := size)) == OrderBy(Asked(table, filter))
    ensures |Matches(table, Normalize(filter).(page := page, pageSize := size))| == |Asked(table, filter)|
  {
    MeetingIsAsked(table, filter, page, size);
  }

  /** Service.Query. It is answered if and only if it is allowed and no statement fails; the answer is the page asked for
      of the rows asked for, in their order, and their number. */
  method Query(o: Oracle, caller: Option<Caller>, filter: Filter, view: View) returns (r: Result<Page, Error>)
    ensures r == QueryAnswer(o, caller, filter, view)
    ensures r.Ok? <==> Allowed(o, caller, filter) && !view.fails
    ensures r.Ok? ==>
              var page, size := if filter.page <= 0 then 1 else filter.page, if filter.pageSize <= 0 then 20 else filter.pageSize;
              r.value == Page(PageOf(OrderBy(Asked(view.atSelect, filter)), page, size), |Asked(view.atCount, filter)|, page, size)
    ensures forall e :: r == Err(e) <==> if Allowed(o, caller, filter) then view.fails && e == Internal else RefusedFor(o, caller, filter, e)
  {
    AdmitIs(o, caller, filter);
    var admitted := Admit(o, caller, filter);
    if admitted.Err? { return Err(admitted.error); }
    var f := admitted.value;
    MatchesAsked(view.atCount, filter, f.page, f.pageSize);
    MatchesAsked(view.atSelect, filter, f.page, f.pageSize);
    var selected := SelectPage(view, f);
    if selected.None? { return Err(Internal); }
    return Ok(Page(selected.value.0, selected.value.1, f.page, f.pageSize));
  }

  // ---------------------------------------------------------------- paging does not change the predicate

  lemma {:induction false} MatchesIgnorePage(table: seq<Record>, f: Filter, page: int, size: int)
    ensures Meeting(table, f.(page := page, pageSize := size)) == Meeting(table, f)
    ensures Matches(table, f.(page := page, pageSize := size)) == Matches(table, f)
  {
    if table != [] {
      MatchesIgnorePage(table[1..], f, page, size);
      var g, r := f.(page := page, pageSize := size), table[0];
      assert Meets(g, r) <==> Meets(f, r);
    }
  }

  /** Asking for another page is admitted or refused alike, as long as the verifier answers alike; and whatever it
      answers, an admitted page selects by the same normalised filter. */
  lemma AdmitEveryPage(o: Oracle, caller: Option<Caller>, filter: Filter, page: int, size: int)
    requires page >= 1 && 1 <= size <= 100
    ensures Admit(o, caller, filter.(page := page, pageSize := size)) ==
            match Admit(o, caller, filter.(page := 1, pageSize := 100))
            case Err(e) => Err(e)
            case Ok(_) => Ok(Normalize(filter).(page := page, pageSize := size))
  {
    var a, b := filter.(page := page, pageSize := size), filter.(page := 1, pageSize := 100);
    assert Normalize(a) == Normalize(filter).(page := page, pageSize := size);
    assert Normalize(b) == Normalize(filter).(page := 1, pageSize := 100);
    assert Malformed(o, Normalize(a)) == Malformed(o, Normalize(b));
  }

  // ---------------------------------------------------------------- row isolation

  /** The two tables hold the same rows of one tenant and application, whatever else they hold. */
  ghost predicate AgreeOn(t: seq<Record>, t': seq<Record>, tenant: string, application: string) {
    forall r: Record :: r.tenantId == tenant && r.applicationId == application ==> (r in t <==> r in t')
  }

  lemma MatchesOnlyOwnRows(t: seq<Record>, t': seq<Record>, f: Filter)
    requires UniqueIds(t) && UniqueIds(t') && f.applicationId != "" && AgreeOn(t, t', f.tenantId, f.applicationId)
    ensures Matches(t, f) == Matches(t', f)
  {
    MatchesSorted(t, f);
    MatchesSorted(t', f);
    forall x ensures x in Matches(t, f) <==> x in Matches(t', f) {
      assert Meets(f, x) ==> x.tenantId == f.tenantId && x.applicationId == f.applicationId;
    }
    SortedIsUnique(Matches(t, f), Matches(t', f));
  }

  /** All rows a user can be shown belong to the user's own tenant and to an application the user was
      verified for. */
  lemma OnlyOwnRowsShown(o: Oracle, caller: Caller, filter: Filter, view: View)
    requires caller.kind.User? && QueryAnswer(o, Some(caller), filter, view).Ok?
    ensures forall x :: x in QueryAnswer(o, Some(caller), filter, view).value.records ==>
              && x.tenantId == caller.tenantId && x.applicationId == TrimSpace(filter.applicationId)
              && o.verify(caller.tenantId, x.applicationId).Granted? && x.audit.deletedAt.None?
  {
    var f := Admit(o, Some(caller), filter).value;
    assert f.applicationId == TrimSpace(filter.applicationId);
    assert forall x :: x in Matches(view.atSelect, f) ==> Meets(f, x);
  }

  ghost predicate ViewsAgreeOn(v: View, v': View, tenant: string, application: string) {
    && v.fails == v'.fails
    && AgreeOn(v.atCount, v'.atCount, tenant, application) && AgreeOn(v.atSelect, v'.atSelect, tenant, application)
    && UniqueIds(v.atCount) && UniqueIds(v'.atCount) && UniqueIds(v.atSelect) && UniqueIds(v'.atSelect)
  }

  /** Row isolation: two ledgers that agree on the rows of the caller's tenant and of the application asked
      for give a user the same answer, whatever else they hold. */
  lemma QueryIsolation(o: Oracle, caller: Caller, filter: Filter, v: View, v': View)
    requires caller.kind.User? && ViewsAgreeOn(v, v', caller.tenantId, TrimSpace(filter.applicationId))
    ensures QueryAnswer(o, Some(caller), filter, v) == QueryAnswer(o, Some(caller), filter, v')
  {
    var a := Admit(o, Some(caller), filter);
    if a.Ok? {
      assert a.value.applicationId == TrimSpace(filter.applicationId);
      MatchesOnlyOwnRows(v.atCount, v'.atCount, a.value);
      MatchesOnlyOwnRows(v.atSelect, v'.atSelect, a.value);
    }
  }
}
