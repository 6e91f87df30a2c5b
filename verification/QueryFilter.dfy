/** From a filter to SQL: normalizeFilter and queryWhere, with the meaning of the clauses they produce
    (internal/audit/service.go:178-205, internal/audit/repository.go:74-112). */
module QueryFilter {
  import opened Basics
  import opened AuditModel
  import opened Text

  // ---------------------------------------------------------------- normalising

  /** Blank ids dropped, the others trimmed, first occurrences kept in order. */
  function CleanIds(ids: seq<string>): (r: seq<string>)
    ensures forall i :: 0 <= i < |r| ==> r[i] != "" && Trimmed(r[i])
    ensures forall i, j :: 0 <= i < j < |r| ==> r[i] != r[j]
  {
    if ids == [] then []
    else
      var init, id := CleanIds(ids[..|ids| - 1]), TrimSpace(ids[|ids| - 1]);
      if id == "" || id in init then init else init + [id]
  }

  function TrimFields(f: Filter): Filter {
    f.(keyword := TrimSpace(f.keyword), tenantId := TrimSpace(f.tenantId), applicationId := TrimSpace(f.applicationId),
       actorId := TrimSpace(f.actorId), actorType := TrimSpace(f.actorType), action := TrimSpace(f.action),
       resourceType := TrimSpace(f.resourceType), resourceId := TrimSpace(f.resourceId),
       requestId := TrimSpace(f.requestId), traceId := TrimSpace(f.traceId), sourceService := TrimSpace(f.sourceService))
  }

  function Normalize(f: Filter): Filter {
    TrimFields(f).(ids := CleanIds(f.ids))
  }

  method NormalizeFilter(filter: Filter) returns (f: Filter)
    ensures f == Normalize(filter)
  {
    f := TrimFields(filter);
    var seen: set<string> := {};
    var ids: seq<string> := [];
    for i := 0 to |filter.ids|
      invariant ids == CleanIds(filter.ids[..i])
      invariant forall id :: id in seen <==> id in ids
    {
      assert filter.ids[..i + 1][..i] == filter.ids[..i];
      var id := TrimSpace(filter.ids[i]);
      if id == "" { continue; }
      if id in seen { continue; }
      seen := seen + {id};
      ids := ids + [id];
    }
    assert filter.ids[..|filter.ids|] == filter.ids;
    f := f.(ids := ids);
  }

  /** The ids kept are exactly the non-blank ones, trimmed. */
  lemma {:induction false} CleanIdsMembers(ids: seq<string>, id: string)
    ensures id in CleanIds(ids) <==> id != "" && exists i :: 0 <= i < |ids| && TrimSpace(ids[i]) == id
  {
    if ids != [] {
      var init := ids[..|ids| - 1];
      CleanIdsMembers(init, id);
      if id != "" && exists i :: 0 <= i < |ids| && TrimSpace(ids[i]) == id {
        var i :| 0 <= i < |ids| && TrimSpace(ids[i]) == id;
        assert i < |init| ==> init[i] == ids[i];
      }
    }
  }

  lemma {:induction false} CleanIdsOfClean(ids: seq<string>)
    requires forall i :: 0 <= i < |ids| ==> ids[i] != "" && Trimmed(ids[i])
    requires forall i, j :: 0 <= i < j < |ids| ==> ids[i] != ids[j]
    ensures CleanIds(ids) == ids
  {
    if ids != [] {
      CleanIdsOfClean(ids[..|ids| - 1]);
      TrimOfTrimmed(ids[|ids| - 1]);
    }
  }

  lemma TrimFieldsIdempotent(f: Filter)
    ensures TrimFields(TrimFields(f)) == TrimFields(f)
  {
    TrimIdempotent(f.keyword);
    TrimIdempotent(f.tenantId);
    TrimIdempotent(f.applicationId);
    TrimIdempotent(f.actorId);
    TrimIdempotent(f.actorType);
    TrimIdempotent(f.action);
    TrimIdempotent(f.resourceType);
    TrimIdempotent(f.resourceId);
    TrimIdempotent(f.requestId);
    TrimIdempotent(f.traceId);
    TrimIdempotent(f.sourceService);
  }

  /** Normalising a normalised filter changes nothing, so every page of an export selects by the same
      predicate. */
  lemma NormalizeIdempotent(f: Filter)
    ensures Normalize(Normalize(f)) == Normalize(f)
  {
    TrimFieldsIdempotent(f);
    CleanIdsOfClean(CleanIds(f.ids));
    assert TrimFields(Normalize(f)) == TrimFields(TrimFields(f)).(ids := CleanIds(f.ids));
  }

  // ---------------------------------------------------------------- the clauses

  datatype Column =
    | TenantId | ApplicationId | ActorId | ActorType | Action | ResourceType | ResourceId
    | RequestId | TraceId | SourceService

  function Field(c: Column, r: Record): string {
    match c
    case TenantId => r.tenantId
    case ApplicationId => r.applicationId
    case ActorId => r.actorId
    case ActorType => r.actorType
    case Action => r.action
    case ResourceType => r.resourceType
    case ResourceId => r.resourceId
    case RequestId => r.requestId
    case TraceId => r.traceId
    case SourceService => r.sourceService
  }

  /** One member of the WHERE conjunction. Its `?` marks are bound to arguments by position. */
  datatype Clause =
    | Equals(column: Column)                    // column = ?
    | NotDeleted                                // deleted_at IS NULL
    | IdIn(n: nat)                              // id IN (?, ..., ?)
    | AnyLike(columns: seq<Column>)             // LOWER(c) LIKE ? OR ... OR LOWER(c) LIKE ?
    | Since                                     // occurred_at >= ?
    | Until                                     // occurred_at <= ?

  datatype Arg = Str(s: string) | At(t: Time) | Num(n: int)

  function Marks(c: Clause): nat {
    match c
    case NotDeleted => 0
    case IdIn(n) => n
    case AnyLike(columns) => |columns|
    case _ => 1
  }

  function AllMarks(parts: seq<Clause>): nat {
    if parts == [] then 0 else AllMarks(parts[..|parts| - 1]) + Marks(parts[|parts| - 1])
  }

  /** Whether the row satisfies the clause with its own arguments. */
  predicate Holds(c: Clause, args: seq<Arg>, r: Record)
    requires |args| == Marks(c)
  {
    match c
    case Equals(column) => args[0] == Str(Field(column, r))
    case NotDeleted => r.audit.deletedAt.None?
    case IdIn(_) => Str(r.id) in args
    case AnyLike(columns) =>
      exists i :: 0 <= i < |columns| && args[i].Str? && Like(args[i].s, Lower(Field(columns[i], r)))
    case Since => args[0].At? && r.occurredAt >= args[0].t
    case Until => args[0].At? && r.occurredAt <= args[0].t
  }

  /** The conjunction, its marks bound to the arguments from left to right. */
  predicate Selects(parts: seq<Clause>, args: seq<Arg>, r: Record)
    requires |args| == AllMarks(parts)
  {
    parts == [] ||
    var n, m := |parts| - 1, AllMarks(parts[..|parts| - 1]);
    Selects(parts[..n], args[..m], r) && Holds(parts[n], args[m..], r)
  }

  const KEYWORD_COLUMNS := [ActorId, Action, ResourceType, ResourceId, RequestId, TraceId, SourceService]

  /** What the filter asks for. */
  ghost predicate Meets(f: Filter, r: Record) {
    ScalarsMet(f, r) && ListMet(f, r) && KeywordMet(f, r) && RangeMet(f, r)
  }

  /** The tenant's rows that are not deleted, and of those the ones that have every value the filter gives. */
  ghost predicate ScalarsMet(f: Filter, r: Record) {
    && r.tenantId == f.tenantId && r.audit.deletedAt.None?
    && (f.applicationId != "" ==> r.applicationId == f.applicationId)
    && (f.actorId != "" ==> r.actorId == f.actorId)
    && (f.actorType != "" ==> r.actorType == f.actorType)
    && (f.action != "" ==> r.action == f.action)
    && (f.resourceType != "" ==> r.resourceType == f.resourceType)
    && (f.resourceId != "" ==> r.resourceId == f.resourceId)
    && (f.requestId != "" ==> r.requestId == f.requestId)
    && (f.traceId != "" ==> r.traceId == f.traceId)
    && (f.sourceService != "" ==> r.sourceService == f.sourceService)
  }

  ghost predicate ListMet(f: Filter, r: Record) {
    f.ids != [] ==> r.id in f.ids
  }

  ghost predicate KeywordMet(f: Filter, r: Record) {
    f.keyword != "" ==> KeywordHit(f.keyword, r)
  }

  ghost predicate RangeMet(f: Filter, r: Record) {
    && (f.occurredFrom != ZERO_TIME ==> r.occurredAt >= f.occurredFrom)
    && (f.occurredTo != ZERO_TIME ==> r.occurredAt <= f.occurredTo)
  }

  predicate ItemMet(item: (Column, string), r: Record) {
    item.1 != "" ==> Field(item.0, r) == item.1
  }

  /** The columns compared for equality when the filter gives them a value. */
  function Items(f: Filter): (items: seq<(Column, string)>)
    ensures |items| == 9
  {
    [(ApplicationId, f.applicationId), (ActorId, f.actorId), (ActorType, f.actorType), (Action, f.action),
     (ResourceType, f.resourceType), (ResourceId, f.resourceId), (RequestId, f.requestId), (TraceId, f.traceId),
     (SourceService, f.sourceService)]
  }

  function Pattern(keyword: string): string {
    "%" + Lower(keyword) + "%"
  }

  /** The pattern is found in one of the seven searched columns. */
  ghost predicate KeywordHit(keyword: string, r: Record) {
    var pattern := "%" + Lower(keyword) + "%";
    || Like(pattern, Lower(r.actorId)) || Like(pattern, Lower(r.action))
    || Like(pattern, Lower(r.resourceType)) || Like(pattern, Lower(r.resourceId))
    || Like(pattern, Lower(r.requestId)) || Like(pattern, Lower(r.traceId)) || Like(pattern, Lower(r.sourceService))
  }

  lemma SelectsAppended(parts: seq<Clause>, args: seq<Arg>, c: Clause, more: seq<Arg>)
    requires |args| == AllMarks(parts) && |more| == Marks(c)
    ensures AllMarks(parts + [c]) == |args + more|
    ensures forall r :: Selects(parts + [c], args + more, r) <==> Selects(parts, args, r) && Holds(c, more, r)
  {
    var all := parts + [c];
    assert all[..|all| - 1] == parts;
    assert (args + more)[..|args|] == args && (args + more)[|args|..] == more;
  }

  lemma LikeClause(keyword: string, r: Record, args: seq<Arg>)
    requires |args| == |KEYWORD_COLUMNS| && forall i :: 0 <= i < |args| ==> args[i] == Str(Pattern(keyword))
    ensures Holds(AnyLike(KEYWORD_COLUMNS), args, r) <==> KeywordHit(keyword, r)
  {
    var hit := seq(7, i requires 0 <= i < 7 => Like(Pattern(keyword), Lower(Field(KEYWORD_COLUMNS[i], r))));
    assert KeywordHit(keyword, r) <==> hit[0] || hit[1] || hit[2] || hit[3] || hit[4] || hit[5] || hit[6];
    forall i | 0 <= i < 7 ensures hit[i] == (args[i].Str? && Like(args[i].s, Lower(Field(KEYWORD_COLUMNS[i], r)))) {
      assert args[i] == Str(Pattern(keyword));
    }
  }

  lemma AllNine(items: seq<(Column, string)>, r: Record)
    requires |items| == 9
    ensures (forall j :: 0 <= j < 9 ==> ItemMet(items[j], r)) <==>
            && ItemMet(items[0], r) && ItemMet(items[1], r) && ItemMet(items[2], r) && ItemMet(items[3], r) && ItemMet(items[4], r)
            && ItemMet(items[5], r) && ItemMet(items[6], r) && ItemMet(items[7], r) && ItemMet(items[8], r)
  {
  }

  lemma ItemsAreScalars(f: Filter, r: Record)
    ensures ScalarsMet(f, r) <==>
            r.tenantId == f.tenantId && r.audit.deletedAt.None? && forall j :: 0 <= j < 9 ==> ItemMet(Items(f)[j], r)
  {
    var items := Items(f);
    assert items[0] == (ApplicationId, f.applicationId) && items[1] == (ActorId, f.actorId) && items[2] == (ActorType, f.actorType);
    assert items[3] == (Action, f.action) && items[4] == (ResourceType, f.resourceType) && items[5] == (ResourceId, f.resourceId);
    assert items[6] == (RequestId, f.requestId) && items[7] == (TraceId, f.traceId) && items[8] == (SourceService, f.sourceService);
    AllNine(items, r);
  }

  method WhereScalars(f: Filter) returns (parts: seq<Clause>, args: seq<Arg>)
    ensures |args| == AllMarks(parts)
    ensures forall r :: Selects(parts, args, r) <==> ScalarsMet(f, r)
  {
    parts, args := [], [];
    SelectsAppended(parts, args, Equals(TenantId), [Str(f.tenantId)]);
    parts, args := parts + [Equals(TenantId)], args + [Str(f.tenantId)];
    SelectsAppended(parts, args, NotDeleted, []);
    assert args + [] == args;
    parts := parts + [NotDeleted];
    var items := Items(f);
    for i := 0 to |items|
      invariant |args| == AllMarks(parts)
      invariant forall r :: Selects(parts, args, r) <==>
                  r.tenantId == f.tenantId && r.audit.deletedAt.None? && forall j :: 0 <= j < i ==> ItemMet(items[j], r)
    {
      if items[i].1 != "" {
        SelectsAppended(parts, args, Equals(items[i].0), [Str(items[i].1)]);
        parts, args := parts + [Equals(items[i].0)], args + [Str(items[i].1)];
      }
    }
    forall r ensures Selects(parts, args, r) <==> ScalarsMet(f, r) {
      ItemsAreScalars(f, r);
    }
  }

  method WhereList(f: Filter, before: seq<Clause>, bound: seq<Arg>) returns (parts: seq<Clause>, args: seq<Arg>)
    requires |bound| == AllMarks(before)
    ensures |args| == AllMarks(parts)
    ensures forall r :: Selects(parts, args, r) <==> Selects(before, bound, r) && ListMet(f, r)
  {
    parts, args := before, bound;
    if |f.ids| > 0 {
      var inArgs := seq(|f.ids|, i requires 0 <= i < |f.ids| => Str(f.ids[i]));
      forall r ensures Holds(IdIn(|f.ids|), inArgs, r) <==> r.id in f.ids {
        if r.id in f.ids {
          var i :| 0 <= i < |f.ids| && f.ids[i] == r.id;
          assert inArgs[i] == Str(r.id);
        }
      }
      SelectsAppended(parts, args, IdIn(|f.ids|), inArgs);
      parts, args := parts + [IdIn(|f.ids|)], args + inArgs;
    }
  }

  method WhereKeyword(f: Filter, before: seq<Clause>, bound: seq<Arg>) returns (parts: seq<Clause>, args: seq<Arg>)
    requires |bound| == AllMarks(before)
    ensures |args| == AllMarks(parts)
    ensures forall r :: Selects(parts, args, r) <==> Selects(before, bound, r) && KeywordMet(f, r)
  {
    parts, args := before, bound;
    if f.keyword != "" {
      var like: seq<Arg> := [];
      for i := 0 to 7
        invariant |like| == i && forall j :: 0 <= j < i ==> like[j] == Str(Pattern(f.keyword))
      {
        like := like + [Str(Pattern(f.keyword))];
      }
      forall r ensures Holds(AnyLike(KEYWORD_COLUMNS), like, r) <==> KeywordHit(f.keyword, r) {
        LikeClause(f.keyword, r, like);
      }
      SelectsAppended(parts, args, AnyLike(KEYWORD_COLUMNS), like);
      parts, args := parts + [AnyLike(KEYWORD_COLUMNS)], args + like;
    }
  }

  method WhereRange(f: Filter, before: seq<Clause>, bound: seq<Arg>) returns (parts: seq<Clause>, args: seq<Arg>)
    requires |bound| == AllMarks(before)
    ensures |args| == AllMarks(parts)
    ensures forall r :: Selects(parts, args, r) <==> Selects(before, bound, r) && RangeMet(f, r)
  {
    parts, args := before, bound;
    if f.occurredFrom != ZERO_TIME {
      SelectsAppended(parts, args, Since, [At(f.occurredFrom)]);
      parts, args := parts + [Since], args + [At(f.occurredFrom)];
    }
    if f.occurredTo != ZERO_TIME {
      SelectsAppended(parts, args, Until, [At(f.occurredTo)]);
      parts, args := parts + [Until], args + [At(f.occurredTo)];
    }
  }

  /** The clause list binds exactly its arguments and selects exactly the rows that meet the filter. */
  method QueryWhere(f: Filter) returns (parts: seq<Clause>, args: seq<Arg>)
    ensures |args| == AllMarks(parts)
    ensures forall r :: Selects(parts, args, r) <==> Meets(f, r)
  {
    parts, args := WhereScalars(f);
    parts, args := WhereList(f, parts, args);
    parts, args := WhereKeyword(f, parts, args);
    parts, args := WhereRange(f, parts, args);
  }

  /** Without LIKE metacharacters a keyword is looked for as a substring, ignoring case. */
  lemma KeywordIsSubstring(keyword: string, r: Record)
    requires NoMeta(keyword)
    ensures KeywordHit(keyword, r) <==>
            var k := Lower(keyword);
            || Contains(Lower(r.actorId), k) || Contains(Lower(r.action), k)
            || Contains(Lower(r.resourceType), k) || Contains(Lower(r.resourceId), k)
            || Contains(Lower(r.requestId), k) || Contains(Lower(r.traceId), k) || Contains(Lower(r.sourceService), k)
  {
    var k := Lower(keyword);
    assert NoMeta(k);
    LikeIsSubstring(k, Lower(r.actorId));
    LikeIsSubstring(k, Lower(r.action));
    LikeIsSubstring(k, Lower(r.resourceType));
    LikeIsSubstring(k, Lower(r.resourceId));
    LikeIsSubstring(k, Lower(r.requestId));
    LikeIsSubstring(k, Lower(r.traceId));
    LikeIsSubstring(k, Lower(r.sourceService));
  }
}
