/** `Service.Export`: a loop of queries written out as CSV rows (internal/audit/service.go:234-279). */
module AuditExport {
  import opened Basics
  import opened AuditModel
  import opened Text
  import opened QueryFilter
  import opened Paging
  import opened RecordService
  import opened AuditQuery
  import opened ExportLoop
  import opened ExportRepeats

  const HEADER := ["id", "tenant_id", "application_id", "actor_id", "actor_type", "action", "resource_type", "resource_id",
                   "request_id", "trace_id", "source_service", "before_summary", "after_summary", "occurred_at", "version",
                   "created_at", "created_by"]

  /** A cell a spreadsheet will not read as a formula. */
  function CsvSafe(value: string): (r: string)
    ensures r != "" ==> r[0] !in "=+-@"
    ensures r == value || r == "'" + value
    ensures r != value <==> value != "" && value[0] in {'=', '+', '-', '@'}
  {
    if value != "" && value[0] in "=+-@" then "'" + value else value
  }

  datatype Format = Format(time: Time -> string, number: int -> string)

  function Columns(fmt: Format, r: Record): seq<string> {
    [r.id, r.tenantId, r.applicationId, r.actorId, r.actorType, r.action, r.resourceType, r.resourceId, r.requestId,
     r.traceId, r.sourceService, r.beforeSummary, r.afterSummary, fmt.time(r.occurredAt), fmt.number(r.audit.version),
     fmt.time(r.audit.createdAt), r.audit.createdBy]
  }

  /** Under each heading stands the field of that name; a record has no further cells. */
  lemma ColumnsMatchHeadings(fmt: Format, r: Record)
    ensures |Columns(fmt, r)| == |HEADER| == 17
    ensures var h, c := HEADER, Columns(fmt, r);
            && h[0] == "id" && c[0] == r.id && h[1] == "tenant_id" && c[1] == r.tenantId
            && h[2] == "application_id" && c[2] == r.applicationId && h[3] == "actor_id" && c[3] == r.actorId
            && h[4] == "actor_type" && c[4] == r.actorType && h[5] == "action" && c[5] == r.action
            && h[6] == "resource_type" && c[6] == r.resourceType && h[7] == "resource_id" && c[7] == r.resourceId
            && h[8] == "request_id" && c[8] == r.requestId && h[9] == "trace_id" && c[9] == r.traceId
            && h[10] == "source_service" && c[10] == r.sourceService
            && h[11] == "before_summary" && c[11] == r.beforeSummary && h[12] == "after_summary" && c[12] == r.afterSummary
            && h[13] == "occurred_at" && c[13] == fmt.time(r.occurredAt) && h[14] == "version" && c[14] == fmt.number(r.audit.version)
            && h[15] == "created_at" && c[15] == fmt.time(r.audit.createdAt) && h[16] == "created_by" && c[16] == r.audit.createdBy
  {
  }

  function SafeCells(cells: seq<string>): seq<string> {
    seq(|cells|, i requires 0 <= i < |cells| => CsvSafe(cells[i]))
  }

  function CsvRows(fmt: Format, rows: seq<Record>): seq<seq<string>> {
    seq(|rows|, i requires 0 <= i < |rows| => SafeCells(Columns(fmt, rows[i])))
  }

  /** Row i of the file is record i, each cell made safe. */
  lemma CellIs(fmt: Format, rows: seq<Record>, i: nat, j: nat)
    requires i < |rows| && j < 17
    ensures |CsvRows(fmt, rows)| == |rows| && |CsvRows(fmt, rows)[i]| == 17
    ensures var cell, text := CsvRows(fmt, rows)[i][j], Columns(fmt, rows[i])[j];
            cell == if text != "" && text[0] in {'=', '+', '-', '@'} then "'" + text else text
  {
  }

  /** How many records an export may hold at most, or the refusal. */
  function Limit(maxRecords: int): (r: Result<nat, Error>)
    ensures r.Ok? ==> 1 <= r.value <= 10_000
    ensures r == Err(Invalid) <==> maxRecords > 10_000
    ensures r.Ok? ==> r.value == if maxRecords <= 0 then 10_000 else maxRecords
  {
    if maxRecords <= 0 then Ok(10_000) else if maxRecords > 10_000 then Err(Invalid) else Ok(maxRecords)
  }

  ghost function SeenBy(v: View, f: Filter): Seen {
    Seen(|Matches(v.atCount, f)|, Matches(v.atSelect, f))
  }

  /** What the query of each page sees of the matches; `views(k)` is the table at page k. */
  ghost function SeenIn(views: nat -> View, f: Filter): nat -> Seen {
    (k: nat) => SeenBy(views(k), f)
  }

  /** Why the query of page k is refused or fails, if it is: each page asks the verifier and the database again, so
      `os` and `views` give what they answer at each page. */
  ghost function Refusals(os: nat -> Oracle, caller: Option<Caller>, filter: Filter, views: nat -> View): nat -> Option<Error> {
    (k: nat) =>
      match Admit(os(k), caller, filter.(page := 1, pageSize := 100))
      case Err(e) => Some(e)
      case Ok(_) => if views(k).fails then Some(Internal) else None
  }

  /** The records an export has to write, or the refusal: that of the first page it reads that is refused. */
  ghost function ExportAnswer(os: nat -> Oracle, caller: Option<Caller>, filter: Filter, maxRecords: int, views: nat -> View): Result<seq<Record>, Error> {
    match Limit(maxRecords)
    case Err(e) => Err(e)
    case Ok(limit) =>
      var seen := SeenIn(views, Normalize(filter));
      match FirstRefusal(Refusals(os, caller, filter, views), 1, LastRead(seen, limit, 1, 0))
      case Some(e) => Err(e)
      case None => Ok(ExportFrom(seen, limit, 1, 0))
  }

  /** The answer to page `page` when the matches are as seen, or the refusal. */
  function PageAnswer(refusal: Option<Error>, seen: Seen, page: int, size: nat): Result<Page, Error>
    requires page >= 1
  {
    if refusal.Some? then Err(refusal.value) else Ok(Page(PageOf(seen.rows, page, size), seen.total, page, size))
  }

  /** Every page is refused for its own reason, or answered from what is seen of the matches of one filter. */
  ghost predicate Uniform(os: nat -> Oracle, caller: Option<Caller>, filter: Filter, views: nat -> View, refusal: nat -> Option<Error>, seen: nat -> Seen) {
    forall page: nat, size: nat {:trigger QueryAnswer(os(page), caller, filter.(page := page, pageSize := size), views(page))} :: page >= 1 && 1 <= size <= 100 ==>
      QueryAnswer(os(page), caller, filter.(page := page, pageSize := size), views(page)) == PageAnswer(refusal(page), seen(page), page, size)
  }

  lemma AdmittedIsUniform(os: nat -> Oracle, caller: Option<Caller>, filter: Filter, views: nat -> View)
    ensures Uniform(os, caller, filter, views, Refusals(os, caller, filter, views), SeenIn(views, Normalize(filter)))
  {
    forall page: nat, size: nat | page >= 1 && 1 <= size <= 100
      ensures QueryAnswer(os(page), caller, filter.(page := page, pageSize := size), views(page)) ==
              PageAnswer(Refusals(os, caller, filter, views)(page), SeenIn(views, Normalize(filter))(page), page, size)
    {
      PageIsUniform(os(page), caller, filter, views(page), page, size);
    }
  }

  lemma PageIsUniform(o: Oracle, caller: Option<Caller>, filter: Filter, view: View, page: nat, size: nat)
    requires page >= 1 && 1 <= size <= 100
    ensures QueryAnswer(o, caller, filter.(page := page, pageSize := size), view) ==
            match Admit(o, caller, filter.(page := 1, pageSize := 100))
            case Err(e) => Err(e)
            case Ok(_) => PageAnswer(if view.fails then Some(Internal) else None, SeenBy(view, Normalize(filter)), page, size)
  {
    AdmitEveryPage(o, caller, filter, page, size);
    MatchesIgnorePage(view.atSelect, Normalize(filter), page, size);
    MatchesIgnorePage(view.atCount, Normalize(filter), page, size);
  }

  /** One query of the loop. */
  method ReadPage(os: nat -> Oracle, caller: Option<Caller>, filter: Filter, page: nat, size: nat, views: nat -> View,
                  ghost refusal: nat -> Option<Error>, ghost seen: nat -> Seen)
    returns (r: Result<Page, Error>)
    requires page >= 1 && 1 <= size <= 100 && Uniform(os, caller, filter, views, refusal, seen)
    ensures r == PageAnswer(refusal(page), seen(page), page, size)
  {
    r := Query(os(page), caller, filter.(page := page, pageSize := size), views(page));
  }

  /** The inner loop: each record as one CSV row. */
  method WriteRows(fmt: Format, records: seq<Record>, before: seq<seq<string>>) returns (lines: seq<seq<string>>)
    ensures lines == before + CsvRows(fmt, records)
  {
    lines := before;
    for i := 0 to |records|
      invariant lines == before + CsvRows(fmt, records)[..i]
    {
      lines := lines + [SafeCells(Columns(fmt, records[i]))];
    }
  }

  lemma LinesAppend(fmt: Format, a: seq<Record>, b: seq<Record>)
    ensures [HEADER] + CsvRows(fmt, a) + CsvRows(fmt, b) == [HEADER] + CsvRows(fmt, a + b)
  {
    assert CsvRows(fmt, a + b) == CsvRows(fmt, a) + CsvRows(fmt, b);
  }

  /** What has been written and what the rest of the loop comes to are the whole export. */
  ghost predicate Remaining(refusal: nat -> Option<Error>, seen: nat -> Seen, limit: nat, page: nat, exported: nat,
                            written: seq<Record>, whole: Result<seq<Record>, Error>) {
    page >= 1 && whole == match ExportRun(refusal, seen, limit, page, exported) case Err(e) => Err(e) case Ok(rest) => Ok(written + rest)
  }

  lemma OneRound(refusal: nat -> Option<Error>, seen: nat -> Seen, limit: nat, page: nat, exported: nat,
                 written: seq<Record>, rows: seq<Record>, whole: Result<seq<Record>, Error>, done: bool)
    requires exported < limit && Remaining(refusal, seen, limit, page, exported, written, whole) && refusal(page).None?
    requires rows == PageOf(seen(page).rows, page, Size(limit, exported))
    requires done == Stops(seen(page), |rows|, Size(limit, exported), exported)
    ensures if done then whole == Ok(written + rows)
            else |rows| > 0 && Remaining(refusal, seen, limit, page + 1, exported + |rows|, written + rows, whole)
  {
    var rest := ExportRun(refusal, seen, limit, page + 1, exported + |rows|);
    if rest.Ok? { assert written + (rows + rest.value) == written + rows + rest.value; }
  }

  lemma NoRoundYet(refusal: nat -> Option<Error>, seen: nat -> Seen, limit: nat)
    ensures Remaining(refusal, seen, limit, 1, 0, [], ExportRun(refusal, seen, limit, 1, 0))
  {
    var rest := ExportRun(refusal, seen, limit, 1, 0);
    if rest.Ok? { assert [] + rest.value == rest.value; }
  }

  lemma NoRoundLeft(refusal: nat -> Option<Error>, seen: nat -> Seen, limit: nat, page: nat, exported: nat,
                    written: seq<Record>, whole: Result<seq<Record>, Error>)
    requires exported >= limit && Remaining(refusal, seen, limit, page, exported, written, whole)
    ensures whole == Ok(written)
  {
    assert written + [] == written;
  }

  /** One round of the loop: a page is read and written; `done` is the loop's break. */
  method ExportPage(os: nat -> Oracle, caller: Option<Caller>, filter: Filter, limit: nat, page: nat, exported: nat, views: nat -> View, fmt: Format,
                    before: seq<seq<string>>, ghost refusal: nat -> Option<Error>, ghost seen: nat -> Seen,
                    ghost written: seq<Record>, ghost whole: Result<seq<Record>, Error>)
    returns (err: Option<Error>, lines: seq<seq<string>>, read: nat, done: bool, ghost records: seq<Record>)
    requires exported < limit && Uniform(os, caller, filter, views, refusal, seen)
    requires Remaining(refusal, seen, limit, page, exported, written, whole) && before == [HEADER] + CsvRows(fmt, written)
    ensures err.Some? ==> whole == Err(err.value)
    ensures err.None? ==>
              && read == |records| && lines == [HEADER] + CsvRows(fmt, written + records)
              && if done then whole == Ok(written + records)
                 else read > 0 && Remaining(refusal, seen, limit, page + 1, exported + read, written + records, whole)
  {
    var size := Size(limit, exported);
    var result := ReadPage(os, caller, filter, page, size, views, refusal, seen);
    if result.Err? { return Some(result.error), [], 0, true, []; }
    err, records, read := None, result.value.records, |result.value.records|;
    done := read < size || exported + read >= result.value.total;
    OneRound(refusal, seen, limit, page, exported, written, records, whole, done);
    lines := WriteRows(fmt, result.value.records, before);
    LinesAppend(fmt, written, records);
  }

  /** The loop over the pages. */
  method ExportPages(os: nat -> Oracle, caller: Option<Caller>, filter: Filter, limit: nat, views: nat -> View, fmt: Format,
                     ghost refusal: nat -> Option<Error>, ghost seen: nat -> Seen, ghost whole: Result<seq<Record>, Error>)
    returns (err: Option<Error>, lines: seq<seq<string>>, exported: nat)
    requires limit >= 1 && Uniform(os, caller, filter, views, refusal, seen)
    requires whole == ExportRun(refusal, seen, limit, 1, 0)
    ensures match whole
            case Err(e) => err == Some(e)
            case Ok(rows) => err.None? && lines == [HEADER] + CsvRows(fmt, rows) && exported == |rows|
  {
    ghost var written: seq<Record> := [];
    err, lines, exported := None, [HEADER], 0;
    var page: nat := 1;
    NoRoundYet(refusal, seen, limit);
    while exported < limit
      invariant exported == |written| && lines == [HEADER] + CsvRows(fmt, written)
      invariant err.None?
      invariant Remaining(refusal, seen, limit, page, exported, written, whole)
      decreases limit - exported
    {
      var read, done;
      ghost var records;
      err, lines, read, done, records := ExportPage(os, caller, filter, limit, page, exported, views, fmt, lines, refusal, seen, written, whole);
      if err.Some? { return; }
      written, exported := written + records, exported + read;
      if done { return; }
      page := page + 1;
    }
    NoRoundLeft(refusal, seen, limit, page, exported, written, whole);
  }

  method Export(os: nat -> Oracle, caller: Option<Caller>, filter: Filter, maxRecords: int, views: nat -> View, fmt: Format)
    returns (r: Result<(seq<seq<string>>, nat), Error>)
    ensures match ExportAnswer(os, caller, filter, maxRecords, views)
            case Err(e) => r == Err(e)
            case Ok(rows) => r == Ok(([HEADER] + CsvRows(fmt, rows), |rows|))
  {
    var bound := Limit(maxRecords);
    if bound.Err? { return Err(bound.error); }
    ghost var refusal, seen := Refusals(os, caller, filter, views), SeenIn(views, Normalize(filter));
    AdmittedIsUniform(os, caller, filter, views);
    ExportRunIs(refusal, seen, bound.value, 1, 0);
    var err, lines, exported := ExportPages(os, caller, filter, bound.value, views, fmt, refusal, seen, ExportRun(refusal, seen, bound.value, 1, 0));
    if err.Some? { return Err(err.value); }
    return Ok((lines, exported));
  }

  // ---------------------------------------------------------------- what an export holds

  /** Exactly when an export of a table that does not change holds the newest min(limit, N) matches in order,
      without repeats. */
  lemma ExportIsExactIff(os: nat -> Oracle, caller: Option<Caller>, filter: Filter, maxRecords: int, t: seq<Record>, views: nat -> View)
    requires UniqueIds(t) && forall k :: views(k) == View(t, t, false)
    requires ExportAnswer(os, caller, filter, maxRecords, views).Ok?
    ensures var rows := Matches(t, Normalize(filter));
            var limit, out := Limit(maxRecords).value, ExportAnswer(os, caller, filter, maxRecords, views).value;
            && (out == rows[..Min(limit, |rows|)] <==> !CutShort(|rows|, limit))
            && (NoRepeats(out) <==> !CutShort(|rows|, limit))
  {
    var f := Normalize(filter);
    MatchesSorted(t, f);
    ExportIsPrefixIff(SeenIn(views, f), Matches(t, f), Limit(maxRecords).value);
  }

  /** Rows are only ever added to the table. */
  ghost predicate Appending(views: nat -> View) {
    && (forall k :: UniqueIds(views(k).atSelect))
    && (forall k: nat, l: nat :: k <= l ==> Included(views(k).atSelect, views(l).atSelect))
  }

  lemma AppendingGrows(views: nat -> View, f: Filter)
    requires Appending(views)
    ensures Growing(SeenIn(views, f))
  {
    var seen := SeenIn(views, f);
    forall k ensures Sorted(seen(k).rows) {
      MatchesSorted(views(k).atSelect, f);
    }
    forall k: nat, l: nat | k <= l ensures Included(seen(k).rows, seen(l).rows) {
      MatchesGrow(views(k).atSelect, views(l).atSelect, f);
    }
  }

  /** With rows appended at any time, as long as every page read was a whole one of 100 and no row was appended inside
      the query of the last one, a record that matched when the export began is written, unless the export ran into its
      limit and the record ranks behind all it read. */
  lemma ExportSkipsNothing(views: nat -> View, f: Filter, limit: nat, x: Record)
    requires Appending(views) && limit > 0 && 100 * LastRead(SeenIn(views, f), limit, 1, 0) <= limit
    requires var last := LastRead(SeenIn(views, f), limit, 1, 0); views(last).atCount == views(last).atSelect
    requires x in views(1).atSelect && Meets(f, x)
    ensures var out, last := ExportFrom(SeenIn(views, f), limit, 1, 0), LastRead(SeenIn(views, f), limit, 1, 0);
            x in out || (|out| >= limit && RankAtLeast(Matches(views(last).atSelect, f), x, |out|))
  {
    AppendingGrows(views, f);
    NothingSkipped(SeenIn(views, f), limit, x);
  }

  /** Rows are added newer than those that are there; and a count runs before its select. */
  ghost predicate NewestAdded(views: nat -> View) {
    && Appending(views)
    && (forall k: nat, l: nat :: k <= l ==> NewestFirst(views(k).atSelect, views(l).atSelect))
    && (forall k :: UniqueIds(views(k).atCount) && Included(views(k).atCount, views(k).atSelect))
  }

  lemma FewerMatches(a: seq<Record>, b: seq<Record>)
    requires Sorted(a) && Sorted(b) && Included(a, b)
    ensures |a| <= |b|
  {
    if a != [] {
      assert a[|a| - 1] in b;
      var j :| 0 <= j < |b| && b[j] == a[|a| - 1];
      RankGrows(a, b, |a| - 1, j);
    }
  }

  lemma NewestAddedPrepends(views: nat -> View, f: Filter)
    requires NewestAdded(views)
    ensures Prepending(SeenIn(views, f))
  {
    var seen := SeenIn(views, f);
    AppendingGrows(views, f);
    forall k: nat, l: nat | k <= l ensures NewestFirst(seen(k).rows, seen(l).rows) {
      assert forall x :: x in seen(k).rows ==> x in views(k).atSelect && Meets(f, x);
      assert forall x :: x in views(k).atSelect && Meets(f, x) ==> x in seen(k).rows;
    }
    forall k ensures seen(k).total <= |seen(k).rows| {
      MatchesSorted(views(k).atCount, f);
      MatchesSorted(views(k).atSelect, f);
      MatchesGrow(views(k).atCount, views(k).atSelect, f);
      FewerMatches(Matches(views(k).atCount, f), Matches(views(k).atSelect, f));
    }
  }

  /** With events recorded as they occur, an export of whole pages holds every record that matched when it began if and
      only if the select of its last page found no more matches than those pages hold. If it is below its limit and
      misses one, rows were appended between the count and the select of that page. */
  lemma ExportSkipsNothingIff(views: nat -> View, f: Filter, limit: nat)
    requires NewestAdded(views) && limit > 0 && 100 * LastRead(SeenIn(views, f), limit, 1, 0) <= limit
    ensures var out, last := ExportFrom(SeenIn(views, f), limit, 1, 0), LastRead(SeenIn(views, f), limit, 1, 0);
            var found := |Matches(views(last).atSelect, f)|;
            && ((forall x :: x in Matches(views(1).atSelect, f) ==> x in out) <==> found <= 100 * last)
            && (found > 100 * last && |out| < limit ==> |Matches(views(last).atCount, f)| < found)
  {
    NewestAddedPrepends(views, f);
    NothingSkippedIff(SeenIn(views, f), limit);
  }

  /** How many matches were added between the selects of two pages. */
  ghost function Added(views: nat -> View, f: Filter, j: nat, p: nat): int {
    |Matches(views(p).atSelect, f)| - |Matches(views(j).atSelect, f)|
  }

  /** With events recorded as they occur, an export of whole pages writes no record twice if and only if for any two of
      its pages the matches added between them were too few to move a row of the earlier page as far as the later one,
      or so many that they moved all of them past it. */
  lemma ExportRepeatsNothingIff(views: nat -> View, f: Filter, limit: nat)
    requires NewestAdded(views) && limit > 0 && 100 * LastRead(SeenIn(views, f), limit, 1, 0) <= limit
    ensures var out, last := ExportFrom(SeenIn(views, f), limit, 1, 0), LastRead(SeenIn(views, f), limit, 1, 0);
            NoRepeats(out) <==>
            forall j: nat, p: nat :: 1 <= j < p <= last ==>
              !(100 * (p - j - 1) < Added(views, f, j, p) < 100 * (p - j) + |Hundred(Matches(views(p).atSelect, f), p)|)
  {
    NewestAddedPrepends(views, f);
    NoRepeatsIff(SeenIn(views, f), limit);
    forall j: nat, p: nat | 1 <= j < p
      ensures Overlap(SeenIn(views, f), j, p) <==>
              100 * (p - j - 1) < Added(views, f, j, p) < 100 * (p - j) + |Hundred(Matches(views(p).atSelect, f), p)| {}
  }

  // ---------------------------------------------------------------- what concurrent appends can do

  lemma SampleIds(n: nat)
    ensures UniqueIds(Sample(n))
  {
    var rows := Sample(n);
    forall i, j | 0 <= i < j < n ensures rows[i].id != rows[j].id {
      assert rows[i] == Event(n - i) && rows[j] == Event(n - j);
      assert |Event(n - i).id| == n - i && |Event(n - j).id| == n - j;
    }
  }

  lemma SampleMeets(n: nat, f: Filter, x: Record)
    requires forall k :: Meets(f, Event(k))
    ensures x in Sample(n) ==> Meets(f, x)
  {
    if x in Sample(n) {
      var i :| 0 <= i < n && Sample(n)[i] == x;
    }
  }

  lemma SampleMatches(n: nat, f: Filter)
    requires forall k :: Meets(f, Event(k))
    ensures UniqueIds(Sample(n)) && Matches(Sample(n), f) == Sample(n)
  {
    var rows := Sample(n);
    SampleIds(n);
    MatchesSorted(rows, f);
    forall x ensures x in Matches(rows, f) <==> x in rows {
      SampleMeets(n, f, x);
    }
    SortedIsUnique(Matches(rows, f), rows);
  }

  /** The table of `RepeatsHappen`: one record is appended after the first page. */
  ghost predicate OneAppended(views: nat -> View) {
    forall k: nat :: views(k) == if k <= 1 then View(Sample(150), Sample(150), false) else View(Sample(151), Sample(151), false)
  }

  lemma OneAppendedIsNewest(views: nat -> View)
    requires OneAppended(views)
    ensures NewestAdded(views)
  {
    SampleIds(150);
    SampleIds(151);
    SampleGrows();
    forall k: nat, l: nat | k <= l
      ensures Included(views(k).atSelect, views(l).atSelect) && NewestFirst(views(k).atSelect, views(l).atSelect) {
      OneAppendedBetween(views, k, l);
    }
  }

  lemma OneAppendedBetween(views: nat -> View, k: nat, l: nat)
    requires OneAppended(views) && k <= l && Included(Sample(150), Sample(151)) && NewestFirst(Sample(150), Sample(151))
    ensures Included(views(k).atSelect, views(l).atSelect) && NewestFirst(views(k).atSelect, views(l).atSelect)
  {
    assert l <= 1 ==> views(l) == views(k);
    assert k > 1 ==> views(l) == views(k);
  }

  /** The witness of a repeat: one record appended after the first page of an export, as events are, makes it write the
      last record of that page again. */
  lemma RepeatsHappen(views: nat -> View, f: Filter)
    requires OneAppended(views) && forall k :: Meets(f, Event(k))
    ensures NewestAdded(views) && Added(views, f, 1, 2) == 1
    ensures var out := ExportFrom(SeenIn(views, f), 200, 1, 0); |out| > 100 && out[99] == out[100]
  {
    OneAppendedIsNewest(views);
    SampleMatches(150, f);
    SampleMatches(151, f);
    AppendCanRepeat(SeenIn(views, f));
  }

  /** The witness of a skip: with one record appended between the count and the select of the first page, the export
      stops below its limit although a record that matched at both moments was not written. */
  lemma SkipsHappen(views: nat -> View, f: Filter)
    requires forall k :: Meets(f, Event(k))
    requires views(1) == View(Sample(100), Sample(101), false)
    ensures Event(1) in Matches(views(1).atCount, f) && Event(1) in Matches(views(1).atSelect, f)
    ensures var out := ExportFrom(SeenIn(views, f), 200, 1, 0); Event(1) !in out && |out| < 200
  {
    SampleMatches(100, f);
    SampleMatches(101, f);
    AppendInsideQueryCanSkip(SeenIn(views, f));
  }

  // ---------------------------------------------------------------- isolation

  lemma ExportRound(seen: nat -> Seen, limit: nat, page: nat, exported: nat, rows: seq<Record>, stops: bool)
    requires page >= 1 && exported < limit && rows == PageOf(seen(page).rows, page, Size(limit, exported))
    requires stops == Stops(seen(page), |rows|, Size(limit, exported), exported)
    ensures stops || |rows| > 0
    ensures ExportFrom(seen, limit, page, exported) == if stops then rows else rows + ExportFrom(seen, limit, page + 1, exported + |rows|)
  {
  }

  lemma {:induction false} SameSeen(a: nat -> Seen, b: nat -> Seen, limit: nat, page: nat, exported: nat)
    requires page >= 1 && forall k :: a(k) == b(k)
    ensures ExportFrom(a, limit, page, exported) == ExportFrom(b, limit, page, exported)
    decreases limit - exported
  {
    if exported < limit {
      var rows := PageOf(a(page).rows, page, Size(limit, exported));
      var stops := Stops(a(page), |rows|, Size(limit, exported), exported);
      ExportRound(a, limit, page, exported, rows, stops);
      ExportRound(b, limit, page, exported, rows, stops);
      if !stops {
        SameSeen(a, b, limit, page + 1, exported + |rows|);
      }
    }
  }

  lemma {:induction false} SameLastRead(a: nat -> Seen, b: nat -> Seen, limit: nat, page: nat, exported: nat)
    requires page >= 1 && forall k :: a(k) == b(k)
    ensures LastRead(a, limit, page, exported) == LastRead(b, limit, page, exported)
    decreases limit - exported
  {
    if exported < limit {
      var read := |PageOf(a(page).rows, page, Size(limit, exported))|;
      if !Stops(a(page), read, Size(limit, exported), exported) && exported + read < limit {
        SameLastRead(a, b, limit, page + 1, exported + read);
      }
    }
  }

  lemma {:induction false} SameFirstRefusal(a: nat -> Option<Error>, b: nat -> Option<Error>, page: nat, last: nat)
    requires forall k :: a(k) == b(k)
    ensures FirstRefusal(a, page, last) == FirstRefusal(b, page, last)
    decreases last + 1 - page
  {
    if page <= last { SameFirstRefusal(a, b, page + 1, last); }
  }

  lemma SameSeenOfOwnRows(caller: Caller, f: Filter, views: nat -> View, views': nat -> View)
    requires f.tenantId == caller.tenantId && f.applicationId != ""
    requires forall k :: ViewsAgreeOn(views(k), views'(k), caller.tenantId, f.applicationId)
    ensures forall k :: SeenIn(views, f)(k) == SeenIn(views', f)(k)
  {
    forall k ensures SeenIn(views, f)(k) == SeenIn(views', f)(k) {
      assert ViewsAgreeOn(views(k), views'(k), f.tenantId, f.applicationId);
      MatchesOnlyOwnRows(views(k).atSelect, views'(k).atSelect, f);
      MatchesOnlyOwnRows(views(k).atCount, views'(k).atCount, f);
    }
  }

  /** Row isolation of the export: what a user is answered is determined by the rows of the user's own tenant and of the
      application asked for, also while the table grows and grants come and go between the pages. */
  lemma ExportIsolation(os: nat -> Oracle, caller: Caller, filter: Filter, maxRecords: int, views: nat -> View, views': nat -> View)
    requires caller.kind.User?
    requires forall k :: ViewsAgreeOn(views(k), views'(k), caller.tenantId, TrimSpace(filter.applicationId))
    ensures ExportAnswer(os, Some(caller), filter, maxRecords, views) == ExportAnswer(os, Some(caller), filter, maxRecords, views')
  {
    if Limit(maxRecords).Ok? {
      var f, limit := Normalize(filter), Limit(maxRecords).value;
      var refusal, refusal' := Refusals(os, Some(caller), filter, views), Refusals(os, Some(caller), filter, views');
      forall k ensures refusal(k) == refusal'(k) {
        assert ViewsAgreeOn(views(k), views'(k), caller.tenantId, TrimSpace(filter.applicationId));
      }
      var admitted := Admit(os(1), Some(caller), filter.(page := 1, pageSize := 100));
      if admitted.Ok? {
        AdmitEveryPage(os(1), Some(caller), filter, 1, 100);
        SameSeenOfOwnRows(caller, f, views, views');
        SameSeen(SeenIn(views, f), SeenIn(views', f), limit, 1, 0);
        SameLastRead(SeenIn(views, f), SeenIn(views', f), limit, 1, 0);
        SameFirstRefusal(refusal, refusal', 1, LastRead(SeenIn(views, f), limit, 1, 0));
      } else {
        assert refusal(1) == Some(admitted.error) == refusal'(1);
      }
    }
  }
}
