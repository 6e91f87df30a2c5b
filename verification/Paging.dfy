/** The total order of the query results and LIMIT/OFFSET paging over it
    (`ORDER BY occurred_at DESC, id DESC LIMIT ? OFFSET ?`, internal/audit/repository.go:68-71). */
module Paging {
  import opened Basics
  import opened AuditModel
  import opened QueryFilter

  // ---------------------------------------------------------------- the order

  /** Byte order of canonical ids. */
  predicate IdLess(a: string, b: string)
    decreases |a|
  {
    b != "" && (a == "" || a[0] < b[0] || (a[0] == b[0] && IdLess(a[1..], b[1..])))
  }

  lemma {:induction false} IdTotal(a: string, b: string)
    ensures a == b || IdLess(a, b) || IdLess(b, a)
    ensures !(IdLess(a, b) && IdLess(b, a)) && !IdLess(a, a)
    decreases |a|
  {
    if a != "" && b != "" && a[0] == b[0] {
      IdTotal(a[1..], b[1..]);
      assert a == [a[0]] + a[1..] && b == [b[0]] + b[1..];
    }
    if a != "" {
      IdTotal(a[1..], a[1..]);
    }
  }

  lemma {:induction false} IdTransitive(a: string, b: string, c: string)
    requires IdLess(a, b) && IdLess(b, c)
    ensures IdLess(a, c)
    decreases |a|
  {
    if a != "" && a[0] == b[0] && b[0] == c[0] {
      IdTransitive(a[1..], b[1..], c[1..]);
    }
  }

  /** `a` is listed before `b`: it happened later, or at the same time with the greater id. */
  predicate Before(a: Record, b: Record) {
    a.occurredAt > b.occurredAt || (a.occurredAt == b.occurredAt && IdLess(b.id, a.id))
  }

  /** A strict total order on records with distinct ids. */
  lemma BeforeIsTotalOrder(a: Record, b: Record, c: Record)
    ensures a.id != b.id ==> Before(a, b) || Before(b, a)
    ensures !(Before(a, b) && Before(b, a)) && !Before(a, a)
    ensures Before(a, b) && Before(b, c) ==> Before(a, c)
  {
    IdTotal(a.id, b.id);
    IdTotal(a.id, a.id);
    if IdLess(b.id, a.id) && IdLess(c.id, b.id) { IdTransitive(c.id, b.id, a.id); }
  }

  ghost predicate Sorted(rows: seq<Record>) {
    forall i, j :: 0 <= i < j < |rows| ==> Before(rows[i], rows[j])
  }

  /** The texts agree up to a place where the first ends or has the smaller character. */
  predicate LessAt(a: string, b: string, k: nat) {
    k <= |a| && k < |b| && (forall i :: 0 <= i < k ==> a[i] == b[i]) && (k == |a| || a[k] < b[k])
  }

  lemma {:induction false} IdLessHasPlace(a: string, b: string) returns (k: nat)
    requires IdLess(a, b)
    ensures LessAt(a, b, k)
    decreases |a|
  {
    if a == "" || a[0] < b[0] {
      k := 0;
    } else {
      k := IdLessHasPlace(a[1..], b[1..]);
      k := k + 1;
    }
  }

  /** In a sorted list the row that comes first happened later, or at the same time and its id is the greater. */
  lemma SortedMeans(rows: seq<Record>, i: nat, j: nat)
    requires Sorted(rows) && i < j < |rows|
    ensures || rows[i].occurredAt > rows[j].occurredAt
            || (rows[i].occurredAt == rows[j].occurredAt && exists k: nat :: LessAt(rows[j].id, rows[i].id, k))
  {
    if rows[i].occurredAt <= rows[j].occurredAt {
      var k := IdLessHasPlace(rows[j].id, rows[i].id);
    }
  }

  ghost predicate UniqueIds(rows: seq<Record>) {
    forall i, j :: 0 <= i < j < |rows| ==> rows[i].id != rows[j].id
  }

  // ---------------------------------------------------------------- sorting and selecting

  function InsertRow(r: Record, rows: seq<Record>): (res: seq<Record>)
    ensures forall x :: x in res <==> x == r || x in rows
    ensures |res| == |rows| + 1
  {
    if rows == [] || Before(r, rows[0]) then [r] + rows
    else [rows[0]] + InsertRow(r, rows[1..])
  }

  function OrderBy(rows: seq<Record>): (res: seq<Record>)
    ensures forall x :: x in res <==> x in rows
    ensures |res| == |rows|
  {
    if rows == [] then [] else InsertRow(rows[0], OrderBy(rows[1..]))
  }

  lemma {:induction false} InsertKeepsSorted(r: Record, rows: seq<Record>)
    requires Sorted(rows) && forall x :: x in rows ==> x.id != r.id
    ensures Sorted(InsertRow(r, rows))
  {
    if rows != [] {
      BeforeIsTotalOrder(r, rows[0], rows[0]);
      if Before(r, rows[0]) {
        forall j | 1 <= j < |rows| ensures Before(r, rows[j]) { BeforeIsTotalOrder(r, rows[0], rows[j]); }
      } else {
        var rest := InsertRow(r, rows[1..]);
        InsertKeepsSorted(r, rows[1..]);
        forall j | 0 <= j < |rest| ensures Before(rows[0], rest[j]) {
          assert rest[j] in rest;
          if rest[j] != r { var k :| 0 <= k < |rows[1..]| && rows[1..][k] == rest[j]; }
        }
      }
    }
  }

  lemma {:induction false} OrderBySorts(rows: seq<Record>)
    requires UniqueIds(rows)
    ensures Sorted(OrderBy(rows))
  {
    if rows != [] {
      OrderBySorts(rows[1..]);
      forall x | x in OrderBy(rows[1..]) ensures x.id != rows[0].id {
        var k :| 0 <= k < |rows[1..]| && rows[1..][k] == x;
        assert rows[k + 1] == x;
      }
      InsertKeepsSorted(rows[0], OrderBy(rows[1..]));
    }
  }

  lemma SortedDistinct(rows: seq<Record>, i: nat, j: nat)
    requires Sorted(rows) && i < |rows| && j < |rows| && rows[i] == rows[j]
    ensures i == j
  {
    BeforeIsTotalOrder(rows[i], rows[j], rows[j]);
  }

  lemma HasHead(rows: seq<Record>)
    ensures rows != [] ==> exists x :: x in rows
  {
    if rows != [] { assert rows[0] in rows; }
  }

  /** A sorted listing of some rows is the only one. */
  lemma {:induction false} SortedIsUnique(a: seq<Record>, b: seq<Record>)
    requires Sorted(a) && Sorted(b) && forall x :: x in a <==> x in b
    ensures a == b
    decreases |a|
  {
    if a == [] {
      HasHead(b);
    } else {
      assert a[0] in b;
      assert b[0] in a;
      var j :| 0 <= j < |b| && b[j] == a[0];
      var i :| 0 <= i < |a| && a[i] == b[0];
      BeforeIsTotalOrder(a[0], b[0], b[0]);
      assert a[0] == b[0];
      forall x ensures x in a[1..] <==> x in b[1..] {
        if x in a[1..] {
          var k :| 0 <= k < |a[1..]| && a[1..][k] == x;
          assert a[k + 1] == x && x in b;
          var l :| 0 <= l < |b| && b[l] == x;
          BeforeIsTotalOrder(a[0], x, x);
          assert b[1..][l - 1] == x;
        }
        if x in b[1..] {
          var k :| 0 <= k < |b[1..]| && b[1..][k] == x;
          assert b[k + 1] == x && x in a;
          var l :| 0 <= l < |a| && a[l] == x;
          BeforeIsTotalOrder(b[0], x, x);
          assert a[1..][l - 1] == x;
        }
      }
      SortedIsUnique(a[1..], b[1..]);
    }
  }

  /** The rows of a table that the bound clause list selects. */
  function Where(table: seq<Record>, parts: seq<Clause>, args: seq<Arg>): (res: seq<Record>)
    requires |args| == AllMarks(parts)
    ensures forall x :: x in res <==> x in table && Selects(parts, args, x)
  {
    if table == [] then []
    else (if Selects(parts, args, table[0]) then [table[0]] else []) + Where(table[1..], parts, args)
  }

  /** The rows of a table that meet the filter. */
  ghost function Meeting(table: seq<Record>, f: Filter): (res: seq<Record>)
    ensures forall x :: x in res <==> x in table && Meets(f, x)
  {
    if table == [] then []
    else (if Meets(f, table[0]) then [table[0]] else []) + Meeting(table[1..], f)
  }

  lemma {:induction false} WhereIsMeeting(table: seq<Record>, parts: seq<Clause>, args: seq<Arg>, f: Filter)
    requires |args| == AllMarks(parts) && forall r :: Selects(parts, args, r) <==> Meets(f, r)
    ensures Where(table, parts, args) == Meeting(table, f)
  {
    if table != [] { WhereIsMeeting(table[1..], parts, args, f); }
  }

  lemma {:induction false} MeetingUnique(table: seq<Record>, f: Filter)
    requires UniqueIds(table)
    ensures UniqueIds(Meeting(table, f))
  {
    if table != [] {
      MeetingUnique(table[1..], f);
      forall x | x in Meeting(table[1..], f) ensures x.id != table[0].id {
        var k :| 0 <= k < |table[1..]| && table[1..][k] == x;
        assert table[k + 1] == x;
      }
    }
  }

  /** All results of a filter, in order. */
  ghost function Matches(table: seq<Record>, f: Filter): (res: seq<Record>)
    ensures forall x :: x in res <==> x in table && Meets(f, x)
    ensures |res| == |Meeting(table, f)|
  {
    OrderBy(Meeting(table, f))
  }

  lemma MatchesSorted(table: seq<Record>, f: Filter)
    requires UniqueIds(table)
    ensures Sorted(Matches(table, f))
  {
    MeetingUnique(table, f);
    OrderBySorts(Meeting(table, f));
  }

  // ---------------------------------------------------------------- pages

  function Min(a: int, b: int): int { if a <= b then a else b }

  /** LIMIT n OFFSET off. */
  function Slice(rows: seq<Record>, off: nat, n: nat): (res: seq<Record>)
    ensures |res| <= n && forall x :: x in res ==> x in rows
  {
    rows[Min(off, |rows|)..Min(off + n, |rows|)]
  }

  function PageOf(rows: seq<Record>, page: int, size: nat): seq<Record>
    requires page >= 1
  {
    Slice(rows, (page - 1) * size, size)
  }

  /** The first `k` pages, one after the other. */
  function Pages(rows: seq<Record>, size: nat, k: nat): seq<Record> {
    if k == 0 then [] else Pages(rows, size, k - 1) + PageOf(rows, k, size)
  }

  /** Pages of one size never overlap and never leave a gap: the first k of them are the first k*size
      results, in order. */
  lemma {:induction false} PagesArePrefix(rows: seq<Record>, size: nat, k: nat)
    ensures Pages(rows, size, k) == rows[..Min(k * size, |rows|)]
  {
    if k > 0 {
      PagesArePrefix(rows, size, k - 1);
      assert k * size == (k - 1) * size + size;
    }
  }

  /** Fixed-size pages partition the result of a query on a fixed table: put together they are all
      matches, as many as `Total`, newest first, and each match is on exactly one page. */
  lemma PagesPartition(table: seq<Record>, f: Filter, size: nat, k: nat)
    requires UniqueIds(table) && size > 0 && k * size >= |Matches(table, f)|
    ensures var rows := Matches(table, f);
            && Pages(rows, size, k) == rows && Sorted(rows)
            && (forall x :: x in table && Meets(f, x) <==> x in Pages(rows, size, k))
            && (forall p, q, x :: 1 <= p && 1 <= q && x in PageOf(rows, p, size) && x in PageOf(rows, q, size) ==> p == q)
  {
    var rows := Matches(table, f);
    PagesArePrefix(rows, size, k);
    MatchesSorted(table, f);
    forall p, q, x | 1 <= p && 1 <= q && x in PageOf(rows, p, size) && x in PageOf(rows, q, size) ensures p == q {
      PageHoldsIndex(rows, p, q, size, x);
    }
  }

  lemma PageHoldsIndex(rows: seq<Record>, p: nat, q: nat, size: nat, x: Record)
    requires Sorted(rows) && size > 0 && p >= 1 && q >= 1
    requires x in PageOf(rows, p, size) && x in PageOf(rows, q, size)
    ensures p == q
  {
    var i := IndexOnPage(rows, p, size, x);
    var j := IndexOnPage(rows, q, size, x);
    SortedDistinct(rows, i, j);
    SamePage(i, p, q, size);
  }

  lemma SamePage(i: nat, p: nat, q: nat, size: nat)
    requires p >= 1 && q >= 1
    requires (p - 1) * size <= i < p * size && (q - 1) * size <= i < q * size
    ensures p == q
  {
    if p < q { MulMono(p, q - 1, size); } else if q < p { MulMono(q, p - 1, size); }
  }

  lemma MulMono(a: nat, b: nat, size: nat)
    requires a <= b
    ensures a * size <= b * size
  {
    assert b * size == a * size + (b - a) * size;
  }

  lemma IndexOnPage(rows: seq<Record>, p: nat, size: nat, x: Record) returns (i: nat)
    requires p >= 1 && x in PageOf(rows, p, size)
    ensures i < |rows| && rows[i] == x && (p - 1) * size <= i < p * size
  {
    var page := PageOf(rows, p, size);
    var k :| 0 <= k < |page| && page[k] == x;
    assert p * size == (p - 1) * size + size;
    i := (p - 1) * size + k;
  }

  // ---------------------------------------------------------------- growing tables

  /** When rows are added anywhere, no earlier result moves up. */
  lemma {:induction false} RankGrows(a: seq<Record>, b: seq<Record>, i: nat, j: nat)
    requires Sorted(a) && Sorted(b) && (forall x :: x in a ==> x in b)
    requires i < |a| && j < |b| && a[i] == b[j]
    ensures i <= j
    decreases i
  {
    if i > 0 {
      assert a[i - 1] in b;
      var k :| 0 <= k < |b| && b[k] == a[i - 1];
      RankGrows(a, b, i - 1, k);
      BeforeIsTotalOrder(b[j], b[k], b[k]);
    }
  }

  lemma MatchesGrow(t: seq<Record>, t': seq<Record>, f: Filter)
    requires forall x :: x in t ==> x in t'
    ensures forall x :: x in Matches(t, f) ==> x in Matches(t', f)
  {
  }
}
