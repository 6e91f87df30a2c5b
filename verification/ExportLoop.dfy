/** The paging of the export loop, apart from what is exported: `seen(k)` is the number of matches the count
    of page k returned and the ordered matches its select was cut from (internal/audit/service.go:246-266). */
module ExportLoop {
  import opened Basics
  import opened AuditModel
  import opened Paging

  datatype Seen = Seen(total: nat, rows: seq<Record>)

  function Size(limit: nat, exported: nat): (n: nat)
    requires exported < limit
    ensures 1 <= n <= 100 && exported + n <= limit
  {
    Min(100, limit - exported)
  }

  /** No page follows one that is not full or that completes the count. */
  predicate Stops(s: Seen, read: nat, size: nat, exported: nat) {
    read < size || exported + read >= s.total
  }

  /** The records written from page `page` on, `exported` having been written before. */
  function ExportFrom(seen: nat -> Seen, limit: nat, page: nat, exported: nat): (out: seq<Record>)
    requires page >= 1
    ensures exported + |out| <= limit || (exported >= limit && out == [])
    decreases limit - exported
  {
    if exported >= limit then []
    else
      var rows := PageOf(seen(page).rows, page, Size(limit, exported));
      if Stops(seen(page), |rows|, Size(limit, exported), exported) then rows
      else rows + ExportFrom(seen, limit, page + 1, exported + |rows|)
  }

  /** The rows at places 100*(page-1) .. 100*page. */
  function Hundred(rows: seq<Record>, page: nat): (res: seq<Record>)
    requires page >= 1
    ensures |res| <= 100
  {
    rows[Min(100 * (page - 1), |rows|)..Min(100 * page, |rows|)]
  }

  /** One round of the loop that reads a whole page. */
  lemma FullRound(seen: nat -> Seen, limit: nat, page: nat)
    requires page >= 1 && 100 * page <= limit
    ensures var done, here := 100 * (page - 1), Hundred(seen(page).rows, page);
            && ExportFrom(seen, limit, page, done) ==
               (if Stops(seen(page), |here|, 100, done) then here else here + ExportFrom(seen, limit, page + 1, done + 100))
            && LastRead(seen, limit, page, done) ==
               (if Stops(seen(page), |here|, 100, done) || done + 100 >= limit then page else LastRead(seen, limit, page + 1, done + 100))
  {
    assert Size(limit, 100 * (page - 1)) == 100;
    assert PageOf(seen(page).rows, page, 100) == Hundred(seen(page).rows, page);
  }

  // ---------------------------------------------------------------- a table that does not change

  /** What an export of at most `limit` records writes, from a list of matches: whole pages of 100, then
      one page of limit mod 100 that is read at offset (limit / 100) * (limit mod 100). */
  function Exported(rows: seq<Record>, limit: nat): seq<Record> {
    var q, r := limit / 100, limit % 100;
    if r == 0 || |rows| <= 100 * q then rows[..Min(limit, |rows|)]
    else rows[..100 * q] + Slice(rows, q * r, r)
  }

  lemma UnrollOne(seen: nat -> Seen, rows: seq<Record>, limit: nat, page: nat)
    requires page >= 1 && seen(page) == Seen(|rows|, rows) && 100 * page <= limit && 100 * page < |rows|
    ensures rows[..100 * (page - 1)] + ExportFrom(seen, limit, page, 100 * (page - 1)) == rows[..100 * page] + ExportFrom(seen, limit, page + 1, 100 * page)
  {
    FullRound(seen, limit, page);
    Glue(rows, 100 * (page - 1), ExportFrom(seen, limit, page + 1, 100 * page));
  }

  /** After n whole pages. */
  lemma {:induction false} Unrolled(seen: nat -> Seen, rows: seq<Record>, limit: nat, n: nat)
    requires forall k :: seen(k) == Seen(|rows|, rows)
    requires 100 * n <= limit && (n > 0 ==> 100 * n < |rows|)
    ensures ExportFrom(seen, limit, 1, 0) == rows[..100 * n] + ExportFrom(seen, limit, n + 1, 100 * n)
  {
    if n > 0 {
      Unrolled(seen, rows, limit, n - 1);
      UnrollOne(seen, rows, limit, n);
    } else {
      assert rows[..0] + ExportFrom(seen, limit, 1, 0) == ExportFrom(seen, limit, 1, 0);
    }
  }

  lemma Glue(rows: seq<Record>, done: nat, tail: seq<Record>)
    requires done + 100 <= |rows|
    ensures rows[..done] + (rows[done..done + 100] + tail) == rows[..done + 100] + tail
  {
  }

  /** An export of a table that does not change writes `Exported`. */
  lemma FixedExport(seen: nat -> Seen, rows: seq<Record>, limit: nat)
    requires forall k :: seen(k) == Seen(|rows|, rows)
    ensures ExportFrom(seen, limit, 1, 0) == Exported(rows, limit)
  {
    var q, r := limit / 100, limit % 100;
    if |rows| > 100 * q || q == 0 {
      Unrolled(seen, rows, limit, q);
      if r != 0 { LastPage(seen, rows, limit, q, r); }
    } else {
      SmallTable(seen, rows, limit, if rows == [] then 1 else (|rows| + 99) / 100);
    }
  }

  lemma SmallTable(seen: nat -> Seen, rows: seq<Record>, limit: nat, page: nat)
    requires forall k :: seen(k) == Seen(|rows|, rows)
    requires page >= 1 && 100 * page <= limit && |rows| <= 100 * page && (page > 1 ==> 100 * (page - 1) < |rows|)
    ensures ExportFrom(seen, limit, 1, 0) == rows[..Min(limit, |rows|)]
  {
    Unrolled(seen, rows, limit, page - 1);
    EndsThere(seen, rows, limit, page);
    RestOf(rows, page);
  }

  lemma EndsThere(seen: nat -> Seen, rows: seq<Record>, limit: nat, page: nat)
    requires page >= 1 && seen(page) == Seen(|rows|, rows) && 100 * page <= limit && |rows| <= 100 * page
    ensures ExportFrom(seen, limit, page, 100 * (page - 1)) == Hundred(rows, page)
  {
    FullRound(seen, limit, page);
  }

  lemma RestOf(rows: seq<Record>, page: nat)
    requires page >= 1 && |rows| <= 100 * page && (page > 1 ==> 100 * (page - 1) < |rows|)
    ensures rows[..100 * (page - 1)] + Hundred(rows, page) == rows
  {
  }

  lemma LastPage(seen: nat -> Seen, rows: seq<Record>, limit: nat, q: nat, r: nat)
    requires seen(q + 1) == Seen(|rows|, rows) && limit == 100 * q + r && 0 < r < 100
    ensures ExportFrom(seen, limit, q + 1, 100 * q) == Slice(rows, q * r, r)
  {
    var here := PageOf(rows, q + 1, r);
    assert Size(limit, 100 * q) == r;
    if !Stops(seen(q + 1), |here|, r, 100 * q) {
      assert ExportFrom(seen, limit, q + 2, 100 * q + |here|) == [];
    }
  }

  ghost predicate NoRepeats(rows: seq<Record>) {
    forall i, j :: 0 <= i < j < |rows| ==> rows[i] != rows[j]
  }

  /** When the last page is read at an offset that falls short. */
  predicate CutShort(n: nat, limit: nat) {
    limit > 100 && limit % 100 != 0 && n > 100 * (limit / 100)
  }

  lemma NotCutShort(rows: seq<Record>, limit: nat)
    requires Sorted(rows) && !CutShort(|rows|, limit)
    ensures Exported(rows, limit) == rows[..Min(limit, |rows|)] && NoRepeats(Exported(rows, limit))
  {
    if limit < 100 {
      assert limit / 100 == 0 && limit % 100 == limit;
      assert Slice(rows, 0 * limit, limit) == rows[..Min(limit, |rows|)];
      assert rows[..0] + Slice(rows, 0, limit) == rows[..Min(limit, |rows|)];
    }
    assert Exported(rows, limit) == rows[..Min(limit, |rows|)];
    PrefixNoRepeats(rows, Min(limit, |rows|));
  }

  lemma PrefixNoRepeats(rows: seq<Record>, n: nat)
    requires Sorted(rows) && n <= |rows|
    ensures NoRepeats(rows[..n])
  {
    forall i, j | 0 <= i < j < n ensures rows[i] != rows[j] {
      SortedDistinctAt(rows, i, j);
    }
  }

  lemma SortedDistinctAt(rows: seq<Record>, i: nat, j: nat)
    requires Sorted(rows) && i < j < |rows|
    ensures rows[i] != rows[j]
  {
    BeforeIsTotalOrder(rows[i], rows[j], rows[j]);
  }

  /** A last page of r = limit mod 100 records after q = limit / 100 whole ones is read at offset q*r, which
      lies among the pages already written: its first record is a repeat. */
  lemma CutShortRepeats(rows: seq<Record>, limit: nat)
    requires Sorted(rows) && CutShort(|rows|, limit)
    ensures var q, r := limit / 100, limit % 100;
            && q * r < 100 * q < |Exported(rows, limit)|
            && Exported(rows, limit)[q * r] == Exported(rows, limit)[100 * q] == rows[q * r]
    ensures Exported(rows, limit) != rows[..Min(limit, |rows|)] && !NoRepeats(Exported(rows, limit))
  {
    var q, r := limit / 100, limit % 100;
    OffsetFallsShort(q, r);
    var out, tail := Exported(rows, limit), Slice(rows, q * r, r);
    assert out == rows[..100 * q] + tail;
    assert |tail| > 0 && tail[0] == rows[q * r];
    SortedDistinctAt(rows, q * r, 100 * q);
  }

  lemma OffsetFallsShort(q: nat, r: nat)
    requires q > 0 && r < 100
    ensures 0 <= q * r < 100 * q
  {
    assert q * 100 - q * r == q * (100 - r);
  }

  /** Exactly when an export of a table that does not change is what it should be, the newest
      min(limit, N) matches in order without repeats: unless the limit is above 100, no multiple of 100,
      and N exceeds the whole pages. */
  lemma ExportIsPrefixIff(seen: nat -> Seen, rows: seq<Record>, limit: nat)
    requires Sorted(rows) && forall k :: seen(k) == Seen(|rows|, rows)
    ensures ExportFrom(seen, limit, 1, 0) == rows[..Min(limit, |rows|)] <==> !CutShort(|rows|, limit)
    ensures NoRepeats(ExportFrom(seen, limit, 1, 0)) <==> !CutShort(|rows|, limit)
  {
    FixedExport(seen, rows, limit);
    if CutShort(|rows|, limit) { CutShortRepeats(rows, limit); } else { NotCutShort(rows, limit); }
  }

  // ---------------------------------------------------------------- a table that grows meanwhile

  ghost predicate Included(a: seq<Record>, b: seq<Record>) {
    forall x :: x in a ==> x in b
  }

  /** Matches are only ever added. */
  ghost predicate Growing(seen: nat -> Seen) {
    && (forall k :: Sorted(seen(k).rows))
    && (forall k: nat, l: nat :: k <= l ==> Included(seen(k).rows, seen(l).rows))
  }

  /** The page after which the export stops. */
  function LastRead(seen: nat -> Seen, limit: nat, page: nat, exported: nat): (k: nat)
    requires page >= 1
    ensures k >= page
    decreases limit - exported
  {
    if exported >= limit then page
    else
      var read := |PageOf(seen(page).rows, page, Size(limit, exported))|;
      if Stops(seen(page), read, Size(limit, exported), exported) || exported + read >= limit then page
      else LastRead(seen, limit, page + 1, exported + read)
  }

  /** `x` is among the rows, at place `n` or later. */
  ghost predicate RankAtLeast(rows: seq<Record>, x: Record, n: nat) {
    exists i :: n <= i < |rows| && rows[i] == x
  }

  lemma RankOnlyGrows(a: seq<Record>, b: seq<Record>, x: Record, n: nat)
    requires Sorted(a) && Sorted(b) && Included(a, b) && RankAtLeast(a, x, n)
    ensures RankAtLeast(b, x, n)
  {
    var i :| n <= i < |a| && a[i] == x;
    assert x in a;
    var j :| 0 <= j < |b| && b[j] == x;
    RankGrows(a, b, i, j);
  }

  lemma RankNext(seen: nat -> Seen, page: nat, x: Record, n: nat)
    requires Growing(seen) && RankAtLeast(seen(page).rows, x, n)
    ensures RankAtLeast(seen(page + 1).rows, x, n)
  {
    RankOnlyGrows(seen(page).rows, seen(page + 1).rows, x, n);
  }

  lemma OnPageOrBehind(rows: seq<Record>, page: nat, x: Record)
    requires page >= 1 && RankAtLeast(rows, x, 100 * (page - 1))
    ensures x in Hundred(rows, page) || (|Hundred(rows, page)| == 100 && RankAtLeast(rows, x, 100 * page) && |rows| > 100 * page)
  {
    var done := 100 * (page - 1);
    var i :| done <= i < |rows| && rows[i] == x;
    if i < done + 100 {
      assert Hundred(rows, page) == rows[done..Min(done + 100, |rows|)];
      assert Hundred(rows, page)[i - done] == x;
    }
  }

  // ---------------------------------------------------------------- an export of whole pages, page by page

  /** The loop goes on after page p, all pages before having been full. */
  predicate GoesOn(seen: nat -> Seen, limit: nat, p: nat)
    requires p >= 1
  {
    !Stops(seen(p), |Hundred(seen(p).rows, p)|, 100, 100 * (p - 1)) && 100 * p < limit
  }

  /** The pages from `page` to k are read whole, and k is the last. */
  ghost predicate Traced(seen: nat -> Seen, limit: nat, page: nat, k: nat)
    requires page >= 1
  {
    page <= k && 100 * k <= limit && (forall p :: page <= p < k ==> GoesOn(seen, limit, p)) && !GoesOn(seen, limit, k)
  }

  lemma {:induction false} LastReadTraced(seen: nat -> Seen, limit: nat, page: nat, done: nat)
    requires page >= 1 && done == 100 * (page - 1) && 100 * LastRead(seen, limit, page, done) <= limit
    ensures Traced(seen, limit, page, LastRead(seen, limit, page, done))
    decreases limit - done
  {
    FullRound(seen, limit, page);
    if GoesOn(seen, limit, page) {
      LastReadTraced(seen, limit, page + 1, done + 100);
    }
  }

  lemma ExportEnds(seen: nat -> Seen, limit: nat, page: nat, done: nat)
    requires page >= 1 && done == 100 * (page - 1) && done + 100 <= limit && !GoesOn(seen, limit, page)
    ensures ExportFrom(seen, limit, page, done) == Hundred(seen(page).rows, page)
  {
    FullRound(seen, limit, page);
    if done + 100 == limit { assert ExportFrom(seen, limit, page + 1, limit) == []; }
  }

  lemma ExportGoesOn(seen: nat -> Seen, limit: nat, page: nat, done: nat)
    requires page >= 1 && done == 100 * (page - 1) && GoesOn(seen, limit, page)
    ensures |Hundred(seen(page).rows, page)| == 100
    ensures ExportFrom(seen, limit, page, done) == Hundred(seen(page).rows, page) + ExportFrom(seen, limit, page + 1, done + 100)
  {
    FullRound(seen, limit, page);
  }

  /** x is on one of the pages as they were when they were read. */
  ghost predicate OnSomePage(seen: nat -> Seen, page: nat, k: nat, x: Record)
    requires page >= 1
  {
    exists p :: page <= p <= k && x in Hundred(seen(p).rows, p)
  }

  lemma OnSomeLaterPage(seen: nat -> Seen, page: nat, k: nat, x: Record)
    requires 1 <= page < k
    ensures OnSomePage(seen, page, k, x) <==> x in Hundred(seen(page).rows, page) || OnSomePage(seen, page + 1, k, x)
  {
    if OnSomePage(seen, page + 1, k, x) {
      var p :| page + 1 <= p <= k && x in Hundred(seen(p).rows, p);
    }
  }

  /** The pages from `page` to k, each as it was when it was read. */
  ghost function Joined(seen: nat -> Seen, page: nat, k: nat): seq<Record>
    requires 1 <= page <= k
    decreases k - page
  {
    if page == k then Hundred(seen(k).rows, k) else Hundred(seen(page).rows, page) + Joined(seen, page + 1, k)
  }

  lemma {:induction false} ExportIsJoined(seen: nat -> Seen, limit: nat, page: nat, done: nat, k: nat)
    requires page >= 1 && done == 100 * (page - 1) && Traced(seen, limit, page, k)
    ensures ExportFrom(seen, limit, page, done) == Joined(seen, page, k)
    decreases k - page
  {
    if page == k {
      ExportEnds(seen, limit, page, done);
    } else {
      assert GoesOn(seen, limit, page);
      ExportGoesOn(seen, limit, page, done);
      ExportIsJoined(seen, limit, page + 1, done + 100, k);
    }
  }

  lemma {:induction false} JoinedHolds(seen: nat -> Seen, page: nat, k: nat, x: Record)
    requires 1 <= page <= k
    ensures x in Joined(seen, page, k) <==> OnSomePage(seen, page, k, x)
    decreases k - page
  {
    if page < k {
      JoinedHolds(seen, page + 1, k, x);
      OnSomeLaterPage(seen, page, k, x);
    }
  }

  lemma {:induction false} JoinedLength(seen: nat -> Seen, page: nat, k: nat)
    requires 1 <= page <= k && forall p :: page <= p < k ==> |Hundred(seen(p).rows, p)| == 100
    ensures |Joined(seen, page, k)| == 100 * (k - page) + |Hundred(seen(k).rows, k)|
    decreases k - page
  {
    if page < k { JoinedLength(seen, page + 1, k); }
  }

  lemma OutTraced(seen: nat -> Seen, limit: nat, k: nat, x: Record)
    requires Traced(seen, limit, 1, k)
    ensures x in ExportFrom(seen, limit, 1, 0) <==> OnSomePage(seen, 1, k, x)
  {
    ExportIsJoined(seen, limit, 1, 0, k);
    JoinedHolds(seen, 1, k, x);
  }

  lemma LengthTraced(seen: nat -> Seen, limit: nat, k: nat)
    requires Traced(seen, limit, 1, k)
    ensures |ExportFrom(seen, limit, 1, 0)| == 100 * (k - 1) + |Hundred(seen(k).rows, k)|
  {
    ExportIsJoined(seen, limit, 1, 0, k);
    forall p | 1 <= p < k ensures |Hundred(seen(p).rows, p)| == 100 {
      assert GoesOn(seen, limit, p);
    }
    JoinedLength(seen, 1, k);
  }

  /** A match that no page has held so far is due on the next or later. */
  lemma {:induction false} StillDue(seen: nat -> Seen, x: Record, p: nat)
    requires Growing(seen) && p >= 1 && x in seen(1).rows
    requires forall q :: 1 <= q < p ==> x !in Hundred(seen(q).rows, q)
    ensures RankAtLeast(seen(p).rows, x, 100 * (p - 1))
  {
    if p > 1 {
      StillDue(seen, x, p - 1);
      OnPageOrBehind(seen(p - 1).rows, p - 1, x);
      RankNext(seen, p - 1, x, 100 * (p - 1));
    }
  }

  /** A match that is on none of the pages ranks behind the last, which was full. */
  lemma MissedIsBehind(seen: nat -> Seen, k: nat, x: Record)
    requires Growing(seen) && k >= 1 && x in seen(1).rows && !OnSomePage(seen, 1, k, x)
    ensures |Hundred(seen(k).rows, k)| == 100 && |seen(k).rows| > 100 * k && RankAtLeast(seen(k).rows, x, 100 * k)
  {
    StillDue(seen, x, k);
    OnPageOrBehind(seen(k).rows, k, x);
  }

  /** The query of this page saw one state of the table. */
  predicate Atomic(s: Seen) {
    s.total == |s.rows|
  }

  /** Rows may be appended between and inside the queries, anywhere in the order. As long as every page read was a whole
      one of 100 and the query of the last one saw one state of the table, no record that matched at the start is
      skipped: it is written, or it now ranks behind everything that was read; and the latter only when the export ran
      into its limit. */
  lemma NothingSkipped(seen: nat -> Seen, limit: nat, x: Record)
    requires Growing(seen) && limit > 0 && 100 * LastRead(seen, limit, 1, 0) <= limit && Atomic(seen(LastRead(seen, limit, 1, 0)))
    requires x in seen(1).rows
    ensures var out, k := ExportFrom(seen, limit, 1, 0), LastRead(seen, limit, 1, 0);
            x in out || (RankAtLeast(seen(k).rows, x, |out|) && |out| >= limit)
  {
    var k := LastRead(seen, limit, 1, 0);
    LastReadTraced(seen, limit, 1, 0);
    OutTraced(seen, limit, k, x);
    LengthTraced(seen, limit, k);
    if !OnSomePage(seen, 1, k, x) {
      MissedIsBehind(seen, k, x);
      FullPageStops(seen(k), limit, k);
    }
  }

  /** After a full page the loop ends because of its limit or its count. */
  lemma FullPageStops(s: Seen, limit: nat, k: nat)
    requires k >= 1 && 100 * k <= limit && |Hundred(s.rows, k)| == 100
    requires Stops(s, |Hundred(s.rows, k)|, 100, 100 * (k - 1)) || 100 * k >= limit
    ensures 100 * k == limit || s.total <= 100 * k
  {
  }

  // ---------------------------------------------------------------- exactly when nothing is skipped

  /** New matches rank before all earlier ones, as events do that are recorded as they occur. */
  ghost predicate NewestFirst(a: seq<Record>, b: seq<Record>) {
    forall x, y :: x in b && x !in a && y in a ==> Before(x, y)
  }

  /** Matches are only added, in front; and a count, which runs before the select, finds no more than it. */
  ghost predicate Prepending(seen: nat -> Seen) {
    && Growing(seen)
    && (forall k: nat, l: nat :: k <= l ==> NewestFirst(seen(k).rows, seen(l).rows))
    && (forall k :: seen(k).total <= |seen(k).rows|)
  }

  ghost predicate IsOldest(rows: seq<Record>, x: Record) {
    rows != [] && rows[|rows| - 1] == x
  }

  lemma OldestStays(a: seq<Record>, b: seq<Record>, x: Record)
    requires Sorted(a) && Sorted(b) && Included(a, b) && NewestFirst(a, b) && IsOldest(a, x)
    ensures IsOldest(b, x)
  {
    assert x in a && x in b;
    var i :| 0 <= i < |b| && b[i] == x;
    var last := b[|b| - 1];
    if i < |b| - 1 {
      assert Before(x, last);
      if last in a {
        var j :| 0 <= j < |a| && a[j] == last;
        if j < |a| - 1 { assert Before(last, x); }
      }
      BeforeIsTotalOrder(x, last, last);
      assert false;
    }
  }

  /** A page that ends before the last row does not hold that row. */
  lemma OldestNotHere(rows: seq<Record>, page: nat, x: Record)
    requires Sorted(rows) && IsOldest(rows, x) && page >= 1 && |rows| > 100 * page
    ensures x !in Hundred(rows, page)
  {
    var lo, hi := 100 * (page - 1), 100 * page;
    assert Hundred(rows, page) == rows[lo..hi];
    forall i | lo <= i < hi ensures rows[i] != x {
      SortedDistinctAt(rows, i, |rows| - 1);
    }
  }

  lemma GoesOnBeforeEnd(seen: nat -> Seen, limit: nat, p: nat)
    requires p >= 1 && GoesOn(seen, limit, p) && seen(p).total <= |seen(p).rows|
    ensures |seen(p).rows| > 100 * p
  {
  }

  /** If the last select found more than the pages hold, the oldest match is on none of them. */
  lemma OldestMissed(seen: nat -> Seen, limit: nat, k: nat, x: Record)
    requires Prepending(seen) && Traced(seen, limit, 1, k) && |seen(k).rows| > 100 * k && IsOldest(seen(1).rows, x)
    ensures !OnSomePage(seen, 1, k, x)
  {
    forall p | 1 <= p <= k ensures x !in Hundred(seen(p).rows, p) {
      if p < k {
        assert GoesOn(seen, limit, p);
        GoesOnBeforeEnd(seen, limit, p);
      }
      OldestStays(seen(1).rows, seen(p).rows, x);
      OldestNotHere(seen(p).rows, p, x);
    }
  }

  lemma FirstIsFull(seen: nat -> Seen, limit: nat, k: nat)
    requires Traced(seen, limit, 1, k) && |seen(k).rows| > 100 * k && seen(1).total <= |seen(1).rows|
    ensures seen(1).rows != []
  {
    if k > 1 {
      assert GoesOn(seen, limit, 1);
      GoesOnBeforeEnd(seen, limit, 1);
    }
  }

  /** With matches added in front, an export of whole pages writes every record that matched at the start if and only if
      the select of the last page read found no more than those pages hold. (Otherwise the oldest match is missing,
      and if the export is also below its limit, the reason is an append between the count and the select of that
      page.) */
  lemma NothingSkippedIff(seen: nat -> Seen, limit: nat)
    requires Prepending(seen) && limit > 0 && 100 * LastRead(seen, limit, 1, 0) <= limit
    ensures var out, k := ExportFrom(seen, limit, 1, 0), LastRead(seen, limit, 1, 0);
            && ((forall x :: x in seen(1).rows ==> x in out) <==> |seen(k).rows| <= 100 * k)
            && (|seen(k).rows| > 100 * k && |out| < limit ==> seen(k).total < |seen(k).rows|)
  {
    var k, out := LastRead(seen, limit, 1, 0), ExportFrom(seen, limit, 1, 0);
    LastReadTraced(seen, limit, 1, 0);
    forall x ensures x in out <==> OnSomePage(seen, 1, k, x) {
      OutTraced(seen, limit, k, x);
    }
    if |seen(k).rows| <= 100 * k {
      forall x | x in seen(1).rows ensures x in out {
        if !OnSomePage(seen, 1, k, x) { MissedIsBehind(seen, k, x); }
      }
    } else {
      FirstIsFull(seen, limit, k);
      var x := seen(1).rows[|seen(1).rows| - 1];
      assert IsOldest(seen(1).rows, x) && x in seen(1).rows;
      OldestMissed(seen, limit, k, x);
      if |out| < limit { BelowLimitStopped(seen, limit, k); }
    }
  }

  /** An export below its limit whose last select found more than fits ended because of the count before it. */
  lemma BelowLimitStopped(seen: nat -> Seen, limit: nat, k: nat)
    requires Traced(seen, limit, 1, k) && |seen(k).rows| > 100 * k && |ExportFrom(seen, limit, 1, 0)| < limit
    ensures seen(k).total <= 100 * k
  {
    LengthTraced(seen, limit, k);
    FullPageStops(seen(k), limit, k);
  }

  lemma {:induction false} WholeLimitFrom(seen: nat -> Seen, pages: nat, page: nat)
    requires 1 <= page <= pages
    ensures LastRead(seen, 100 * pages, page, 100 * (page - 1)) <= pages
    decreases pages - page
  {
    FullRound(seen, 100 * pages, page);
    if page < pages {
      WholeLimitFrom(seen, pages, page + 1);
    }
  }

  /** Under a limit that is a multiple of 100 every page is a whole one. */
  lemma WholeLimit(seen: nat -> Seen, limit: nat)
    requires limit > 0 && limit % 100 == 0
    ensures 100 * LastRead(seen, limit, 1, 0) <= limit
  {
    WholeLimitFrom(seen, limit / 100, 1);
  }

  // ---------------------------------------------------------------- what concurrent appends can do

  /** The event at time `k`; its id is a text of length `k`. */
  function Event(k: nat): Record {
    Record(seq(k, _ => 'a'), "t", "a", "u", "user", "act", "kind", "x", "", "", "svc", "", "", k, Audit(1, k, "u", k, "u", None, None))
  }

  /** The events at times n, n - 1, ..., 1. */
  function Sample(n: nat): (rows: seq<Record>)
    ensures |rows| == n && Sorted(rows)
  {
    seq(n, i requires 0 <= i < n => Event(n - i))
  }

  lemma SampleTail(i: nat)
    requires 0 < i < 151
    ensures Sample(151)[i] in Sample(150)
  {
    assert Sample(150)[i - 1] == Sample(151)[i];
  }

  lemma SampleGrows()
    ensures Included(Sample(150), Sample(151)) && NewestFirst(Sample(150), Sample(151))
  {
    forall x | x in Sample(150) ensures x in Sample(151) {
      var i :| 0 <= i < 150 && Sample(150)[i] == x;
      assert Sample(151)[i + 1] == x;
    }
    forall x, y | x in Sample(151) && x !in Sample(150) && y in Sample(150) ensures Before(x, y) {
      var i :| 0 <= i < 151 && Sample(151)[i] == x;
      var j :| 0 <= j < 150 && Sample(150)[j] == y;
      forall k | 0 < k < 151 ensures Sample(151)[k] in Sample(150) { SampleTail(k); }
      assert x == Event(151) && y == Event(150 - j);
    }
  }

  /** Repeats are possible: if one record is appended after the first page of an export, the last record of
      that page is written again as the first of the next. */
  lemma AppendCanRepeat(seen: nat -> Seen)
    requires forall k: nat :: seen(k) == if k <= 1 then Seen(150, Sample(150)) else Seen(151, Sample(151))
    ensures |ExportFrom(seen, 200, 1, 0)| > 100 && ExportFrom(seen, 200, 1, 0)[99] == ExportFrom(seen, 200, 1, 0)[100]
  {
    var first, second := PageOf(Sample(150), 1, 100), PageOf(Sample(151), 2, 100);
    assert seen(1).rows == Sample(150) && seen(2).rows == Sample(151);
    assert ExportFrom(seen, 200, 2, 100) == second;
    assert ExportFrom(seen, 200, 1, 0) == first + second;
    assert first[99] == Sample(150)[99] == Event(51) == Sample(151)[100] == second[0];
  }

  /** The witness: a record is appended between the count and the select of the first page. The export stops below its
      limit, and a record that matched at both moments is not written. */
  lemma AppendInsideQueryCanSkip(seen: nat -> Seen)
    requires seen(1) == Seen(100, Sample(101))
    ensures Event(1) in Sample(100) && Event(1) in seen(1).rows
    ensures Event(1) !in ExportFrom(seen, 200, 1, 0) && |ExportFrom(seen, 200, 1, 0)| < 200
  {
    assert Sample(100)[99] == Event(1) && Sample(101)[100] == Event(1);
    var out := PageOf(Sample(101), 1, 100);
    assert ExportFrom(seen, 200, 1, 0) == out;
    forall i | 0 <= i < |out| ensures out[i] != Event(1) {
      assert out[i].occurredAt == 101 - i;
    }
  }

  // ---------------------------------------------------------------- pages that are refused

  /** The records written from page `page` on, or the error of the first page whose query is refused or fails. */
  function ExportRun(refusal: nat -> Option<Error>, seen: nat -> Seen, limit: nat, page: nat, exported: nat): Result<seq<Record>, Error>
    requires page >= 1
    decreases limit - exported
  {
    if exported >= limit then Ok([])
    else if refusal(page).Some? then Err(refusal(page).value)
    else
      var rows := PageOf(seen(page).rows, page, Size(limit, exported));
      if Stops(seen(page), |rows|, Size(limit, exported), exported) then Ok(rows)
      else match ExportRun(refusal, seen, limit, page + 1, exported + |rows|)
        case Err(e) => Err(e)
        case Ok(rest) => Ok(rows + rest)
  }

  /** The first refusal of the pages `page` .. `last`. */
  function FirstRefusal(refusal: nat -> Option<Error>, page: nat, last: nat): Option<Error>
    decreases last + 1 - page
  {
    if page > last then None else if refusal(page).Some? then refusal(page) else FirstRefusal(refusal, page + 1, last)
  }

  /** The loop fails with the first refusal of the pages it would read without any, and otherwise writes what it
      would. */
  lemma {:induction false} ExportRunIs(refusal: nat -> Option<Error>, seen: nat -> Seen, limit: nat, page: nat, exported: nat)
    requires page >= 1 && exported < limit
    ensures ExportRun(refusal, seen, limit, page, exported) ==
            match FirstRefusal(refusal, page, LastRead(seen, limit, page, exported))
            case Some(e) => Err(e)
            case None => Ok(ExportFrom(seen, limit, page, exported))
    decreases limit - exported
  {
    var rows := PageOf(seen(page).rows, page, Size(limit, exported));
    if refusal(page).None? && !Stops(seen(page), |rows|, Size(limit, exported), exported) && exported + |rows| < limit {
      ExportRunIs(refusal, seen, limit, page + 1, exported + |rows|);
    }
  }
}
