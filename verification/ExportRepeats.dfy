/** Whether an export of a growing table writes a record twice: exactly when, told by how much the table has grown
    between its pages (internal/audit/service.go:246-266). */
module ExportRepeats {
  import opened Basics
  import opened AuditModel
  import opened Paging
  import opened ExportLoop

  // ---------------------------------------------------------------- a list that grows in front

  lemma ShorterIncluded(a: seq<Record>, b: seq<Record>)
    requires Sorted(a) && Sorted(b) && Included(a, b) && a != [] && IsOldest(b, a[|a| - 1])
    ensures Included(a[..|a| - 1], b[..|b| - 1])
  {
    var a', b' := a[..|a| - 1], b[..|b| - 1];
    forall x | x in a' ensures x in b' {
      var i :| 0 <= i < |a| - 1 && a[i] == x;
      SortedDistinctAt(a, i, |a| - 1);
      assert x in a && x in b;
    }
  }

  lemma ShorterNewest(a: seq<Record>, b: seq<Record>)
    requires Sorted(b) && NewestFirst(a, b) && a != [] && IsOldest(b, a[|a| - 1])
    ensures NewestFirst(a[..|a| - 1], b[..|b| - 1])
  {
    var a', b' := a[..|a| - 1], b[..|b| - 1];
    forall x, y | x in b' && x !in a' && y in a' ensures Before(x, y) {
      var i :| 0 <= i < |b| - 1 && b[i] == x;
      SortedDistinctAt(b, i, |b| - 1);
      assert x in b && x !in a && y in a;
    }
  }

  /** What was there is the end of what is there now. */
  lemma {:induction false} GrowsInFront(a: seq<Record>, b: seq<Record>)
    requires Sorted(a) && Sorted(b) && Included(a, b) && NewestFirst(a, b)
    ensures |a| <= |b| && a == b[|b| - |a|..]
  {
    if a != [] {
      OldestStays(a, b, a[|a| - 1]);
      ShorterIncluded(a, b);
      ShorterNewest(a, b);
      var a', b' := a[..|a| - 1], b[..|b| - 1];
      GrowsInFront(a', b');
      assert a == a' + [a[|a| - 1]] && b == b' + [a[|a| - 1]];
      assert b[|b| - |a|..] == b'[|b'| - |a'|..] + [a[|a| - 1]];
    }
  }

  // ---------------------------------------------------------------- two pages

  /** Page p, read later, holds a place of page j again: the rows added between the two have moved it there. */
  predicate Overlap(seen: nat -> Seen, j: nat, p: nat)
    requires 1 <= j < p
  {
    var added := |seen(p).rows| - |seen(j).rows|;
    100 * (p - j - 1) < added < 100 * (p - j) + |Hundred(seen(p).rows, p)|
  }

  /** A row has moved by what was added. */
  lemma SameRecordIff(seen: nat -> Seen, j: nat, p: nat, a: nat, b: nat)
    requires Prepending(seen) && j <= p && a < |seen(j).rows| && b < |seen(p).rows|
    ensures seen(j).rows[a] == seen(p).rows[b] <==> a + |seen(p).rows| - |seen(j).rows| == b
  {
    var was, now := seen(j).rows, seen(p).rows;
    GrowsInFront(was, now);
    var c := a + |now| - |was|;
    assert was[a] == now[|now| - |was|..][a] == now[c];
    if b < c { SortedDistinctAt(now, b, c); }
    if c < b { SortedDistinctAt(now, c, b); }
  }

  /** Places t of page j and u of page p hold one record. */
  predicate Meet(seen: nat -> Seen, j: nat, p: nat, t: nat, u: nat)
    requires 1 <= j < p
  {
    && t < |Hundred(seen(j).rows, j)| && u < |Hundred(seen(p).rows, p)|
    && Hundred(seen(j).rows, j)[t] == Hundred(seen(p).rows, p)[u]
  }

  lemma PlaceOnPage(rows: seq<Record>, page: nat, t: nat)
    requires page >= 1 && t < |Hundred(rows, page)|
    ensures 100 * (page - 1) + t < |rows| && t < 100 && Hundred(rows, page)[t] == rows[100 * (page - 1) + t]
  {
  }

  lemma MeetOverlaps(seen: nat -> Seen, j: nat, p: nat, t: nat, u: nat)
    requires Prepending(seen) && 1 <= j < p && Meet(seen, j, p, t, u)
    ensures Overlap(seen, j, p)
  {
    PlaceOnPage(seen(j).rows, j, t);
    PlaceOnPage(seen(p).rows, p, u);
    SameRecordIff(seen, j, p, 100 * (j - 1) + t, 100 * (p - 1) + u);
  }

  lemma OverlapMeets(seen: nat -> Seen, j: nat, p: nat) returns (t: nat, u: nat)
    requires Prepending(seen) && 1 <= j < p && Overlap(seen, j, p)
    requires |Hundred(seen(j).rows, j)| == 100 && |Hundred(seen(p).rows, p)| > 0
    ensures Meet(seen, j, p, t, u)
  {
    var beyond := |seen(p).rows| - |seen(j).rows| - 100 * (p - j);
    t, u := if beyond >= 0 then 0 else -beyond, if beyond >= 0 then beyond else 0;
    PlaceOnPage(seen(j).rows, j, t);
    PlaceOnPage(seen(p).rows, p, u);
    SameRecordIff(seen, j, p, 100 * (j - 1) + t, 100 * (p - 1) + u);
  }

  // ---------------------------------------------------------------- the whole export

  /** All pages before k are full, and k is not empty. */
  ghost predicate Filled(seen: nat -> Seen, k: nat) {
    && k >= 1 && (forall p :: 1 <= p < k ==> |Hundred(seen(p).rows, p)| == 100)
    && (k > 1 ==> |Hundred(seen(k).rows, k)| > 0)
  }

  lemma TracedIsFilled(seen: nat -> Seen, limit: nat, k: nat)
    requires Prepending(seen) && Traced(seen, limit, 1, k)
    ensures Filled(seen, k)
  {
    forall p | 1 <= p < k ensures |Hundred(seen(p).rows, p)| == 100 {
      assert GoesOn(seen, limit, p);
    }
    if k > 1 {
      assert GoesOn(seen, limit, k - 1);
      GoesOnBeforeEnd(seen, limit, k - 1);
      GrowsInFront(seen(k - 1).rows, seen(k).rows);
    }
  }

  lemma {:induction false} JoinedAt(seen: nat -> Seen, page: nat, k: nat, p: nat, t: nat)
    requires 1 <= page <= p <= k && t < |Hundred(seen(p).rows, p)|
    requires forall q :: page <= q < k ==> |Hundred(seen(q).rows, q)| == 100
    ensures 100 * (p - page) + t < |Joined(seen, page, k)|
    ensures Joined(seen, page, k)[100 * (p - page) + t] == Hundred(seen(p).rows, p)[t]
    decreases k - page
  {
    if page < p { JoinedAt(seen, page + 1, k, p, t); }
  }

  /** The page and the place on it of each record that is written. */
  lemma {:induction false} WrittenOnPage(seen: nat -> Seen, page: nat, k: nat, a: nat) returns (p: nat, t: nat)
    requires 1 <= page <= k && a < |Joined(seen, page, k)|
    requires forall q :: page <= q < k ==> |Hundred(seen(q).rows, q)| == 100
    ensures page <= p <= k && a == 100 * (p - page) + t && t < |Hundred(seen(p).rows, p)|
    ensures Joined(seen, page, k)[a] == Hundred(seen(p).rows, p)[t]
    decreases k - page
  {
    if page == k || a < 100 { p, t := page, a; } else { p, t := WrittenOnPage(seen, page + 1, k, a - 100); }
  }

  lemma RepeatOverlaps(seen: nat -> Seen, k: nat, a: nat, b: nat) returns (j: nat, p: nat)
    requires Prepending(seen) && Filled(seen, k) && a < b < |Joined(seen, 1, k)| && Joined(seen, 1, k)[a] == Joined(seen, 1, k)[b]
    ensures 1 <= j < p <= k && Overlap(seen, j, p)
  {
    var t, u;
    j, t := WrittenOnPage(seen, 1, k, a);
    p, u := WrittenOnPage(seen, 1, k, b);
    PlaceOnPage(seen(j).rows, j, t);
    if j == p {
      PlaceOnPage(seen(j).rows, j, u);
      SortedDistinctAt(seen(j).rows, a, b);
    } else {
      MeetOverlaps(seen, j, p, t, u);
    }
  }

  lemma MeetIsRepeat(seen: nat -> Seen, k: nat, j: nat, p: nat, t: nat, u: nat)
    requires Filled(seen, k) && 1 <= j < p <= k && Meet(seen, j, p, t, u)
    ensures !NoRepeats(Joined(seen, 1, k))
  {
    JoinedAt(seen, 1, k, j, t);
    JoinedAt(seen, 1, k, p, u);
    PlaceOnPage(seen(j).rows, j, t);
    assert 100 * (j - 1) + t < 100 * (p - 1) + u;
  }

  lemma JoinedRepeatsIff(seen: nat -> Seen, k: nat)
    requires Prepending(seen) && Filled(seen, k)
    ensures NoRepeats(Joined(seen, 1, k)) <==> forall j: nat, p: nat :: 1 <= j < p <= k ==> !Overlap(seen, j, p)
  {
    var out := Joined(seen, 1, k);
    if j: nat, p: nat :| 1 <= j < p <= k && Overlap(seen, j, p) {
      var t, u := OverlapMeets(seen, j, p);
      MeetIsRepeat(seen, k, j, p, t, u);
    } else {
      forall a: nat, b: nat | a < b < |out| ensures out[a] != out[b] {
        if out[a] == out[b] {
          var j, p := RepeatOverlaps(seen, k, a, b);
        }
      }
    }
  }

  /** With matches added in front, an export of whole pages writes no record twice if and only if between any two of its
      pages, j and a later p, either at most 100 * (p - j - 1) matches were added, so that the rows of page j have not
      come as far as page p, or so many that they have gone past it. */
  lemma NoRepeatsIff(seen: nat -> Seen, limit: nat)
    requires Prepending(seen) && limit > 0 && 100 * LastRead(seen, limit, 1, 0) <= limit
    ensures NoRepeats(ExportFrom(seen, limit, 1, 0)) <==>
            forall j: nat, p: nat :: 1 <= j < p <= LastRead(seen, limit, 1, 0) ==> !Overlap(seen, j, p)
  {
    var k := LastRead(seen, limit, 1, 0);
    LastReadTraced(seen, limit, 1, 0);
    ExportIsJoined(seen, limit, 1, 0, k);
    TracedIsFilled(seen, limit, k);
    JoinedRepeatsIff(seen, k);
  }
}
