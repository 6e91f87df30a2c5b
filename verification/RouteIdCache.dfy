/** Keys of four texts joined by NUL: the cache of route ids in front of the policy snapshot, and the text whose hash
    is an idempotency fingerprint (internal/routepolicy/manager.go:72-84,
    internal/transport/http/middleware.go:156-168). */
module RouteIdCache {
  import opened Basics

  datatype Parts = Parts(protocol: string, method_: string, path: string, last: string)

  const NUL: char := '\0'

  function Key(p: Parts): string {
    p.protocol + [NUL] + p.method_ + [NUL] + p.path + [NUL] + p.last
  }

  predicate NulFree(s: string) {
    NUL !in s
  }

  /** The last part may hold anything: the body of a request does. */
  predicate Separable(p: Parts) {
    NulFree(p.protocol) && NulFree(p.method_) && NulFree(p.path)
  }

  lemma FirstNul(a: string, x: string, b: string, y: string)
    requires NulFree(a) && NulFree(b) && a + [NUL] + x == b + [NUL] + y
    ensures a == b && x == y
  {
    var s := a + [NUL] + x;
    assert s[|a|] == NUL && s[|b|] == NUL;
    assert forall i :: 0 <= i < |a| ==> s[i] == a[i];
    assert forall i :: 0 <= i < |b| ==> s[i] == b[i];
    assert a == s[..|a|] && b == s[..|b|] && x == s[|a| + 1..] && y == s[|b| + 1..];
  }

  /** The joined text tells the four parts apart as long as the first three hold no NUL. */
  lemma KeySeparates(p: Parts, q: Parts)
    requires Separable(p) && Separable(q) && Key(p) == Key(q)
    ensures p == q
  {
    var p2, q2 := p.path + [NUL] + p.last, q.path + [NUL] + q.last;
    var p1, q1 := p.method_ + [NUL] + p2, q.method_ + [NUL] + q2;
    assert Key(p) == p.protocol + [NUL] + p1 && Key(q) == q.protocol + [NUL] + q1;
    FirstNul(p.protocol, p1, q.protocol, q1);
    FirstNul(p.method_, p2, q.method_, q2);
    FirstNul(p.path, p.last, q.path, q.last);
  }

  lemma CutAtNul(s: string) returns (a: string, b: string)
    requires !NulFree(s)
    ensures s == a + [NUL] + b
  {
    var i :| 0 <= i < |s| && s[i] == NUL;
    a, b := s[..i], s[i + 1..];
  }

  lemma Shift(a: string, b: string, c: string)
    ensures a + [NUL] + b + [NUL] + c == a + [NUL] + (b + [NUL] + c)
  {
  }

  /** And only then: a NUL in any of the first three parts can stand for the join, so that other parts have the same
      key. */
  lemma NulConfuses(p: Parts) returns (q: Parts)
    requires !Separable(p)
    ensures q != p && Key(q) == Key(p)
  {
    if !NulFree(p.protocol) {
      var a, b := CutAtNul(p.protocol);
      q := Parts(a, b + [NUL] + p.method_, p.path, p.last);
      Shift(a, b, p.method_);
      assert |a| < |p.protocol|;
    } else if !NulFree(p.method_) {
      var a, b := CutAtNul(p.method_);
      q := Parts(p.protocol, a, b + [NUL] + p.path, p.last);
      MethodShift(p, a, b);
      assert |a| < |p.method_|;
    } else {
      var a, b := CutAtNul(p.path);
      q := Parts(p.protocol, p.method_, a, b + [NUL] + p.last);
      PathShift(p, a, b);
      assert |a| < |p.path|;
    }
  }

  lemma MethodShift(p: Parts, a: string, b: string)
    requires p.method_ == a + [NUL] + b
    ensures Key(Parts(p.protocol, a, b + [NUL] + p.path, p.last)) == Key(p)
  {
    var h := p.protocol + [NUL];
    assert h + (a + [NUL] + b) + [NUL] + p.path == h + a + [NUL] + (b + [NUL] + p.path);
  }

  lemma PathShift(p: Parts, a: string, b: string)
    requires p.path == a + [NUL] + b
    ensures Key(Parts(p.protocol, p.method_, a, b + [NUL] + p.last)) == Key(p)
  {
    var h := p.protocol + [NUL] + p.method_ + [NUL];
    assert h + (a + [NUL] + b) + [NUL] + p.last == h + a + [NUL] + (b + [NUL] + p.last);
  }

  /** platformpolicy.NewRoute: the stable id of a route, or an error. */
  type NewRoute = Parts -> Result<string, ()>

  /** The first parts asked for with this key for which there is an id. */
  ghost function FirstWith(newRoute: NewRoute, asked: seq<Parts>, key: string): (r: Option<Parts>)
    ensures r.Some? ==> r.value in asked && Key(r.value) == key && newRoute(r.value).Ok?
    ensures r.None? <==> forall q :: q in asked ==> !(Key(q) == key && newRoute(q).Ok?)
  {
    if asked == [] then None
    else
      var before := FirstWith(newRoute, asked[..|asked| - 1], key);
      var q := asked[|asked| - 1];
      assert asked == asked[..|asked| - 1] + [q];
      if before.Some? then before else if Key(q) == key && newRoute(q).Ok? then Some(q) else None
  }

  /** What a cache that has been asked for `asked` answers. */
  ghost function Cached(newRoute: NewRoute, asked: seq<Parts>, p: Parts): Result<string, ()> {
    match FirstWith(newRoute, asked, Key(p)) case Some(q) => newRoute(q) case None => newRoute(p)
  }

  class Cache {
    var ids: map<string, string>
    /** All parts asked for so far. */
    ghost var asked: seq<Parts>

    constructor ()
      ensures ids == map[] && asked == []
    {
      ids, asked := map[], [];
    }

    /** The cache holds, for each key, the id of the first parts that had it. */
    ghost predicate Remembers(newRoute: NewRoute)
      reads this
    {
      forall key :: if FirstWith(newRoute, asked, key).None? then key !in ids
                    else key in ids && newRoute(FirstWith(newRoute, asked, key).value) == Ok(ids[key])
    }

    /** EvaluateRoute's lookup, for any parts whatever. */
    method RouteId(newRoute: NewRoute, p: Parts) returns (id: Result<string, ()>)
      requires Remembers(newRoute)
      modifies this
      ensures asked == old(asked) + [p] && Remembers(newRoute)
      ensures id == Cached(newRoute, old(asked), p)
    {
      var key := Key(p);
      asked := asked + [p];
      assert asked[..|asked| - 1] == old(asked);
      if key in ids {
        return Ok(ids[key]);
      }
      id := newRoute(p);
      if id.Ok? {
        ids := ids[key := id.value];
      }
    }
  }

  /** Different parts have different ids. */
  ghost predicate Stable(newRoute: NewRoute) {
    forall p: Parts, q: Parts :: newRoute(p).Ok? && newRoute(q) == newRoute(p) ==> p == q
  }

  /** With stable ids the cache answers what computing the id anew would if and only if the first parts that had an
      id under this key, if any, are these ones. */
  lemma CachedIsFreshIff(newRoute: NewRoute, asked: seq<Parts>, p: Parts)
    requires Stable(newRoute)
    ensures Cached(newRoute, asked, p) == newRoute(p) <==> FirstWith(newRoute, asked, Key(p)) in {None, Some(p)}
  {
  }

  /** As long as the first three parts never hold a NUL, that is always so. */
  lemma SeparableIsFresh(newRoute: NewRoute, asked: seq<Parts>, p: Parts)
    requires Separable(p) && forall q :: q in asked ==> Separable(q)
    ensures Cached(newRoute, asked, p) == newRoute(p)
  {
    var first := FirstWith(newRoute, asked, Key(p));
    if first.Some? { KeySeparates(first.value, p); }
  }

  /** Parts with a NUL there get the id of other parts, if those were asked for first and both have one. */
  lemma NulGetsOtherId(newRoute: NewRoute, p: Parts) returns (q: Parts)
    requires Stable(newRoute) && !Separable(p)
    ensures q != p && (newRoute(p).Ok? && newRoute(q).Ok? ==> Cached(newRoute, [q], p) == newRoute(q) != newRoute(p))
  {
    q := NulConfuses(p);
    assert [q][..0] == [];
  }
}
