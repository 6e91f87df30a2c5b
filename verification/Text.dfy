/** The string operations the service relies on: strings.TrimSpace, strings.ToLower and SQL's LIKE. */
module Text {

  /** unicode.IsSpace of the Go standard library. */
  predicate IsSpace(c: char) {
    var n := c as int;
    || 9 <= n <= 13 || n == 0x20 || n == 0x85 || n == 0xA0 || n == 0x1680
    || 0x2000 <= n <= 0x200a || n == 0x2028 || n == 0x2029 || n == 0x202f || n == 0x205f || n == 0x3000
  }

  /** The white space of Unicode, in numbers. */
  lemma WhiteSpaceIs(c: char)
    ensures IsSpace(c) <==>
            c as int in {9, 10, 11, 12, 13, 32, 133, 160, 5760, 8192, 8193, 8194, 8195, 8196, 8197, 8198, 8199, 8200, 8201, 8202,
                         8232, 8233, 8239, 8287, 12288}
  {
  }

  predicate AllSpace(s: string) {
    forall i :: 0 <= i < |s| ==> IsSpace(s[i])
  }

  /** No white space at either end. */
  predicate Trimmed(s: string) {
    s != "" ==> !IsSpace(s[0]) && !IsSpace(s[|s| - 1])
  }

  /** strings.TrimSpace. */
  function TrimSpace(s: string): (r: string)
    ensures Trimmed(r)
    decreases |s|
  {
    if s != "" && IsSpace(s[0]) then TrimSpace(s[1..])
    else if s != "" && IsSpace(s[|s| - 1]) then TrimSpace(s[..|s| - 1])
    else s
  }

  /** `r` is what lies between a blank prefix and a blank suffix. */
  predicate IsMiddle(s: string, r: string, i: nat, j: nat) {
    i <= j <= |s| && r == s[i..j] && AllSpace(s[..i]) && AllSpace(s[j..])
  }

  lemma SpaceBefore(s: string, r: string, i: nat, j: nat)
    requires s != "" && IsSpace(s[0]) && IsMiddle(s[1..], r, i, j)
    ensures IsMiddle(s, r, i + 1, j + 1)
  {
    assert s[1..][i..j] == s[i + 1..j + 1];
    assert s[..i + 1] == [s[0]] + s[1..][..i] && s[j + 1..] == s[1..][j..];
  }

  lemma SpaceAfter(s: string, r: string, i: nat, j: nat)
    requires s != "" && IsSpace(s[|s| - 1]) && IsMiddle(s[..|s| - 1], r, i, j)
    ensures IsMiddle(s, r, i, j)
  {
    var t := s[..|s| - 1];
    assert t[i..j] == s[i..j] && t[..i] == s[..i] && s[j..] == t[j..] + [s[|s| - 1]];
  }

  /** The result is what lies between a blank prefix and a blank suffix. */
  lemma {:induction false} TrimIsMiddle(s: string) returns (i: nat, j: nat)
    ensures i <= j <= |s| && TrimSpace(s) == s[i..j] && AllSpace(s[..i]) && AllSpace(s[j..])
    decreases |s|
  {
    if s != "" && IsSpace(s[0]) {
      i, j := TrimIsMiddle(s[1..]);
      SpaceBefore(s, TrimSpace(s), i, j);
      i, j := i + 1, j + 1;
    } else if s != "" && IsSpace(s[|s| - 1]) {
      i, j := TrimIsMiddle(s[..|s| - 1]);
      SpaceAfter(s, TrimSpace(s), i, j);
    } else {
      i, j := 0, |s|;
    }
  }

  /** Only blank text trims to nothing. */
  lemma {:induction false} TrimsToNothing(s: string)
    ensures TrimSpace(s) == "" <==> AllSpace(s)
  {
    var i, j := TrimIsMiddle(s);
    assert s == s[..i] + TrimSpace(s) + s[j..];
    if TrimSpace(s) != "" {
      assert s[i] == TrimSpace(s)[0];
    } else {
      assert forall k :: 0 <= k < |s| ==> s[k] == if k < i then s[..i][k] else s[j..][k - j];
    }
  }

  lemma TrimOfTrimmed(s: string)
    requires Trimmed(s)
    ensures TrimSpace(s) == s
  {
  }

  lemma TrimIdempotent(s: string)
    ensures TrimSpace(TrimSpace(s)) == TrimSpace(s)
  {
    TrimOfTrimmed(TrimSpace(s));
  }

  /** strings.ToLower and SQL LOWER on ASCII letters. */
  function LowerChar(c: char): char {
    if 'A' <= c <= 'Z' then (c as int + 32) as char else c
  }

  function Lower(s: string): (r: string)
    ensures |r| == |s| && forall i :: 0 <= i < |s| ==> r[i] == LowerChar(s[i])
  {
    seq(|s|, i requires 0 <= i < |s| => LowerChar(s[i]))
  }

  const CAPITALS := "ABCDEFGHIJKLMNOPQRSTUVWXYZ"
  const SMALLS := "abcdefghijklmnopqrstuvwxyz"

  /** Capitals become the small letters at the same place, everything else stays. */
  lemma LowerIs(i: nat)
    requires i < 26
    ensures LowerChar(CAPITALS[i]) == SMALLS[i]
  {
  }

  lemma OthersStay(c: char)
    ensures LowerChar(c) == c || c in CAPITALS
  {
    if 'A' <= c <= 'Z' {
      assert CAPITALS[c as int - 65] == c;
    }
  }

  /** len of a Go string: its bytes in UTF-8. */
  function ByteLength(s: string): (n: nat)
    ensures |s| <= n <= 4 * |s|
  {
    if s == "" then 0
    else
      var c := s[0] as int;
      (if c < 0x80 then 1 else if c < 0x800 then 2 else if c < 0x1_0000 then 3 else 4) + ByteLength(s[1..])
  }

  /** One byte up to U+007F, two up to U+07FF, three up to U+FFFF, four beyond. */
  lemma {:induction false} ByteLengthIs(s: string, c: char)
    ensures ByteLength([]) == 0
    ensures ByteLength(s + [c]) == ByteLength(s) + (if c as int <= 127 then 1 else if c as int <= 2047 then 2 else if c as int <= 65535 then 3 else 4)
  {
    if s == "" {
      assert s + [c] == [c] && [c][1..] == "";
    } else {
      ByteLengthIs(s[1..], c);
      assert (s + [c])[1..] == s[1..] + [c];
    }
  }

  predicate Contains(s: string, k: string) {
    exists i :: 0 <= i <= |s| && k <= s[i..]
  }

  /** SQL LIKE with the default escape character. */
  predicate Like(p: string, s: string)
    decreases |p|, |s|
  {
    if p == "" then s == ""
    else if p[0] == '%' then Like(p[1..], s) || (s != "" && Like(p, s[1..]))
    else if p[0] == '\\' && |p| > 1 then s != "" && s[0] == p[1] && Like(p[2..], s[1..])
    else if p[0] == '_' then s != "" && Like(p[1..], s[1..])
    else s != "" && s[0] == p[0] && Like(p[1..], s[1..])
  }

  /** `_` stands for any one character, `%` for any text, and a character after the escape for itself. */
  lemma LikeWildcards(c: char, s: string)
    ensures Like("_", s) <==> |s| == 1
    ensures Like("%", s)
    ensures Like(['\\', c], s) <==> s == [c]
  {
    LikeAnything(s);
    assert ['\\', c][2..] == "";
  }

  predicate IsMeta(c: char) { c == '%' || c == '_' || c == '\\' }

  predicate NoMeta(k: string) {
    forall i :: 0 <= i < |k| ==> !IsMeta(k[i])
  }

  lemma {:induction false} LikeAnything(s: string)
    ensures Like("%", s)
  {
    if s == "" {
      assert Like("%"[1..], s);
    } else {
      LikeAnything(s[1..]);
    }
  }

  /** A leading `%` matches any suffix of the subject. */
  lemma {:induction false} LikeAfterPercent(q: string, s: string)
    ensures Like("%" + q, s) <==> exists i :: 0 <= i <= |s| && Like(q, s[i..])
    decreases |s|
  {
    var p := "%" + q;
    assert p[1..] == q;
    assert s[0..] == s;
    if s != "" {
      LikeAfterPercent(q, s[1..]);
      forall i | 0 <= i <= |s| - 1 ensures s[1..][i..] == s[i + 1..] {}
      if i :| 0 <= i <= |s| && Like(q, s[i..]) {
        if i > 0 { assert s[1..][i - 1..] == s[i..]; }
      }
    }
  }

  lemma {:induction false} LikeLiteralPrefix(k: string, s: string)
    requires NoMeta(k)
    ensures Like(k + "%", s) <==> k <= s
    decreases |k|
  {
    var p := k + "%";
    if k == "" {
      assert p == "%";
      LikeAnything(s);
    } else {
      assert p[0] == k[0] && p[1..] == k[1..] + "%";
      if s != "" && s[0] == k[0] {
        LikeLiteralPrefix(k[1..], s[1..]);
        assert k == [k[0]] + k[1..] && s == [s[0]] + s[1..];
      }
    }
  }

  /** For a keyword without LIKE metacharacters, `%k%` is substring search. */
  lemma LikeIsSubstring(k: string, s: string)
    requires NoMeta(k)
    ensures Like("%" + k + "%", s) <==> Contains(s, k)
  {
    assert "%" + k + "%" == "%" + (k + "%");
    LikeAfterPercent(k + "%", s);
    forall i | 0 <= i <= |s| ensures Like(k + "%", s[i..]) <==> k <= s[i..] {
      LikeLiteralPrefix(k, s[i..]);
    }
  }

  /** A string that `k%` matches: each `%` is dropped, each `_` becomes a letter and each escape loses
      its backslash. */
  function Instance(k: string): (s: string)
    ensures |s| <= |k|
    ensures !NoMeta(k) ==> s != k
    decreases |k|
  {
    if k == "" then ""
    else if k[0] == '%' then Instance(k[1..])
    else if k[0] == '\\' then if |k| == 1 then "%" else [k[1]] + Instance(k[2..])
    else if k[0] == '_' then ['a'] + Instance(k[1..])
    else
      var s := [k[0]] + Instance(k[1..]);
      assert k == [k[0]] + k[1..];
      assert !NoMeta(k) ==> !NoMeta(k[1..]) by {
        if NoMeta(k[1..]) {
          assert forall i :: 0 <= i < |k| ==> !IsMeta(k[i]) by {
            forall i | 0 <= i < |k| ensures !IsMeta(k[i]) {
              if i > 0 { assert k[i] == k[1..][i - 1]; }
            }
          }
        }
      }
      assert s[1..] == Instance(k[1..]);
      s
  }

  lemma {:induction false} InstanceMatches(k: string)
    ensures Like(k + "%", Instance(k))
    decreases |k|
  {
    var p := k + "%";
    if k == "" {
      LikeAnything("");
    } else if k[0] == '\\' {
      if |k| == 1 {
        assert p == "\\%";
        assert Like(p[2..], "%"[1..]);
      } else {
        InstanceMatches(k[2..]);
        assert p[2..] == k[2..] + "%";
        assert Instance(k)[1..] == Instance(k[2..]);
      }
    } else {
      InstanceMatches(k[1..]);
      assert p[1..] == k[1..] + "%";
      if k[0] != '%' {
        assert Instance(k)[1..] == Instance(k[1..]);
      }
    }
  }

  /** Exactly the metacharacter-free keywords are searched for literally: any other keyword has a
      subject on which LIKE and substring search disagree. */
  lemma LikeIsSubstringIff(k: string)
    ensures (forall s: string :: Like("%" + k + "%", s) <==> Contains(s, k)) <==> NoMeta(k)
  {
    if NoMeta(k) {
      forall s: string ensures Like("%" + k + "%", s) <==> Contains(s, k) {
        LikeIsSubstring(k, s);
      }
    } else {
      var s := Instance(k);
      InstanceMatches(k);
      assert s[0..] == s;
      assert "%" + k + "%" == "%" + (k + "%");
      LikeAfterPercent(k + "%", s);
      assert Like("%" + k + "%", s);
      assert !Contains(s, k);
    }
  }
}
