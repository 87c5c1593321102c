/**
 The string operations the log scanner relies on, written the way Python's
 `str` methods behave: `lower`, `strip`, `startswith`, `in`, `split` and `join`.
 */
module Text {

  /** Python's `str.isspace` for a single character: the ASCII controls TAB..CR and
      FS..US, the space, NEL, NBSP and the Unicode space separators and line/paragraph
      separators. */
  predicate IsSpace(c: char) {
    || c == ' '
    || ('\t' <= c <= '\r')
    || ('\U{1c}' <= c <= '\U{1f}')
    || c == '\U{85}'
    || c == '\U{a0}'
    || c == '\U{1680}'
    || ('\U{2000}' <= c <= '\U{200a}')
    || c == '\U{2028}'
    || c == '\U{2029}'
    || c == '\U{202f}'
    || c == '\U{205f}'
    || c == '\U{3000}'
  }

  ghost predicate AllSpace(s: string) {
    forall i :: 0 <= i < |s| ==> IsSpace(s[i])
  }

  /** ASCII lower-casing of one character. */
  function LowerChar(c: char): char {
    if 'A' <= c <= 'Z' then (c as int + 32) as char else c
  }

  /** `s.lower()`, restricted to the ASCII letters. */
  function Lower(s: string): (r: string)
    ensures |r| == |s|
    ensures forall i :: 0 <= i < |s| ==> r[i] == LowerChar(s[i])
  {
    seq(|s|, i requires 0 <= i < |s| => LowerChar(s[i]))
  }

  /** `r` sits in `s` at offset `i` with only whitespace around it. */
  ghost predicate StripAt(s: string, r: string, i: int) {
    && 0 <= i <= |s| - |r|
    && s[i..i + |r|] == r
    && AllSpace(s[..i])
    && AllSpace(s[i + |r|..])
  }

  /** `r` is what `s.strip()` must return: `s` without its whitespace margins, so that
      `r` neither starts nor ends with whitespace. */
  ghost predicate IsStripOf(s: string, r: string) {
    && (|r| > 0 ==> !IsSpace(r[0]) && !IsSpace(r[|r| - 1]))
    && exists i :: StripAt(s, r, i)
  }

  /** `s.lstrip()`. */
  function TrimLeft(s: string): string {
    if |s| > 0 && IsSpace(s[0]) then TrimLeft(s[1..]) else s
  }

  /** `s.rstrip()`. */
  function TrimRight(s: string): string {
    if |s| > 0 && IsSpace(s[|s| - 1]) then TrimRight(s[..|s| - 1]) else s
  }

  /** `s.strip()` with no argument. */
  function Strip(s: string): string {
    TrimRight(TrimLeft(s))
  }

  /** `lstrip` drops exactly the leading whitespace. */
  lemma {:induction false} TrimLeftSpec(s: string) returns (i: nat)
    ensures i <= |s| && TrimLeft(s) == s[i..]
    ensures AllSpace(s[..i])
    ensures i < |s| ==> !IsSpace(s[i])
    decreases |s|
  {
    if |s| > 0 && IsSpace(s[0]) {
      var k := TrimLeftSpec(s[1..]);
      i := k + 1;
      assert s[1..][k..] == s[i..];
      assert forall m :: 1 <= m < i ==> s[..i][m] == s[1..][..k][m - 1];
    } else {
      i := 0;
    }
  }

  /** `rstrip` drops exactly the trailing whitespace. */
  lemma {:induction false} TrimRightSpec(s: string) returns (j: nat)
    ensures j <= |s| && TrimRight(s) == s[..j]
    ensures AllSpace(s[j..])
    ensures j > 0 ==> !IsSpace(s[j - 1])
    decreases |s|
  {
    if |s| > 0 && IsSpace(s[|s| - 1]) {
      var t := s[..|s| - 1];
      j := TrimRightSpec(t);
      assert t[..j] == s[..j];
      assert s[j..] == t[j..] + [s[|s| - 1]];
    } else {
      j := |s|;
    }
  }

  /** `Strip` removes exactly the whitespace margins. */
  lemma StripSpec(s: string) returns (i: nat)
    ensures StripAt(s, Strip(s), i)
    ensures IsStripOf(s, Strip(s))
  {
    i := TrimLeftSpec(s);
    var t := s[i..];
    var j := TrimRightSpec(t);
    var r := t[..j];
    assert r == Strip(s);
    assert s[i..i + |r|] == r;
    assert s[i + |r|..] == t[j..];
    assert StripAt(s, r, i);
    if |r| > 0 {
      assert r[0] == s[i] && !IsSpace(s[i]);
      assert r[|r| - 1] == t[j - 1] && !IsSpace(t[j - 1]);
    }
  }

  /** A visible character of `s` lies inside the stripped part. */
  lemma VisibleInside(s: string, r: string, i: int, j: int)
    requires StripAt(s, r, i)
    requires 0 <= j < |s|
    ensures !IsSpace(s[j]) ==> i <= j < i + |r|
  {
    if j < i {
      assert s[..i][j] == s[j];
    } else if j >= i + |r| {
      assert s[i + |r|..][j - (i + |r|)] == s[j];
    }
  }

  /** Stripping leaves nothing exactly when the text is all whitespace. */
  lemma StripEmptyIff(s: string, r: string, i: int)
    requires IsStripOf(s, r) && StripAt(s, r, i)
    ensures |r| == 0 <==> AllSpace(s)
  {
    if |r| == 0 {
      assert s == s[..i] + s[i..];
      forall j | 0 <= j < |s|
        ensures IsSpace(s[j])
      {
        VisibleInside(s, r, i, j);
      }
    } else {
      assert s[i] == r[0];
    }
  }

  /** Stripping is determined by its specification: the margins are maximal. */
  lemma StripUnique(s: string, r1: string, r2: string)
    requires IsStripOf(s, r1) && IsStripOf(s, r2)
    ensures r1 == r2
  {
    var i1 :| StripAt(s, r1, i1);
    var i2 :| StripAt(s, r2, i2);
    StripEmptyIff(s, r1, i1);
    StripEmptyIff(s, r2, i2);
    if |r1| > 0 {
      var e1 := i1 + |r1| - 1;
      var e2 := i2 + |r2| - 1;
      assert s[i1] == r1[0] && s[i2] == r2[0];
      assert s[e1] == r1[|r1| - 1] && s[e2] == r2[|r2| - 1];
      VisibleInside(s, r2, i2, i1);
      VisibleInside(s, r1, i1, i2);
      VisibleInside(s, r2, i2, e1);
      VisibleInside(s, r1, i1, e2);
    }
  }

  /** `s.startswith(p)`. */
  predicate StartsWith(s: string, p: string) {
    |p| <= |s| && s[..|p|] == p
  }

  /** `k` occurs in `s` starting at position `i`. */
  predicate OccursAt(s: string, k: string, i: int) {
    0 <= i && i + |k| <= |s| && s[i..i + |k|] == k
  }

  /** Python's substring test `k in s`. */
  predicate Contains(s: string, k: string)
    decreases |s|
  {
    StartsWith(s, k) || (|s| > 0 && Contains(s[1..], k))
  }

  /** `any(k in s for k in keywords)`. */
  predicate ContainsAny(s: string, keywords: seq<string>)
    decreases |keywords|
  {
    |keywords| > 0 && (Contains(s, keywords[0]) || ContainsAny(s, keywords[1..]))
  }

  /** An occurrence survives lower-casing both texts. */
  lemma ContainsLower(s: string, k: string)
    requires Contains(s, k)
    ensures Contains(Lower(s), Lower(k))
  {
    ContainsIff(s, k);
    var i :| OccursAt(s, k, i);
    var ls, lk := Lower(s), Lower(k);
    assert ls[i..i + |lk|] == lk by {
      assert forall m :: 0 <= m < |k| ==> ls[i + m] == LowerChar(s[i + m]) == LowerChar(k[m]) == lk[m];
    }
    assert OccursAt(ls, lk, i);
    ContainsIff(ls, lk);
  }

  /** One keyword that occurs is enough for `any`. */
  lemma ContainsAnyMember(s: string, keywords: seq<string>, k: string)
    requires k in keywords && Contains(s, k)
    ensures ContainsAny(s, keywords)
  {
    ContainsAnyIff(s, keywords);
  }

  /** The substring test holds exactly when the keyword occurs at some position. */
  lemma {:induction false} ContainsIff(s: string, k: string)
    ensures Contains(s, k) <==> exists i :: OccursAt(s, k, i)
    decreases |s|
  {
    if |s| > 0 {
      ContainsIff(s[1..], k);
      if exists i :: OccursAt(s[1..], k, i) {
        var i :| OccursAt(s[1..], k, i);
        assert s[1..][i..i + |k|] == s[i + 1..i + 1 + |k|];
        assert OccursAt(s, k, i + 1);
      }
      if exists i :: OccursAt(s, k, i) {
        var i :| OccursAt(s, k, i);
        if i > 0 {
          assert s[1..][i - 1..i - 1 + |k|] == s[i..i + |k|];
          assert OccursAt(s[1..], k, i - 1);
        }
      }
    }
    if OccursAt(s, k, 0) {
      assert StartsWith(s, k);
    }
  }

  /** The keyword list test holds exactly when some listed keyword is contained. */
  lemma {:induction false} ContainsAnyIff(s: string, keywords: seq<string>)
    ensures ContainsAny(s, keywords) <==> exists n :: 0 <= n < |keywords| && Contains(s, keywords[n])
    decreases |keywords|
  {
    if |keywords| > 0 {
      ContainsAnyIff(s, keywords[1..]);
      assert forall n :: 1 <= n < |keywords| ==> keywords[n] == keywords[1..][n - 1];
      if exists n :: 0 <= n < |keywords| && Contains(s, keywords[n]) {
        var n :| 0 <= n < |keywords| && Contains(s, keywords[n]);
        if n > 0 {
          assert Contains(s, keywords[1..][n - 1]);
        }
      }
    }
  }

  /** A keyword that begins and ends with a visible character. */
  predicate Trimmed(k: string) {
    |k| > 0 && !IsSpace(k[0]) && !IsSpace(k[|k| - 1])
  }

  /** An occurrence in the stripped text is an occurrence in the original. */
  lemma OccursInStripped(s: string, k: string, i: nat, j: int)
    requires StripAt(s, Strip(s), i)
    requires OccursAt(Strip(s), k, j)
    ensures OccursAt(s, k, i + j)
  {
    var r := Strip(s);
    assert forall m :: 0 <= m < |k| ==> s[i + j + m] == r[j + m] == k[m];
    assert s[i + j..i + j + |k|] == k;
  }

  /** An occurrence of a keyword with visible ends lies inside the stripped text. */
  lemma OccursInOriginal(s: string, k: string, i: nat, j: int)
    requires Trimmed(k)
    requires StripAt(s, Strip(s), i)
    requires OccursAt(s, k, j)
    ensures OccursAt(Strip(s), k, j - i)
  {
    var r := Strip(s);
    var e := j + |k| - 1;
    assert s[j] == k[0] && s[e] == k[|k| - 1];
    VisibleInside(s, r, i, j);
    VisibleInside(s, r, i, e);
    assert forall m :: 0 <= m < |k| ==> r[j - i + m] == s[j + m] == k[m];
    assert r[j - i..j - i + |k|] == k;
  }

  /** Stripping a line never changes whether it contains a keyword with visible ends:
      every occurrence of such a keyword lies inside the stripped part. */
  lemma ContainsIgnoresStrip(s: string, k: string)
    requires Trimmed(k)
    ensures Contains(Strip(s), k) <==> Contains(s, k)
  {
    var i := StripSpec(s);
    ContainsIff(Strip(s), k);
    ContainsIff(s, k);
    if exists j :: OccursAt(Strip(s), k, j) {
      var j :| OccursAt(Strip(s), k, j);
      OccursInStripped(s, k, i, j);
    }
    if exists j :: OccursAt(s, k, j) {
      var j :| OccursAt(s, k, j);
      OccursInOriginal(s, k, i, j);
    }
  }

  /** The same for a whole keyword list. */
  lemma ContainsAnyIgnoresStrip(s: string, keywords: seq<string>)
    requires forall n :: 0 <= n < |keywords| ==> Trimmed(keywords[n])
    ensures ContainsAny(Strip(s), keywords) <==> ContainsAny(s, keywords)
  {
    ContainsAnyIff(s, keywords);
    ContainsAnyIff(Strip(s), keywords);
    forall n | 0 <= n < |keywords|
      ensures Contains(Strip(s), keywords[n]) <==> Contains(s, keywords[n])
    {
      ContainsIgnoresStrip(s, keywords[n]);
    }
  }

  /** A character of the stripped string is a character of the original. */
  lemma StripKeepsOut(s: string, c: char)
    requires c !in s
    ensures c !in Strip(s)
  {
    var r := Strip(s);
    var i := StripSpec(s);
    assert forall j :: 0 <= j < |r| ==> r[j] == s[i + j] && s[i + j] in s;
  }

  /** `s.split(sep)` for a one-character separator: the pieces between separators,
      always at least one (the empty string splits into `[""]`). */
  function Split(s: string, sep: char): (parts: seq<string>)
    ensures |parts| >= 1
    ensures forall n :: 0 <= n < |parts| ==> sep !in parts[n]
    decreases |s|
  {
    if |s| == 0 then [""]
    else
      var rest := Split(s[1..], sep);
      if s[0] == sep then [""] + rest
      else [[s[0]] + rest[0]] + rest[1..]
  }

  /** `sep.join(parts)`. */
  function Join(parts: seq<string>, sep: string): string
  {
    if |parts| == 0 then ""
    else if |parts| == 1 then parts[0]
    else parts[0] + sep + Join(parts[1..], sep)
  }

  /** Joining the pieces of a split gives back the original text. */
  lemma {:induction false} JoinSplit(s: string, sep: char)
    ensures Join(Split(s, sep), [sep]) == s
    decreases |s|
  {
    if |s| > 0 {
      var rest := Split(s[1..], sep);
      JoinSplit(s[1..], sep);
      if s[0] == sep {
        assert ([""] + rest)[1..] == rest;
        assert s == [sep] + s[1..];
      } else {
        var parts := [[s[0]] + rest[0]] + rest[1..];
        assert parts[1..] == rest[1..];
        if |rest| > 1 {
          assert Join(rest, [sep]) == rest[0] + [sep] + Join(rest[1..], [sep]);
        }
        assert s == [s[0]] + s[1..];
      }
    }
  }

  /** A piece without the separator splits into itself. */
  lemma {:induction false} SplitWithoutSep(p: string, sep: char)
    requires sep !in p
    ensures Split(p, sep) == [p]
    decreases |p|
  {
    if |p| > 0 {
      SplitWithoutSep(p[1..], sep);
      assert [p[0]] + p[1..] == p;
    }
  }

  /** Splitting at the first separator peels off the first piece. */
  lemma {:induction false} SplitAfterPiece(p: string, sep: char, t: string)
    requires sep !in p
    ensures Split(p + [sep] + t, sep) == [p] + Split(t, sep)
    decreases |p|
  {
    var s := p + [sep] + t;
    if |p| == 0 {
      assert s[1..] == t;
    } else {
      assert s[1..] == p[1..] + [sep] + t;
      SplitAfterPiece(p[1..], sep, t);
      assert [p[0]] + p[1..] == p;
    }
  }

  /** Splitting a join of separator-free pieces gives back the pieces. */
  lemma {:induction false} SplitJoin(parts: seq<string>, sep: char)
    requires |parts| >= 1
    requires forall n :: 0 <= n < |parts| ==> sep !in parts[n]
    ensures Split(Join(parts, [sep]), sep) == parts
    decreases |parts|
  {
    if |parts| == 1 {
      SplitWithoutSep(parts[0], sep);
    } else {
      SplitAfterPiece(parts[0], sep, Join(parts[1..], [sep]));
      SplitJoin(parts[1..], sep);
      assert [parts[0]] + parts[1..] == parts;
    }
  }

  /** Joining pieces whose last is empty gives a text that ends with the separator. */
  lemma {:induction false} JoinEndsWithSep(parts: seq<string>, sep: string)
    requires |parts| >= 2 && parts[|parts| - 1] == "" && |sep| > 0
    ensures var j := Join(parts, sep); |j| > 0 && j[|j| - 1] == sep[|sep| - 1]
    decreases |parts|
  {
    if |parts| > 2 {
      JoinEndsWithSep(parts[1..], sep);
    }
  }
}
