/**
 Order-preserving list operations: Python's filtering `for` loops, list
 comprehensions and slices `s[:n]`, and the subsequence relation that states
 "kept in document order".
 */
module Seqs {

  /** `s[:n]`: the first `n` elements, or all of `s` when it is shorter. */
  function Take<T>(s: seq<T>, n: nat): (r: seq<T>)
    ensures |r| == if |s| < n then |s| else n
    ensures r == s[..|r|]
  {
    if |s| <= n then s else s[..n]
  }

  /** `[f(x) for x in s]`. */
  function Map<A, B>(f: A -> B, s: seq<A>): (r: seq<B>)
    ensures |r| == |s|
  {
    if |s| == 0 then [] else [f(s[0])] + Map(f, s[1..])
  }

  /** Each mapped element is the image of the element at the same place. */
  lemma {:induction false} MapIndex<A, B>(f: A -> B, s: seq<A>)
    ensures forall i :: 0 <= i < |s| ==> Map(f, s)[i] == f(s[i])
    decreases |s|
  {
    if |s| > 0 {
      MapIndex(f, s[1..]);
      assert forall i :: 1 <= i < |s| ==> Map(f, s)[i] == Map(f, s[1..])[i - 1];
    }
  }

  /** `[x for x in s if p(x)]`. */
  function Filter<T>(p: T -> bool, s: seq<T>): (r: seq<T>)
    ensures |r| <= |s|
  {
    if |s| == 0 then [] else (if p(s[0]) then [s[0]] else []) + Filter(p, s[1..])
  }

  /** Filtering keeps only elements of the input that pass the test. */
  lemma {:induction false} FilterMembers<T>(p: T -> bool, s: seq<T>)
    ensures forall x :: x in Filter(p, s) ==> x in s && p(x)
    decreases |s|
  {
    if |s| > 0 {
      FilterMembers(p, s[1..]);
    }
  }

  /** `a` is `b` with some elements left out, the rest kept in their order. */
  predicate IsSubseq<T(==)>(a: seq<T>, b: seq<T>)
    decreases |b|
  {
    if |a| == 0 then true
    else if |b| == 0 then false
    else (a[0] == b[0] && IsSubseq(a[1..], b[1..])) || IsSubseq(a, b[1..])
  }

  lemma {:induction false} MapConcat<A, B>(f: A -> B, a: seq<A>, b: seq<A>)
    ensures Map(f, a + b) == Map(f, a) + Map(f, b)
    decreases |a|
  {
    if |a| > 0 {
      assert (a + b)[1..] == a[1..] + b;
      MapConcat(f, a[1..], b);
    } else {
      assert a + b == b;
    }
  }

  /** The prefix one element longer. */
  lemma PrefixSnoc<T>(s: seq<T>, i: nat)
    requires i < |s|
    ensures s[..i + 1] == s[..i] + [s[i]]
  {
  }

  lemma MapSnoc<A, B>(f: A -> B, s: seq<A>, x: A)
    ensures Map(f, s + [x]) == Map(f, s) + [f(x)]
  {
    MapConcat(f, s, [x]);
  }

  /** Filtering a concatenation filters each part. */
  lemma {:induction false} FilterConcat<T>(p: T -> bool, a: seq<T>, b: seq<T>)
    ensures Filter(p, a + b) == Filter(p, a) + Filter(p, b)
    decreases |a|
  {
    if |a| > 0 {
      assert (a + b)[1..] == a[1..] + b;
      FilterConcat(p, a[1..], b);
    } else {
      assert a + b == b;
    }
  }

  /** Filtering one more element. */
  lemma FilterSnoc<T>(p: T -> bool, s: seq<T>, x: T)
    ensures Filter(p, s + [x]) == Filter(p, s) + (if p(x) then [x] else [])
  {
    FilterConcat(p, s, [x]);
  }

  /** Splitting by a test and by its complement loses and duplicates nothing. */
  lemma {:induction false} FilterSplitsMultiset<T>(p: T -> bool, q: T -> bool, s: seq<T>)
    requires forall x :: q(x) <==> !p(x)
    ensures multiset(Filter(p, s)) + multiset(Filter(q, s)) == multiset(s)
    decreases |s|
  {
    if |s| > 0 {
      FilterSplitsMultiset(p, q, s[1..]);
      assert s == [s[0]] + s[1..];
      assert multiset(s) == multiset{s[0]} + multiset(s[1..]);
    }
  }

  /** An element that passes the test sits in the filtered sequence at its rank: the
      number of passing elements before it. */
  lemma FilterRank<T>(p: T -> bool, s: seq<T>, n: nat)
    requires n < |s| && p(s[n])
    ensures |Filter(p, s[..n])| < |Filter(p, s)|
    ensures Filter(p, s)[|Filter(p, s[..n])|] == s[n]
  {
    PrefixSnoc(s, n);
    FilterSnoc(p, s[..n], s[n]);
    assert s == s[..n + 1] + s[n + 1..];
    FilterConcat(p, s[..n + 1], s[n + 1..]);
  }

  /** Nothing that passes the test is dropped. */
  lemma {:induction false} FilterKeeps<T>(p: T -> bool, s: seq<T>, x: T)
    requires x in s && p(x)
    ensures x in Filter(p, s)
    decreases |s|
  {
    if s[0] != x {
      assert x in s[1..];
      FilterKeeps(p, s[1..], x);
    }
  }

  /** Filtering is empty exactly when no element passes. */
  lemma FilterEmptyIff<T>(p: T -> bool, s: seq<T>)
    ensures Filter(p, s) == [] <==> forall i :: 0 <= i < |s| ==> !p(s[i])
  {
    if exists i :: 0 <= i < |s| && p(s[i]) {
      var i :| 0 <= i < |s| && p(s[i]);
      FilterKeeps(p, s, s[i]);
    }
  }

  /** Filtering keeps the order of the elements it keeps. */
  lemma {:induction false} FilterIsSubseq<T>(p: T -> bool, s: seq<T>)
    ensures IsSubseq(Filter(p, s), s)
    decreases |s|
  {
    if |s| > 0 {
      FilterIsSubseq(p, s[1..]);
      var r := Filter(p, s);
      if p(s[0]) {
        assert r[0] == s[0] && r[1..] == Filter(p, s[1..]);
      } else {
        assert r == Filter(p, s[1..]);
        SubseqDropFront(r, s);
      }
    }
  }

  /** A subsequence of the tail is a subsequence of the whole. */
  lemma SubseqDropFront<T>(a: seq<T>, b: seq<T>)
    requires |b| > 0 && IsSubseq(a, b[1..])
    ensures IsSubseq(a, b)
  {
  }

  lemma {:induction false} SubseqTransitive<T>(a: seq<T>, b: seq<T>, c: seq<T>)
    requires IsSubseq(a, b) && IsSubseq(b, c)
    ensures IsSubseq(a, c)
    decreases |c|
  {
    if |a| > 0 {
      if b[0] == c[0] && IsSubseq(b[1..], c[1..]) {
        if a[0] == b[0] && IsSubseq(a[1..], b[1..]) {
          SubseqTransitive(a[1..], b[1..], c[1..]);
        } else {
          SubseqTransitive(a, b[1..], c[1..]);
        }
      } else {
        SubseqTransitive(a, b, c[1..]);
      }
    }
  }

  /** Every prefix is a subsequence. */
  lemma {:induction false} PrefixIsSubseq<T>(s: seq<T>, n: nat)
    requires n <= |s|
    ensures IsSubseq(s[..n], s)
    decreases |s|
  {
    if n > 0 {
      PrefixIsSubseq(s[1..], n - 1);
      assert s[..n][1..] == s[1..][..n - 1];
    } else if |s| > 0 {
      assert IsSubseq(s[..n], s[1..]);
    }
  }

  /** Mapping preserves the subsequence relation. */
  lemma {:induction false} MapSubseq<A, B>(f: A -> B, a: seq<A>, b: seq<A>)
    requires IsSubseq(a, b)
    ensures IsSubseq(Map(f, a), Map(f, b))
    decreases |b|
  {
    if |a| > 0 {
      if a[0] == b[0] && IsSubseq(a[1..], b[1..]) {
        MapSubseq(f, a[1..], b[1..]);
      } else {
        MapSubseq(f, a, b[1..]);
      }
    }
  }

  /** A subsequence takes no element more often than the original holds it. */
  lemma {:induction false} SubseqMultiset<T>(a: seq<T>, b: seq<T>)
    requires IsSubseq(a, b)
    ensures multiset(a) <= multiset(b)
    decreases |b|
  {
    if |a| > 0 {
      assert b == [b[0]] + b[1..];
      if a[0] == b[0] && IsSubseq(a[1..], b[1..]) {
        SubseqMultiset(a[1..], b[1..]);
        assert a == [a[0]] + a[1..];
      } else {
        SubseqMultiset(a, b[1..]);
      }
    }
  }

  // ---------------------------------------------------------------------------
  // Collecting the first matches

  /** The images under `f` of the first `n` elements of `s` that pass `p`, in order. */
  function FirstMatches<A, B>(p: A -> bool, f: A -> B, s: seq<A>, n: nat): seq<B> {
    Take(Map(f, Filter(p, s)), n)
  }

  /** Once `n` matches are in, the rest of the input changes nothing. */
  lemma FirstMatchesSettled<A, B>(p: A -> bool, f: A -> B, s: seq<A>, i: nat, n: nat)
    requires i <= |s|
    requires |Filter(p, s[..i])| >= n
    ensures FirstMatches(p, f, s, n) == FirstMatches(p, f, s[..i], n)
  {
    assert s == s[..i] + s[i..];
    FilterConcat(p, s[..i], s[i..]);
    MapConcat(f, Filter(p, s[..i]), Filter(p, s[i..]));
  }

  /** A loop over `s` that appends `f(x)` for each `x` passing `p` and stops as soon
      as it holds `n` results. */
  method CollectFirst<A, B>(p: A -> bool, f: A -> B, s: seq<A>, n: nat) returns (r: seq<B>)
    requires n > 0
    ensures r == FirstMatches(p, f, s, n)
  {
    r := [];
    var i := 0;
    while i < |s|
      invariant 0 <= i <= |s|
      invariant r == Map(f, Filter(p, s[..i]))
      invariant |r| < n
    {
      var x := s[i];
      PrefixSnoc(s, i);
      FilterSnoc(p, s[..i], x);
      if p(x) {
        MapSnoc(f, Filter(p, s[..i]), x);
        assert Filter(p, s[..i + 1]) == Filter(p, s[..i]) + [x];
        r := r + [f(x)];
        assert r == Map(f, Filter(p, s[..i + 1]));
        if |r| >= n {
          FirstMatchesSettled(p, f, s, i + 1, n);
          return;
        }
      } else {
        assert Filter(p, s[..i]) + [] == Filter(p, s[..i]);
        assert r == Map(f, Filter(p, s[..i + 1]));
      }
      i := i + 1;
    }
    assert s[..i] == s;
  }

  /** At most `n` first matches, in input order. */
  lemma FirstMatchesBounded<A, B>(p: A -> bool, f: A -> B, s: seq<A>, n: nat)
    ensures |FirstMatches(p, f, s, n)| <= n
    ensures IsSubseq(FirstMatches(p, f, s, n), Map(f, s))
  {
    var hits := Filter(p, s);
    var all := Map(f, hits);
    var r := FirstMatches(p, f, s, n);
    FilterIsSubseq(p, s);
    MapSubseq(f, hits, s);
    PrefixIsSubseq(all, |r|);
    SubseqTransitive(r, all, Map(f, s));
  }

  /** Each first match is the image of a passing element. */
  lemma FirstMatchesOrigin<A, B>(p: A -> bool, f: A -> B, s: seq<A>, n: nat, k: nat) returns (j: nat)
    requires k < |FirstMatches(p, f, s, n)|
    ensures j < |s| && p(s[j]) && FirstMatches(p, f, s, n)[k] == f(s[j])
  {
    var hits := Filter(p, s);
    MapIndex(f, hits);
    FilterMembers(p, s);
    assert hits[k] in hits;
    j :| 0 <= j < |s| && s[j] == hits[k];
  }

  /** Fewer than `n` first matches are all the matches. */
  lemma FirstMatchesAll<A, B>(p: A -> bool, f: A -> B, s: seq<A>, n: nat)
    requires |FirstMatches(p, f, s, n)| < n
    ensures FirstMatches(p, f, s, n) == Map(f, Filter(p, s))
  {
  }

  /** One passing element is enough for a first match. */
  lemma FirstMatchesFound<A, B>(p: A -> bool, f: A -> B, s: seq<A>, n: nat, j: nat)
    requires n > 0 && j < |s| && p(s[j])
    ensures FirstMatches(p, f, s, n) != []
  {
    FilterKeeps(p, s, s[j]);
  }
}
