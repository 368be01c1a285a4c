/** Order-preserving filtering of sequences and the subsequence relation. */
module Sequences {

  /** `a` can be obtained from `b` by deleting elements, without reordering. */
  ghost predicate IsSubsequence<T>(a: seq<T>, b: seq<T>)
    decreases |b|
  {
    if b == [] then a == []
    else (a != [] && a[0] == b[0] && IsSubsequence(a[1..], b[1..])) || IsSubsequence(a, b[1..])
  }

  /** The elements of `s` that satisfy `p`, in their original order (a boolean mask). */
  function Filter<T>(s: seq<T>, p: T -> bool): seq<T>
    decreases |s|
  {
    if s == [] then []
    else if p(s[0]) then [s[0]] + Filter(s[1..], p)
    else Filter(s[1..], p)
  }

  /** The filter keeps exactly the elements that pass it, and never adds any. */
  lemma {:induction false} FilterMembers<T(!new)>(s: seq<T>, p: T -> bool)
    ensures |Filter(s, p)| <= |s|
    ensures forall x :: x in Filter(s, p) <==> x in s && p(x)
    decreases |s|
  {
    if s != [] {
      FilterMembers(s[1..], p);
      assert s == [s[0]] + s[1..];
    }
  }

  /** The filter keeps every copy of each element that passes it, and no copy of any other. */
  lemma {:induction false} FilterCounts<T>(s: seq<T>, p: T -> bool)
    ensures forall x :: multiset(Filter(s, p))[x] == if p(x) then multiset(s)[x] else 0
    decreases |s|
  {
    if s != [] {
      FilterCounts(s[1..], p);
      assert s == [s[0]] + s[1..];
      assert multiset(s) == multiset{s[0]} + multiset(s[1..]);
      if p(s[0]) {
        assert multiset(Filter(s, p)) == multiset{s[0]} + multiset(Filter(s[1..], p));
      }
    }
  }

  /** The filter keeps the survivors in their original order. */
  lemma {:induction false} FilterIsSubsequence<T>(s: seq<T>, p: T -> bool)
    ensures IsSubsequence(Filter(s, p), s)
    decreases |s|
  {
    if s != [] {
      FilterIsSubsequence(s[1..], p);
      if p(s[0]) {
        assert ([s[0]] + Filter(s[1..], p))[1..] == Filter(s[1..], p);
      }
    }
  }

  /** Deleting every element leaves the empty sequence. */
  lemma {:induction false} EmptyIsSubsequence<T>(b: seq<T>)
    ensures IsSubsequence([], b)
    decreases |b|
  {
    if b != [] {
      EmptyIsSubsequence(b[1..]);
    }
  }

  /** Deleting elements twice is deleting elements once. */
  lemma {:induction false} SubsequenceTransitive<T>(a: seq<T>, b: seq<T>, c: seq<T>)
    requires IsSubsequence(a, b) && IsSubsequence(b, c)
    ensures IsSubsequence(a, c)
    decreases |c|
  {
    if c == [] {
    } else if IsSubsequence(b, c[1..]) {
      SubsequenceTransitive(a, b, c[1..]);
    } else {
      assert b != [] && b[0] == c[0] && IsSubsequence(b[1..], c[1..]);
      if a != [] && a[0] == b[0] && IsSubsequence(a[1..], b[1..]) {
        SubsequenceTransitive(a[1..], b[1..], c[1..]);
      } else {
        SubsequenceTransitive(a, b[1..], c[1..]);
      }
    }
  }

  /** A filter that every element passes changes nothing. */
  lemma {:induction false} FilterKeepsAll<T>(s: seq<T>, p: T -> bool)
    requires forall i :: 0 <= i < |s| ==> p(s[i])
    ensures Filter(s, p) == s
    decreases |s|
  {
    if s != [] {
      FilterKeepsAll(s[1..], p);
    }
  }
}
