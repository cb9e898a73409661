/** Order-preserving sequence combinators: the row-level view of pandas'
    boolean indexing (`Filter`) and column-wise assignment (`MapSeq`). */
module Seqs {

  /** `a` can be obtained from `b` by deleting elements, keeping order. */
  ghost predicate IsSubsequence<T>(a: seq<T>, b: seq<T>)
    decreases |b|
  {
    |a| == 0 ||
    (|b| > 0 &&
     ((a[0] == b[0] && IsSubsequence(a[1..], b[1..])) || IsSubsequence(a, b[1..])))
  }

  /** Every sequence is a subsequence of itself. */
  lemma {:induction false} SubsequenceReflexive<T>(s: seq<T>)
    ensures IsSubsequence(s, s)
    decreases |s|
  {
    if |s| > 0 {
      SubsequenceReflexive(s[1..]);
    }
  }

  /** The elements of `s` satisfying `p`, in their original order. */
  function Filter<T>(p: T -> bool, s: seq<T>): (r: seq<T>)
    ensures |r| <= |s|
    ensures forall i :: 0 <= i < |r| ==> r[i] in s && p(r[i])
    ensures forall i :: 0 <= i < |s| && p(s[i]) ==> s[i] in r
    ensures IsSubsequence(r, s)
    decreases |s|
  {
    if |s| == 0 then []
    else if p(s[0]) then
      var rest := Filter(p, s[1..]);
      assert ([s[0]] + rest)[1..] == rest;
      [s[0]] + rest
    else
      Filter(p, s[1..])
  }

  /** Filtering keeps every copy of an element that passes and no copy of
      one that fails. */
  lemma {:induction false} FilterMultiplicity<T>(p: T -> bool, s: seq<T>)
    ensures multiset(Filter(p, s)) <= multiset(s)
    ensures forall i :: 0 <= i < |s| ==>
              multiset(Filter(p, s))[s[i]] == if p(s[i]) then multiset(s)[s[i]] else 0
    decreases |s|
  {
    FilterSubMultiset(p, s);
    forall i | 0 <= i < |s|
      ensures multiset(Filter(p, s))[s[i]] == if p(s[i]) then multiset(s)[s[i]] else 0
    {
      FilterCount(p, s, s[i]);
    }
  }

  /** Filtering only removes copies. */
  lemma {:induction false} FilterSubMultiset<T>(p: T -> bool, s: seq<T>)
    ensures multiset(Filter(p, s)) <= multiset(s)
    decreases |s|
  {
    if |s| > 0 {
      var tail := s[1..];
      FilterSubMultiset(p, tail);
      assert s == [s[0]] + tail;
      assert multiset(s) == multiset{s[0]} + multiset(tail);
      if p(s[0]) {
        assert Filter(p, s) == [s[0]] + Filter(p, tail);
        assert multiset(Filter(p, s)) == multiset{s[0]} + multiset(Filter(p, tail));
      }
    }
  }

  /** The number of copies of `x` that filtering keeps. */
  lemma {:induction false} FilterCount<T>(p: T -> bool, s: seq<T>, x: T)
    ensures multiset(Filter(p, s))[x] == if p(x) then multiset(s)[x] else 0
    decreases |s|
  {
    if |s| > 0 {
      var tail := s[1..];
      FilterCount(p, tail, x);
      assert s == [s[0]] + tail;
      assert multiset(s) == multiset{s[0]} + multiset(tail);
      if p(s[0]) {
        assert Filter(p, s) == [s[0]] + Filter(p, tail);
        assert multiset(Filter(p, s)) == multiset{s[0]} + multiset(Filter(p, tail));
      }
    }
  }

  function MapSeq<T, U>(f: T -> U, s: seq<T>): (r: seq<U>)
    ensures |r| == |s|
    ensures forall i :: 0 <= i < |s| ==> r[i] == f(s[i])
  {
    seq(|s|, i requires 0 <= i < |s| => f(s[i]))
  }

  /** Filtering twice is filtering once by the conjunction `pq`. */
  lemma {:induction false} FilterFilter<T>(p: T -> bool, q: T -> bool, pq: T -> bool, s: seq<T>)
    requires forall x :: pq(x) == (p(x) && q(x))
    ensures Filter(q, Filter(p, s)) == Filter(pq, s)
    decreases |s|
  {
    if |s| > 0 {
      FilterFilter(p, q, pq, s[1..]);
      if p(s[0]) {
        var rest := Filter(p, s[1..]);
        assert Filter(p, s) == [s[0]] + rest;
        assert ([s[0]] + rest)[1..] == rest;
      }
    }
  }

  /** Filtering a mapped sequence by `p` is mapping the elements whose image
      passes `p`, which `pf` tests. */
  lemma {:induction false} FilterOfMap<T, U>(f: T -> U, p: U -> bool, pf: T -> bool, s: seq<T>)
    requires forall x :: pf(x) == p(f(x))
    ensures Filter(p, MapSeq(f, s)) == MapSeq(f, Filter(pf, s))
    decreases |s|
  {
    if |s| > 0 {
      FilterOfMap(f, p, pf, s[1..]);
      assert MapSeq(f, s)[1..] == MapSeq(f, s[1..]);
      if pf(s[0]) {
        var rest := Filter(pf, s[1..]);
        assert MapSeq(f, [s[0]] + rest) == [f(s[0])] + MapSeq(f, rest);
      }
    }
  }

  /** A test every element passes keeps the whole sequence. */
  lemma {:induction false} FilterAll<T>(p: T -> bool, s: seq<T>)
    requires forall i :: 0 <= i < |s| ==> p(s[i])
    ensures Filter(p, s) == s
    decreases |s|
  {
    if |s| > 0 {
      FilterAll(p, s[1..]);
      assert s == [s[0]] + s[1..];
    }
  }
}
