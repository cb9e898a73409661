/** Python's `sorted` on a sequence, ordered by a string key compared
    lexicographically by code point (how `sorted(BASE.glob("*.csv"))`
    orders the paths of one directory). Modelled as an insertion sort. */
module Sorting {
  import opened Strings

  ghost predicate SortedBy<T>(s: seq<T>, key: T -> string) {
    forall i, j :: 0 <= i < j < |s| ==> LessEq(key(s[i]), key(s[j]))
  }

  /** Inserts `x` in front of the first element whose key is not smaller. */
  function Insert<T(==)>(x: T, s: seq<T>, key: T -> string): (r: seq<T>)
    requires SortedBy(s, key)
    ensures SortedBy(r, key)
    ensures multiset(r) == multiset(s) + multiset{x}
    ensures |r| == |s| + 1
    decreases |s|
  {
    if |s| == 0 then [x]
    else if LessEq(key(x), key(s[0])) then
      forall j | 0 < j < |s| ensures LessEq(key(x), key(s[j])) {
        LessEqTransitive(key(x), key(s[0]), key(s[j]));
      }
      [x] + s
    else
      LessEqTotal(key(x), key(s[0]));
      assert s == [s[0]] + s[1..];
      var rest := Insert(x, s[1..], key);
      forall k | 0 <= k < |rest| ensures LessEq(key(s[0]), key(rest[k])) {
        assert rest[k] in multiset(rest);
        if rest[k] != x {
          assert rest[k] in multiset(s[1..]);
          var j :| 0 <= j < |s[1..]| && s[1..][j] == rest[k];
          assert s[j + 1] == rest[k];
        }
      }
      [s[0]] + rest
  }

  function SortBy<T(==)>(s: seq<T>, key: T -> string): (r: seq<T>)
    ensures SortedBy(r, key)
    ensures multiset(r) == multiset(s)
    ensures |r| == |s|
    decreases |s|
  {
    if |s| == 0 then []
    else
      assert s == [s[0]] + s[1..];
      Insert(s[0], SortBy(s[1..], key), key)
  }

  /** Sum of a natural-valued measure over a sequence. */
  function SumBy<T>(s: seq<T>, f: T -> nat): nat
    decreases |s|
  {
    if |s| == 0 then 0 else f(s[0]) + SumBy(s[1..], f)
  }

  lemma {:induction false} SumInsert<T>(x: T, s: seq<T>, key: T -> string, f: T -> nat)
    requires SortedBy(s, key)
    ensures SumBy(Insert(x, s, key), f) == f(x) + SumBy(s, f)
    decreases |s|
  {
    if |s| > 0 && !LessEq(key(x), key(s[0])) {
      SumInsert(x, s[1..], key, f);
      var r := Insert(x, s, key);
      assert r[1..] == Insert(x, s[1..], key);
    } else if |s| > 0 {
      assert ([x] + s)[1..] == s;
    }
  }

  /** Sorting does not change a total. */
  lemma {:induction false} SumSort<T>(s: seq<T>, key: T -> string, f: T -> nat)
    ensures SumBy(SortBy(s, key), f) == SumBy(s, f)
    decreases |s|
  {
    if |s| > 0 {
      SumSort(s[1..], key, f);
      SumInsert(s[0], SortBy(s[1..], key), key, f);
    }
  }
}
