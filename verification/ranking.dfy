/**
  `$sort: {count: -1}` on grouped results, followed by `$limit`. Groups with
  equal counts keep their incoming order.
 */
module Ranking {

  predicate Descending<T>(s: seq<T>, key: T -> nat)
  {
    forall i, j :: 0 <= i < j < |s| ==> key(s[i]) >= key(s[j])
  }

  /** Put x in front of the first element whose key is not above its own. */
  function InsertDesc<T>(x: T, s: seq<T>, key: T -> nat): (r: seq<T>)
    ensures multiset(r) == multiset(s) + multiset{x}
    ensures |r| == |s| + 1
  {
    if s == [] then [x]
    else
      assert s == [s[0]] + s[1..];
      if key(s[0]) > key(x) then [s[0]] + InsertDesc(x, s[1..], key)
      else [x] + s
  }

  function SortDesc<T>(s: seq<T>, key: T -> nat): (r: seq<T>)
    ensures multiset(r) == multiset(s)
    ensures |r| == |s|
  {
    if s == [] then []
    else
      assert s == [s[0]] + s[1..];
      InsertDesc(s[0], SortDesc(s[1..], key), key)
  }

  lemma {:induction false} InsertDescSorted<T>(x: T, s: seq<T>, key: T -> nat)
    requires Descending(s, key)
    ensures Descending(InsertDesc(x, s, key), key)
  {
    if s != [] && key(s[0]) > key(x) {
      InsertDescSorted(x, s[1..], key);
      var r := InsertDesc(x, s, key);
      var tail := InsertDesc(x, s[1..], key);
      forall j | 0 < j < |r| ensures key(r[0]) >= key(r[j]) {
        assert r[j] == tail[j - 1];
        assert r[j] in multiset(tail);
        if r[j] != x {
          assert r[j] in multiset(s[1..]);
          var m :| 0 <= m < |s[1..]| && s[1..][m] == r[j];
          assert s[1..][m] == s[m + 1];
        }
      }
    }
  }

  /** The ranking is in descending order of the key. */
  lemma {:induction false} SortDescSorted<T>(s: seq<T>, key: T -> nat)
    ensures Descending(SortDesc(s, key), key)
  {
    if s != [] {
      SortDescSorted(s[1..], key);
      InsertDescSorted(s[0], SortDesc(s[1..], key), key);
    }
  }

  /** At most n elements: the first n of the ranking. */
  function Take<T>(s: seq<T>, n: nat): (r: seq<T>)
    ensures |r| == if |s| < n then |s| else n
    ensures r == s[..|r|]
  {
    if |s| <= n then s else s[..n]
  }

  /**
    In a descending ranking cut to n elements, anything left out ranks no
    higher than anything kept, and something is left out only when n
    elements were kept.
   */
  lemma LeftOutRanksLower<T>(s: seq<T>, key: T -> nat, n: nat, x: T)
    requires Descending(s, key)
    requires x in s && x !in Take(s, n)
    ensures |Take(s, n)| == n
    ensures forall i :: 0 <= i < |Take(s, n)| ==> key(Take(s, n)[i]) >= key(x)
  {
    var m :| 0 <= m < |s| && s[m] == x;
  }

  function SumKeys<T>(s: seq<T>, key: T -> nat): nat
  {
    if s == [] then 0 else key(s[0]) + SumKeys(s[1..], key)
  }

  lemma {:induction false} InsertDescSum<T>(x: T, s: seq<T>, key: T -> nat)
    ensures SumKeys(InsertDesc(x, s, key), key) == key(x) + SumKeys(s, key)
  {
    if s != [] && key(s[0]) > key(x) {
      InsertDescSum(x, s[1..], key);
    }
  }

  /** Ranking neither adds nor loses any count. */
  lemma {:induction false} SortDescSum<T>(s: seq<T>, key: T -> nat)
    ensures SumKeys(SortDesc(s, key), key) == SumKeys(s, key)
  {
    if s != [] {
      SortDescSum(s[1..], key);
      InsertDescSum(s[0], SortDesc(s[1..], key), key);
    }
  }

  /** No two elements share a key. */
  predicate DistinctKeys<T, K(==)>(s: seq<T>, key: T -> K)
  {
    forall i, j :: 0 <= i < j < |s| ==> key(s[i]) != key(s[j])
  }

  lemma PairCount<T>(s: seq<T>, i: nat, j: nat)
    requires i < j < |s|
    ensures s[i] == s[j] ==> multiset(s)[s[i]] >= 2
  {
    assert s == s[..i] + [s[i]] + s[i + 1..j] + [s[j]] + s[j + 1..];
  }

  lemma SingleOccurrence<T, K>(s: seq<T>, key: T -> K, a: nat)
    requires a < |s|
    requires DistinctKeys(s, key)
    ensures multiset(s)[s[a]] == 1
  {
    assert s == s[..a] + [s[a]] + s[a + 1..];
    assert s[a] !in s[..a];
    assert s[a] !in s[a + 1..];
  }

  /** Reordering keeps keys distinct. */
  lemma PermutationDistinct<T, K>(s: seq<T>, r: seq<T>, key: T -> K)
    requires multiset(s) == multiset(r)
    requires DistinctKeys(s, key)
    ensures DistinctKeys(r, key)
  {
    forall i, j | 0 <= i < j < |r| ensures key(r[i]) != key(r[j]) {
      assert r[i] in multiset(s);
      assert r[j] in multiset(s);
      var a :| 0 <= a < |s| && s[a] == r[i];
      var b :| 0 <= b < |s| && s[b] == r[j];
      SingleOccurrence(s, key, a);
      PairCount(r, i, j);
      assert a != b;
    }
  }
}
