/**
  MongoDB's sort on `{startTime: dir, _id: dir}`: records ordered by start time
  and then by id, in either direction, and the facts about that order the
  pagination proof needs.
 */
module Ordering {
  import opened Wrappers
  import opened InterfaceExecution
  import opened Sequences

  datatype Direction = Ascending | Descending

  /** Ascending (startTime, _id) order; a missing startTime sorts first, as null does. */
  predicate KeyLess(a: Execution, b: Execution)
  {
    if a.startTime == b.startTime then a.id < b.id
    else if a.startTime.None? then true
    else if b.startTime.None? then false
    else a.startTime.value < b.startTime.value
  }

  /** a comes strictly before b in the given direction. */
  predicate Before(dir: Direction, a: Execution, b: Execution)
  {
    if dir == Ascending then KeyLess(a, b) else KeyLess(b, a)
  }

  lemma BeforeIrreflexive(dir: Direction, a: Execution)
    ensures !Before(dir, a, a)
  {
  }

  lemma BeforeTransitive(dir: Direction, a: Execution, b: Execution, c: Execution)
    requires Before(dir, a, b) && Before(dir, b, c)
    ensures Before(dir, a, c)
  {
  }

  /** Records with different ids are always ordered one way or the other. */
  lemma BeforeTotal(dir: Direction, a: Execution, b: Execution)
    requires a.id != b.id
    ensures Before(dir, a, b) || Before(dir, b, a)
  {
  }

  predicate UniqueIds(s: seq<Execution>)
  {
    forall i, j :: 0 <= i < j < |s| ==> s[i].id != s[j].id
  }

  predicate StrictlySorted(dir: Direction, s: seq<Execution>)
  {
    forall i, j :: 0 <= i < j < |s| ==> Before(dir, s[i], s[j])
  }

  function Insert(dir: Direction, x: Execution, s: seq<Execution>): (r: seq<Execution>)
    ensures multiset(r) == multiset(s) + multiset{x}
  {
    if s == [] then [x]
    else
      assert s == [s[0]] + s[1..];
      if Before(dir, s[0], x) then [s[0]] + Insert(dir, x, s[1..])
      else [x] + s
  }

  /** The order in which the store returns records: a sort by (startTime, _id) in the given direction. */
  function SortBy(dir: Direction, s: seq<Execution>): (r: seq<Execution>)
    ensures multiset(r) == multiset(s)
  {
    if s == [] then []
    else
      assert s == [s[0]] + s[1..];
      Insert(dir, s[0], SortBy(dir, s[1..]))
  }

  lemma {:induction false} InsertSorted(dir: Direction, x: Execution, s: seq<Execution>)
    requires StrictlySorted(dir, s)
    requires forall y :: y in s ==> y.id != x.id
    ensures StrictlySorted(dir, Insert(dir, x, s))
  {
    if s != [] {
      if Before(dir, s[0], x) {
        InsertSorted(dir, x, s[1..]);
        var r := Insert(dir, x, s);
        forall i, j | 0 <= i < j < |r| ensures Before(dir, r[i], r[j]) {
          if i == 0 {
            assert r[j] in multiset(s[1..]) + multiset{x} by {
              assert r[j] in r[1..];
            }
            if r[j] != x {
              assert r[j] in s[1..];
            }
          }
        }
      } else {
        BeforeTotal(dir, x, s[0]);
        forall j | 0 < j < |s| ensures Before(dir, x, s[j]) {
          BeforeTransitive(dir, x, s[0], s[j]);
        }
      }
    }
  }

  /** With unique ids, the store's order is strict: each record comes strictly before the next. */
  lemma {:induction false} SortBySorted(dir: Direction, s: seq<Execution>)
    requires UniqueIds(s)
    ensures StrictlySorted(dir, SortBy(dir, s))
  {
    if s != [] {
      SortBySorted(dir, s[1..]);
      forall y | y in SortBy(dir, s[1..]) ensures y.id != s[0].id {
        assert y in multiset(s[1..]);
      }
      InsertSorted(dir, s[0], SortBy(dir, s[1..]));
    }
  }

  lemma BeforeAsymmetric(dir: Direction, a: Execution, b: Execution)
    ensures !(Before(dir, a, b) && Before(dir, b, a))
  {
    if Before(dir, a, b) && Before(dir, b, a) {
      BeforeTransitive(dir, a, b, a);
      BeforeIrreflexive(dir, a);
    }
  }

  /** The first record of a strictly sorted sequence comes before every other record of it. */
  lemma SortedHead(dir: Direction, s: seq<Execution>, y: Execution)
    requires StrictlySorted(dir, s) && y in s
    ensures y == s[0] || Before(dir, s[0], y)
  {
  }

  lemma SameHead(dir: Direction, a: seq<Execution>, b: seq<Execution>)
    requires StrictlySorted(dir, a) && StrictlySorted(dir, b)
    requires multiset(a) == multiset(b) && a != []
    ensures b != [] && a[0] == b[0]
  {
    assert a[0] in multiset(b);
    assert b[0] in multiset(a);
    SortedHead(dir, b, a[0]);
    SortedHead(dir, a, b[0]);
    BeforeAsymmetric(dir, a[0], b[0]);
  }

  lemma SameTail(a: seq<Execution>, b: seq<Execution>)
    requires a != [] && b != [] && a[0] == b[0] && multiset(a) == multiset(b)
    ensures multiset(a[1..]) == multiset(b[1..])
  {
    assert a == [a[0]] + a[1..];
    assert b == [b[0]] + b[1..];
    assert multiset(a) == multiset{a[0]} + multiset(a[1..]);
    assert multiset(b) == multiset{b[0]} + multiset(b[1..]);
    forall x ensures multiset(a[1..])[x] == multiset(b[1..])[x] {
      assert multiset(a)[x] == multiset(b)[x];
    }
  }

  /** Two strictly sorted sequences with the same elements are equal. */
  lemma {:induction false} SortedUnique(dir: Direction, a: seq<Execution>, b: seq<Execution>)
    requires StrictlySorted(dir, a) && StrictlySorted(dir, b)
    requires multiset(a) == multiset(b)
    ensures a == b
  {
    if a != [] {
      SameHead(dir, a, b);
      SameTail(a, b);
      SortedUnique(dir, a[1..], b[1..]);
    } else {
      assert |b| == |multiset(b)| == 0;
    }
  }

  lemma {:induction false} WhereSorted(dir: Direction, s: seq<Execution>, p: Execution -> bool)
    requires StrictlySorted(dir, s)
    ensures StrictlySorted(dir, Where(s, p))
  {
    if s != [] {
      WhereSorted(dir, s[1..], p);
      var r := Where(s, p);
      if p(s[0]) {
        forall j | 0 < j < |r| ensures Before(dir, r[0], r[j]) {
          assert r[j] in Where(s[1..], p);
        }
      }
    }
  }

  lemma {:induction false} WhereUnique(s: seq<Execution>, p: Execution -> bool)
    requires UniqueIds(s)
    ensures UniqueIds(Where(s, p))
  {
    if s != [] {
      WhereUnique(s[1..], p);
      var r := Where(s, p);
      if p(s[0]) {
        forall j | 0 < j < |r| ensures r[0].id != r[j].id {
          assert r[j] in Where(s[1..], p);
        }
      }
    }
  }

  /** Sorting then filtering is filtering then sorting. */
  lemma SortWhere(dir: Direction, s: seq<Execution>, p: Execution -> bool)
    requires UniqueIds(s)
    ensures SortBy(dir, Where(s, p)) == Where(SortBy(dir, s), p)
  {
    WhereUnique(s, p);
    SortBySorted(dir, Where(s, p));
    SortBySorted(dir, s);
    WhereSorted(dir, SortBy(dir, s), p);
    WherePermutation(SortBy(dir, s), s, p);
    SortedUnique(dir, SortBy(dir, Where(s, p)), Where(SortBy(dir, s), p));
  }

  /** In a strictly sorted sequence, the records after position k - 1 are those that come after it. */
  lemma {:induction false} AfterIsSuffix(dir: Direction, s: seq<Execution>, k: nat, p: Execution -> bool)
    requires StrictlySorted(dir, s)
    requires 0 < k <= |s|
    requires forall x :: p(x) == Before(dir, s[k - 1], x)
    ensures Where(s, p) == s[k..]
  {
    if k == 1 {
      assert s == [s[0]] + s[1..];
      BeforeIrreflexive(dir, s[0]);
      WhereAll(s[1..], p);
    } else {
      assert !p(s[0]) by {
        if p(s[0]) {
          BeforeTransitive(dir, s[0], s[k - 1], s[0]);
        }
      }
      forall x ensures p(x) == Before(dir, s[1..][k - 2], x) { }
      AfterIsSuffix(dir, s[1..], k - 1, p);
    }
  }

  lemma {:induction false} WhereAll(s: seq<Execution>, p: Execution -> bool)
    requires forall i :: 0 <= i < |s| ==> p(s[i])
    ensures Where(s, p) == s
  {
    if s != [] {
      WhereAll(s[1..], p);
    }
  }
}
