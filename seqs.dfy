/** Sequence operations that the source gets from its runtime: Array.filter,
    `new Set(...)`, a stable sort on an integer key, and summing. */
module Seqs {

  /** r occurs in s in order, not necessarily contiguously. */
  predicate IsSubsequence<T(==)>(r: seq<T>, s: seq<T>)
    decreases |s|
  {
    if r == [] then true
    else if s == [] then false
    else if r[0] == s[0] then IsSubsequence(r[1..], s[1..])
    else IsSubsequence(r, s[1..])
  }

  predicate NoDuplicates<T(==)>(s: seq<T>) {
    forall i, j :: 0 <= i < j < |s| ==> s[i] != s[j]
  }

  /** Array.prototype.filter: the elements satisfying p, in their order. */
  function Filter<T(!new)>(p: T -> bool, s: seq<T>): (r: seq<T>)
    ensures |r| <= |s|
  {
    if s == [] then []
    else if p(s[0]) then [s[0]] + Filter(p, s[1..])
    else Filter(p, s[1..])
  }

  /** The filtered list holds exactly the elements that satisfy p, each
      as often as in s, in their original order. */
  lemma {:induction false} FilterSpec<T(!new)>(p: T -> bool, s: seq<T>)
    ensures forall x :: x in Filter(p, s) <==> x in s && p(x)
    ensures forall x :: multiset(Filter(p, s))[x] == if p(x) then multiset(s)[x] else 0
    ensures IsSubsequence(Filter(p, s), s)
  {
    if s != [] {
      FilterSpec(p, s[1..]);
      assert s == [s[0]] + s[1..];
      var r := Filter(p, s);
      if p(s[0]) {
        assert r == [s[0]] + Filter(p, s[1..]);
        assert r[1..] == Filter(p, s[1..]);
      } else {
        assert r == Filter(p, s[1..]);
        if r != [] {
          assert r[0] in r;
        }
      }
    }
  }

  lemma {:induction false} FilterAppend<T(!new)>(p: T -> bool, a: seq<T>, b: seq<T>)
    ensures Filter(p, a + b) == Filter(p, a) + Filter(p, b)
  {
    if a == [] {
      assert a + b == b;
    } else {
      var ab := a + b;
      assert ab[0] == a[0] && ab[1..] == a[1..] + b;
      FilterAppend(p, a[1..], b);
      var head := if p(a[0]) then [a[0]] else [];
      assert Filter(p, ab) == head + Filter(p, a[1..] + b);
      assert Filter(p, a) == head + Filter(p, a[1..]);
      assert head + (Filter(p, a[1..]) + Filter(p, b)) == (head + Filter(p, a[1..])) + Filter(p, b);
    }
  }

  /** Filtering by two predicates that agree on s gives the same list. */
  lemma {:induction false} FilterAgree<T(!new)>(p: T -> bool, q: T -> bool, s: seq<T>)
    requires forall i :: 0 <= i < |s| ==> p(s[i]) == q(s[i])
    ensures Filter(p, s) == Filter(q, s)
  {
    if s != [] {
      FilterAgree(p, q, s[1..]);
    }
  }

  /** Filtering twice is filtering once by both predicates. */
  lemma {:induction false} FilterFilter<T(!new)>(p: T -> bool, q: T -> bool, both: T -> bool, s: seq<T>)
    requires forall i :: 0 <= i < |s| ==> both(s[i]) == (p(s[i]) && q(s[i]))
    ensures Filter(q, Filter(p, s)) == Filter(both, s)
  {
    if s != [] {
      FilterFilter(p, q, both, s[1..]);
      if p(s[0]) {
        assert Filter(p, s) == [s[0]] + Filter(p, s[1..]);
        assert (Filter(p, s))[1..] == Filter(p, s[1..]);
      }
    }
  }

  /** A predicate that holds of no element filters everything out. */
  lemma {:induction false} FilterDropsAll<T(!new)>(p: T -> bool, s: seq<T>)
    requires forall i :: 0 <= i < |s| ==> !p(s[i])
    ensures Filter(p, s) == []
  {
    if s != [] {
      FilterDropsAll(p, s[1..]);
    }
  }

  lemma {:induction false} FilterKeepsAll<T(!new)>(p: T -> bool, s: seq<T>)
    requires forall x :: x in s ==> p(x)
    ensures Filter(p, s) == s
  {
    if s != [] {
      FilterKeepsAll(p, s[1..]);
    }
  }

  /** `[...new Set(s)]`: each element once, in order of first appearance. */
  function Distinct<T(==,!new)>(s: seq<T>): (r: seq<T>)
    ensures forall x :: x in r <==> x in s
    ensures NoDuplicates(r)
  {
    if s == [] then []
    else
      var r := Distinct(s[..|s| - 1]);
      assert forall x :: x in s <==> x in s[..|s| - 1] || x == s[|s| - 1] by {
        assert s == s[..|s| - 1] + [s[|s| - 1]];
      }
      if s[|s| - 1] in r then r else r + [s[|s| - 1]]
  }

  /** Non-increasing by key. */
  predicate SortedDesc<T>(key: T -> int, s: seq<T>) {
    forall i, j :: 0 <= i < j < |s| ==> key(s[i]) >= key(s[j])
  }

  /** Puts x in front of the first element whose key is at most x's. */
  function InsertDesc<T(!new)>(key: T -> int, x: T, s: seq<T>): (r: seq<T>)
    ensures |r| == |s| + 1
    ensures r[0] == x || (s != [] && r[0] == s[0])
    ensures multiset(r) == multiset(s) + multiset{x}
  {
    if s == [] || key(s[0]) <= key(x) then [x] + s
    else
      assert s == [s[0]] + s[1..];
      [s[0]] + InsertDesc(key, x, s[1..])
  }

  /** Inserting into a sorted list keeps it sorted. */
  lemma {:induction false} InsertDescSorted<T(!new)>(key: T -> int, x: T, s: seq<T>)
    requires SortedDesc(key, s)
    ensures SortedDesc(key, InsertDesc(key, x, s))
  {
    if s != [] && key(s[0]) > key(x) {
      var tail := InsertDesc(key, x, s[1..]);
      InsertDescSorted(key, x, s[1..]);
      var top := key(s[0]);
      assert key(tail[0]) <= top by {
        if tail[0] != x {
          assert tail[0] == s[1];
        }
      }
      forall k | 0 < k < |tail| ensures key(tail[k]) <= top {
        assert key(tail[0]) >= key(tail[k]);
      }
      var r := [s[0]] + tail;
      assert r == InsertDesc(key, x, s);
      forall i, j | 0 <= i < j < |r| ensures key(r[i]) >= key(r[j]) {
        assert r[j] == tail[j - 1];
        if i > 0 {
          assert r[i] == tail[i - 1];
        }
      }
    }
  }

  /** The inserted list holds x and the elements of s. */
  lemma InsertDescMembers<T(!new)>(key: T -> int, x: T, s: seq<T>)
    ensures forall y :: y in InsertDesc(key, x, s) <==> y == x || y in s
  {
    var r := InsertDesc(key, x, s);
    forall y ensures y in r <==> y == x || y in s {
      assert y in r <==> y in multiset(r);
      assert y in s <==> y in multiset(s);
    }
  }

  /** A stable insertion sort into non-increasing key order: elements with
      equal keys keep their relative order. */
  function SortDesc<T(!new)>(key: T -> int, s: seq<T>): (r: seq<T>)
    ensures SortedDesc(key, r)
    ensures |r| == |s|
    ensures forall y :: y in r <==> y in s
    ensures multiset(r) == multiset(s)
  {
    if s == [] then []
    else
      assert s == [s[0]] + s[1..];
      var rest := SortDesc(key, s[1..]);
      InsertDescSorted(key, s[0], rest);
      InsertDescMembers(key, s[0], rest);
      InsertDesc(key, s[0], rest)
  }

  lemma {:induction false} InsertDescNoDuplicates<T(!new)>(key: T -> int, x: T, s: seq<T>)
    requires NoDuplicates(s) && x !in s
    ensures NoDuplicates(InsertDesc(key, x, s))
  {
    if s != [] && key(s[0]) > key(x) {
      assert NoDuplicates(s[1..]) && x !in s[1..];
      InsertDescNoDuplicates(key, x, s[1..]);
      var tail := InsertDesc(key, x, s[1..]);
      InsertDescMembers(key, x, s[1..]);
      assert s[0] !in tail by {
        assert s[0] !in s[1..] by {
          forall j | 0 <= j < |s[1..]| ensures s[1..][j] != s[0] {
            assert s[1..][j] == s[j + 1];
          }
        }
      }
      var r := [s[0]] + tail;
      forall i, j | 0 <= i < j < |r| ensures r[i] != r[j] {
        if i == 0 {
          assert r[j] == tail[j - 1];
        } else {
          assert r[i] == tail[i - 1] && r[j] == tail[j - 1];
        }
      }
    }
  }

  /** Sorting never introduces a duplicate. */
  lemma {:induction false} SortDescNoDuplicates<T(!new)>(key: T -> int, s: seq<T>)
    requires NoDuplicates(s)
    ensures NoDuplicates(SortDesc(key, s))
  {
    if s != [] {
      assert NoDuplicates(s[1..]);
      SortDescNoDuplicates(key, s[1..]);
      assert s[0] !in s[1..] by {
        forall j | 0 <= j < |s[1..]| ensures s[1..][j] != s[0] {
          assert s[1..][j] == s[j + 1];
        }
      }
      InsertDescNoDuplicates(key, s[0], SortDesc(key, s[1..]));
    }
  }

  function SumBy<T>(f: T -> int, s: seq<T>): int {
    if s == [] then 0 else f(s[0]) + SumBy(f, s[1..])
  }

  lemma {:induction false} InsertDescSum<T(!new)>(key: T -> int, f: T -> int, x: T, s: seq<T>)
    ensures SumBy(f, InsertDesc(key, x, s)) == f(x) + SumBy(f, s)
  {
    if s != [] && key(s[0]) > key(x) {
      InsertDescSum(key, f, x, s[1..]);
      var r := InsertDesc(key, x, s);
      assert r[1..] == InsertDesc(key, x, s[1..]);
    } else {
      var r := [x] + s;
      assert r[1..] == s;
    }
  }

  /** Sorting keeps every sum over the elements. */
  lemma {:induction false} SortDescSum<T(!new)>(key: T -> int, f: T -> int, s: seq<T>)
    ensures SumBy(f, SortDesc(key, s)) == SumBy(f, s)
  {
    if s != [] {
      SortDescSum(key, f, s[1..]);
      InsertDescSum(key, f, s[0], SortDesc(key, s[1..]));
    }
  }
}
