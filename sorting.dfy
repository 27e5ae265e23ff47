/**
 * Python's `sorted(...)` and `list.sort()` as used by the flattener, over any
 * strict total order: an insertion sort on lists, and the ascending listing
 * of a set (the keys of a dict).
 */
module Sorting {
  import opened Ordering

  /** Ascending: no later element is smaller than an earlier one. */
  ghost predicate Sorted<T>(s: seq<T>, lt: (T, T) -> bool) {
    forall i, j :: 0 <= i < j < |s| ==> !lt(s[j], s[i])
  }

  /** Strictly ascending, hence also free of duplicates. */
  ghost predicate StrictlySorted<T>(s: seq<T>, lt: (T, T) -> bool) {
    forall i, j :: 0 <= i < j < |s| ==> lt(s[i], s[j])
  }

  /** Inserts `x` into the ascending list `s` before the first element not smaller than it. */
  function InsertSorted<T(!new)>(x: T, s: seq<T>, lt: (T, T) -> bool): (r: seq<T>)
    ensures multiset(r) == multiset(s) + multiset{x}
    decreases |s|
  {
    if s == [] then [x]
    else if lt(s[0], x) then
      assert s == [s[0]] + s[1..];
      [s[0]] + InsertSorted(x, s[1..], lt)
    else
      [x] + s
  }

  lemma {:induction false} InsertSortedSorted<T(!new)>(x: T, s: seq<T>, lt: (T, T) -> bool)
    requires StrictTotalOrder(lt)
    requires Sorted(s, lt)
    ensures Sorted(InsertSorted(x, s, lt), lt)
    decreases |s|
  {
    if s == [] {
    } else if lt(s[0], x) {
      var rest := InsertSorted(x, s[1..], lt);
      InsertSortedSorted(x, s[1..], lt);
      assert s == [s[0]] + s[1..];
      forall k | 0 <= k < |rest| ensures !lt(rest[k], s[0]) {
        assert rest[k] in multiset(rest);
        if rest[k] != x {
          assert rest[k] in multiset(s[1..]);
          var j :| 0 <= j < |s[1..]| && s[1..][j] == rest[k];
          assert s[j + 1] == rest[k];
        }
      }
      assert InsertSorted(x, s, lt) == [s[0]] + rest;
    } else {
      forall j | 0 <= j < |s| ensures !lt(s[j], x) {
        if j > 0 {
          assert !lt(s[j], s[0]);
        }
      }
    }
  }

  /** `sorted(s)`: a permutation of `s`, ascending by `SortSorted`. */
  function Sort<T(!new)>(s: seq<T>, lt: (T, T) -> bool): (r: seq<T>)
    ensures multiset(r) == multiset(s)
    ensures |r| == |s|
    decreases |s|
  {
    if s == [] then []
    else
      assert s == [s[0]] + s[1..];
      InsertSorted(s[0], Sort(s[1..], lt), lt)
  }

  lemma {:induction false} SortSorted<T(!new)>(s: seq<T>, lt: (T, T) -> bool)
    requires StrictTotalOrder(lt)
    ensures Sorted(Sort(s, lt), lt)
    decreases |s|
  {
    if s != [] {
      SortSorted(s[1..], lt);
      InsertSortedSorted(s[0], Sort(s[1..], lt), lt);
    }
  }

  /** Two ascending lists holding the same elements are the same list. */
  lemma {:induction false} SortedUnique<T(!new)>(a: seq<T>, b: seq<T>, lt: (T, T) -> bool)
    requires StrictTotalOrder(lt)
    requires Sorted(a, lt) && Sorted(b, lt)
    requires multiset(a) == multiset(b)
    ensures a == b
    decreases |a|
  {
    assert |b| == |multiset(b)| == |multiset(a)| == |a|;
    if |a| > 0 {
      SortedHeadsEqual(a, b, lt);
      DropHead(a);
      DropHead(b);
      SortedUnique(a[1..], b[1..], lt);
      assert a == [a[0]] + a[1..] && b == [b[0]] + b[1..];
    }
  }

  /** Sorted lists with the same non-empty contents start alike. */
  lemma SortedHeadsEqual<T(!new)>(a: seq<T>, b: seq<T>, lt: (T, T) -> bool)
    requires StrictTotalOrder(lt)
    requires Sorted(a, lt) && Sorted(b, lt)
    requires multiset(a) == multiset(b) && |a| > 0 && |b| > 0
    ensures a[0] == b[0]
  {
    assert a[0] in multiset(b);
    var j :| 0 <= j < |b| && b[j] == a[0];
    assert !lt(a[0], b[0]) by {
      if j > 0 {
        assert !lt(b[j], b[0]);
      }
    }
    assert b[0] in multiset(a);
    var i :| 0 <= i < |a| && a[i] == b[0];
    assert !lt(b[0], a[0]) by {
      if i > 0 {
        assert !lt(a[i], a[0]);
      }
    }
  }

  lemma DropHead<T>(a: seq<T>)
    requires |a| > 0
    ensures multiset(a[1..]) == multiset(a) - multiset{a[0]}
  {
    assert a == [a[0]] + a[1..];
  }

  /** Sorting depends only on the elements, not on their order. */
  lemma SortPermutationInvariant<T(!new)>(a: seq<T>, b: seq<T>, lt: (T, T) -> bool)
    requires StrictTotalOrder(lt)
    requires multiset(a) == multiset(b)
    ensures Sort(a, lt) == Sort(b, lt)
  {
    SortSorted(a, lt);
    SortSorted(b, lt);
    SortedUnique(Sort(a, lt), Sort(b, lt), lt);
  }

  /** `m` is the smallest element of `s`. */
  predicate IsLeast<T(==)>(m: T, s: set<T>, lt: (T, T) -> bool) {
    m in s && forall y :: y in s && y != m ==> lt(m, y)
  }

  lemma {:induction false} LeastExists<T(!new)>(s: set<T>, lt: (T, T) -> bool)
    requires StrictTotalOrder(lt)
    requires s != {}
    ensures exists m :: IsLeast(m, s, lt)
    decreases |s|
  {
    var x :| x in s;
    var rest := s - {x};
    if rest == {} {
      assert s == {x};
      assert IsLeast(x, s, lt);
    } else {
      LeastExists(rest, lt);
      var m :| IsLeast(m, rest, lt);
      if lt(m, x) {
        assert IsLeast(m, s, lt);
      } else {
        assert IsLeast(x, s, lt);
      }
    }
  }

  lemma LeastUnique<T(!new)>(m: T, n: T, s: set<T>, lt: (T, T) -> bool)
    requires StrictTotalOrder(lt)
    requires IsLeast(m, s, lt) && IsLeast(n, s, lt)
    ensures m == n
  {
  }

  /** `sorted(d)` for a dict `d`: its keys, strictly ascending by `SortedSetStrictlySorted`. */
  ghost function SortedSet<T(!new)>(s: set<T>, lt: (T, T) -> bool): (r: seq<T>)
    requires StrictTotalOrder(lt)
    ensures forall x :: x in r <==> x in s
    ensures |r| == |s|
    decreases |s|
  {
    if s == {} then []
    else
      LeastExists(s, lt);
      var m :| IsLeast(m, s, lt);
      [m] + SortedSet(s - {m}, lt)
  }

  lemma {:induction false} SortedSetStrictlySorted<T(!new)>(s: set<T>, lt: (T, T) -> bool)
    requires StrictTotalOrder(lt)
    ensures StrictlySorted(SortedSet(s, lt), lt)
    decreases |s|
  {
    if s != {} {
      LeastExists(s, lt);
      var m :| IsLeast(m, s, lt);
      SortedSetUnfold(m, s, lt);
      SortedSetStrictlySorted(s - {m}, lt);
    }
  }

  /** The listing of a non-empty set starts with its least element. */
  lemma SortedSetUnfold<T(!new)>(m: T, s: set<T>, lt: (T, T) -> bool)
    requires StrictTotalOrder(lt)
    requires IsLeast(m, s, lt)
    ensures SortedSet(s, lt) == [m] + SortedSet(s - {m}, lt)
  {
    LeastExists(s, lt);
    var m' :| IsLeast(m', s, lt) && SortedSet(s, lt) == [m'] + SortedSet(s - {m'}, lt);
    LeastUnique(m, m', s, lt);
  }

  /** Lists the elements of `s` in ascending order by repeatedly taking the least one. */
  method SortedElements<T(!new,==)>(s: set<T>, lt: (T, T) -> bool) returns (r: seq<T>)
    requires StrictTotalOrder(lt)
    ensures r == SortedSet(s, lt)
  {
    r := [];
    var rest := s;
    while rest != {}
      invariant r + SortedSet(rest, lt) == SortedSet(s, lt)
      decreases |rest|
    {
      LeastExists(rest, lt);
      var m :| IsLeast(m, rest, lt);
      TakeLeast(r, m, rest, s, lt);
      r := r + [m];
      rest := rest - {m};
    }
  }

  lemma TakeLeast<T(!new)>(r: seq<T>, m: T, rest: set<T>, s: set<T>, lt: (T, T) -> bool)
    requires StrictTotalOrder(lt)
    requires IsLeast(m, rest, lt) && r + SortedSet(rest, lt) == SortedSet(s, lt)
    ensures r + [m] + SortedSet(rest - {m}, lt) == SortedSet(s, lt)
    ensures |rest - {m}| < |rest|
  {
    SortedSetUnfold(m, rest, lt);
    assert r + [m] + SortedSet(rest - {m}, lt) == r + ([m] + SortedSet(rest - {m}, lt));
  }
}
