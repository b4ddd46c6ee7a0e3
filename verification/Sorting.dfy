/** Sorting by a comparator: the contract `std::sort` gives its callers, a stable
    insertion sort that meets it, and the uniqueness of sorted arrangements. */
module Sorting {

  /** `less` behaves as a strict weak ordering on `dom`. */
  ghost predicate StrictWeakOn<T>(less: (T, T) -> bool, dom: set<T>) {
    && (forall x | x in dom :: !less(x, x))
    && (forall x, y, z | x in dom && y in dom && z in dom && less(x, y) && less(y, z) :: less(x, z))
    && (forall x, y, z | x in dom && y in dom && z in dom && less(x, z) :: less(x, y) || less(y, z))
  }

  /** `less` also tells any two different elements of `dom` apart. */
  ghost predicate TotalOn<T>(less: (T, T) -> bool, dom: set<T>) {
    forall x, y | x in dom && y in dom && !less(x, y) && !less(y, x) :: x == y
  }

  ghost function Elements<T(!new)>(s: seq<T>): (r: set<T>)
    ensures forall x :: x in r <==> x in s
  {
    set x | x in s
  }

  ghost predicate SortedBy<T>(less: (T, T) -> bool, s: seq<T>) {
    forall i, j | 0 <= i < j < |s| :: !less(s[j], s[i])
  }

  /** The indices 0 .. n - 1. */
  function Iota(n: nat): (r: seq<int>)
    ensures |r| == n && forall k | 0 <= k < n :: r[k] == k
  {
    seq(n, k => k)
  }

  function Insert<T>(less: (T, T) -> bool, s: seq<T>, x: T): (r: seq<T>)
    ensures |r| == |s| + 1
    ensures multiset(r) == multiset(s) + multiset{x}
  {
    if s == [] then [x]
    else if less(x, s[|s| - 1]) then
      assert s == s[..|s| - 1] + [s[|s| - 1]];
      Insert(less, s[..|s| - 1], x) + [s[|s| - 1]]
    else s + [x]
  }

  /** Stable insertion sort: equal elements keep their order, as in `np.lexsort`. */
  function InsertionSort<T>(less: (T, T) -> bool, s: seq<T>): (r: seq<T>)
    ensures |r| == |s|
    ensures multiset(r) == multiset(s)
  {
    if s == [] then []
    else
      assert s == s[..|s| - 1] + [s[|s| - 1]];
      Insert(less, InsertionSort(less, s[..|s| - 1]), s[|s| - 1])
  }

  lemma SameMembers<T(!new)>(s: seq<T>, t: seq<T>)
    requires multiset(s) == multiset(t)
    ensures |s| == |t|
    ensures forall x :: x in s <==> x in t
  {
    assert |multiset(s)| == |multiset(t)|;
    forall x ensures x in s <==> x in t {
      assert x in s <==> x in multiset(s);
      assert x in t <==> x in multiset(t);
    }
  }

  lemma {:induction false} InsertKeepsSorted<T(!new)>(less: (T, T) -> bool, s: seq<T>, x: T, dom: set<T>)
    requires StrictWeakOn(less, dom) && SortedBy(less, s)
    requires x in dom && forall i | 0 <= i < |s| :: s[i] in dom
    ensures SortedBy(less, Insert(less, s, x))
  {
    if s != [] {
      var last := s[|s| - 1];
      var front := s[..|s| - 1];
      if less(x, last) {
        InsertKeepsSorted(less, front, x, dom);
        var r := Insert(less, front, x);
        assert multiset(front + [x]) == multiset(front) + multiset{x};
        SameMembers(r, front + [x]);
        forall i | 0 <= i < |r| ensures !less(last, r[i]) {
          assert r[i] in r;
          assert r[i] in front + [x];
          if r[i] != x {
            var k :| 0 <= k < |front| && front[k] == r[i];
            assert s[k] == r[i];
          }
        }
      } else {
        forall i | 0 <= i < |s| ensures !less(x, s[i]) {
          assert s[i] in dom && last in dom;
          assert i == |s| - 1 || !less(last, s[i]);
        }
      }
    }
  }

  lemma {:induction false} InsertionSortSorts<T(!new)>(less: (T, T) -> bool, s: seq<T>, dom: set<T>)
    requires StrictWeakOn(less, dom)
    requires forall i | 0 <= i < |s| :: s[i] in dom
    ensures SortedBy(less, InsertionSort(less, s))
  {
    if s != [] {
      var front := s[..|s| - 1];
      var r := InsertionSort(less, front);
      InsertionSortSorts(less, front, dom);
      SameMembers(r, front);
      forall i | 0 <= i < |r| ensures r[i] in dom {
        assert r[i] in r;
      }
      InsertKeepsSorted(less, r, s[|s| - 1], dom);
    }
  }

  /** The contract of `std::sort`: nothing is promised about the order of ties. */
  method StdSort<T(!new)>(s: seq<T>, less: (T, T) -> bool) returns (r: seq<T>)
    requires StrictWeakOn(less, Elements(s))
    ensures multiset(r) == multiset(s) && |r| == |s|
    ensures SortedBy(less, r)
  {
    InsertionSortSorts(less, s, Elements(s));
    r := InsertionSort(less, s);
  }

  lemma SameLast<T(!new)>(less: (T, T) -> bool, s: seq<T>, t: seq<T>, dom: set<T>)
    requires multiset(s) == multiset(t) && s != []
    requires TotalOn(less, dom) && SortedBy(less, s) && SortedBy(less, t)
    requires forall i | 0 <= i < |s| :: s[i] in dom
    ensures |s| == |t| && s[|s| - 1] == t[|t| - 1]
  {
    SameMembers(s, t);
    var n := |s| - 1;
    var x, y := s[n], t[n];
    assert x in t && y in s;
    var i :| 0 <= i < |t| && t[i] == x;
    var j :| 0 <= j < |s| && s[j] == y;
    assert i == n || !less(y, x);
    assert j == n || !less(x, y);
  }

  lemma DropLast<T>(s: seq<T>)
    requires s != []
    ensures multiset(s[..|s| - 1]) == multiset(s) - multiset{s[|s| - 1]}
  {
    assert s == s[..|s| - 1] + [s[|s| - 1]];
  }

  /** Two sorted arrangements of the same elements agree when no two differ only by a tie. */
  lemma {:induction false} SortedUnique<T(!new)>(less: (T, T) -> bool, s: seq<T>, t: seq<T>, dom: set<T>)
    requires multiset(s) == multiset(t)
    requires TotalOn(less, dom) && SortedBy(less, s) && SortedBy(less, t)
    requires forall i | 0 <= i < |s| :: s[i] in dom
    ensures s == t
    decreases |s|
  {
    SameMembers(s, t);
    if s != [] {
      SameLast(less, s, t, dom);
      DropLast(s);
      DropLast(t);
      SortedUnique(less, s[..|s| - 1], t[..|t| - 1], dom);
      assert s == s[..|s| - 1] + [s[|s| - 1]] && t == t[..|t| - 1] + [t[|t| - 1]];
    }
  }
}
