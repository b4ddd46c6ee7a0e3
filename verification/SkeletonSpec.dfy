/** What the polyline order of skeleton pixels means: the array expressions of
    `order_skeleton_pixels` in thinning.py, and the facts about them. */
module SkeletonSpec {
  import opened Sorting

  datatype Pix = Pix(lab: int, v: int, u: int)

  function CountLabel(px: seq<Pix>, lab: int): nat {
    if px == [] then 0
    else CountLabel(px[..|px| - 1], lab) + (if px[|px| - 1].lab == lab then 1 else 0)
  }

  function SumU(px: seq<Pix>, lab: int): int {
    if px == [] then 0
    else SumU(px[..|px| - 1], lab) + (if px[|px| - 1].lab == lab then px[|px| - 1].u else 0)
  }

  /** Mean column of a component; 0 for a label without pixels. */
  function MeanU(px: seq<Pix>, lab: int): real {
    if CountLabel(px, lab) == 0 then 0.0
    else SumU(px, lab) as real / CountLabel(px, lab) as real
  }

  /** The lexsort key order: (mean u, lab, row descending, u ascending). */
  predicate KeyLess(mean: int -> real, a: Pix, b: Pix) {
    || mean(a.lab) < mean(b.lab)
    || (mean(a.lab) == mean(b.lab) &&
        (a.lab < b.lab || (a.lab == b.lab && (a.v > b.v || (a.v == b.v && a.u < b.u)))))
  }

  function Less(mean: int -> real): (Pix, Pix) -> bool {
    (a: Pix, b: Pix) => KeyLess(mean, a, b)
  }

  function Means(px: seq<Pix>): int -> real {
    (lab: int) => MeanU(px, lab)
  }

  /** The pixels whose row lies in [vMin, vMin + rows), in their order. */
  function InRows(px: seq<Pix>, vMin: int, rows: int): seq<Pix> {
    if px == [] then []
    else InRows(px[..|px| - 1], vMin, rows) +
         (if vMin <= px[|px| - 1].v < vMin + rows then [px[|px| - 1]] else [])
  }

  /** The specification of the C++ routine: means over all pixels, output the rows in range. */
  function Ordered(px: seq<Pix>, vMin: int, rows: int): seq<Pix> {
    InsertionSort(Less(Means(px)), InRows(px, vMin, rows))
  }

  // ---- thinning.py: order_skeleton_pixels after cv2.connectedComponents and np.nonzero ----

  function KeepLong(px: seq<Pix>, all: seq<Pix>, minLen: int): seq<Pix> {
    if px == [] then []
    else KeepLong(px[..|px| - 1], all, minLen) +
         (if CountLabel(all, px[|px| - 1].lab) >= minLen then [px[|px| - 1]] else [])
  }

  /** bincount(lab, weights=u) / maximum(counts, 1), counts taken before the length filter. */
  function PyMeans(kept: seq<Pix>, all: seq<Pix>): int -> real {
    (lab: int) =>
      SumU(kept, lab) as real / (if CountLabel(all, lab) > 1 then CountLabel(all, lab) else 1) as real
  }

  function PyOrder(all: seq<Pix>, minLen: int): seq<Pix> {
    var kept := KeepLong(all, all, minLen);
    InsertionSort(Less(PyMeans(kept, all)), kept)
  }

  // ---- the key order is a total order ----

  lemma LessIsTotal(mean: int -> real, dom: set<Pix>)
    ensures StrictWeakOn(Less(mean), dom) && TotalOn(Less(mean), dom)
  {
  }

  // ---- counts and sums depend only on the multiset of pixels ----

  lemma {:induction false} CountSumAppend(px: seq<Pix>, qx: seq<Pix>, lab: int)
    ensures CountLabel(px + qx, lab) == CountLabel(px, lab) + CountLabel(qx, lab)
    ensures SumU(px + qx, lab) == SumU(px, lab) + SumU(qx, lab)
  {
    if qx == [] {
      assert px + qx == px;
    } else {
      assert (px + qx)[..|px + qx| - 1] == px + qx[..|qx| - 1];
      CountSumAppend(px, qx[..|qx| - 1], lab);
    }
  }

  lemma {:induction false} CountSumPermute(px: seq<Pix>, qx: seq<Pix>, lab: int)
    requires multiset(px) == multiset(qx)
    ensures CountLabel(px, lab) == CountLabel(qx, lab) && SumU(px, lab) == SumU(qx, lab)
    decreases |px|
  {
    SameMembers(px, qx);
    if px != [] {
      var x := px[|px| - 1];
      assert x in qx;
      var i :| 0 <= i < |qx| && qx[i] == x;
      var rest := qx[..i] + qx[i + 1..];
      assert qx == qx[..i] + ([x] + qx[i + 1..]);
      assert multiset(rest) == multiset(qx) - multiset{x};
      DropLast(px);
      CountSumPermute(px[..|px| - 1], rest, lab);
      CountSumAppend(qx[..i], [x] + qx[i + 1..], lab);
      CountSumAppend([x], qx[i + 1..], lab);
      CountSumAppend(qx[..i], qx[i + 1..], lab);
      assert [x][..0] == [];
    }
  }

  lemma MeansPermute(px: seq<Pix>, qx: seq<Pix>, lab: int)
    requires multiset(px) == multiset(qx)
    ensures Means(px)(lab) == Means(qx)(lab)
  {
    CountSumPermute(px, qx, lab);
  }

  // ---- sorting by two key orders that agree on the pixels at hand ----

  lemma SortedByAgreeing(s: seq<Pix>, t: seq<Pix>, m: int -> real, n: int -> real)
    requires multiset(s) == multiset(t)
    requires forall p | p in s :: m(p.lab) == n(p.lab)
    ensures InsertionSort(Less(m), s) == InsertionSort(Less(n), t)
  {
    var a, b := InsertionSort(Less(m), s), InsertionSort(Less(n), t);
    var dom := Elements(s);
    LessIsTotal(m, dom);
    LessIsTotal(n, dom);
    InsertionSortSorts(Less(m), s, dom);
    SameMembers(s, t);
    forall i | 0 <= i < |t| ensures t[i] in dom {
      assert t[i] in t;
    }
    InsertionSortSorts(Less(n), t, dom);
    SameMembers(b, s);
    forall i | 0 <= i < |b| ensures b[i] in dom {
      assert b[i] in b;
    }
    assert SortedBy(Less(m), b);
    SortedUnique(Less(m), b, a, dom);
  }

  // ---- the length filter keeps or drops whole components ----

  lemma {:induction false} KeepLongMembers(px: seq<Pix>, all: seq<Pix>, minLen: int, lab: int)
    ensures CountLabel(all, lab) >= minLen ==>
              CountLabel(KeepLong(px, all, minLen), lab) == CountLabel(px, lab)
    ensures forall p | p in KeepLong(px, all, minLen) :: p in px && CountLabel(all, p.lab) >= minLen
  {
    if px != [] {
      var front := px[..|px| - 1];
      KeepLongMembers(front, all, minLen, lab);
      var x := px[|px| - 1];
      var k := KeepLong(front, all, minLen);
      if CountLabel(all, x.lab) >= minLen {
        CountSumAppend(k, [x], lab);
        assert [x][..0] == [];
      } else {
        assert KeepLong(px, all, minLen) == k;
      }
    }
  }

  lemma {:induction false} MemberCounts(px: seq<Pix>, p: Pix)
    requires p in px
    ensures CountLabel(px, p.lab) >= 1
  {
    if px[|px| - 1] != p {
      MemberCounts(px[..|px| - 1], p);
    }
  }

  lemma {:induction false} InRowsAll(px: seq<Pix>, vMin: int, rows: int)
    requires forall p | p in px :: vMin <= p.v < vMin + rows
    ensures InRows(px, vMin, rows) == px
  {
    if px != [] {
      assert px[|px| - 1] in px;
      InRowsAll(px[..|px| - 1], vMin, rows);
    }
  }

  /** The C++ order of the length-filtered pixels, delivered in any order, is the Python order. */
  lemma CppOrderIsPyOrder(all: seq<Pix>, minLen: int, px: seq<Pix>, vMin: int, rows: int)
    requires multiset(px) == multiset(KeepLong(all, all, minLen))
    requires forall p | p in px :: vMin <= p.v < vMin + rows
    ensures Ordered(px, vMin, rows) == PyOrder(all, minLen)
  {
    hide InRows, KeepLong, SumU, CountLabel, InsertionSort, Less;
    var kept := KeepLong(all, all, minLen);
    InRowsAll(px, vMin, rows);
    SameMembers(px, kept);
    forall p | p in px ensures Means(px)(p.lab) == PyMeans(kept, all)(p.lab) {
      MeansPermute(px, kept, p.lab);
      KeepLongMembers(all, all, minLen, p.lab);
      MemberCounts(kept, p);
    }
    SortedByAgreeing(px, kept, Means(px), PyMeans(kept, all));
  }

  // ---- counts, means and lengths ----

  function OfLabel(px: seq<Pix>, lab: int, n: nat): set<int> {
    set k | 0 <= k < n && k < |px| && px[k].lab == lab
  }

  /** The count of a label is the number of places that carry it. */
  lemma {:induction false} CountIsSize(px: seq<Pix>, lab: int, n: nat)
    requires n <= |px|
    ensures CountLabel(px[..n], lab) == |OfLabel(px, lab, n)|
  {
    if n > 0 {
      CountIsSize(px, lab, n - 1);
      assert px[..n][..n - 1] == px[..n - 1];
      if px[n - 1].lab == lab {
        assert OfLabel(px, lab, n) == OfLabel(px, lab, n - 1) + {n - 1};
      } else {
        assert OfLabel(px, lab, n) == OfLabel(px, lab, n - 1);
      }
    }
  }

  /** The Python routine keeps exactly the pixels of components with at least minLen pixels. */
  lemma LongKeptIff(all: seq<Pix>, minLen: int, p: Pix)
    ensures p in KeepLong(all, all, minLen) <==> p in all && |OfLabel(all, p.lab, |all|)| >= minLen
  {
    assert all[..|all|] == all;
    CountIsSize(all, p.lab, |all|);
    KeepLongIs(all, all, minLen, p);
  }

  lemma {:induction false} KeepLongIs(px: seq<Pix>, all: seq<Pix>, minLen: int, p: Pix)
    ensures p in KeepLong(px, all, minLen) <==> p in px && CountLabel(all, p.lab) >= minLen
  {
    if px != [] {
      KeepLongIs(px[..|px| - 1], all, minLen, p);
      assert px == px[..|px| - 1] + [px[|px| - 1]];
    }
  }

  /** The mean column of a component lies between any bounds of its columns. */
  lemma MeanBetween(px: seq<Pix>, lab: int, lo: int, hi: int)
    requires forall p | p in px && p.lab == lab :: lo <= p.u <= hi
    requires exists p :: p in px && p.lab == lab
    ensures lo as real <= MeanU(px, lab) <= hi as real
  {
    hide SumU, CountLabel;
    var p :| p in px && p.lab == lab;
    MemberCounts(px, p);
    SumBetween(px, lab, lo, hi);
    QuotientBetween(SumU(px, lab), CountLabel(px, lab), lo, hi);
  }

  lemma {:induction false} SumBetween(px: seq<Pix>, lab: int, lo: int, hi: int)
    requires forall p | p in px && p.lab == lab :: lo <= p.u <= hi
    ensures lo * CountLabel(px, lab) <= SumU(px, lab) <= hi * CountLabel(px, lab)
  {
    if px != [] {
      var n := |px| - 1;
      assert px[n] in px;
      SumBetween(px[..n], lab, lo, hi);
      OneMoreTerm(lo, CountLabel(px[..n], lab));
      OneMoreTerm(hi, CountLabel(px[..n], lab));
    }
  }

  lemma OneMoreTerm(a: int, n: nat)
    ensures a * (n + 1) == a * n + a
  {
  }

  lemma QuotientBetween(s: int, n: nat, lo: int, hi: int)
    requires n > 0 && lo * n <= s <= hi * n
    ensures lo as real <= s as real / n as real <= hi as real
  {
    var k, m := n as real, s as real / n as real;
    RealProduct(lo, n);
    RealProduct(hi, n);
    assert m * k == s as real;
    NoSmaller(lo as real, m, k, lo as real * k, m * k);
    NoSmaller(m, hi as real, k, m * k, hi as real * k);
  }

  lemma RealProduct(a: int, b: int)
    ensures (a * b) as real == a as real * b as real
  {
  }

  lemma NoSmaller(a: real, b: real, n: real, p: real, q: real)
    requires n > 0.0 && p == a * n && q == b * n && p <= q
    ensures a <= b
  {
    assert (b - a) * n >= 0.0;
  }

  // ---- what the order promises ----

  lemma {:induction false} InRowsMembers(px: seq<Pix>, vMin: int, rows: int)
    ensures forall p :: p in InRows(px, vMin, rows) <==> p in px && vMin <= p.v < vMin + rows
  {
    if px != [] {
      InRowsMembers(px[..|px| - 1], vMin, rows);
      assert px == px[..|px| - 1] + [px[|px| - 1]];
    }
  }

  /** Every component is contiguous, near rows come first in it, and components go left to right. */
  lemma OrderedPolylines(px: seq<Pix>, vMin: int, rows: int)
    ensures var r := Ordered(px, vMin, rows);
            && multiset(r) == multiset(InRows(px, vMin, rows))
            && (forall i, j, k | 0 <= i < j < k < |r| && r[i].lab == r[k].lab :: r[j].lab == r[i].lab)
            && (forall i, j | 0 <= i < j < |r| && r[i].lab == r[j].lab ::
                  r[i].v > r[j].v || (r[i].v == r[j].v && r[i].u <= r[j].u))
            && (forall i, j | 0 <= i < j < |r| :: MeanU(px, r[i].lab) <= MeanU(px, r[j].lab))
            && (forall i, j | 0 <= i < j < |r| && MeanU(px, r[i].lab) == MeanU(px, r[j].lab) :: r[i].lab <= r[j].lab)
            && (forall p :: p in r <==> p in px && vMin <= p.v < vMin + rows)
  {
    var less := Less(Means(px));
    var s := InRows(px, vMin, rows);
    LessIsTotal(Means(px), Elements(s));
    InsertionSortSorts(less, s, Elements(s));
    var r := Ordered(px, vMin, rows);
    InRowsMembers(px, vMin, rows);
    SameMembers(r, s);
    forall i, j | 0 <= i < j < |r| ensures !KeyLess(Means(px), r[j], r[i]) {
      assert !less(r[j], r[i]);
    }
  }
}
