/** thinning.cpp: the skeleton ordering routine with the scratch memory it reuses across frames. */
module SkeletonOrder {
  import opened Arithmetic
  import opened Sorting
  import opened SkeletonSpec
  import opened StampedTable
  import opened Buckets

  // ---- dense component ids ----

  /** The labels in order of first appearance, each once. */
  function Distinct(px: seq<Pix>): seq<int> {
    if px == [] then []
    else
      var d := Distinct(px[..|px| - 1]);
      Extend(d, px[|px| - 1].lab)
  }

  function Extend(labels: seq<int>, lab: int): seq<int> {
    if lab in labels then labels else labels + [lab]
  }

  lemma {:induction false} DistinctMembers(px: seq<Pix>)
    ensures forall p | p in px :: p.lab in Distinct(px)
    ensures forall lab :: lab in Distinct(px) <==> CountLabel(px, lab) > 0
    ensures forall lab | lab !in Distinct(px) :: SumU(px, lab) == 0
    ensures forall a, b | 0 <= a < b < |Distinct(px)| :: Distinct(px)[a] != Distinct(px)[b]
  {
    if px != [] {
      DistinctMembers(px[..|px| - 1]);
      assert px == px[..|px| - 1] + [px[|px| - 1]];
    }
  }

  lemma {:induction false} DistinctGrows(px: seq<Pix>, i: nat)
    requires i <= |px|
    ensures |Distinct(px[..i])| <= |Distinct(px)|
    decreases |px|
  {
    if i < |px| {
      assert px[..|px| - 1][..i] == px[..i];
      DistinctGrows(px[..|px| - 1], i);
    } else {
      assert px[..i] == px;
    }
  }

  /** Dense ids, counts and column sums agree with `px`. */
  ghost predicate CollectedIn(px: seq<Pix>, labels: seq<int>, cid: seq<int>, cnt: seq<int>, sumu: seq<real>) {
    && labels == Distinct(px)
    && |cnt| == |labels| == |sumu|
    && |cid| >= |px|
    && (forall i | 0 <= i < |px| :: 0 <= cid[i] < |labels| && labels[cid[i]] == px[i].lab)
    && (forall c | 0 <= c < |labels| ::
          cnt[c] == CountLabel(px, labels[c]) && sumu[c] == SumU(px, labels[c]) as real)
  }

  lemma Snoc(px: seq<Pix>, p: Pix, lab: int)
    ensures Distinct(px + [p]) == Extend(Distinct(px), p.lab)
    ensures CountLabel(px + [p], lab) == CountLabel(px, lab) + (if p.lab == lab then 1 else 0)
    ensures SumU(px + [p], lab) == SumU(px, lab) + (if p.lab == lab then p.u else 0)
  {
    assert (px + [p])[..|px|] == px;
  }

  lemma TallyStep(px: seq<Pix>, p: Pix, labels: seq<int>, cid: seq<int>, cnt: seq<int>, sumu: seq<real>, c: int)
    requires CollectedIn(px, labels, cid, cnt, sumu) && |px| < |cid|
    requires var labels' := Extend(labels, p.lab); 0 <= c < |labels'| && labels'[c] == p.lab
    ensures var cnt' := if p.lab in labels then cnt else cnt + [0];
            var sumu' := if p.lab in labels then sumu else sumu + [0.0];
            CollectedIn(px + [p], Extend(labels, p.lab), cid[|px| := c],
                        cnt'[c := cnt'[c] + 1], sumu'[c := sumu'[c] + p.u as real])
  {
    hide Distinct, CountLabel, SumU;
    DistinctMembers(px);
    DistinctMembers(px + [p]);
    Snoc(px, p, p.lab);
    var labels' := Extend(labels, p.lab);
    assert |labels| <= |labels'| && forall d | 0 <= d < |labels| :: labels'[d] == labels[d];
    forall d | 0 <= d < |labels'| && d != c
      ensures d < |labels|
      ensures CountLabel(px + [p], labels'[d]) == CountLabel(px, labels[d])
      ensures SumU(px + [p], labels'[d]) == SumU(px, labels[d])
    {
      Snoc(px, p, labels'[d]);
    }
  }

  // ---- component ranks ----

  function CompMean(cnt: seq<int>, sumu: seq<real>, c: int): real
    requires 0 <= c < |cnt| == |sumu|
  {
    if cnt[c] == 0 then 0.0 else sumu[c] / cnt[c] as real
  }

  /** The comparator of the component sort: (mean u, label). */
  function CompLess(labels: seq<int>, cnt: seq<int>, sumu: seq<real>): (int, int) -> bool
    requires |labels| == |cnt| == |sumu|
  {
    (a: int, b: int) =>
      && 0 <= a < |labels| && 0 <= b < |labels|
      && (|| CompMean(cnt, sumu, a) < CompMean(cnt, sumu, b)
          || (CompMean(cnt, sumu, a) == CompMean(cnt, sumu, b) && labels[a] < labels[b]))
  }

  ghost predicate RanksBy(less: (int, int) -> bool, n: nat, rank: seq<int>) {
    && |rank| == n
    && (forall a | 0 <= a < n :: 0 <= rank[a] < n)
    && (forall a, b | 0 <= a < n && 0 <= b < n :: rank[a] < rank[b] <==> less(a, b))
  }

  lemma PermutationOfIota(order: seq<int>, n: nat)
    requires multiset(order) == multiset(Iota(n))
    ensures |order| == n
    ensures forall k | 0 <= k < n :: 0 <= order[k] < n
    ensures forall x | 0 <= x < n :: x in order
    ensures forall i, j | 0 <= i < j < n :: order[i] != order[j]
  {
    SameMembers(order, Iota(n));
    forall k | 0 <= k < n ensures 0 <= order[k] < n {
      assert order[k] in order;
    }
    forall x | 0 <= x < n ensures x in order {
      assert Iota(n)[x] == x;
    }
    IotaOnce(n);
    forall i, j | 0 <= i < j < n ensures order[i] != order[j] {
      assert order == order[..j] + [order[j]] + order[j + 1..];
      assert multiset(order)[order[j]] <= 1;
      assert order[j] !in order[..j];
      assert order[..j][i] == order[i];
    }
  }

  lemma {:induction false} IotaOnce(n: nat)
    ensures forall x | 0 <= x < n :: multiset(Iota(n))[x] <= 1
    ensures forall x | x !in Iota(n) :: multiset(Iota(n))[x] == 0
  {
    if n > 0 {
      IotaOnce(n - 1);
      assert Iota(n) == Iota(n - 1) + [n - 1];
      assert n - 1 !in Iota(n - 1);
    }
  }

  lemma SortedOrderRanks(less: (int, int) -> bool, n: nat, order: seq<int>, rank: seq<int>)
    requires multiset(order) == multiset(Iota(n)) && SortedBy(less, order)
    requires TotalOn(less, Elements(Iota(n))) && StrictWeakOn(less, Elements(Iota(n)))
    requires |rank| == n == |order|
    requires forall k | 0 <= k < n :: 0 <= order[k] < n && rank[order[k]] == k
    ensures RanksBy(less, n, rank)
  {
    PermutationOfIota(order, n);
    forall a, b | 0 <= a < n && 0 <= b < n
      ensures 0 <= rank[a] < n && (rank[a] < rank[b] <==> less(a, b))
    {
      assert a in order && b in order;
      var i :| 0 <= i < n && order[i] == a;
      var j :| 0 <= j < n && order[j] == b;
      assert Iota(n)[a] == a && Iota(n)[b] == b;
      assert rank[order[i]] == i && rank[order[j]] == j;
    }
  }

  lemma CompLessIsTotal(labels: seq<int>, cnt: seq<int>, sumu: seq<real>)
    requires |labels| == |cnt| == |sumu|
    requires forall a, b | 0 <= a < b < |labels| :: labels[a] != labels[b]
    ensures StrictWeakOn(CompLess(labels, cnt, sumu), Elements(Iota(|labels|)))
    ensures TotalOn(CompLess(labels, cnt, sumu), Elements(Iota(|labels|)))
  {
    var less := CompLess(labels, cnt, sumu);
    var dom := Elements(Iota(|labels|));
    assert forall x | x in dom :: 0 <= x < |labels|;
  }

  // ---- bucket numbers ----

  /** rank * rows + (rows - 1 - (v - vMin)), or -1 for a row out of range. */
  function Key(v: int, rank: int, vMin: int, rows: int): int {
    if v - vMin < 0 || v - vMin >= rows then -1 else rank * rows + (rows - 1 - (v - vMin))
  }

  /** Phases 1 and 2 have been done for `px`. */
  ghost predicate Ranked(px: seq<Pix>, labels: seq<int>, cid: seq<int>,
                         cnt: seq<int>, sumu: seq<real>, rank: seq<int>) {
    && CollectedIn(px, labels, cid, cnt, sumu) && |cid| == |px|
    && RanksBy(CompLess(labels, cnt, sumu), |labels|, rank)
  }

  ghost predicate KeysOf(px: seq<Pix>, cid: seq<int>, rank: seq<int>, vMin: int, rows: int, keys: seq<int>) {
    && |keys| == |px| == |cid|
    && (forall i | 0 <= i < |px| :: 0 <= cid[i] < |rank|)
    && (forall i | 0 <= i < |px| :: keys[i] == Key(px[i].v, rank[cid[i]], vMin, rows))
  }

  lemma KeyParts(v: int, rank: int, vMin: int, rows: int, n: int)
    requires rows > 0 && 0 <= rank < n
    ensures var k := Key(v, rank, vMin, rows);
            && (k >= 0 <==> vMin <= v < vMin + rows)
            && k < n * rows
            && (k >= 0 ==> k / rows == rank && v == vMin + rows - 1 - k % rows)
  {
    var k := Key(v, rank, vMin, rows);
    if vMin <= v < vMin + rows {
      QuotientIs(rank * rows + (rows - 1 - (v - vMin)), rows, rank, rows - 1 - (v - vMin));
      Scaled(rank + 1, n, rows);
    } else {
      Scaled(0, n, rows);
    }
  }

  lemma KeyCompare(v: int, r: int, w: int, s: int, vMin: int, rows: int)
    requires 0 <= Key(v, r, vMin, rows) <= Key(w, s, vMin, rows)
    ensures r < s || (r == s && v >= w)
    ensures Key(v, r, vMin, rows) == Key(w, s, vMin, rows) ==> r == s && v == w
    ensures Key(v, r, vMin, rows) < Key(w, s, vMin, rows) ==> r < s || v > w
  {
    ProductOrder(r, s, rows);
  }

  lemma MeansAgree(px: seq<Pix>, labels: seq<int>, cid: seq<int>, cnt: seq<int>, sumu: seq<real>, c: int)
    requires CollectedIn(px, labels, cid, cnt, sumu) && 0 <= c < |labels|
    ensures CompMean(cnt, sumu, c) == Means(px)(labels[c])
  {
  }

  lemma RankOrder(px: seq<Pix>, labels: seq<int>, cid: seq<int>, cnt: seq<int>, sumu: seq<real>, rank: seq<int>,
                  a: int, b: int)
    requires Ranked(px, labels, cid, cnt, sumu, rank)
    requires 0 <= a < |labels| && 0 <= b < |labels|
    ensures rank[a] == rank[b] ==> labels[a] == labels[b]
    ensures rank[a] < rank[b] ==>
              || Means(px)(labels[a]) < Means(px)(labels[b])
              || (Means(px)(labels[a]) == Means(px)(labels[b]) && labels[a] < labels[b])
  {
    MeansAgree(px, labels, cid, cnt, sumu, a);
    MeansAgree(px, labels, cid, cnt, sumu, b);
    var less := CompLess(labels, cnt, sumu);
    assert rank[a] < rank[b] <==> less(a, b);
    assert rank[b] < rank[a] <==> less(b, a);
  }

  /** Bucket numbers increase along the key order. */
  lemma KeyOrder(px: seq<Pix>, labels: seq<int>, cid: seq<int>, cnt: seq<int>, sumu: seq<real>, rank: seq<int>,
                 vMin: int, rows: int, keys: seq<int>, i: nat, j: nat)
    requires Ranked(px, labels, cid, cnt, sumu, rank) && KeysOf(px, cid, rank, vMin, rows, keys) && rows > 0
    requires i < |px| && j < |px| && 0 <= keys[i] <= keys[j]
    ensures keys[i] < keys[j] ==> !KeyLess(Means(px), px[j], px[i])
    ensures keys[i] == keys[j] ==> px[i].lab == px[j].lab && px[i].v == px[j].v
  {
    var a, b := cid[i], cid[j];
    KeyCompare(px[i].v, rank[a], px[j].v, rank[b], vMin, rows);
    RankOrder(px, labels, cid, cnt, sumu, rank, a, b);
    assert labels[a] == px[i].lab && labels[b] == px[j].lab;
  }

  // ---- scattering the columns into their buckets ----

  function Us(px: seq<Pix>): (r: seq<int>)
    ensures |r| == |px|
  {
    seq(|px|, i requires 0 <= i < |px| => px[i].u)
  }

  /** `su` holds the columns of the first `i` pixels, bucket by bucket, and `cursor` the next free places. */
  ghost predicate Scattered(keys: seq<int>, us: seq<int>, nb: nat, i: nat, cursor: seq<int>, su: seq<int>) {
    && i <= |keys| == |us| && |cursor| == nb && |su| == Prefix(keys, nb)
    && (forall b | 0 <= b < nb :: cursor[b] == Prefix(keys, b) + Count(keys[..i], b))
    && (forall b | 0 <= b < nb :: cursor[b] <= |su| && su[Prefix(keys, b)..cursor[b]] == Sel(keys[..i], us[..i], b))
  }

  lemma ScatterRoom(keys: seq<int>, us: seq<int>, nb: nat, i: nat, cursor: seq<int>, su: seq<int>)
    requires Scattered(keys, us, nb, i, cursor, su) && i < |keys| && 0 <= keys[i] < nb
    ensures Prefix(keys, keys[i]) <= cursor[keys[i]] < Prefix(keys, keys[i] + 1) <= |su|
  {
    hide Sel, Count;
    RoomLeft(keys, i, keys[i]);
    PrefixMonotone(keys, keys[i] + 1, nb);
  }

  lemma SelSnoc<T>(keys: seq<int>, xs: seq<T>, i: nat, b: int)
    requires i < |keys| == |xs|
    ensures Sel(keys[..i + 1], xs[..i + 1], b) == Sel(keys[..i], xs[..i], b) + (if keys[i] == b then [xs[i]] else [])
    ensures Count(keys[..i + 1], b) == Count(keys[..i], b) + (if keys[i] == b then 1 else 0)
  {
    assert keys[..i + 1][..i] == keys[..i] && xs[..i + 1][..i] == xs[..i];
  }

  lemma ScatterSkip(keys: seq<int>, us: seq<int>, nb: nat, i: nat, cursor: seq<int>, su: seq<int>)
    requires Scattered(keys, us, nb, i, cursor, su) && i < |keys| && keys[i] < 0
    ensures Scattered(keys, us, nb, i + 1, cursor, su)
  {
    forall b | 0 <= b < nb
      ensures Count(keys[..i + 1], b) == Count(keys[..i], b)
      ensures Sel(keys[..i + 1], us[..i + 1], b) == Sel(keys[..i], us[..i], b)
    {
      SelSnoc(keys, us, i, b);
    }
  }

  lemma ScatterStepAt(keys: seq<int>, us: seq<int>, nb: nat, i: nat, cursor: seq<int>, su: seq<int>, b: nat)
    requires Scattered(keys, us, nb, i, cursor, su) && i < |keys| && 0 <= keys[i] < nb && b < nb
    ensures cursor[keys[i]] < |su|
    ensures var cursor' := cursor[keys[i] := cursor[keys[i]] + 1];
            var su' := su[cursor[keys[i]] := us[i]];
            && cursor'[b] == Prefix(keys, b) + Count(keys[..i + 1], b) <= |su'|
            && su'[Prefix(keys, b)..cursor'[b]] == Sel(keys[..i + 1], us[..i + 1], b)
  {
    hide Sel, Count;
    ScatterRoom(keys, us, nb, i, cursor, su);
    SelSnoc(keys, us, i, b);
    var at := cursor[keys[i]];
    var su' := su[at := us[i]];
    var lo, hi := Prefix(keys, b), cursor[b];
    if b == keys[i] {
      assert su'[lo..hi + 1] == su[lo..hi] + [us[i]];
    } else {
      CountGrows(keys, i, b);
      if b < keys[i] {
        PrefixMonotone(keys, b, keys[i]);
      } else {
        PrefixMonotone(keys, keys[i] + 1, b);
      }
      assert su'[lo..hi] == su[lo..hi];
    }
  }

  lemma ScatterStep(keys: seq<int>, us: seq<int>, nb: nat, i: nat, cursor: seq<int>, su: seq<int>)
    requires Scattered(keys, us, nb, i, cursor, su) && i < |keys| && 0 <= keys[i] < nb
    ensures cursor[keys[i]] < |su|
    ensures Scattered(keys, us, nb, i + 1, cursor[keys[i] := cursor[keys[i]] + 1], su[cursor[keys[i]] := us[i]])
  {
    ScatterRoom(keys, us, nb, i, cursor, su);
    var cursor' := cursor[keys[i] := cursor[keys[i]] + 1];
    var su' := su[cursor[keys[i]] := us[i]];
    forall b | 0 <= b < nb
      ensures cursor'[b] == Prefix(keys, b) + Count(keys[..i + 1], b) <= |su'|
      ensures su'[Prefix(keys, b)..cursor'[b]] == Sel(keys[..i + 1], us[..i + 1], b)
    {
      ScatterStepAt(keys, us, nb, i, cursor, su, b);
    }
  }

  // ---- what one bucket emits ----

  /** The pixels of a bucket with the given columns. */
  function Lift(lab: int, v: int, us: seq<int>): (r: seq<Pix>)
    ensures |r| == |us| && forall j | 0 <= j < |us| :: r[j] == Pix(lab, v, us[j])
  {
    if us == [] then [] else Lift(lab, v, us[..|us| - 1]) + [Pix(lab, v, us[|us| - 1])]
  }

  lemma LiftLast(lab: int, v: int, us: seq<int>, n: nat)
    requires |us| == n + 1
    ensures multiset(Lift(lab, v, us)) == multiset(Lift(lab, v, us[..n])) + multiset{Pix(lab, v, us[n])}
  {
  }

  lemma {:induction false} LiftMultiset(lab: int, v: int, us: seq<int>, p: Pix)
    ensures multiset(Lift(lab, v, us))[p] == if p.lab == lab && p.v == v then multiset(us)[p.u] else 0
  {
    hide Lift;
    if us != [] {
      var n := |us| - 1;
      LiftMultiset(lab, v, us[..n], p);
      LiftLast(lab, v, us, n);
      assert us == us[..n] + [us[n]];
      assert multiset(us)[p.u] == multiset(us[..n])[p.u] + multiset{us[n]}[p.u];
    }
  }

  lemma LiftPermute(lab: int, v: int, us: seq<int>, ws: seq<int>)
    requires multiset(us) == multiset(ws)
    ensures multiset(Lift(lab, v, us)) == multiset(Lift(lab, v, ws))
  {
    forall p: Pix ensures multiset(Lift(lab, v, us))[p] == multiset(Lift(lab, v, ws))[p] {
      LiftMultiset(lab, v, us, p);
      LiftMultiset(lab, v, ws, p);
    }
  }

  lemma {:induction false} SelColumns(keys: seq<int>, px: seq<Pix>, b: int, j: nat)
    requires |keys| == |px| && j < Count(keys, b)
    ensures Sel(keys, Us(px), b)[j] == Sel(keys, px, b)[j].u
  {
    var n := |keys| - 1;
    assert Us(px)[..n] == Us(px[..n]);
    if j < Count(keys[..n], b) {
      SelColumns(keys[..n], px[..n], b, j);
    }
  }

  lemma BucketPixel(px: seq<Pix>, labels: seq<int>, cid: seq<int>, cnt: seq<int>, sumu: seq<real>, rank: seq<int>,
                    vMin: int, rows: int, keys: seq<int>, b: nat, p: Pix, q: Pix)
    requires Ranked(px, labels, cid, cnt, sumu, rank) && KeysOf(px, cid, rank, vMin, rows, keys) && rows > 0
    requires p in Sel(keys, px, b) && q in Sel(keys, px, b)
    ensures p.lab == q.lab && p.v == vMin + rows - 1 - b % rows
  {
    hide Ranked;
    SelMembers(keys, px, b);
    var i :| 0 <= i < |px| && px[i] == p && keys[i] == b;
    var j :| 0 <= j < |px| && px[j] == q && keys[j] == b;
    KeyOrder(px, labels, cid, cnt, sumu, rank, vMin, rows, keys, i, j);
    assert 0 <= rank[cid[i]] by {
      CidRank(px, labels, cid, cnt, sumu, rank, i);
    }
    KeyParts(px[i].v, rank[cid[i]], vMin, rows, rank[cid[i]] + 1);
  }

  lemma CidRank(px: seq<Pix>, labels: seq<int>, cid: seq<int>, cnt: seq<int>, sumu: seq<real>, rank: seq<int>, i: nat)
    requires Ranked(px, labels, cid, cnt, sumu, rank) && i < |px|
    ensures |cid| == |px| && |rank| == |labels| && 0 <= cid[i] < |rank| && 0 <= rank[cid[i]] < |labels|
  {
  }

  /** Sorting the columns of bucket `b` permutes exactly the pixels of that bucket. */
  lemma BucketPixels(px: seq<Pix>, labels: seq<int>, cid: seq<int>, cnt: seq<int>, sumu: seq<real>, rank: seq<int>,
                     vMin: int, rows: int, keys: seq<int>, b: nat, sorted: seq<int>) returns (lab: int)
    requires Ranked(px, labels, cid, cnt, sumu, rank) && KeysOf(px, cid, rank, vMin, rows, keys) && rows > 0
    requires |keys| == |px|
    requires multiset(sorted) == multiset(Sel(keys, Us(px), b))
    ensures multiset(Lift(lab, vMin + rows - 1 - b % rows, sorted)) == multiset(Sel(keys, px, b))
  {
    hide *;
    var s := Sel(keys, px, b);
    var v := vMin + rows - 1 - b % rows;
    lab := if s == [] then 0 else s[0].lab;
    forall j | 0 <= j < |s| ensures s[j] == Pix(lab, v, Sel(keys, Us(px), b)[j]) {
      SelColumns(keys, px, b, j);
      BucketPixel(px, labels, cid, cnt, sumu, rank, vMin, rows, keys, b, s[j], s[0]);
    }
    assert s == Lift(lab, v, Sel(keys, Us(px), b));
    LiftPermute(lab, v, sorted, Sel(keys, Us(px), b));
  }

  // ---- the pixels emitted so far ----

  /** `em` are the pixels of the buckets below `b`, in key order, and the outputs are its coordinates. */
  ghost predicate Emitted(px: seq<Pix>, keys: seq<int>, b: nat, em: seq<Pix>, outV: seq<int>, outU: seq<int>)
    requires |keys| == |px|
  {
    && multiset(em) == multiset(Below(keys, px, b))
    && SortedBy(Less(Means(px)), em)
    && outV == Rows(em) && outU == Us(em)
  }

  function Rows(px: seq<Pix>): (r: seq<int>)
    ensures |r| == |px|
  {
    seq(|px|, i requires 0 <= i < |px| => px[i].v)
  }

  lemma SortedConcat(less: (Pix, Pix) -> bool, s: seq<Pix>, t: seq<Pix>)
    requires SortedBy(less, s) && SortedBy(less, t)
    requires forall x, y | x in s && y in t :: !less(y, x)
    ensures SortedBy(less, s + t)
  {
  }

  lemma LiftSorted(mean: int -> real, lab: int, v: int, us: seq<int>)
    requires SortedBy((a: int, b: int) => a < b, us)
    ensures SortedBy(Less(mean), Lift(lab, v, us))
  {
    var less := (a: int, b: int) => a < b;
    var r := Lift(lab, v, us);
    forall i, j | 0 <= i < j < |r| ensures !Less(mean)(r[j], r[i]) {
      assert !less(us[j], us[i]);
    }
  }

  lemma EmitStep(px: seq<Pix>, labels: seq<int>, cid: seq<int>, cnt: seq<int>, sumu: seq<real>, rank: seq<int>,
                 vMin: int, rows: int, keys: seq<int>, b: nat, sorted: seq<int>,
                 em: seq<Pix>, outV: seq<int>, outU: seq<int>) returns (em': seq<Pix>)
    requires Ranked(px, labels, cid, cnt, sumu, rank) && KeysOf(px, cid, rank, vMin, rows, keys) && rows > 0
    requires |keys| == |px|
    requires Emitted(px, keys, b, em, outV, outU)
    requires multiset(sorted) == multiset(Sel(keys, Us(px), b)) && SortedBy((x: int, y: int) => x < y, sorted)
    ensures var v := vMin + rows - 1 - b % rows;
            Emitted(px, keys, b + 1, em', outV + seq(|sorted|, _ => v), outU + sorted)
  {
    hide Ranked, KeysOf, Sel, Below, Lift, Less, Means, Us, Rows, SortedBy;
    var v := vMin + rows - 1 - b % rows;
    var lab := BucketPixels(px, labels, cid, cnt, sumu, rank, vMin, rows, keys, b, sorted);
    var chunk := Lift(lab, v, sorted);
    em' := em + chunk;
    BelowGrows(keys, px, b);
    LiftSorted(Means(px), lab, v, sorted);
    ChunkAfter(px, labels, cid, cnt, sumu, rank, vMin, rows, keys, b, em, chunk);
    JoinEmitted(px, keys, b, em, outV, outU, lab, v, sorted);
  }

  lemma JoinEmitted(px: seq<Pix>, keys: seq<int>, b: nat, em: seq<Pix>, outV: seq<int>, outU: seq<int>,
                    lab: int, v: int, sorted: seq<int>)
    requires |keys| == |px| && Emitted(px, keys, b, em, outV, outU)
    requires var chunk := Lift(lab, v, sorted);
             && multiset(Below(keys, px, b + 1)) == multiset(Below(keys, px, b)) + multiset(chunk)
             && SortedBy(Less(Means(px)), chunk)
             && forall x, y | x in em && y in chunk :: !KeyLess(Means(px), y, x)
    ensures Emitted(px, keys, b + 1, em + Lift(lab, v, sorted), outV + seq(|sorted|, _ => v), outU + sorted)
  {
    hide Lift;
    hide Below;
    hide MeanU;
    var chunk := Lift(lab, v, sorted);
    SortedConcat(Less(Means(px)), em, chunk);
    assert Rows(em + chunk) == outV + seq(|sorted|, _ => v);
    assert Us(em + chunk) == outU + sorted;
  }

  lemma ChunkAfter(px: seq<Pix>, labels: seq<int>, cid: seq<int>, cnt: seq<int>, sumu: seq<real>, rank: seq<int>,
                   vMin: int, rows: int, keys: seq<int>, b: nat, em: seq<Pix>, chunk: seq<Pix>)
    requires Ranked(px, labels, cid, cnt, sumu, rank) && KeysOf(px, cid, rank, vMin, rows, keys) && rows > 0
    requires |keys| == |px|
    requires multiset(em) == multiset(Below(keys, px, b)) && multiset(chunk) == multiset(Sel(keys, px, b))
    ensures forall x, y | x in em && y in chunk :: !KeyLess(Means(px), y, x)
  {
    SameMembers(em, Below(keys, px, b));
    SameMembers(chunk, Sel(keys, px, b));
    BelowMembers(keys, px, b);
    SelMembers(keys, px, b);
    forall x, y | x in em && y in chunk ensures !KeyLess(Means(px), y, x) {
      var i :| 0 <= i < |px| && px[i] == x && 0 <= keys[i] < b;
      var j :| 0 <= j < |px| && px[j] == y && keys[j] == b;
      KeyOrder(px, labels, cid, cnt, sumu, rank, vMin, rows, keys, i, j);
    }
  }

  lemma StartScatter(keys: seq<int>, us: seq<int>, nb: nat, cursor: seq<int>, su: seq<int>)
    requires |keys| == |us| && |cursor| == nb && |su| == Prefix(keys, nb)
    requires forall b | 0 <= b < nb :: cursor[b] == Prefix(keys, b)
    ensures Scattered(keys, us, nb, 0, cursor, su)
  {
    forall b | 0 <= b < nb ensures Prefix(keys, b) <= |su| {
      PrefixMonotone(keys, b, nb);
    }
  }

  lemma CursorInRange(keys: seq<int>, us: seq<int>, nb: nat, i: nat, cursor: seq<int>, su: seq<int>)
    requires Scattered(keys, us, nb, i, cursor, su) && i < |keys| && 0 <= keys[i] < nb
    ensures |cursor| == nb && 0 <= cursor[keys[i]] < |su|
  {
    ScatterRoom(keys, us, nb, i, cursor, su);
  }

  /** Bucket `b` is a range of places in an array of length `n`. */
  ghost predicate BucketAt(bucket: seq<int>, n: nat, b: int) {
    0 <= b < |bucket| - 1 && 0 <= bucket[b] <= bucket[b + 1] <= n
  }

  ghost predicate Bucketed(bucket: seq<int>, nb: nat, n: nat) {
    |bucket| == nb + 1 && forall b | 0 <= b < nb :: BucketAt(bucket, n, b)
  }

  /** The contents of bucket `b`. */
  function Segment(bucket: seq<int>, su: seq<int>, b: int): seq<int>
    requires BucketAt(bucket, |su|, b)
  {
    su[bucket[b]..bucket[b + 1]]
  }

  ghost predicate Prefixed(keys: seq<int>, nb: nat, bucket: seq<int>) {
    |bucket| == nb + 1 && forall b | 0 <= b <= nb :: bucket[b] == Prefix(keys, b)
  }

  lemma PrefixStart(keys: seq<int>)
    ensures Prefix(keys, 0) == 0
  {
  }

  lemma PrefixNext(keys: seq<int>, b: nat)
    ensures Prefix(keys, b + 1) == Prefix(keys, b) + Count(keys, b)
  {
  }

  lemma PrefixedBuckets(keys: seq<int>, nb: nat, bucket: seq<int>)
    requires Prefixed(keys, nb, bucket)
    ensures Bucketed(bucket, nb, bucket[nb])
  {
    forall b | 0 <= b < nb ensures BucketAt(bucket, bucket[nb], b) {
      PrefixMonotone(keys, b + 1, nb);
    }
  }

  /** Every bucket holds the columns of its pixels. */
  ghost predicate Filled(keys: seq<int>, us: seq<int>, nb: nat, bucket: seq<int>, su: seq<int>) {
    && |keys| == |us| && Bucketed(bucket, nb, |su|)
    && forall b | 0 <= b < nb :: Segment(bucket, su, b) == Sel(keys, us, b)
  }

  lemma EndScatter(keys: seq<int>, us: seq<int>, nb: nat, cursor: seq<int>, su: seq<int>, bucket: seq<int>)
    requires Scattered(keys, us, nb, |keys|, cursor, su) && Prefixed(keys, nb, bucket)
    ensures Filled(keys, us, nb, bucket, su)
  {
    PrefixedBuckets(keys, nb, bucket);
    forall b | 0 <= b < nb ensures Segment(bucket, su, b) == Sel(keys, us, b) {
      assert bucket[b] == Prefix(keys, b) && bucket[b + 1] == Prefix(keys, b + 1);
      assert keys[..|keys|] == keys && us[..|keys|] == us;
      assert cursor[b] == Prefix(keys, b) + Count(keys, b);
    }
  }

  lemma StartEmit(px: seq<Pix>, keys: seq<int>)
    requires |keys| == |px|
    ensures Emitted(px, keys, 0, [], [], [])
  {
    BelowZero(keys, px);
  }

  lemma {:induction false} BelowZero<T>(keys: seq<int>, xs: seq<T>)
    requires |keys| == |xs|
    ensures Below(keys, xs, 0) == []
  {
    if keys != [] {
      BelowZero(keys[..|keys| - 1], xs[..|keys| - 1]);
    }
  }

  /** Rewriting the places of bucket `b` leaves the later buckets alone. */
  lemma LaterBucket(bucket: seq<int>, nb: nat, b: nat, su: seq<int>, sorted: seq<int>, c: nat)
    requires Bucketed(bucket, nb, |su|) && b < c < nb && |sorted| == bucket[b + 1] - bucket[b]
    requires BucketAt(bucket, |su|, b)
    ensures var su' := su[..bucket[b]] + sorted + su[bucket[b + 1]..];
            |su'| == |su| && Segment(bucket, su', c) == Segment(bucket, su, c)
  {
    BucketsAscend(bucket, nb, |su|, b + 1, c);
    assert BucketAt(bucket, |su|, c);
  }

  lemma LaterBuckets(bucket: seq<int>, nb: nat, b: nat, su: seq<int>, sorted: seq<int>)
    requires Bucketed(bucket, nb, |su|) && b < nb && BucketAt(bucket, |su|, b) && |sorted| == bucket[b + 1] - bucket[b]
    ensures var su' := su[..bucket[b]] + sorted + su[bucket[b + 1]..];
            && |su'| == |su| && su'[bucket[b]..bucket[b + 1]] == sorted
            && forall c | b < c < nb :: Segment(bucket, su', c) == Segment(bucket, su, c)
  {
    forall c | b < c < nb
      ensures Segment(bucket, su[..bucket[b]] + sorted + su[bucket[b + 1]..], c) == Segment(bucket, su, c)
    {
      LaterBucket(bucket, nb, b, su, sorted, c);
    }
  }

  lemma {:induction false} BucketsAscend(bucket: seq<int>, nb: nat, n: nat, a: nat, b: nat)
    requires Bucketed(bucket, nb, n) && a <= b <= nb
    ensures bucket[a] <= bucket[b]
    decreases b - a
  {
    if a < b {
      assert BucketAt(bucket, n, a);
      BucketsAscend(bucket, nb, n, a + 1, b);
    }
  }

  // ---- the whole routine ----

  ghost function Keys(px: seq<Pix>, cid: seq<int>, rank: seq<int>, vMin: int, rows: int): (keys: seq<int>)
    requires |px| == |cid| && forall i | 0 <= i < |px| :: 0 <= cid[i] < |rank|
    ensures KeysOf(px, cid, rank, vMin, rows, keys)
  {
    seq(|px|, i requires 0 <= i < |px| => Key(px[i].v, rank[cid[i]], vMin, rows))
  }

  lemma KeysInRange(px: seq<Pix>, labels: seq<int>, cid: seq<int>, cnt: seq<int>, sumu: seq<real>, rank: seq<int>,
                    vMin: int, rows: int, keys: seq<int>, nb: int)
    requires Ranked(px, labels, cid, cnt, sumu, rank) && KeysOf(px, cid, rank, vMin, rows, keys) && rows > 0
    requires nb == |labels| * rows
    ensures forall i | 0 <= i < |keys| :: -1 <= keys[i] < nb && (keys[i] >= 0 <==> vMin <= px[i].v < vMin + rows)
  {
    forall i | 0 <= i < |keys| ensures -1 <= keys[i] < nb && (keys[i] >= 0 <==> vMin <= px[i].v < vMin + rows) {
      CidRank(px, labels, cid, cnt, sumu, rank, i);
      KeyParts(px[i].v, rank[cid[i]], vMin, rows, |labels|);
      assert rank[cid[i]] * rows >= 0;
    }
  }

  lemma {:induction false} BelowIsInRows(px: seq<Pix>, keys: seq<int>, nb: nat, vMin: int, rows: int)
    requires |keys| == |px|
    requires forall i | 0 <= i < |px| :: keys[i] < nb && (keys[i] >= 0 <==> vMin <= px[i].v < vMin + rows)
    ensures Below(keys, px, nb) == InRows(px, vMin, rows)
  {
    if px != [] {
      BelowIsInRows(px[..|px| - 1], keys[..|px| - 1], nb, vMin, rows);
    }
  }

  lemma EmittedIsOrdered(px: seq<Pix>, keys: seq<int>, nb: nat, vMin: int, rows: int,
                         em: seq<Pix>, outV: seq<int>, outU: seq<int>)
    requires |keys| == |px| && Emitted(px, keys, nb, em, outV, outU)
    requires forall i | 0 <= i < |px| :: keys[i] < nb && (keys[i] >= 0 <==> vMin <= px[i].v < vMin + rows)
    ensures outV == Rows(Ordered(px, vMin, rows)) && outU == Us(Ordered(px, vMin, rows))
  {
    BelowIsInRows(px, keys, nb, vMin, rows);
    var s := InRows(px, vMin, rows);
    var less, dom := Less(Means(px)), Elements(em);
    LessIsTotal(Means(px), dom);
    SameMembers(em, s);
    forall i | 0 <= i < |s| ensures s[i] in dom {
      assert s[i] in s;
    }
    InsertionSortSorts(less, s, dom);
    SortedUnique(less, em, InsertionSort(less, s), dom);
  }

  lemma {:induction false} NoRows(px: seq<Pix>, vMin: int, rows: int)
    requires rows <= 0
    ensures InRows(px, vMin, rows) == []
  {
    if px != [] {
      NoRows(px[..|px| - 1], vMin, rows);
    }
  }

  lemma NothingInRows(px: seq<Pix>, vMin: int, rows: int)
    requires px == [] || rows <= 0
    ensures Ordered(px, vMin, rows) == []
  {
    if rows <= 0 {
      NoRows(px, vMin, rows);
    }
  }

  /** A frame of at most kMaxSkel = 8192 pixels always leaves room in the table. */
  lemma {:induction false} DistinctAtMost(px: seq<Pix>)
    ensures |Distinct(px)| <= |px|
    ensures |px| <= 8192 ==> 4 * |Distinct(px)| <= SLOTS
  {
    if px != [] {
      DistinctAtMost(px[..|px| - 1]);
    }
  }

  class SkelScratch {
    var table: array<Slot>
    var stamp: nat
    var cid: seq<int>
    var labels: seq<int>
    var cnt: seq<int>
    var sumu: seq<real>
    var order: seq<int>
    var rank: seq<int>
    var bucket: seq<int>
    var cursor: seq<int>
    var su: seq<int>
    ghost var probes: seq<nat>

    /** What the scratch memory must satisfy between calls: no slot is stamped ahead of time. */
    ghost predicate Valid()
      reads this, table
    {
      && stamp < STAMPS
      && (table.Length == 0 || table.Length == SLOTS)
      && (forall p | 0 <= p < table.Length :: table[p].stamp <= stamp)
    }

    /** The current slots are exactly the labels interned so far in this call. */
    ghost predicate Interning()
      reads this, table
    {
      && Valid()
      && table.Length == SLOTS && |cnt| == |labels| == |sumu|
      && Holds(table[..], stamp, labels, probes)
    }

    constructor ()
      ensures Valid() && fresh(table)
    {
      table := new Slot[0];
      stamp := 0;
      cid, labels, cnt, sumu, order, rank, bucket, cursor, su := [], [], [], [], [], [], [], [], [];
      probes := [];
    }

    /** A fresh stamp empties the table without touching it, except when the stamp wraps around. */
    method BeginCall()
      requires Valid()
      modifies this, table
      ensures Interning() && labels == []
      ensures table == old(table) || fresh(table)
      ensures stamp == if old(stamp) + 1 == STAMPS then 1 else old(stamp) + 1
    {
      if table.Length == 0 {
        table := new Slot[SLOTS](_ => Slot(0, 0, 0));
      }
      stamp := (stamp + 1) % STAMPS;
      if stamp == 0 {
        ClearStamps(table);
        stamp := 1;
      }
      labels, cnt, sumu := [], [], [];
      probes := [];
      EmptyHolds(table[..], stamp);
    }

    static method ClearStamps(t: array<Slot>)
      modifies t
      ensures forall p | 0 <= p < t.Length :: t[p].stamp == 0
    {
      for i := 0 to t.Length
        invariant forall p | 0 <= p < i :: t[p].stamp == 0
      {
        t[i] := t[i].(stamp := 0);
      }
    }

    /** Probes linearly until a free slot or the slot of `lab`. */
    method Probe(lab: int) returns (h: nat, ghost k: nat)
      requires Interning()
      requires lab in labels || |labels| < SLOTS
      ensures k < SLOTS && h == At(lab, k) && Missed(table[..], stamp, lab, k)
      ensures table[h].stamp != stamp <==> lab !in labels
      ensures table[h].stamp == stamp ==> table[h].lab == lab
    {
      hide Holds, At, Hash, Missed;
      ProbeStarts(table[..], stamp, lab);
      h, k := Hash(lab), 0;
      while table[h].stamp == stamp && table[h].lab != lab
        invariant k < SLOTS && h == At(lab, k)
        invariant Missed(table[..], stamp, lab, k)
        decreases SLOTS - k
      {
        ProbeMoves(table[..], stamp, lab, k);
        if k + 1 == SLOTS {
          ProbeEnds(table[..], stamp, labels, probes, lab);
        }
        h := (h + 1) % SLOTS;
        k := k + 1;
      }
      if table[h].stamp == stamp {
        HitIsId(table[..], stamp, labels, probes, h);
      } else {
        FreeMeansAbsent(table[..], stamp, labels, probes, lab, k);
      }
    }

    /** The dense id of `lab`: its old id, or the next one when it is new in this call. */
    method Intern(lab: int) returns (idx: int)
      requires Interning()
      requires lab in labels || |labels| < SLOTS
      modifies this`labels, this`cnt, this`sumu, this`probes, table
      ensures Interning()
      ensures labels == Extend(old(labels), lab)
      ensures cnt == if lab in old(labels) then old(cnt) else old(cnt) + [0]
      ensures sumu == if lab in old(labels) then old(sumu) else old(sumu) + [0.0]
      ensures 0 <= idx < |labels| && labels[idx] == lab
    {
      ghost var k: nat;
      var h;
      h, k := Probe(lab);
      if table[h].stamp != stamp {
        ClaimHolds(table[..], stamp, labels, probes, lab, k);
        ghost var claimed := table[..][h := Slot(stamp, lab, |labels|)];
        table[h] := Slot(stamp, lab, |labels|);
        assert table[..] == claimed;
        labels, cnt, sumu := labels + [lab], cnt + [0], sumu + [0.0];
        probes := probes + [k];
      }
      HitIsId(table[..], stamp, labels, probes, h);
      idx := table[h].idx;
    }

    /** Phase 1 has been done for `px`. */
    ghost predicate Collected(px: seq<Pix>)
      reads this
    {
      CollectedIn(px, labels, cid, cnt, sumu)
    }

    /** One more pixel: its component id, and its component's count and column sum. */
    method Tally(i: nat, p: Pix, ghost done: seq<Pix>)
      requires Interning() && Collected(done) && |done| == i < |cid|
      requires p.lab in labels || |labels| < SLOTS
      modifies this`cid, this`labels, this`cnt, this`sumu, this`probes, table
      ensures Interning() && Collected(done + [p]) && |cid| == |old(cid)|
    {
      hide Holds;
      hide CollectedIn;
      var c := Intern(p.lab);
      TallyStep(done, p, old(labels), old(cid), old(cnt), old(sumu), c);
      cid := cid[i := c];
      cnt := cnt[c := cnt[c] + 1];
      sumu := sumu[c := sumu[c] + p.u as real];
    }

    /** Phase 1: dense component ids, pixel counts and column sums. */
    method CollectComponents(px: seq<Pix>)
      requires Interning() && labels == []
      requires |Distinct(px)| <= SLOTS
      modifies this`cid, this`labels, this`cnt, this`sumu, this`probes, table
      ensures Valid() && Collected(px) && |cid| == |px|
    {
      hide Holds;
      cid := seq(|px|, _ => 0);
      for i := 0 to |px|
        invariant Interning() && Collected(px[..i]) && |cid| == |px|
      {
        DistinctGrows(px, i + 1);
        assert px[..i + 1] == px[..i] + [px[i]];
        assert px[..i + 1][..i] == px[..i];
        Tally(i, px[i], px[..i]);
      }
      assert px[..|px|] == px;
    }

    /** Phase 2: the place of each component in the (mean u, label) order. */
    method RankComponents()
      requires |labels| == |cnt| == |sumu|
      requires forall a, b | 0 <= a < b < |labels| :: labels[a] != labels[b]
      modifies this`order, this`rank
      ensures RanksBy(CompLess(labels, cnt, sumu), |labels|, rank)
    {
      var less := CompLess(labels, cnt, sumu);
      CompLessIsTotal(labels, cnt, sumu);
      var sorted := StdSort(Iota(|labels|), less);
      order := sorted;
      PermutationOfIota(order, |labels|);
      rank := seq(|labels|, _ => 0);
      for k := 0 to |labels|
        invariant order == sorted && |rank| == |labels|
        invariant forall j | 0 <= j < k :: rank[order[j]] == j
      {
        rank := rank[order[k] := k];
      }
      SortedOrderRanks(less, |labels|, order, rank);
    }

    /** Phases 1 and 2 have been done for `px`. */
    ghost predicate ReadyFor(px: seq<Pix>)
      reads this
    {
      Ranked(px, labels, cid, cnt, sumu, rank)
    }

    function BucketOf(px: seq<Pix>, i: nat, vMin: int, rows: int): int
      reads this
      requires i < |px| == |cid| && 0 <= cid[i] < |rank|
    {
      Key(px[i].v, rank[cid[i]], vMin, rows)
    }

    /** Phase 3: bucket[b + 1] counts the pixels of bucket b. */
    method CountBuckets(px: seq<Pix>, vMin: int, rows: int, nb: nat, ghost keys: seq<int>)
      requires KeysOf(px, cid, rank, vMin, rows, keys)
      requires forall i | 0 <= i < |keys| :: -1 <= keys[i] < nb
      modifies this`bucket
      ensures |bucket| == nb + 1 && bucket[0] == 0
      ensures forall b | 0 <= b < nb :: bucket[b + 1] == Count(keys, b)
    {
      bucket := seq(nb + 1, _ => 0);
      assert keys[..0] == [];
      for i := 0 to |px|
        invariant |bucket| == nb + 1 && bucket[0] == 0
        invariant forall b | 0 <= b < nb :: bucket[b + 1] == Count(keys[..i], b)
      {
        var b := BucketOf(px, i, vMin, rows);
        assert keys[..i + 1] == keys[..i] + [keys[i]];
        forall c | 0 <= c < nb
          ensures Count(keys[..i + 1], c) == Count(keys[..i], c) + (if keys[i] == c then 1 else 0)
        {
          CountSnoc(keys[..i], keys[i], c);
        }
        if b >= 0 {
          bucket := bucket[b + 1 := bucket[b + 1] + 1];
        }
      }
      assert keys[..|px|] == keys;
    }

    /** Phase 3: the running sum makes bucket[b] the place where bucket b starts. */
    method AccumulateBuckets(nb: nat, ghost keys: seq<int>)
      requires |bucket| == nb + 1 && bucket[0] == 0
      requires forall b | 0 <= b < nb :: bucket[b + 1] == Count(keys, b)
      modifies this`bucket
      ensures Prefixed(keys, nb, bucket)
    {
      hide Count, Prefix;
      ghost var counts := bucket;
      PrefixStart(keys);
      for b := 0 to nb
        invariant |bucket| == nb + 1 && |counts| == nb + 1
        invariant forall c | 0 <= c <= b :: bucket[c] == Prefix(keys, c)
        invariant forall c | b < c <= nb :: bucket[c] == counts[c]
      {
        PrefixNext(keys, b);
        bucket := bucket[b + 1 := bucket[b + 1] + bucket[b]];
      }
    }

    /** Phase 3: every column goes to the next free place of its bucket. */
    method ScatterColumns(px: seq<Pix>, vMin: int, rows: int, nb: nat, ghost keys: seq<int>)
      requires KeysOf(px, cid, rank, vMin, rows, keys)
      requires forall i | 0 <= i < |keys| :: -1 <= keys[i] < nb
      requires Prefixed(keys, nb, bucket)
      modifies this`cursor, this`su
      ensures Filled(keys, Us(px), nb, bucket, su)
    {
      hide Scattered, Filled, Prefix, Count;
      ghost var us := Us(px);
      cursor := bucket[..nb];
      su := seq(bucket[nb], _ => 0);
      StartScatter(keys, us, nb, cursor, su);
      for i := 0 to |px|
        invariant Scattered(keys, us, nb, i, cursor, su)
      {
        var b := BucketOf(px, i, vMin, rows);
        if b >= 0 {
          CursorInRange(keys, us, nb, i, cursor, su);
          ScatterStep(keys, us, nb, i, cursor, su);
          su := su[cursor[b] := px[i].u];
          cursor := cursor[b := cursor[b] + 1];
        } else {
          ScatterSkip(keys, us, nb, i, cursor, su);
        }
      }
      EndScatter(keys, us, nb, cursor, su, bucket);
    }

    /** Phase 4: sort each bucket's columns in place and emit them with the bucket's row. */
    method EmitBuckets(px: seq<Pix>, vMin: int, rows: int, nb: nat, ghost keys: seq<int>)
      returns (outV: seq<int>, outU: seq<int>, ghost em: seq<Pix>)
      requires ReadyFor(px) && KeysOf(px, cid, rank, vMin, rows, keys) && |keys| == |px| && rows > 0
      requires Filled(keys, Us(px), nb, bucket, su)
      modifies this`su
      ensures Emitted(px, keys, nb, em, outV, outU)
    {
      hide Ranked, KeysOf, Emitted, Sel, Us, SortedBy;
      outV, outU, em := [], [], [];
      StartEmit(px, keys);
      for b := 0 to nb
        invariant Bucketed(bucket, nb, |su|)
        invariant forall c | b <= c < nb :: Segment(bucket, su, c) == Sel(keys, Us(px), c)
        invariant Emitted(px, keys, b, em, outV, outU)
      {
        assert BucketAt(bucket, |su|, b);
        var s, e := bucket[b], bucket[b + 1];
        assert su[s..e] == Segment(bucket, su, b);
        var sorted := StdSort(su[s..e], (x: int, y: int) => x < y);
        em := EmitStep(px, labels, cid, cnt, sumu, rank, vMin, rows, keys, b, sorted, em, outV, outU);
        LaterBuckets(bucket, nb, b, su, sorted);
        su := su[..s] + sorted + su[e..];
        var v := vMin + rows - 1 - b % rows;
        outV := outV + seq(e - s, _ => v);
        outU := outU + su[s..e];
      }
    }

    /** Orders the pixels as polylines, whatever earlier frames left in the scratch memory.
        Probing ends only while the distinct labels fit into the table. */
    method OrderSkeletonPixels(px: seq<Pix>, vMin: int, rows: int) returns (outV: seq<int>, outU: seq<int>)
      requires Valid() && |Distinct(px)| <= SLOTS
      modifies this, table
      ensures Valid() && (table == old(table) || fresh(table))
      ensures outV == Rows(Ordered(px, vMin, rows)) && outU == Us(Ordered(px, vMin, rows))
    {
      hide Ordered, Holds, SumU, Emitted, Filled, Prefixed;
      outV, outU := [], [];
      if |px| <= 0 || rows <= 0 {
        NothingInRows(px, vMin, rows);
        return;
      }
      BeginCall();
      CollectComponents(px);
      DistinctMembers(px);
      RankComponents();
      var nb := |labels| * rows;
      ghost var keys := Keys(px, cid, rank, vMin, rows);
      KeysInRange(px, labels, cid, cnt, sumu, rank, vMin, rows, keys, nb);
      CountBuckets(px, vMin, rows, nb, keys);
      AccumulateBuckets(nb, keys);
      ScatterColumns(px, vMin, rows, nb, keys);
      ghost var em;
      outV, outU, em := EmitBuckets(px, vMin, rows, nb, keys);
      EmittedIsOrdered(px, keys, nb, vMin, rows, em, outV, outU);
    }
  }
}
