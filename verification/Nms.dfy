/** model_helpers.cpp: ranking of the detector's candidates and class-wise greedy suppression. */
module Nms {
  import opened Arithmetic
  import opened Sorting

  datatype Candidate = Candidate(x1: real, y1: real, x2: real, y2: real, score: real, lab: int, flat: int)

  datatype Detection = Detection(x1: real, y1: real, x2: real, y2: real, score: real, lab: int)

  /** Threshold, cut, scale, frame size and least box size. */
  datatype Settings = Settings(iou: real, maxDets: nat, sx: real, sy: real, fw: int, fh: int, minBox: real)

  const MAX_CAND: nat := 2048
  const TOP: nat := 1000

  function Area(a: Candidate): real {
    (a.x2 - a.x1) * (a.y2 - a.y1)
  }

  /** Of the overlap, when positive. */
  function Width(a: Candidate, b: Candidate): real {
    RMin(a.x2, b.x2) - RMax(a.x1, b.x1)
  }

  function Height(a: Candidate, b: Candidate): real {
    RMin(a.y2, b.y2) - RMax(a.y1, b.y1)
  }

  function Inter(a: Candidate, b: Candidate): real {
    Width(a, b) * Height(a, b)
  }

  function Iou(a: Candidate, b: Candidate): real {
    if Width(a, b) <= 0.0 || Height(a, b) <= 0.0 then 0.0
    else Share(Inter(a, b), Area(a) + Area(b) - Inter(a, b))
  }

  function Share(inter: real, uni: real): real {
    if uni > 0.0 then inter / uni else 0.0
  }

  lemma IouSymmetric(a: Candidate, b: Candidate)
    ensures Iou(a, b) == Iou(b, a)
  {
    hide Area, Share;
    assert Width(a, b) == Width(b, a) && Height(a, b) == Height(b, a);
  }

  lemma ProductBelow(a: real, b: real, c: real, d: real)
    requires 0.0 <= a <= c && 0.0 <= b <= d
    ensures 0.0 <= a * b <= c * d
  {
    assert 0.0 <= (c - a) * b && 0.0 <= c * (d - b);
  }

  /** The overlap of proper boxes is a share of their union: it lies between 0 and 1. */
  lemma IouIsShare(a: Candidate, b: Candidate)
    requires a.x1 <= a.x2 && a.y1 <= a.y2 && b.x1 <= b.x2 && b.y1 <= b.y2
    ensures 0.0 <= Iou(a, b) <= 1.0
  {
    hide Share;
    if Width(a, b) > 0.0 && Height(a, b) > 0.0 {
      ProductBelow(Width(a, b), Height(a, b), a.x2 - a.x1, a.y2 - a.y1);
      ProductBelow(Width(a, b), Height(a, b), b.x2 - b.x1, b.y2 - b.y1);
      assert Inter(a, b) <= Area(a) && Inter(a, b) <= Area(b);
      ShareBelowOne(Inter(a, b), Area(a) + Area(b) - Inter(a, b));
    }
  }

  lemma ShareBelowOne(p: real, q: real)
    requires 0.0 <= p <= q
    ensures 0.0 <= Share(p, q) <= 1.0
  {
  }

  // ---- the ranking ----

  function Better(): (Candidate, Candidate) -> bool {
    (a: Candidate, b: Candidate) => a.score > b.score || (a.score == b.score && a.flat < b.flat)
  }

  function BetterAt(cs: seq<Candidate>): (int, int) -> bool {
    (i: int, j: int) => 0 <= i < |cs| && 0 <= j < |cs| && Better()(cs[i], cs[j])
  }

  ghost predicate UniqueFlats(cs: seq<Candidate>) {
    forall i, j | 0 <= i < j < |cs| :: cs[i].flat != cs[j].flat
  }

  ghost predicate Indices(idx: seq<int>, n: nat) {
    forall k | 0 <= k < |idx| :: 0 <= idx[k] < n
  }

  function Ranked(cs: seq<Candidate>, idx: seq<int>): (r: seq<Candidate>)
    requires Indices(idx, |cs|)
    ensures |r| == |idx| && forall k | 0 <= k < |r| :: r[k] == cs[idx[k]]
  {
    seq(|idx|, k requires 0 <= k < |idx| => cs[idx[k]])
  }

  function Cut<T>(s: seq<T>, n: nat): seq<T> {
    if |s| > n then s[..n] else s
  }

  /** The best TOP candidates, sorted; `rest` are the others. */
  ghost predicate RankingWith(cs: seq<Candidate>, idx: seq<int>, rest: seq<int>) {
    && multiset(idx + rest) == multiset(Iota(|cs|)) && Indices(idx, |cs|) && Indices(rest, |cs|)
    && |idx| == (if |cs| > TOP then TOP else |cs|) && |idx| + |rest| == |cs|
    && SortedBy(BetterAt(cs), idx)
    && forall i, j | 0 <= i < |idx| && 0 <= j < |rest| :: !BetterAt(cs)(rest[j], idx[i])
  }

  /** A possible outcome of selecting the best TOP candidates and sorting them. */
  ghost predicate IsRanking(cs: seq<Candidate>, idx: seq<int>) {
    exists rest :: RankingWith(cs, idx, rest)
  }

  // ---- suppression ----

  predicate Overlaps(th: real, c: Candidate, k: Candidate) {
    k.lab == c.lab && Iou(c, k) > th
  }

  /** Some kept position suppresses c. */
  predicate Suppressed(th: real, ranked: seq<Candidate>, kept: seq<int>, c: Candidate) {
    exists i :: 0 <= i < |kept| && 0 <= kept[i] < |ranked| && Overlaps(th, c, ranked[kept[i]])
  }

  /** The positions the greedy pass keeps, best first. */
  function Kept(th: real, ranked: seq<Candidate>): (kept: seq<int>)
    ensures Indices(kept, |ranked|)
  {
    if ranked == [] then []
    else
      var n := |ranked| - 1;
      var kept := Kept(th, ranked[..n]);
      if Suppressed(th, ranked[..n], kept, ranked[n]) then kept else kept + [n]
  }

  lemma {:induction false} KeptPrefix(th: real, ranked: seq<Candidate>, n: nat)
    requires n <= |ranked|
    ensures forall i | 0 <= i < n :: i in Kept(th, ranked) <==> i in Kept(th, ranked[..n])
  {
    if n < |ranked| {
      KeptPrefix(th, ranked[..|ranked| - 1], n);
      assert ranked[..|ranked| - 1][..n] == ranked[..n];
    } else {
      assert ranked[..n] == ranked;
    }
  }

  /** A candidate is kept exactly when no better-ranked kept one of its label overlaps it too much. */
  lemma {:induction false} KeptIff(th: real, ranked: seq<Candidate>, j: nat)
    requires j < |ranked|
    ensures j in Kept(th, ranked) <==>
            forall i | 0 <= i < j && i in Kept(th, ranked) :: !Overlaps(th, ranked[j], ranked[i])
  {
    hide Overlaps;
    KeptPrefix(th, ranked, j + 1);
    KeptPrefix(th, ranked, j);
    var front, kept := ranked[..j], Kept(th, ranked[..j]);
    assert ranked[..j + 1][..j] == front;
    assert j in Kept(th, ranked) <==> !Suppressed(th, front, kept, ranked[j]);
    if Suppressed(th, front, kept, ranked[j]) {
      var k :| 0 <= k < |kept| && 0 <= kept[k] < |front| && Overlaps(th, ranked[j], front[kept[k]]);
      assert kept[k] in kept;
    }
    forall i | 0 <= i < j && i in Kept(th, ranked) && Overlaps(th, ranked[j], ranked[i])
      ensures Suppressed(th, front, kept, ranked[j])
    {
      var k :| 0 <= k < |kept| && kept[k] == i;
      assert front[kept[k]] == ranked[i];
    }
  }

  /** Two kept candidates of one label overlap by no more than the threshold. */
  lemma KeptApart(th: real, ranked: seq<Candidate>, i: nat, j: nat)
    requires i < |ranked| && j < |ranked| && i != j && i in Kept(th, ranked) && j in Kept(th, ranked)
    requires ranked[i].lab == ranked[j].lab
    ensures Iou(ranked[i], ranked[j]) <= th
  {
    hide Iou, Kept;
    KeptIff(th, ranked, i);
    KeptIff(th, ranked, j);
    IouSymmetric(ranked[i], ranked[j]);
    if i < j {
      assert !Overlaps(th, ranked[j], ranked[i]);
    } else {
      assert !Overlaps(th, ranked[i], ranked[j]);
    }
  }

  // ---- the output ----

  function Clamp(v: real, lo: real, hi: real): real {
    RMin(RMax(v, lo), hi)
  }

  function Scaled(s: Settings, c: Candidate): Detection {
    Detection(Clamp(c.x1 * s.sx, 0.0, (s.fw - 1) as real), Clamp(c.y1 * s.sy, 0.0, (s.fh - 1) as real),
              Clamp(c.x2 * s.sx, 0.0, (s.fw - 1) as real), Clamp(c.y2 * s.sy, 0.0, (s.fh - 1) as real), c.score, c.lab)
  }

  predicate BigEnough(s: Settings, d: Detection) {
    d.x2 - d.x1 > s.minBox && d.y2 - d.y1 > s.minBox
  }

  function Boxes(s: Settings, cs: seq<Candidate>): seq<Detection> {
    if cs == [] then []
    else
      var d := Scaled(s, cs[|cs| - 1]);
      Boxes(s, cs[..|cs| - 1]) + if BigEnough(s, d) then [d] else []
  }

  /** What a ranking leads to. */
  function Output(s: Settings, ranked: seq<Candidate>): seq<Detection> {
    Boxes(s, Ranked(ranked, Cut(Kept(s.iou, ranked), s.maxDets)))
  }

  /** The detections of a frame, told without indices. */
  function Detections(s: Settings, cs: seq<Candidate>): seq<Detection> {
    Output(s, Cut(InsertionSort(Better(), cs), TOP))
  }

  // ---- the ranking is unique when the flat indices are ----

  lemma BetterIsOrder(cs: seq<Candidate>)
    ensures StrictWeakOn(Better(), Elements(cs)) && StrictWeakOn(BetterAt(cs), Elements(Iota(|cs|)))
    ensures UniqueFlats(cs) ==> TotalOn(Better(), Elements(cs))
  {
    if UniqueFlats(cs) {
      forall x, y | x in Elements(cs) && y in Elements(cs) && x != y ensures Better()(x, y) || Better()(y, x) {
        var i :| 0 <= i < |cs| && cs[i] == x;
        var j :| 0 <= j < |cs| && cs[j] == y;
        assert cs[i].flat != cs[j].flat;
      }
    }
  }

  lemma RemoveAt(cs: seq<Candidate>, t: seq<int>, j: nat)
    requires j < |t| && Indices(t, |cs|)
    ensures Indices(t[..j] + t[j + 1..], |cs|)
    ensures multiset(t) == multiset(t[..j] + t[j + 1..]) + multiset{t[j]}
    ensures multiset(Ranked(cs, t)) == multiset(Ranked(cs, t[..j] + t[j + 1..])) + multiset{cs[t[j]]}
  {
    assert t == t[..j] + [t[j]] + t[j + 1..];
    var r := Ranked(cs, t);
    assert r == r[..j] + [r[j]] + r[j + 1..];
    assert Ranked(cs, t[..j] + t[j + 1..]) == r[..j] + r[j + 1..];
  }

  lemma {:induction false} RankedPermutes(cs: seq<Candidate>, s: seq<int>, t: seq<int>)
    requires Indices(s, |cs|) && Indices(t, |cs|) && multiset(s) == multiset(t)
    ensures multiset(Ranked(cs, s)) == multiset(Ranked(cs, t))
    decreases |s|
  {
    SameMembers(s, t);
    if s != [] {
      var n := |s| - 1;
      assert s[n] in t;
      var j :| 0 <= j < |t| && t[j] == s[n];
      RemoveAt(cs, t, j);
      RemoveAt(cs, s, n);
      assert s[..n] + s[n + 1..] == s[..n];
      assert multiset(s[..n]) == multiset(s) - multiset{s[n]};
      assert multiset(t[..j] + t[j + 1..]) == multiset(t) - multiset{s[n]};
      RankedPermutes(cs, s[..n], t[..j] + t[j + 1..]);
    } else {
      assert Ranked(cs, s) == Ranked(cs, t) == [];
    }
  }

  lemma RankingPermutes(cs: seq<Candidate>, idx: seq<int>, rest: seq<int>)
    requires RankingWith(cs, idx, rest)
    ensures Indices(idx, |cs|) && Indices(rest, |cs|)
    ensures multiset(Ranked(cs, idx) + Ranked(cs, rest)) == multiset(cs)
  {
    hide SortedBy, BetterAt;
    RankedPermutes(cs, idx + rest, Iota(|cs|));
    assert Ranked(cs, Iota(|cs|)) == cs;
    assert Ranked(cs, idx + rest) == Ranked(cs, idx) + Ranked(cs, rest);
  }

  lemma TopOfSort(cs: seq<Candidate>, idx: seq<int>, rest: seq<int>)
    requires RankingWith(cs, idx, rest) && UniqueFlats(cs) && Indices(idx, |cs|) && Indices(rest, |cs|)
    ensures Ranked(cs, idx) + InsertionSort(Better(), Ranked(cs, rest)) == InsertionSort(Better(), cs)
  {
    hide InsertionSort, StrictWeakOn, TotalOn, UniqueFlats, Elements, SortedBy, Better, BetterAt, RankingWith;
    BetterIsOrder(cs);
    var top, low := Ranked(cs, idx), Ranked(cs, rest);
    var tail := InsertionSort(Better(), low);
    RankingPermutes(cs, idx, rest);
    assert multiset(top + tail) == multiset(cs);
    AllElements(cs, top + tail);
    AllElements(cs, top + low);
    assert forall k | 0 <= k < |low| :: low[k] == (top + low)[|top| + k];
    InsertionSortSorts(Better(), low, Elements(cs));
    WholeSorted(cs, idx, rest);
    InsertionSortSorts(Better(), cs, Elements(cs));
    SortedUnique(Better(), top + tail, InsertionSort(Better(), cs), Elements(cs));
  }

  /** With unique flat indices every possible ranking is the top of the full sort. */
  lemma RankingIsTop(cs: seq<Candidate>, idx: seq<int>)
    requires IsRanking(cs, idx) && UniqueFlats(cs)
    ensures Indices(idx, |cs|) && Ranked(cs, idx) == Cut(InsertionSort(Better(), cs), TOP)
  {
    hide InsertionSort, UniqueFlats, RankingWith;
    var rest :| RankingWith(cs, idx, rest);
    RankingSizes(cs, idx, rest);
    TopOfSort(cs, idx, rest);
    var top := Ranked(cs, idx);
    assert (top + InsertionSort(Better(), Ranked(cs, rest)))[..|idx|] == top;
    assert |cs| <= TOP ==> InsertionSort(Better(), cs)[..|cs|] == InsertionSort(Better(), cs);
  }

  lemma RankingSizes(cs: seq<Candidate>, idx: seq<int>, rest: seq<int>)
    requires RankingWith(cs, idx, rest)
    ensures Indices(idx, |cs|) && Indices(rest, |cs|) && |idx| == (if |cs| > TOP then TOP else |cs|)
  {
    hide SortedBy, BetterAt;
  }

  lemma AllElements(cs: seq<Candidate>, s: seq<Candidate>)
    requires multiset(s) == multiset(cs)
    ensures |s| == |cs| && forall k | 0 <= k < |s| :: s[k] in Elements(cs)
    ensures forall k | 0 <= k < |cs| :: cs[k] in Elements(cs)
  {
    SameMembers(s, cs);
    forall k | 0 <= k < |s| ensures s[k] in Elements(cs) {
      assert s[k] in s;
    }
  }

  lemma WholeSorted(cs: seq<Candidate>, idx: seq<int>, rest: seq<int>)
    requires RankingWith(cs, idx, rest) && Indices(idx, |cs|) && Indices(rest, |cs|)
    requires SortedBy(Better(), InsertionSort(Better(), Ranked(cs, rest)))
    ensures SortedBy(Better(), Ranked(cs, idx) + InsertionSort(Better(), Ranked(cs, rest)))
  {
    hide InsertionSort;
    var top, low := Ranked(cs, idx), Ranked(cs, rest);
    var tail := InsertionSort(Better(), low);
    SameMembers(tail, low);
    forall i, j | 0 <= i < j < |top + tail| ensures !Better()((top + tail)[j], (top + tail)[i]) {
      if i < |top| && j >= |top| {
        assert tail[j - |top|] in low;
        var k :| 0 <= k < |low| && low[k] == tail[j - |top|];
        assert !BetterAt(cs)(rest[k], idx[i]);
      } else if j < |top| {
        assert !BetterAt(cs)(idx[j], idx[i]);
      }
    }
  }

  /** The detections do not depend on the order in which the candidates arrive. */
  lemma DetectionsPermute(s: Settings, a: seq<Candidate>, b: seq<Candidate>)
    requires multiset(a) == multiset(b) && UniqueFlats(a)
    ensures Detections(s, a) == Detections(s, b)
  {
    hide InsertionSort, StrictWeakOn, TotalOn, UniqueFlats, Elements, Output;
    BetterIsOrder(a);
    AllElements(a, b);
    AllElements(a, InsertionSort(Better(), a));
    InsertionSortSorts(Better(), a, Elements(a));
    InsertionSortSorts(Better(), b, Elements(a));
    SortedUnique(Better(), InsertionSort(Better(), a), InsertionSort(Better(), b), Elements(a));
  }

  // ---- the routine ----

  /** The contract of `std::nth_element`: the first n are none of them worse than the others. */
  method NthElement(idx: seq<int>, n: nat, less: (int, int) -> bool) returns (r: seq<int>)
    requires n <= |idx| && StrictWeakOn(less, Elements(idx))
    ensures multiset(r) == multiset(idx) && |r| == |idx|
    ensures forall i, j | 0 <= i < n <= j < |r| :: !less(r[j], r[i])
  {
    r := StdSort(idx, less);
  }

  method Rank(cs: seq<Candidate>) returns (idx: seq<int>)
    ensures IsRanking(cs, idx)
  {
    hide StrictWeakOn;
    idx := Iota(|cs|);
    ghost var rest := [];
    BetterIsOrder(cs);
    if |cs| > TOP {
      var r := NthElement(idx, TOP, BetterAt(cs));
      assert r == r[..TOP] + r[TOP..];
      idx, rest := r[..TOP], r[TOP..];
    }
    var some := idx;
    SubsetWeak(cs, some, rest);
    idx := StdSort(some, BetterAt(cs));
    RankingFound(cs, some, rest, idx);
  }

  lemma SubsetWeak(cs: seq<Candidate>, some: seq<int>, rest: seq<int>)
    requires multiset(some + rest) == multiset(Iota(|cs|))
    ensures StrictWeakOn(BetterAt(cs), Elements(some))
  {
    BetterIsOrder(cs);
    SameMembers(some + rest, Iota(|cs|));
    forall x | x in Elements(some) ensures x in Elements(Iota(|cs|)) {
      assert x in some + rest;
    }
  }

  lemma RankingFound(cs: seq<Candidate>, some: seq<int>, rest: seq<int>, idx: seq<int>)
    requires multiset(some + rest) == multiset(Iota(|cs|)) && |some| == (if |cs| > TOP then TOP else |cs|)
    requires multiset(idx) == multiset(some) && SortedBy(BetterAt(cs), idx)
    requires forall i, j | 0 <= i < |some| && 0 <= j < |rest| :: !BetterAt(cs)(rest[j], some[i])
    ensures IsRanking(cs, idx)
  {
    hide SortedBy, BetterAt;
    SameMembers(idx, some);
    assert multiset(idx + rest) == multiset(some + rest);
    SameMembers(idx + rest, Iota(|cs|));
    forall k | 0 <= k < |idx + rest| ensures 0 <= (idx + rest)[k] < |cs| {
      assert (idx + rest)[k] in Iota(|cs|);
    }
    assert forall k | 0 <= k < |idx| :: idx[k] == (idx + rest)[k];
    assert forall k | 0 <= k < |rest| :: rest[k] == (idx + rest)[|idx| + k];
    forall i, j | 0 <= i < |idx| && 0 <= j < |rest| ensures !BetterAt(cs)(rest[j], idx[i]) {
      assert idx[i] in some;
    }
    assert RankingWith(cs, idx, rest);
  }

  /** The greedy pass over the ranked indices. */
  method Suppress(cs: seq<Candidate>, idx: seq<int>, th: real) returns (keep: seq<int>)
    requires Indices(idx, |cs|)
    ensures var kept := Kept(th, Ranked(cs, idx));
            |keep| == |kept| && forall k | 0 <= k < |keep| :: keep[k] == idx[kept[k]]
  {
    hide Iou, Overlaps;
    keep := [];
    ghost var ranked := Ranked(cs, idx);
    for n := 0 to |idx|
      invariant var kept := Kept(th, ranked[..n]);
                |keep| == |kept| && forall k | 0 <= k < |keep| :: keep[k] == idx[kept[k]]
    {
      var i := idx[n];
      ghost var kept := Kept(th, ranked[..n]);
      assert ranked[..n + 1][..n] == ranked[..n];
      var suppressed := false;
      for k := 0 to |keep|
        invariant suppressed <==> exists j :: 0 <= j < k && Overlaps(th, cs[i], ranked[kept[j]])
      {
        if Overlaps(th, cs[i], cs[keep[k]]) {
          suppressed := true;
          break;
        }
      }
      if !suppressed {
        keep := keep + [i];
      }
    }
    assert ranked[..|idx|] == ranked;
  }

  method FillOutput(s: Settings, cs: seq<Candidate>, keep: seq<int>) returns (out: seq<Detection>)
    requires Indices(keep, |cs|)
    ensures out == Boxes(s, Ranked(cs, keep))
  {
    hide Scaled, BigEnough;
    out := [];
    ghost var all := Ranked(cs, keep);
    for k := 0 to |keep|
      invariant out == Boxes(s, all[..k])
    {
      assert all[..k + 1][..k] == all[..k];
      var d := Scaled(s, cs[keep[k]]);
      if BigEnough(s, d) {
        out := out + [d];
      }
    }
    assert all[..|keep|] == all;
  }

  /** `select_detections`: the output of some ranking, and of the only one when the flat indices differ. */
  method SelectDetections(candCount: int, cands: seq<Candidate>, s: Settings)
    returns (out: seq<Detection>, ghost idx: seq<int>)
    requires |cands| == MAX_CAND
    ensures candCount <= 0 ==> out == []
    ensures candCount > 0 ==>
              var cs := Cut(cands, candCount);
              && IsRanking(cs, idx) && Indices(idx, |cs|) && out == Output(s, Ranked(cs, idx))
              && (UniqueFlats(cs) ==> out == Detections(s, cs))
  {
    hide InsertionSort, UniqueFlats, Boxes, Kept, IsRanking;
    out, idx := [], [];
    var n := if candCount < MAX_CAND then candCount else MAX_CAND;
    if n <= 0 {
      return;
    }
    var cs := cands[..n];
    assert cs == Cut(cands, candCount);
    var ranking := Rank(cs);
    idx := ranking;
    RankingInRange(cs, idx);
    var keep := Suppress(cs, ranking, s.iou);
    ghost var kept := Kept(s.iou, Ranked(cs, idx));
    if |keep| > s.maxDets {
      keep := keep[..s.maxDets];
    }
    assert Ranked(cs, keep) == Ranked(Ranked(cs, idx), Cut(kept, s.maxDets));
    out := FillOutput(s, cs, keep);
    if UniqueFlats(cs) {
      RankingIsTop(cs, idx);
    }
  }

  lemma RankingInRange(cs: seq<Candidate>, idx: seq<int>)
    requires IsRanking(cs, idx)
    ensures Indices(idx, |cs|)
  {
    hide SortedBy, BetterAt;
    var rest :| RankingWith(cs, idx, rest);
  }
}
