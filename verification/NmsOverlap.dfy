/** model_helpers.cpp in terms of boxes and scores: what the overlap measures, which candidates survive, and in
    which order and size they come out. */
module NmsOverlap {
  import opened Nms

  predicate Proper(a: Candidate) {
    a.x1 < a.x2 && a.y1 < a.y2
  }

  // ---- the overlap ----

  lemma ShareIs(p: real, q: real, r: real)
    requires q > 0.0 && p == r * q
    ensures Share(p, q) == r
  {
    assert p / q * q == p;
    assert (p / q - r) * q == 0.0;
  }

  /** Boxes without a common point, or with no more than an edge, do not overlap. */
  lemma ApartIsZero(a: Candidate, b: Candidate)
    requires a.x2 <= b.x1 || a.y2 <= b.y1
    ensures Iou(a, b) == 0.0
  {
  }

  lemma SameIsOne(a: Candidate)
    requires Proper(a)
    ensures Iou(a, a) == 1.0
  {
    hide Share;
    AreaPositive(a.x2 - a.x1, a.y2 - a.y1, Area(a));
    ShareIs(Inter(a, a), Area(a) + Area(a) - Inter(a, a), 1.0);
  }

  lemma AreaPositive(w: real, h: real, p: real)
    requires w > 0.0 && h > 0.0 && p == w * h
    ensures p > 0.0
  {
  }

  /** A box inside another one overlaps it by its share of the area. */
  lemma InsideIsShare(a: Candidate, b: Candidate, r: real)
    requires Proper(a) && b.x1 <= a.x1 && a.x2 <= b.x2 && b.y1 <= a.y1 && a.y2 <= b.y2
    requires (a.x2 - a.x1) * (a.y2 - a.y1) == r * ((b.x2 - b.x1) * (b.y2 - b.y1))
    ensures Iou(a, b) == r
  {
    hide Share;
    AreaPositive(b.x2 - b.x1, b.y2 - b.y1, Area(b));
    assert Width(a, b) == a.x2 - a.x1 && Height(a, b) == a.y2 - a.y1;
    ShareIs(Inter(a, b), Area(a) + Area(b) - Inter(a, b), r);
  }

  /** Two boxes side by side in the same rows overlap by the common part of their joint width. */
  lemma SideBySide(a: Candidate, b: Candidate, r: real)
    requires a.x1 <= b.x1 < a.x2 <= b.x2 && a.y1 == b.y1 && a.y2 == b.y2 && a.y1 < a.y2
    requires a.x2 - b.x1 == r * (b.x2 - a.x1)
    ensures Iou(a, b) == r
  {
    hide Share;
    var h := a.y2 - a.y1;
    assert Width(a, b) == a.x2 - b.x1 && Height(a, b) == h;
    Rows(a.x1, b.x1, a.x2, b.x2, h, Area(a), Area(b), Inter(a, b));
    AreaPositive(b.x2 - a.x1, h, Area(a) + Area(b) - Inter(a, b));
    Scale(a.x2 - b.x1, b.x2 - a.x1, r, h, Inter(a, b), Area(a) + Area(b) - Inter(a, b));
    ShareIs(Inter(a, b), Area(a) + Area(b) - Inter(a, b), r);
  }

  lemma Rows(x1: real, u1: real, x2: real, u2: real, h: real, a: real, b: real, i: real)
    requires a == (x2 - x1) * h && b == (u2 - u1) * h && i == (x2 - u1) * h
    ensures a + b - i == (u2 - x1) * h
  {
  }

  lemma Scale(p: real, q: real, r: real, h: real, i: real, u: real)
    requires p == r * q && i == p * h && u == q * h
    ensures i == r * u
  {
  }

  // ---- who survives ----

  /** A suppressed candidate overlaps a better-ranked survivor of its label by more than the threshold. */
  lemma SuppressedHasCause(th: real, ranked: seq<Candidate>, j: nat) returns (i: int)
    requires j < |ranked| && j !in Kept(th, ranked)
    ensures 0 <= i < j && i in Kept(th, ranked) && ranked[i].lab == ranked[j].lab && Iou(ranked[j], ranked[i]) > th
  {
    hide Kept, Iou;
    KeptIff(th, ranked, j);
    i :| 0 <= i < j && i in Kept(th, ranked) && Overlaps(th, ranked[j], ranked[i]);
  }

  /** A candidate that no better-ranked one of its label overlaps by more than the threshold survives. The first
      one always does. */
  lemma ClearSurvives(th: real, ranked: seq<Candidate>, j: nat)
    requires j < |ranked|
    requires forall i | 0 <= i < j && ranked[i].lab == ranked[j].lab :: Iou(ranked[j], ranked[i]) <= th
    ensures j in Kept(th, ranked)
  {
    hide Kept, Iou;
    KeptIff(th, ranked, j);
  }

  // ---- the ranking ----

  /** Scores never rise along a ranking, equal scores come with rising flat indices, and no candidate left out has
      a better score. */
  lemma RankedByScore(cs: seq<Candidate>, idx: seq<int>, rest: seq<int>)
    requires RankingWith(cs, idx, rest)
    ensures Indices(idx, |cs|) && Indices(rest, |cs|) && |idx| == if |cs| > 1000 then 1000 else |cs|
    ensures forall i, j | 0 <= i < j < |idx| ::
              && cs[idx[i]].score >= cs[idx[j]].score
              && (cs[idx[i]].score == cs[idx[j]].score ==> cs[idx[i]].flat <= cs[idx[j]].flat)
    ensures forall i, j | 0 <= i < |idx| && 0 <= j < |rest| :: cs[idx[i]].score >= cs[rest[j]].score
  {
    forall i, j | 0 <= i < j < |idx|
      ensures cs[idx[i]].score >= cs[idx[j]].score
      ensures cs[idx[i]].score == cs[idx[j]].score ==> cs[idx[i]].flat <= cs[idx[j]].flat
    {
      assert !BetterAt(cs)(idx[j], idx[i]);
      NotBetter(cs[idx[j]], cs[idx[i]]);
    }
    forall i, j | 0 <= i < |idx| && 0 <= j < |rest| ensures cs[idx[i]].score >= cs[rest[j]].score {
      assert !BetterAt(cs)(rest[j], idx[i]);
      NotBetter(cs[rest[j]], cs[idx[i]]);
    }
  }

  lemma NotBetter(a: Candidate, b: Candidate)
    ensures !Better()(a, b) <==> a.score < b.score || (a.score == b.score && a.flat >= b.flat)
  {
  }

  // ---- the boxes ----

  /** r is v times k, or the nearest of the numbers 0 .. n - 1 where that lies outside. */
  predicate Pressed(v: real, k: real, n: int, r: real) {
    var p, top := v * k, (n - 1) as real;
    (p < 0.0 && r == 0.0) || (0.0 <= p <= top && r == p) || (p > top && r == top)
  }

  /** d is candidate c on the frame: scaled, pressed into the frame, and larger than the least box on both sides. */
  predicate Drawn(s: Settings, c: Candidate, d: Detection) {
    && Pressed(c.x1, s.sx, s.fw, d.x1) && Pressed(c.x2, s.sx, s.fw, d.x2)
    && Pressed(c.y1, s.sy, s.fh, d.y1) && Pressed(c.y2, s.sy, s.fh, d.y2)
    && d.score == c.score && d.lab == c.lab && d.x2 > d.x1 + s.minBox && d.y2 > d.y1 + s.minBox
  }

  lemma ScaledIsDrawn(s: Settings, c: Candidate)
    requires s.fw >= 1 && s.fh >= 1
    ensures BigEnough(s, Scaled(s, c)) ==> Drawn(s, c, Scaled(s, c))
    ensures forall d :: Drawn(s, c, d) ==> d == Scaled(s, c) && BigEnough(s, d)
  {
    hide Scaled, Pressed;
    PressedAcross(s, c);
    PressedDown(s, c);
    ScaledKeeps(s, c);
  }

  lemma PressedAcross(s: Settings, c: Candidate)
    requires s.fw >= 1
    ensures var d := Scaled(s, c);
            && (forall r :: Pressed(c.x1, s.sx, s.fw, r) <==> r == d.x1)
            && (forall r :: Pressed(c.x2, s.sx, s.fw, r) <==> r == d.x2)
  {
  }

  lemma PressedDown(s: Settings, c: Candidate)
    requires s.fh >= 1
    ensures var d := Scaled(s, c);
            && (forall r :: Pressed(c.y1, s.sy, s.fh, r) <==> r == d.y1)
            && (forall r :: Pressed(c.y2, s.sy, s.fh, r) <==> r == d.y2)
  {
  }

  lemma ScaledKeeps(s: Settings, c: Candidate)
    ensures Scaled(s, c).score == c.score && Scaled(s, c).lab == c.lab
  {
    hide Clamp;
  }

  /** The output holds, in their order, exactly the candidates that can be drawn: from[k] is where box k came from. */
  lemma {:induction false} BoxesAreDrawn(s: Settings, cs: seq<Candidate>) returns (from: seq<int>)
    requires s.fw >= 1 && s.fh >= 1
    ensures |from| == |Boxes(s, cs)|
    ensures forall k | 0 <= k < |from| :: 0 <= from[k] < |cs| && Drawn(s, cs[from[k]], Boxes(s, cs)[k])
    ensures forall j, k | 0 <= j < k < |from| :: from[j] < from[k]
    ensures forall i | 0 <= i < |cs| && i !in from :: forall d :: !Drawn(s, cs[i], d)
  {
    hide Drawn, Scaled, BigEnough;
    from := [];
    if cs != [] {
      var n := |cs| - 1;
      from := BoxesAreDrawn(s, cs[..n]);
      ScaledIsDrawn(s, cs[n]);
      if BigEnough(s, Scaled(s, cs[n])) {
        from := from + [n];
      }
    }
  }

  /** The output is ordered by score, the best first. */
  lemma OutputByScore(s: Settings, ranked: seq<Candidate>)
    requires s.fw >= 1 && s.fh >= 1
    requires forall i, j | 0 <= i < j < |ranked| :: ranked[i].score >= ranked[j].score
    ensures var out := Output(s, ranked);
            |out| <= s.maxDets && forall i, j | 0 <= i < j < |out| :: out[i].score >= out[j].score
  {
    hide Drawn, Boxes, Kept;
    var kept := Cut(Kept(s.iou, ranked), s.maxDets);
    KeptAscend(s.iou, ranked);
    var from := BoxesAreDrawn(s, Ranked(ranked, kept));
    forall k | 0 <= k < |from| ensures Output(s, ranked)[k].score == ranked[kept[from[k]]].score {
      DrawnScore(s, Ranked(ranked, kept)[from[k]], Output(s, ranked)[k]);
    }
    Fewer(from, |kept|);
  }

  lemma DrawnScore(s: Settings, c: Candidate, d: Detection)
    requires Drawn(s, c, d)
    ensures d.score == c.score
  {
  }

  lemma {:induction false} Fewer(from: seq<int>, n: nat)
    requires forall k | 0 <= k < |from| :: 0 <= from[k] < n
    requires forall j, k | 0 <= j < k < |from| :: from[j] < from[k]
    ensures |from| <= n
    decreases n
  {
    if from != [] {
      var l := |from| - 1;
      Fewer(from[..l], from[l]);
    }
  }

  lemma {:induction false} KeptAscend(th: real, ranked: seq<Candidate>)
    ensures forall j, k | 0 <= j < k < |Kept(th, ranked)| :: Kept(th, ranked)[j] < Kept(th, ranked)[k]
  {
    hide Overlaps, Suppressed;
    if ranked != [] {
      KeptAscend(th, ranked[..|ranked| - 1]);
    }
  }
}
