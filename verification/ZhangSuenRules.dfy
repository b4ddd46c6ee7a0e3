/** thinning.py told over pixels and directions: which pixels a sub-step deletes, which images are stable, and
    that solid rectangles are thinned. */
module ZhangSuenRules {
  import opened ZhangSuen
  import opened ThinningDrivers

  /** The eight pixels around p, clockwise from the one above. */
  function Ring(p: Pix): (r: seq<Pix>)
    ensures |r| == 8
  {
    [Pix(p.n, p.r - 1, p.c), Pix(p.n, p.r - 1, p.c + 1), Pix(p.n, p.r, p.c + 1), Pix(p.n, p.r + 1, p.c + 1),
     Pix(p.n, p.r + 1, p.c), Pix(p.n, p.r + 1, p.c - 1), Pix(p.n, p.r, p.c - 1), Pix(p.n, p.r - 1, p.c - 1)]
  }

  predicate IsOn(img: Image, p: Pix, k: int) {
    0 <= k < 8 && Ring(p)[k] in img
  }

  /** The directions in which p has a neighbour. */
  function OnDirections(img: Image, p: Pix): set<int> {
    set k | 0 <= k < 8 && IsOn(img, p, k)
  }

  /** Going clockwise, direction k is off and the next one is on. */
  predicate StartsRun(img: Image, p: Pix, k: int) {
    0 <= k < 8 && !IsOn(img, p, k) && IsOn(img, p, (k + 1) % 8)
  }

  /** The neighbours of p form one run. */
  ghost predicate OneRun(img: Image, p: Pix) {
    exists k :: StartsRun(img, p, k) && forall j | StartsRun(img, p, j) :: j == k
  }

  /** In sub-step 0 one of the neighbours above, right and below is off, and one of those right, below and left;
      in sub-step 1 one of those above, right and left, and one of those above, below and left. */
  predicate HasGap(step: int, img: Image, p: Pix) {
    var north, east, south, west := IsOn(img, p, 0), IsOn(img, p, 2), IsOn(img, p, 4), IsOn(img, p, 6);
    if step == 0 then !(north && east && south) && !(east && south && west)
    else !(north && east && west) && !(north && south && west)
  }

  ghost predicate Peels(step: int, img: Image, p: Pix) {
    2 <= |OnDirections(img, p)| <= 6 && OneRun(img, p) && HasGap(step, img, p)
  }

  // ---- the counts ----

  function OnBelow(img: Image, p: Pix, n: nat): set<int> {
    set k | 0 <= k < n && IsOn(img, p, k)
  }

  lemma RingIsToward(img: Image, p: Pix, k: int)
    requires 0 <= k < 8
    ensures Neighbours(img, p)[k] == 1 <==> IsOn(img, p, k)
  {
    assert Ring(p)[k] == Toward(p, k);
  }

  lemma {:induction false} CountsDirections(img: Image, p: Pix, n: nat)
    requires n <= 8
    ensures |OnBelow(img, p, n)| == Partial(Neighbours(img, p), n)
  {
    hide Neighbours, IsOn;
    if n > 0 {
      CountsDirections(img, p, n - 1);
      RingIsToward(img, p, n - 1);
      if IsOn(img, p, n - 1) {
        assert OnBelow(img, p, n) == OnBelow(img, p, n - 1) + {n - 1};
      } else {
        assert OnBelow(img, p, n) == OnBelow(img, p, n - 1);
      }
    }
  }

  lemma PartialIsSum(n: seq<int>)
    requires |n| == 8
    ensures Partial(n, 8) == Sum(n)
  {
    assert Partial(n, 1) == n[0];
    assert Partial(n, 3) == Partial(n, 1) + n[1] + n[2];
    assert Partial(n, 5) == Partial(n, 3) + n[3] + n[4];
    assert Partial(n, 7) == Partial(n, 5) + n[5] + n[6];
  }

  lemma SumIsCount(img: Image, p: Pix)
    ensures Sum(Neighbours(img, p)) == |OnDirections(img, p)|
  {
    hide Neighbours, IsOn, Sum;
    CountsDirections(img, p, 8);
    PartialIsSum(Neighbours(img, p));
    assert OnBelow(img, p, 8) == OnDirections(img, p);
  }

  predicate RiseAt(n: seq<int>, k: int) {
    |n| == 8 && 0 <= k < 8 && n[k] == 0 && n[(k + 1) % 8] == 1
  }

  function RisesBelow(n: seq<int>, m: nat): nat {
    if m == 0 then 0 else RisesBelow(n, m - 1) + if RiseAt(n, m - 1) then 1 else 0
  }

  lemma RisesAreBelow(n: seq<int>)
    requires Bits(n)
    ensures Rises(n) == RisesBelow(n, 8)
  {
    hide RiseAt;
    forall k | 0 <= k < 8 ensures And(1 - n[k], n[(k + 1) % 8]) == if RiseAt(n, k) then 1 else 0 {
      RiseIsAnd(n, k);
    }
    assert RisesBelow(n, 1) == And(1 - n[0], n[1]);
    assert RisesBelow(n, 3) == RisesBelow(n, 1) + And(1 - n[1], n[2]) + And(1 - n[2], n[3]);
    assert RisesBelow(n, 5) == RisesBelow(n, 3) + And(1 - n[3], n[4]) + And(1 - n[4], n[5]);
    assert RisesBelow(n, 7) == RisesBelow(n, 5) + And(1 - n[5], n[6]) + And(1 - n[6], n[7]);
  }

  lemma RiseIsAnd(n: seq<int>, k: int)
    requires Bits(n) && 0 <= k < 8
    ensures And(1 - n[k], n[(k + 1) % 8]) == if RiseAt(n, k) then 1 else 0
  {
  }

  lemma {:induction false} OneRise(n: seq<int>, m: nat)
    requires m <= 8
    ensures RisesBelow(n, m) == 0 <==> forall k | 0 <= k < m :: !RiseAt(n, k)
    ensures RisesBelow(n, m) == 1 <==>
            exists k :: 0 <= k < m && RiseAt(n, k) && forall j | 0 <= j < m && RiseAt(n, j) :: j == k
  {
    hide RiseAt;
    if m > 0 {
      OneRise(n, m - 1);
    }
  }

  lemma RisesIsOneRun(img: Image, p: Pix)
    ensures Rises(Neighbours(img, p)) == 1 <==> OneRun(img, p)
  {
    hide Neighbours, Rises, RisesBelow, IsOn;
    var n := Neighbours(img, p);
    NeighboursAreBits(img, p);
    RisesAreBelow(n);
    OneRise(n, 8);
    forall k | 0 <= k < 8 ensures RiseAt(n, k) <==> StartsRun(img, p, k) {
      RingIsToward(img, p, k);
      RingIsToward(img, p, (k + 1) % 8);
    }
  }

  lemma OkIsGap(step: int, img: Image, p: Pix)
    ensures Ok(step, Neighbours(img, p)) <==> HasGap(step, img, p)
  {
    hide Neighbours, IsOn;
    NeighboursAreBits(img, p);
    RingIsToward(img, p, 0);
    RingIsToward(img, p, 2);
    RingIsToward(img, p, 4);
    RingIsToward(img, p, 6);
  }

  /** A sub-step deletes exactly the pixels with two to six neighbours in one run and a gap in both of the triples
      the sub-step looks at. */
  lemma PeelsIff(step: int, img: Image, p: Pix)
    requires p in img
    ensures p !in SubStep(step, img) <==> Peels(step, img, p)
  {
    hide Neighbours, Sum, Rises, Ok, OneRun, HasGap;
    SumIsCount(img, p);
    RisesIsOneRun(img, p);
    OkIsGap(step, img, p);
  }

  // ---- stable images ----

  /** A round changes nothing exactly when no pixel meets the condition of either sub-step. */
  lemma StableIff(img: Image)
    ensures Iteration(img) == img <==> forall p | p in img :: !Peels(0, img, p) && !Peels(1, img, p)
  {
    hide SubStep, Peels;
    SubStepsDelete(0, img);
    SubStepsDelete(1, SubStep(0, img));
    if forall p | p in img :: !Peels(0, img, p) && !Peels(1, img, p) {
      forall p | p in img ensures p in SubStep(0, img) && p in SubStep(1, img) {
        PeelsIff(0, img, p);
        PeelsIff(1, img, p);
      }
      assert SubStep(0, img) == img;
    }
    if Iteration(img) == img {
      assert SubStep(0, img) == img;
      forall p | p in img ensures !Peels(0, img, p) && !Peels(1, img, p) {
        PeelsIff(0, img, p);
        PeelsIff(1, img, p);
      }
    }
  }

  lemma SubStepsDelete(step: int, img: Image)
    ensures SubStep(step, img) <= img
  {
    hide Deletes, Neighbours;
  }

  /** With as many rounds as there are pixels, what the corner pass gets has no pixel left to peel. */
  lemma NothingLeftToPeel(masks: Image, n: nat, p: Pix)
    requires |masks| <= n && p in Iterations(masks, n)
    ensures !Peels(0, Iterations(masks, n), p) && !Peels(1, Iterations(masks, n), p)
  {
    hide Iterations, Iteration, Peels;
    StableAfterAllPixels(masks, n);
    StableIff(Iterations(masks, n));
  }

  // ---- solid rectangles ----

  /** The pixels of mask n in rows r to r + h - 1 and columns c to c + w - 1. */
  ghost predicate IsSolid(img: Image, n: int, r: int, c: int, h: int, w: int) {
    forall p: Pix :: p in img <==> p.n == n && r <= p.r < r + h && c <= p.c < c + w
  }

  /** The upper left corner of a solid rectangle has three neighbours in one run: right, below right, below. */
  lemma CornerPeels(img: Image, n: int, r: int, c: int, h: int, w: int)
    requires IsSolid(img, n, r, c, h, w) && h >= 2 && w >= 2
    ensures Peels(0, img, Pix(n, r, c))
  {
    hide IsOn, IsSolid, Peels;
    var p := Pix(n, r, c);
    forall k | 0 <= k < 8 ensures IsOn(img, p, k) <==> 2 <= k <= 4 {
      CornerRing(img, n, r, c, h, w, k);
    }
    ThreeInARow(img, p);
  }

  lemma ThreeInARow(img: Image, p: Pix)
    requires forall k | 0 <= k < 8 :: IsOn(img, p, k) <==> 2 <= k <= 4
    ensures Peels(0, img, p)
  {
    hide IsOn;
    assert OnDirections(img, p) == {2, 3, 4};
    assert StartsRun(img, p, 1);
  }

  lemma CornerRing(img: Image, n: int, r: int, c: int, h: int, w: int, k: int)
    requires IsSolid(img, n, r, c, h, w) && h >= 2 && w >= 2 && 0 <= k < 8
    ensures IsOn(img, Pix(n, r, c), k) <==> 2 <= k <= 4
  {
    var q := Ring(Pix(n, r, c))[k];
    assert q in img <==> q.n == n && r <= q.r < r + h && c <= q.c < c + w;
  }

  /** Every solid rectangle of at least 2 x 2 loses pixels in the first round, its upper left corner among them. */
  lemma SolidShrinks(img: Image, n: int, r: int, c: int, h: int, w: int)
    requires IsSolid(img, n, r, c, h, w) && h >= 2 && w >= 2
    ensures Pix(n, r, c) in img && Pix(n, r, c) !in Iteration(img) && Iteration(img) < img
  {
    hide Peels, SubStep;
    CornerPeels(img, n, r, c, h, w);
    PeelsIff(0, img, Pix(n, r, c));
    SubStepsDelete(0, img);
    SubStepsDelete(1, SubStep(0, img));
  }

  /** So no driver returns it as it came. */
  lemma SolidIsThinned(img: Image, n: int, r: int, c: int, h: int, w: int, k: nat)
    requires IsSolid(img, n, r, c, h, w) && h >= 2 && w >= 2 && k >= 1
    ensures Pix(n, r, c) in img && Pix(n, r, c) !in Thinned(img, k)
  {
    hide Iteration, Corners, IsSolid;
    SolidShrinks(img, n, r, c, h, w);
    IterationsShrink(img, 1, k);
    assert Iterations(img, 1) == Iteration(Iterations(img, 0));
    CornersDelete(Iterations(img, k));
  }

  lemma CornersDelete(img: Image)
    ensures Corners(img) <= img
  {
    hide IsCorner, Neighbours;
  }

  // ---- the corner pass ----

  /** Orientation t of the corner pass deletes exactly the pixels whose only neighbours are the two in the
      directions above and right, right and below, below and left, or left and above. */
  lemma CutsCornerIff(t: int, img: Image, p: Pix)
    requires 0 <= t < 4 && p in img
    ensures p !in CornerStep(t, img) <==> OnDirections(img, p) == {2 * t, (2 * t + 2) % 8}
  {
    hide Neighbours, IsOn, Sum;
    SumIsCount(img, p);
    RingIsToward(img, p, 2 * t);
    RingIsToward(img, p, (2 * t + 2) % 8);
    var a, b := 2 * t, (2 * t + 2) % 8;
    if IsOn(img, p, a) && IsOn(img, p, b) {
      assert {a, b} <= OnDirections(img, p);
      if |OnDirections(img, p)| == 2 {
        SameSize({a, b}, OnDirections(img, p));
      }
    }
  }

  lemma SameSize(a: set<int>, b: set<int>)
    requires a <= b && |a| == |b|
    ensures a == b
  {
    assert |b - a| == |b| - |a|;
  }
}
