/** The eight deletions of the corner pass of thinning.py are one: together they delete the corners of the image
    they start from, whatever the order of the orientations, and the second round deletes nothing. */
module CornersAtOnce {
  import opened ZhangSuen
  import opened CornerPass
  import opened ThinningDrivers
  import opened ZhangSuenRules

  /** The pixels share a side. */
  predicate Beside(p: Pix, q: Pix) {
    Adjacent(p, q) && (p.r == q.r || p.c == q.c)
  }

  /** A corner's two neighbours lie beside it, and touch each other at a corner only. */
  lemma CornerSides(t: int, img: Image, p: Pix, q: Pix, z: Pix)
    requires 0 <= t < 4 && Corner(t, img, p) && q in img && Adjacent(p, q)
    ensures Beside(p, q)
    ensures z in img && Adjacent(p, z) && z != q ==> Adjacent(q, z) && !Beside(q, z)
  {
    hide Neighbours;
    assert t == 0 || t == 1 || t == 2 || t == 3;
    CornerNeighbours(t, img, p, q);
    CornerNeighbours(t, img, p, z);
  }

  /** The other neighbour of a corner. */
  lemma OtherNeighbour(t: int, img: Image, p: Pix, q: Pix) returns (z: Pix)
    requires 0 <= t < 4 && Corner(t, img, p) && q in img && Adjacent(p, q)
    ensures z in img && z != q && Adjacent(p, z)
  {
    hide Neighbours;
    assert t == 0 || t == 1 || t == 2 || t == 3;
    var a, b := Toward(p, 2 * t), Toward(p, (2 * t + 2) % 8);
    CornerNeighbours(t, img, p, q);
    Symmetric(b, p);
    z := if q == a then b else a;
  }

  /** No two corners are neighbours, whatever their orientations. */
  lemma NoCornersTouch(t: int, s: int, img: Image, p: Pix, q: Pix)
    requires 0 <= t < 4 && 0 <= s < 4 && Corner(t, img, p) && q in img && Adjacent(p, q)
    ensures !Corner(s, img, q)
  {
    hide Corner, Toward;
    var z := OtherNeighbour(t, img, p, q);
    CornerSides(t, img, p, q, z);
    if Corner(s, img, q) {
      CornerSides(s, img, q, z, p);
    }
  }

  lemma SameAround(img: Image, left: Image, p: Pix)
    requires forall k | 0 <= k < 8 :: Toward(p, k) in img <==> Toward(p, k) in left
    ensures Neighbours(img, p) == Neighbours(left, p)
  {
    hide Toward;
    forall k | 0 <= k < 8 ensures Neighbours(img, p)[k] == Neighbours(left, p)[k] {
    }
  }

  lemma TowardIsAdjacent(p: Pix, k: int)
    requires 0 <= k < 8
    ensures Adjacent(p, Toward(p, k))
  {
  }

  lemma StepIs(t: int, img: Image, p: Pix)
    requires 0 <= t < 4
    ensures p in CornerStep(t, img) <==> p in img && !Corner(t, img, p)
  {
    hide IsCorner, Neighbours;
  }

  lemma CornerIsOn(s: int, img: Image, p: Pix)
    requires 0 <= s < 4 && Corner(s, img, p)
    ensures p in img
  {
  }

  /** Deleting the corners of one orientation makes no other pixel a corner, and takes none of the other corners. */
  lemma StepKeepsCorners(t: int, s: int, img: Image, p: Pix)
    requires 0 <= t < 4 && 0 <= s < 4 && p in CornerStep(t, img)
    ensures Corner(s, CornerStep(t, img), p) <==> Corner(s, img, p)
  {
    hide CornerStep, Toward, Neighbours, Adjacent;
    var left := CornerStep(t, img);
    StepIs(t, img, p);
    if Corner(s, left, p) || Corner(s, img, p) {
      forall k | 0 <= k < 8 ensures Toward(p, k) in img <==> Toward(p, k) in left {
        TowardIsAdjacent(p, k);
        StepIs(t, img, Toward(p, k));
        if Toward(p, k) in img {
          NeighbourStays(t, s, img, p, Toward(p, k));
        }
      }
      SameAround(img, left, p);
    }
  }

  lemma NeighbourStays(t: int, s: int, img: Image, p: Pix, x: Pix)
    requires 0 <= t < 4 && 0 <= s < 4 && p in CornerStep(t, img) && x in img && Adjacent(p, x) && p in img
    requires Corner(s, CornerStep(t, img), p) || Corner(s, img, p)
    ensures x in CornerStep(t, img)
  {
    hide CornerStep, Corner, Toward;
    StepIs(t, img, x);
    if Corner(s, img, p) {
      NoCornersTouch(s, t, img, p, x);
    } else if Corner(t, img, x) {
      Symmetric(p, x);
      var z := OtherNeighbour(t, img, x, p);
      CornerSides(t, img, x, p, z);
      CornersApart(t, img, x, z);
      CornerSides(s, CornerStep(t, img), p, z, z);
    }
  }

  // ---- the whole pass ----

  /** A corner of some orientation. */
  predicate IsAnyCorner(img: Image, p: Pix) {
    Corner(0, img, p) || Corner(1, img, p) || Corner(2, img, p) || Corner(3, img, p)
  }

  lemma RoundIs(img: Image, p: Pix)
    ensures p in FourCorners(img) <==> p in img && !IsAnyCorner(img, p)
    ensures !IsAnyCorner(FourCorners(img), p)
  {
    hide CornerStep, Corner;
    var a := CornerStep(0, img);
    var b := CornerStep(1, a);
    var c := CornerStep(2, b);
    var d := CornerStep(3, c);
    Survives(0, img, p);
    Survives(1, a, p);
    Survives(2, b, p);
    Survives(3, c, p);
  }

  lemma Survives(t: int, img: Image, p: Pix)
    requires 0 <= t < 4
    ensures p in CornerStep(t, img) <==> p in img && !Corner(t, img, p)
    ensures forall s | 0 <= s < 4 ::
              Corner(s, CornerStep(t, img), p) <==> p in CornerStep(t, img) && Corner(s, img, p)
  {
    hide CornerStep, Corner;
    StepIs(t, img, p);
    forall s | 0 <= s < 4
      ensures Corner(s, CornerStep(t, img), p) <==> p in CornerStep(t, img) && Corner(s, img, p)
    {
      if p in CornerStep(t, img) {
        StepKeepsCorners(t, s, img, p);
      } else if Corner(s, CornerStep(t, img), p) {
        CornerIsOn(s, CornerStep(t, img), p);
      }
    }
  }

  /** The corner pass deletes exactly the corners of its image, all of them and no more. */
  lemma CornersAreDeleted(img: Image, p: Pix)
    ensures p in Corners(img) <==> p in img && !IsAnyCorner(img, p)
  {
    hide FourCorners, IsAnyCorner;
    RoundIs(img, p);
    RoundIs(FourCorners(img), p);
  }

  /** The second round of the pass changes nothing. */
  lemma SecondRoundIdle(img: Image)
    ensures Corners(img) == FourCorners(img)
  {
    hide FourCorners, IsAnyCorner;
    forall p ensures p in Corners(img) <==> p in FourCorners(img) {
      RoundIs(img, p);
      RoundIs(FourCorners(img), p);
    }
  }

  /** What a driver returns has no corner left: no pixel whose only neighbours are the two on neighbouring sides. */
  lemma NoCornerReturned(masks: Image, k: nat, p: Pix, t: int)
    requires 0 <= t < 4 && p in Thinned(masks, k)
    ensures OnDirections(Thinned(masks, k), p) != {2 * t, (2 * t + 2) % 8}
  {
    hide FourCorners, Iterations, Corner, CornerStep;
    var img := Iterations(masks, k);
    RoundIs(FourCorners(img), p);
    StepIs(t, Thinned(masks, k), p);
    CutsCornerIff(t, Thinned(masks, k), p);
  }
}
