/** The corner pass of thinning.py keeps the 8-connectivity of what it leaves. */
module CornerPass {
  import opened ZhangSuen

  /** 8-neighbours in the same mask. */
  predicate Adjacent(p: Pix, q: Pix) {
    p != q && p.n == q.n && -1 <= p.r - q.r <= 1 && -1 <= p.c - q.c <= 1
  }

  ghost predicate IsPath(img: Image, s: seq<Pix>) {
    && s != [] && (forall i | 0 <= i < |s| :: s[i] in img)
    && forall i | 0 <= i < |s| - 1 :: Adjacent(s[i], s[i + 1])
  }

  ghost predicate Joins(img: Image, s: seq<Pix>, p: Pix, q: Pix) {
    IsPath(img, s) && s[0] == p && s[|s| - 1] == q
  }

  /** p and q belong to the same 8-connected component. */
  ghost predicate Connected(img: Image, p: Pix, q: Pix) {
    exists s :: Joins(img, s, p, q)
  }

  // ---- one orientation ----

  predicate Corner(t: int, img: Image, p: Pix)
    requires 0 <= t < 4
  {
    p in img && IsCorner(2 * t, (2 * t + 2) % 8, Neighbours(img, p))
  }

  lemma AdjacentIsToward(p: Pix, q: Pix)
    requires Adjacent(p, q)
    ensures q == Toward(p, 0) || q == Toward(p, 1) || q == Toward(p, 2) || q == Toward(p, 3)
         || q == Toward(p, 4) || q == Toward(p, 5) || q == Toward(p, 6) || q == Toward(p, 7)
  {
  }

  /** A corner has its two neighbours and no other. */
  lemma CornerNeighbours(t: int, img: Image, p: Pix, q: Pix)
    requires 0 <= t < 4 && Corner(t, img, p)
    ensures var a, b := Toward(p, 2 * t), Toward(p, (2 * t + 2) % 8);
            a in img && b in img && Adjacent(a, b) && Adjacent(p, a) && Adjacent(b, p)
            && (q in img && Adjacent(p, q) ==> q == a || q == b)
  {
    assert t == 0 || t == 1 || t == 2 || t == 3;
    if Adjacent(p, q) {
      AdjacentIsToward(p, q);
    }
  }

  lemma Symmetric(p: Pix, q: Pix)
    requires Adjacent(p, q)
    ensures Adjacent(q, p)
  {
  }

  /** No neighbour of a corner is a corner of the same orientation, so none is deleted with it. */
  lemma CornersApart(t: int, img: Image, p: Pix, q: Pix)
    requires 0 <= t < 4 && Corner(t, img, p) && q in img && Adjacent(p, q)
    ensures q in CornerStep(t, img)
  {
    hide Neighbours;
    assert t == 0 || t == 1 || t == 2 || t == 3;
    CornerNeighbours(t, img, p, q);
    if Corner(t, img, q) {
      CornerNeighbours(t, img, q, p);
    }
  }

  // ---- paths ----

  lemma StepExtends(img: Image, p: Pix, q: Pix, s: seq<Pix>, z: Pix)
    requires p in img && (p == q || Adjacent(p, q)) && Joins(img, s, q, z)
    ensures Connected(img, p, z)
  {
    if p == q {
      assert Joins(img, s, p, z);
    } else {
      assert Joins(img, [p] + s, p, z);
    }
  }

  /** A path between survivors can be rerouted around the deleted corners. */
  lemma {:induction false} Rerouted(t: int, img: Image, s: seq<Pix>, p: Pix, z: Pix)
    requires 0 <= t < 4 && Joins(img, s, p, z) && p in CornerStep(t, img) && z in CornerStep(t, img)
    ensures Connected(CornerStep(t, img), p, z)
    decreases |s|
  {
    hide CornerStep, Connected;
    var left := CornerStep(t, img);
    if |s| == 1 {
      SinglePath(left, p);
    } else if s[1] in left {
      Rerouted(t, img, s[1..], s[1], z);
      JoinFront(left, p, s[1], z);
    } else {
      DeletedIsCorner(t, img, s[1]);
      assert |s| > 2;
      CornersApart(t, img, s[1], s[2]);
      Rerouted(t, img, s[2..], s[2], z);
      Symmetric(s[0], s[1]);
      CornerNeighbours(t, img, s[1], s[0]);
      CornerNeighbours(t, img, s[1], s[2]);
      if s[0] != s[2] {
        assert Adjacent(s[0], s[2]) || Adjacent(s[2], s[0]);
        if Adjacent(s[2], s[0]) {
          Symmetric(s[2], s[0]);
        }
      }
      JoinFront(left, p, s[2], z);
    }
  }

  lemma DeletedIsCorner(t: int, img: Image, p: Pix)
    requires 0 <= t < 4 && p in img && p !in CornerStep(t, img)
    ensures Corner(t, img, p)
  {
    hide IsCorner, Neighbours;
  }

  lemma SinglePath(img: Image, p: Pix)
    requires p in img
    ensures Connected(img, p, p)
  {
    assert Joins(img, [p], p, p);
  }

  lemma JoinFront(img: Image, p: Pix, q: Pix, z: Pix)
    requires p in img && (p == q || Adjacent(p, q)) && Connected(img, q, z)
    ensures Connected(img, p, z)
  {
    var s :| Joins(img, s, q, z);
    StepExtends(img, p, q, s, z);
  }

  lemma Grows(a: Image, b: Image, p: Pix, q: Pix)
    requires a <= b && Connected(a, p, q)
    ensures Connected(b, p, q)
  {
    var s :| Joins(a, s, p, q);
    assert Joins(b, s, p, q);
  }

  lemma Transitive(img: Image, p: Pix, q: Pix, z: Pix)
    requires Connected(img, p, q) && Connected(img, q, z)
    ensures Connected(img, p, z)
  {
    var s :| Joins(img, s, p, q);
    var u :| Joins(img, u, q, z);
    var w := s + u[1..];
    forall i | 0 <= i < |w| - 1 ensures Adjacent(w[i], w[i + 1]) {
      assert i >= |s| - 1 ==> w[i] == u[i - |s| + 1];
      assert i + 1 >= |s| ==> w[i + 1] == u[i + 1 - |s| + 1];
    }
    assert Joins(img, w, p, z);
  }

  // ---- several orientations ----

  /** The component of p in a still has a pixel in b. */
  ghost predicate Survives(a: Image, b: Image, p: Pix) {
    exists q :: q in b && Connected(a, p, q)
  }

  /** b is what is left of a: components are neither split nor joined, and none disappears. */
  ghost predicate KeepsComponents(a: Image, b: Image) {
    && b <= a
    && (forall p, q | p in b && q in b :: Connected(b, p, q) <==> Connected(a, p, q))
    && (forall p | p in a :: Survives(a, b, p))
  }

  lemma OneOrientation(t: int, img: Image)
    requires 0 <= t < 4
    ensures KeepsComponents(img, CornerStep(t, img))
  {
    hide IsCorner, Neighbours, Connected, Survives;
    var left := CornerStep(t, img);
    forall p, q | p in left && q in left ensures Connected(left, p, q) <==> Connected(img, p, q) {
      if Connected(left, p, q) {
        Grows(left, img, p, q);
      }
      if Connected(img, p, q) {
        PathBack(t, img, p, q);
      }
    }
    forall p | p in img ensures Survives(img, left, p) {
      Survivor(t, img, p);
    }
  }

  lemma PathBack(t: int, img: Image, p: Pix, q: Pix)
    requires 0 <= t < 4 && p in CornerStep(t, img) && q in CornerStep(t, img) && Connected(img, p, q)
    ensures Connected(CornerStep(t, img), p, q)
  {
    hide CornerStep;
    var s :| Joins(img, s, p, q);
    Rerouted(t, img, s, p, q);
  }

  lemma Survivor(t: int, img: Image, p: Pix)
    requires 0 <= t < 4 && p in img
    ensures Survives(img, CornerStep(t, img), p)
  {
    hide CornerStep, Connected;
    SinglePath(img, p);
    if p !in CornerStep(t, img) {
      DeletedIsCorner(t, img, p);
      var a := Toward(p, 2 * t);
      CornerNeighbours(t, img, p, a);
      CornersApart(t, img, p, a);
      SinglePath(img, a);
      JoinFront(img, p, a, a);
    }
  }

  lemma SurvivesTwice(a: Image, b: Image, c: Image, p: Pix)
    requires KeepsComponents(a, b) && KeepsComponents(b, c) && p in a
    ensures Survives(a, c, p)
  {
    hide Connected, KeepsComponents;
    assert b <= a && Survives(a, b, p) by {
      KeptSurvives(a, b, p);
    }
    var q :| q in b && Connected(a, p, q);
    KeptSurvives(b, c, q);
    var z :| z in c && Connected(b, q, z);
    Grows(b, a, q, z);
    Transitive(a, p, q, z);
  }

  lemma KeptSurvives(a: Image, b: Image, p: Pix)
    requires KeepsComponents(a, b) && p in a
    ensures b <= a && Survives(a, b, p)
  {
    hide Survives, Connected;
  }

  lemma Compose(a: Image, b: Image, c: Image)
    requires KeepsComponents(a, b) && KeepsComponents(b, c)
    ensures KeepsComponents(a, c)
  {
    hide Connected, Survives;
    forall p | p in a ensures Survives(a, c, p) {
      SurvivesTwice(a, b, c, p);
    }
  }

  lemma FourOrientations(img: Image)
    ensures KeepsComponents(img, FourCorners(img))
  {
    hide KeepsComponents, CornerStep;
    var a := CornerStep(0, img);
    var b := CornerStep(1, a);
    var c := CornerStep(2, b);
    OneOrientation(0, img);
    OneOrientation(1, a);
    Compose(img, a, b);
    OneOrientation(2, b);
    Compose(img, b, c);
    OneOrientation(3, c);
    Compose(img, c, CornerStep(3, c));
  }

  /** After the corner pass two remaining pixels are 8-connected exactly when they were before, and every
      component still has a pixel. */
  lemma CornersKeepComponents(img: Image)
    ensures KeepsComponents(img, Corners(img))
  {
    hide KeepsComponents, FourCorners;
    FourOrientations(img);
    FourOrientations(FourCorners(img));
    Compose(img, FourCorners(img), Corners(img));
  }
}
