/** thinning.py: for which settings thinning in whole chunks always returns the image of max_iter rounds, and
    the masks that tell the others apart. */
module ChunkWitness {
  import opened ZhangSuen
  import opened ThinningDrivers

  const A := Pix(0, 0, 0)
  const B := Pix(0, 0, 1)
  const C := Pix(0, 0, 2)
  const D := Pix(0, 1, 2)

  lemma SubStepIs(step: int, img: Image, left: Image)
    requires left <= img && forall p | p in img :: Deletes(step, Neighbours(img, p)) <==> p !in left
    ensures SubStep(step, img) == left
  {
    hide Deletes, Neighbours;
  }

  lemma CornerStepIs(t: int, img: Image, left: Image)
    requires 0 <= t < 4 && left <= img
    requires forall p | p in img :: IsCorner(2 * t, (2 * t + 2) % 8, Neighbours(img, p)) <==> p !in left
    ensures CornerStep(t, img) == left
  {
    hide IsCorner, Neighbours;
  }

  // ---- stairs ----

  predicate OnLower(j: int, p: Pix) {
    p.n == 0 && 0 <= p.r <= j && p.c == p.r + 1
  }

  predicate OnUpper(j: int, p: Pix) {
    p.n == 0 && 0 <= p.r < j && p.c == p.r + 2
  }

  /** Two diagonals next to each other, and one pixel to the left of the first row. */
  predicate OnStair(j: int, p: Pix) {
    p == A || OnLower(j, p) || OnUpper(j, p)
  }

  function Stair(j: nat): (img: Image)
    ensures forall p :: p in img <==> OnStair(j, p)
  {
    if j == 0 then {A, B} else Stair(j - 1) + {Pix(0, j, j + 1), Pix(0, j - 1, j + 1)}
  }

  /** The stair without its last pixel. */
  function Cut(j: nat): (img: Image)
    ensures forall p :: p in img <==> OnStair(j, p) && p != Pix(0, j, j + 1)
  {
    Stair(j) - {Pix(0, j, j + 1)}
  }

  lemma FirstAtStart(j: nat, p: Pix)
    requires j >= 2 && (p == A || p == B)
    ensures !Deletes(0, Neighbours(Stair(j), p))
  {
    hide Stair;
    assert Neighbours(Stair(j), p) == if p == A then [0, 0, 1, 0, 0, 0, 0, 0] else [0, 0, 1, 1, 0, 0, 1, 0];
  }

  lemma FirstOnLower(j: nat, p: Pix)
    requires j >= 2 && OnLower(j, p) && p != B
    ensures Deletes(0, Neighbours(Stair(j), p)) <==> p.r == j
  {
    hide Stair;
    assert Neighbours(Stair(j), p) == if p.r == j then [1, 0, 0, 0, 0, 0, 0, 1] else [1, 0, 1, 1, 0, 0, 0, 1];
  }

  lemma FirstOnUpper(j: nat, p: Pix)
    requires j >= 2 && OnUpper(j, p)
    ensures !Deletes(0, Neighbours(Stair(j), p))
  {
    hide Stair;
    assert Neighbours(Stair(j), p) == [0, 0, 0, if p.r + 1 < j then 1 else 0, 1, 0, 1, if p.r >= 1 then 1 else 0];
  }

  lemma FirstSubStep(j: nat)
    requires j >= 2
    ensures SubStep(0, Stair(j)) == Cut(j)
  {
    hide Neighbours, SubStep, Deletes, Stair, OnUpper;
    forall p | p in Stair(j) ensures Deletes(0, Neighbours(Stair(j), p)) <==> p !in Cut(j) {
      if p == A || p == B {
        FirstAtStart(j, p);
      } else if OnLower(j, p) {
        FirstOnLower(j, p);
      } else {
        FirstOnUpper(j, p);
        assert p != Pix(0, j, j + 1);
      }
    }
    SubStepIs(0, Stair(j), Cut(j));
  }

  lemma SecondAtStart(j: nat, p: Pix)
    requires j >= 2 && (p == A || p == B)
    ensures !Deletes(1, Neighbours(Cut(j), p))
  {
    hide Stair, Cut;
    assert Neighbours(Cut(j), p) == if p == A then [0, 0, 1, 0, 0, 0, 0, 0] else [0, 0, 1, 1, 0, 0, 1, 0];
  }

  lemma SecondOnLower(j: nat, p: Pix)
    requires j >= 2 && OnLower(j, p) && p != B && p.r < j
    ensures !Deletes(1, Neighbours(Cut(j), p))
  {
    hide Stair, Cut;
    assert Neighbours(Cut(j), p) == [1, 0, 1, if p.r + 1 < j then 1 else 0, 0, 0, 0, 1];
  }

  lemma SecondOnUpper(j: nat, p: Pix)
    requires j >= 2 && OnUpper(j, p)
    ensures Deletes(1, Neighbours(Cut(j), p)) <==> p.r == j - 1
  {
    hide Stair, Cut;
    assert Neighbours(Cut(j), p) ==
           if p.r == j - 1 then [0, 0, 0, 0, 0, 0, 1, 1] else [0, 0, 0, 1, 1, 0, 1, if p.r >= 1 then 1 else 0];
  }

  lemma SecondSubStep(j: nat)
    requires j >= 2
    ensures SubStep(1, Cut(j)) == Stair(j - 1)
  {
    hide Neighbours, SubStep, Deletes, Stair, Cut;
    forall p | p in Cut(j) ensures Deletes(1, Neighbours(Cut(j), p)) <==> p !in Stair(j - 1) {
      if p == A || p == B {
        SecondAtStart(j, p);
      } else if OnLower(j, p) {
        SecondOnLower(j, p);
      } else {
        SecondOnUpper(j, p);
      }
    }
    SubStepIs(1, Cut(j), Stair(j - 1));
  }

  /** A round takes one step off the stair. */
  lemma StairShrinks(j: nat)
    requires j >= 2
    ensures Iteration(Stair(j)) == Stair(j - 1)
  {
    hide SubStep, Stair, Cut;
    FirstSubStep(j);
    SecondSubStep(j);
  }

  lemma {:induction false} StairAfter(n: nat, k: nat)
    requires k <= n
    ensures Iterations(Stair(n + 1), k) == Stair(n + 1 - k)
  {
    hide Iteration, Stair;
    if k > 0 {
      StairAfter(n, k - 1);
      StairShrinks(n + 2 - k);
    }
  }

  lemma LastStair()
    ensures Stair(1) == {A, B, C, D}
  {
    hide Stair;
  }

  // ---- the last stair ----

  lemma ThirdSubStep()
    ensures SubStep(0, {A, B, C, D}) == {A, B, C}
  {
    hide Neighbours, SubStep;
    FourNeighbours();
    SubStepIs(0, {A, B, C, D}, {A, B, C});
  }

  lemma FourNeighboursLeft()
    ensures var img := {A, B, C, D};
            Neighbours(img, A) == [0, 0, 1, 0, 0, 0, 0, 0] && Neighbours(img, B) == [0, 0, 1, 1, 0, 0, 1, 0]
  {
  }

  lemma FourNeighboursRight()
    ensures var img := {A, B, C, D};
            Neighbours(img, C) == [0, 0, 0, 0, 1, 0, 1, 0] && Neighbours(img, D) == [1, 0, 0, 0, 0, 0, 0, 1]
  {
  }

  lemma FourNeighbours()
    ensures var img := {A, B, C, D};
            && Neighbours(img, A) == [0, 0, 1, 0, 0, 0, 0, 0] && Neighbours(img, B) == [0, 0, 1, 1, 0, 0, 1, 0]
            && Neighbours(img, C) == [0, 0, 0, 0, 1, 0, 1, 0] && Neighbours(img, D) == [1, 0, 0, 0, 0, 0, 0, 1]
  {
    hide Neighbours;
    FourNeighboursLeft();
    FourNeighboursRight();
  }

  lemma ThreeNeighbours()
    ensures var img := {A, B, D};
            && Neighbours(img, A) == [0, 0, 1, 0, 0, 0, 0, 0] && Neighbours(img, B) == [0, 0, 0, 1, 0, 0, 1, 0]
            && Neighbours(img, D) == [0, 0, 0, 0, 0, 0, 0, 1]
  {
  }

  lemma FourLoseC(t: int)
    requires 0 <= t < 3
    ensures CornerStep(t, {A, B, C, D}) == if t == 2 then {A, B, D} else {A, B, C, D}
  {
    hide CornerStep, Neighbours;
    FourNeighbours();
    CornerStepIs(t, {A, B, C, D}, if t == 2 then {A, B, D} else {A, B, C, D});
  }

  lemma ThreeStay(t: int)
    requires 0 <= t < 4
    ensures CornerStep(t, {A, B, D}) == {A, B, D}
  {
    hide CornerStep, Neighbours;
    ThreeNeighbours();
    CornerStepIs(t, {A, B, D}, {A, B, D});
  }

  /** The corner pass on the image of one round removes C and keeps D. */
  lemma CornersOfFour()
    ensures Corners({A, B, C, D}) == {A, B, D}
  {
    hide CornerStep;
    FourLoseC(0);
    FourLoseC(1);
    FourLoseC(2);
    ThreeStay(0);
    ThreeStay(1);
    ThreeStay(2);
    ThreeStay(3);
  }

  lemma CornersOnlyDelete(img: Image)
    ensures Corners(img) <= img
  {
    hide IsCorner, Neighbours;
  }

  lemma SubStepOnlyDeletes(img: Image)
    ensures SubStep(1, img) <= img
  {
    hide Deletes, Neighbours;
  }

  /** n rounds leave the last stair, whose pixel D the corner pass keeps. */
  lemma KeepsD(n: nat)
    ensures D in Thinned(Stair(n + 1), n)
  {
    hide Iterations, Stair, Corners;
    StairAfter(n, n);
    LastStair();
    CornersOfFour();
  }

  /** One round more deletes it. */
  lemma LosesD(n: nat, m: nat)
    requires m > n
    ensures D !in Thinned(Stair(n + 1), m)
  {
    hide SubStep, Iterations, Stair, Corners;
    var masks := Stair(n + 1);
    StairAfter(n, n);
    LastStair();
    NextIteration(masks, n);
    ThirdSubStep();
    SubStepOnlyDeletes({A, B, C});
    IterationsShrink(masks, n + 1, m);
    CornersOnlyDelete(Iterations(masks, m));
  }

  /** For every n that the chunk length does not divide there is a mask whose chunked image differs. */
  lemma ChunkedImageDiffers(n: nat, k: nat)
    requires k > 0 && n % k != 0
    ensures Thinned(Stair(n + 1), ChunkRounds(n, k)) != Thinned(Stair(n + 1), n)
  {
    hide Thinned, Stair, ChunkRounds;
    PartChunk(n, k);
    KeepsD(n);
    LosesD(n, ChunkRounds(n, k));
  }

  /** The returned image is the one max_iter asks for on all masks, if and only if the chunk length divides
      the number of rounds. */
  lemma ChunksAlwaysAgreeIff(maxIter: int, k: nat)
    requires k > 0
    ensures (forall masks :: Thinned(masks, ChunkRounds(maxIter, k)) == Thinned(masks, Rounds(maxIter)))
       <==> Rounds(maxIter) % k == 0
  {
    hide Thinned;
    var n := Rounds(maxIter);
    if n % k == 0 {
      forall masks ensures Thinned(masks, ChunkRounds(maxIter, k)) == Thinned(masks, n) {
        ChunksAgree(masks, maxIter, k);
      }
    } else {
      ChunkedImageDiffers(n, k);
    }
  }
}
