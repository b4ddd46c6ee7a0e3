/** Which cells one update of inflation_layer.cpp gives the cost of their nearest obstacle, for any number
    of obstacles. */
module InflationExact {
  import opened InflationLevels
  import opened InflationWave
  import opened Inflation

  // ---- the nearest obstacle ----

  ghost predicate IsNearest(g: Scene, s: Point, p: Point) {
    s in g.sources && forall t | t in g.sources :: Norm(Minus(p, s)) <= Norm(Minus(p, t))
  }

  /** p was reached from a nearest obstacle. */
  ghost predicate GetsNearest(g: Scene, via: map<int, CellData>, p: Point) {
    Index(g, p) in via && IsNearest(g, Source(via[Index(g, p)]), p)
  }

  /** A reached cell offers p one of its nearest obstacles. */
  ghost predicate NearestOffered(g: Scene, via: map<int, CellData>, p: Point) {
    exists k, dir: nat :: k in via && dir < 4 && Offers(g, via[k], dir)
      && Neighbour(Cell(via[k]), dir) == p && IsNearest(g, Source(via[k]), p)
  }

  lemma ReachedCell(g: Scene, via: map<int, CellData>, p: Point)
    requires Settled(g, via) && InGrid(g, p) && Index(g, p) in via
    ensures EntryOk(g, via[Index(g, p)]) && Cell(via[Index(g, p)]) == p
  {
    hide Near, Offered, Offers, NeighbourEntry;
    IndexInjective(g, Cell(via[Index(g, p)]), p);
  }

  /** A cell that is no obstacle gets the distance of its nearest obstacle exactly when a reached neighbour
      offers it one. */
  lemma NearestIff(g: Scene, via: map<int, CellData>, p: Point)
    requires Settled(g, via) && InGrid(g, p) && p !in g.sources
    ensures GetsNearest(g, via, p) <==> NearestOffered(g, via, p)
  {
    hide Near, Norm, Wanted, Neighbour;
    if GetsNearest(g, via, p) {
      ReachedCell(g, via, p);
      var n := via[Index(g, p)];
      assert Offered(g, via, n);
    }
    if NearestOffered(g, via, p) {
      var k, dir: nat :| k in via && dir < 4 && Offers(g, via[k], dir)
        && Neighbour(Cell(via[k]), dir) == p && IsNearest(g, Source(via[k]), p);
      ReachedCell(g, via, p);
    }
  }

  /** s is nearer to p than every other obstacle. */
  ghost predicate Owns(g: Scene, s: Point, p: Point) {
    s in g.sources && forall t | t in g.sources && t != s :: Norm(Minus(p, s)) < Norm(Minus(p, t))
  }

  lemma {:induction false} NearestExists(sources: set<Point>, p: Point) returns (s: Point)
    requires sources != {}
    ensures s in sources && forall t | t in sources :: Norm(Minus(p, s)) <= Norm(Minus(p, t))
    decreases |sources|
  {
    hide Norm;
    s :| s in sources;
    var rest := sources - {s};
    if rest != {} {
      var t := NearestExists(rest, p);
      if Norm(Minus(p, t)) < Norm(Minus(p, s)) {
        s := t;
      }
    }
  }

  // ---- whole scenes ----

  /** No cell within the radius has two nearest obstacles. */
  ghost predicate NoTies(g: Scene) {
    forall p: Point, s, t | InGrid(g, p) && IsNearest(g, s, p) && IsNearest(g, t, p) && Near(g, p, s) :: s == t
  }

  /** p has a neighbour nearer to s for which s is a nearest obstacle as well. */
  ghost predicate Handed(g: Scene, p: Point, s: Point) {
    exists dir: nat :: dir < 4 && HandsOn(g, Neighbour(p, dir), p, s)
  }

  ghost predicate HandsOn(g: Scene, q: Point, p: Point, s: Point) {
    InGrid(g, q) && IsNearest(g, s, q) && Norm(Minus(q, s)) < Norm(Minus(p, s))
  }

  ghost predicate Connected(g: Scene) {
    forall p: Point, s | InGrid(g, p) && IsNearest(g, s, p) && Near(g, p, s) && p != s :: Handed(g, p, s)
  }

  /** Every cell within the radius of an obstacle gets the distance of its nearest one. */
  ghost predicate ExactEverywhere(g: Scene, via: map<int, CellData>) {
    forall p: Point, s | InGrid(g, p) && IsNearest(g, s, p) && Near(g, p, s) :: GetsNearest(g, via, p)
  }

  /** The direction back. */
  function Back(dir: nat): (r: nat)
    requires dir < 4
    ensures r < 4 && forall p: Point :: Neighbour(Neighbour(p, dir), r) == p
  {
    (dir + 2) % 4
  }

  lemma ReachedOver(g: Scene, via: map<int, CellData>, p: Point, q: Point, dir: nat, s: Point)
    requires Settled(g, via) && InGrid(g, p) && InGrid(g, q) && dir < 4 && Neighbour(q, dir) == p && Near(g, p, s)
    requires Index(g, q) in via && Source(via[Index(g, q)]) == s && Norm(Minus(q, s)) < Norm(Minus(p, s))
    ensures Index(g, p) in via && Norm(Minus(p, Source(via[Index(g, p)]))) <= Norm(Minus(p, s))
  {
    hide Near, Norm, Neighbour, Offered;
    ReachedCell(g, via, q);
    assert Offers(g, via[Index(g, q)], dir);
    ReachedCell(g, via, p);
  }

  lemma {:induction false} ConnectedReaches(g: Scene, via: map<int, CellData>, p: Point, s: Point)
    requires Settled(g, via) && NoTies(g) && Connected(g)
    requires InGrid(g, p) && IsNearest(g, s, p) && Near(g, p, s)
    ensures GetsNearest(g, via, p)
    decreases Norm(Minus(p, s))
  {
    hide Norm, Settled, Neighbour;
    if p == s {
      SourceReached(g, via, s);
    } else {
      assert Handed(g, p, s);
      var dir: nat :| dir < 4 && HandsOn(g, Neighbour(p, dir), p, s);
      var q := Neighbour(p, dir);
      NormNonNegative(Minus(q, s));
      ConnectedReaches(g, via, q, s);
      ReachedCell(g, via, q);
      ReachedOver(g, via, p, q, Back(dir), s);
      ReachedCell(g, via, p);
    }
  }

  lemma NormNonNegative(d: Point)
    ensures Norm(d) >= 0
  {
    assert d.0 * d.0 >= 0 && d.1 * d.1 >= 0;
  }

  lemma SourceReached(g: Scene, via: map<int, CellData>, s: Point)
    requires Settled(g, via) && s in g.sources
    ensures InGrid(g, s) && Index(g, s) in via && Source(via[Index(g, s)]) == s
  {
    hide Offered, Offers, NeighbourEntry;
  }

  lemma OnlyItselfNearest(g: Scene, p: Point, s: Point)
    requires p in g.sources && IsNearest(g, s, p)
    ensures s == p
  {
    if s != p {
      NormPositive(Minus(p, s));
    }
  }

  /** With or without ties: in an exact update, one of the nearest obstacles of every cell is handed on. */
  lemma ExactIsHanded(g: Scene, via: map<int, CellData>, p: Point) returns (s: Point)
    requires Settled(g, via) && ExactEverywhere(g, via)
    requires InGrid(g, p) && GetsNearest(g, via, p) && p !in g.sources
    ensures IsNearest(g, s, p) && Near(g, p, s) && Handed(g, p, s)
  {
    hide Norm, Neighbour, Settled;
    s := Source(via[Index(g, p)]);
    ReachedCell(g, via, p);
    var k, dir := OfferTo(g, via, p, s);
    var e := via[k];
    assert HandsOn(g, Cell(e), p, s) by {
      var t := NearestExists(g.sources, Cell(e));
      assert IsNearest(g, t, Cell(e));
      assert GetsNearest(g, via, Cell(e));
    }
    assert Neighbour(p, Back(dir)) == Cell(e) by {
      BackAgain(Cell(e), dir);
    }
  }

  lemma BackAgain(q: Point, dir: nat)
    requires dir < 4
    ensures Neighbour(Neighbour(q, dir), Back(dir)) == q
  {
  }

  lemma OfferTo(g: Scene, via: map<int, CellData>, p: Point, s: Point) returns (k: int, dir: nat)
    requires Settled(g, via) && InGrid(g, p) && Index(g, p) in via && Source(via[Index(g, p)]) == s && p != s
    ensures k in via && dir < 4 && EntryOk(g, via[k]) && Source(via[k]) == s && k == Index(g, Cell(via[k]))
    ensures Neighbour(Cell(via[k]), dir) == p && Norm(Minus(Cell(via[k]), s)) < Norm(Minus(p, s))
  {
    hide Norm, Near, Neighbour;
    ReachedCell(g, via, p);
    var n := via[Index(g, p)];
    assert Offered(g, via, n);
    k, dir :| k in via && dir < 4 && Offers(g, via[k], dir) && n == NeighbourEntry(g, via[k], dir);
  }

  lemma HandedWithoutTies(g: Scene, via: map<int, CellData>, p: Point, s: Point)
    requires Settled(g, via) && NoTies(g) && ExactEverywhere(g, via)
    requires InGrid(g, p) && IsNearest(g, s, p) && Near(g, p, s) && p != s
    ensures Handed(g, p, s)
  {
    hide Settled, Near, Handed, IsNearest, GetsNearest;
    assert GetsNearest(g, via, p);
    assert p !in g.sources by {
      if p in g.sources {
        OnlyItselfNearest(g, p, s);
      }
    }
    var t := ExactIsHanded(g, via, p);
  }

  /** Without ties, every cell within the radius gets the distance of its nearest obstacle if and only if
      each of them has a neighbour that is nearer to that obstacle and has it as nearest obstacle too. */
  lemma SceneExactIff(g: Scene, via: map<int, CellData>)
    requires Settled(g, via) && NoTies(g)
    ensures ExactEverywhere(g, via) <==> Connected(g)
  {
    hide Settled, NoTies, Near, Handed, GetsNearest, IsNearest;
    if ExactEverywhere(g, via) {
      forall p: Point, s | InGrid(g, p) && IsNearest(g, s, p) && Near(g, p, s) && p != s ensures Handed(g, p, s) {
        HandedWithoutTies(g, via, p, s);
      }
    }
    if Connected(g) {
      forall p: Point, s | InGrid(g, p) && IsNearest(g, s, p) && Near(g, p, s) ensures GetsNearest(g, via, p) {
        ConnectedReaches(g, via, p, s);
      }
    }
  }

  /** A neighbour nearer to s belongs to s alone. */
  ghost predicate SurelyHanded(g: Scene, p: Point, s: Point) {
    exists dir: nat :: dir < 4 && HandsOn(g, Neighbour(p, dir), p, s) && Owns(g, s, Neighbour(p, dir))
  }

  ghost predicate SurelyConnected(g: Scene) {
    forall p: Point, s | InGrid(g, p) && IsNearest(g, s, p) && Near(g, p, s) && p !in g.sources ::
      exists t :: IsNearest(g, t, p) && SurelyHanded(g, p, t)
  }

  /** With or without ties: where each cell has a neighbour that belongs to one of the cell's nearest
      obstacles alone, every cell within the radius gets the distance of its nearest obstacle. */
  lemma {:induction false} SurelyExact(g: Scene, via: map<int, CellData>, p: Point, s: Point)
    requires Settled(g, via) && SurelyConnected(g)
    requires InGrid(g, p) && IsNearest(g, s, p) && Near(g, p, s)
    ensures GetsNearest(g, via, p)
    decreases Norm(Minus(p, s))
  {
    hide Norm, Settled, Neighbour;
    if p in g.sources {
      SourceReached(g, via, p);
      OnlyItselfNearest(g, p, s);
    } else {
      var t :| IsNearest(g, t, p) && SurelyHanded(g, p, t);
      var dir: nat :| dir < 4 && HandsOn(g, Neighbour(p, dir), p, t) && Owns(g, t, Neighbour(p, dir));
      var q := Neighbour(p, dir);
      NormNonNegative(Minus(q, t));
      SurelyExact(g, via, q, t);
      ReachedCell(g, via, q);
      ReachedOver(g, via, p, q, Back(dir), t);
      ReachedCell(g, via, p);
    }
  }

  // ---- single cells and obstacles ----

  /** Steps from s to neighbours, always further away from s and nearest to s alone. */
  ghost predicate Climbs(g: Scene, s: Point, path: seq<Point>) {
    && |path| > 0 && path[0] == s && (forall i | 0 <= i < |path| :: InGrid(g, path[i]) && Owns(g, s, path[i]))
    && (forall i | 0 < i < |path| :: StepsUp(s, path[i - 1], path[i]))
  }

  ghost predicate StepsUp(s: Point, q: Point, p: Point) {
    Norm(Minus(q, s)) < Norm(Minus(p, s)) && exists dir: nat :: dir < 4 && Neighbour(q, dir) == p
  }

  lemma OwnedOver(g: Scene, via: map<int, CellData>, s: Point, q: Point, p: Point)
    requires Settled(g, via) && InGrid(g, p) && InGrid(g, q) && StepsUp(s, q, p) && Near(g, p, s) && Owns(g, s, p)
    requires Index(g, q) in via && Source(via[Index(g, q)]) == s
    ensures Index(g, p) in via && via[Index(g, p)] == Entry(g, p, s)
  {
    hide Norm, Settled, Neighbour;
    var dir: nat :| dir < 4 && Neighbour(q, dir) == p;
    ReachedOver(g, via, p, q, dir, s);
    ReachedCell(g, via, p);
  }

  /** A cell to which such steps lead is reached from s. */
  lemma {:induction false} PathExact(g: Scene, via: map<int, CellData>, s: Point, path: seq<Point>)
    requires Settled(g, via) && Climbs(g, s, path) && Near(g, path[|path| - 1], s)
    ensures var p := path[|path| - 1]; Index(g, p) in via && via[Index(g, p)] == Entry(g, p, s)
    decreases |path|
  {
    hide Norm, Settled, Owns, Neighbour;
    var n := |path| - 1;
    if n == 0 {
      OwnerIsSource(g, s, path[0]);
      SourceReached(g, via, s);
      ReachedCell(g, via, s);
    } else {
      assert Climbs(g, s, path[..n]);
      assert StepsUp(s, path[n - 1], path[n]);
      PathExact(g, via, s, path[..n]);
      OwnedOver(g, via, s, path[n - 1], path[n]);
    }
  }

  lemma OwnerIsSource(g: Scene, s: Point, p: Point)
    requires Owns(g, s, p)
    ensures s in g.sources
  {
  }

  lemma Shrink(d: int)
    requires d > 0
    ensures (d - 1) * (d - 1) < d * d && (1 - d) * (1 - d) < (-d) * (-d)
  {
  }

  /** A cell other than the source has a neighbour nearer to it. */
  lemma StepTowards(g: Scene, p: Point, s: Point) returns (q: Point)
    requires InGrid(g, p) && InGrid(g, s) && p != s
    ensures InGrid(g, q) && StepsUp(s, q, p)
  {
    var dir: nat;
    if p.0 > s.0 {
      q, dir := (p.0 - 1, p.1), 2;
      Shrink(p.0 - s.0);
    } else if p.0 < s.0 {
      q, dir := (p.0 + 1, p.1), 0;
      Shrink(s.0 - p.0);
    } else if p.1 > s.1 {
      q, dir := (p.0, p.1 - 1), 3;
      Shrink(p.1 - s.1);
    } else {
      q, dir := (p.0, p.1 + 1), 1;
      Shrink(s.1 - p.1);
    }
    assert Neighbour(q, dir) == p;
  }

  /** Within the radius of s no other obstacle is as near. */
  ghost predicate OwnsDisk(g: Scene, s: Point) {
    s in g.sources && forall p: Point | InGrid(g, p) && Near(g, p, s) :: Owns(g, s, p)
  }

  /** An obstacle that owns its disk reaches exactly that. */
  lemma {:induction false} DiskExactlyReached(g: Scene, via: map<int, CellData>, s: Point, p: Point)
    requires Settled(g, via) && OwnsDisk(g, s) && InGrid(g, p)
    ensures Index(g, p) in via && via[Index(g, p)] == Entry(g, p, s) <==> Near(g, p, s)
    decreases Norm(Minus(p, s))
  {
    hide Norm, Settled, Owns;
    if Index(g, p) in via {
      ReachedCell(g, via, p);
    }
    SourceReached(g, via, s);
    if Near(g, p, s) {
      if p == s {
        ReachedCell(g, via, s);
      } else {
        var q := StepTowards(g, p, s);
        NormNonNegative(Minus(q, s));
        DiskExactlyReached(g, via, s, q);
        OwnedOver(g, via, s, q, p);
      }
    }
  }

  /** Every other obstacle is more than two radii away. */
  ghost predicate Isolated(g: Scene, s: Point) {
    s in g.sources && forall t | t in g.sources && t != s :: Norm(Minus(t, s)) > 4 * (g.radius * g.radius)
  }

  lemma DifferenceSquare(a: int, b: int)
    ensures (a - b) * (a - b) <= 2 * (a * a) + 2 * (b * b)
  {
    assert (a - b) * (a - b) + (a + b) * (a + b) == 2 * (a * a) + 2 * (b * b);
    assert (a + b) * (a + b) >= 0;
  }

  lemma IsolatedOwns(g: Scene, s: Point)
    requires Isolated(g, s)
    ensures OwnsDisk(g, s)
  {
    forall p: Point, t | Near(g, p, s) && t in g.sources && t != s ensures Norm(Minus(p, s)) < Norm(Minus(p, t)) {
      DifferenceSquare(p.0 - s.0, p.0 - t.0);
      DifferenceSquare(p.1 - s.1, p.1 - t.1);
      assert Norm(Minus(t, s)) <= 2 * Norm(Minus(p, s)) + 2 * Norm(Minus(p, t)) by {
        assert t.0 - s.0 == (p.0 - s.0) - (p.0 - t.0) && t.1 - s.1 == (p.1 - s.1) - (p.1 - t.1);
      }
    }
  }

  // ---- what that means for the costmap ----

  /** The cost a cell gets is that of the distance to the obstacle it was reached from. */
  lemma CostOfReached(g: Scene, box: Box, costOf: int -> int, inflateUnknown: bool,
                      before: seq<int>, after: seq<int>, via: map<int, CellData>, p: Point)
    requires Inflated(g, box, costOf, inflateUnknown, before, after, via) && |before| == g.sizeX * g.sizeY
    requires InGrid(g, p)
    ensures 0 <= Index(g, p) < |before| == |after|
    ensures var k := Index(g, p);
            after[k] == if k in via && InBox(box, p)
                        then Combine(before[k], costOf(Norm(Minus(p, Source(via[k])))), inflateUnknown) else before[k]
    ensures var k := Index(g, p);
            CostOk(costOf) && k in via && InBox(box, p) ==>
              RaisedTo(before[k], costOf(Norm(Minus(p, Source(via[k])))), inflateUnknown, after[k])
  {
    hide Norm, Settled;
    IndexRange(g, p);
    if Index(g, p) in via {
      ReachedCell(g, via, p);
      if CostOk(costOf) {
        NormNonNegative(Minus(p, Source(via[Index(g, p)])));
        CombineRaises(before[Index(g, p)], costOf(Norm(Minus(p, Source(via[Index(g, p)])))), inflateUnknown);
      }
    }
  }

  /** p lies in the bounds and at most R away from s. */
  predicate Touched(g: Scene, box: Box, s: Point, p: Point) {
    && box.minI <= p.0 < box.maxI && box.minJ <= p.1 < box.maxJ
    && (p.0 - s.0) * (p.0 - s.0) + (p.1 - s.1) * (p.1 - s.1) <= g.radius * g.radius
  }

  /** The new value of p is its old one, raised to the cost of its distance from s where s touches it. */
  ghost predicate RaisedBy(g: Scene, box: Box, costOf: int -> int, inflateUnknown: bool, s: Point, p: Point,
                           v: int, r: int) {
    if Touched(g, box, s, p)
    then RaisedTo(v, costOf((p.0 - s.0) * (p.0 - s.0) + (p.1 - s.1) * (p.1 - s.1)), inflateUnknown, r)
    else r == v
  }

  lemma RaisedByIs(g: Scene, box: Box, costOf: int -> int, inflateUnknown: bool, s: Point, p: Point, v: int, r: int)
    requires InBox(box, p) && Near(g, p, s) ==> RaisedTo(v, costOf(Norm(Minus(p, s))), inflateUnknown, r)
    requires !(InBox(box, p) && Near(g, p, s)) ==> r == v
    ensures RaisedBy(g, box, costOf, inflateUnknown, s, p, v, r)
  {
    hide RaisedTo;
  }

  /** Around an obstacle that owns its disk every cell within the radius gets the cost of its true distance. */
  lemma OwnedDiskExact(g: Scene, box: Box, costOf: int -> int, inflateUnknown: bool,
                       before: seq<int>, after: seq<int>, via: map<int, CellData>, s: Point, p: Point)
    requires Inflated(g, box, costOf, inflateUnknown, before, after, via) && |before| == g.sizeX * g.sizeY
    requires OwnsDisk(g, s) && InGrid(g, p) && Near(g, p, s)
    ensures 0 <= Index(g, p) < |before| == |after|
    ensures after[Index(g, p)] ==
            if InBox(box, p) then Combine(before[Index(g, p)], costOf(Norm(Minus(p, s))), inflateUnknown)
            else before[Index(g, p)]
    ensures CostOk(costOf) ==>
              RaisedBy(g, box, costOf, inflateUnknown, s, p, before[Index(g, p)], after[Index(g, p)])
  {
    hide Norm, OwnsDisk, Settled, RaisedTo, RaisedBy, Combine, CostOk;
    CostOfReached(g, box, costOf, inflateUnknown, before, after, via, p);
    DiskExactlyReached(g, via, s, p);
    if CostOk(costOf) {
      RaisedByIs(g, box, costOf, inflateUnknown, s, p, before[Index(g, p)], after[Index(g, p)]);
    }
  }

  /** So it is around every obstacle of any scene that has no other within two radii. */
  lemma IsolatedExact(g: Scene, box: Box, costOf: int -> int, inflateUnknown: bool,
                      before: seq<int>, after: seq<int>, via: map<int, CellData>, s: Point, p: Point)
    requires Inflated(g, box, costOf, inflateUnknown, before, after, via) && |before| == g.sizeX * g.sizeY
    requires Isolated(g, s) && InGrid(g, p) && Near(g, p, s)
    ensures 0 <= Index(g, p) < |before| == |after|
    ensures after[Index(g, p)] ==
            if InBox(box, p) then Combine(before[Index(g, p)], costOf(Norm(Minus(p, s))), inflateUnknown)
            else before[Index(g, p)]
    ensures CostOk(costOf) ==>
              RaisedBy(g, box, costOf, inflateUnknown, s, p, before[Index(g, p)], after[Index(g, p)])
  {
    hide Norm, OwnsDisk, RaisedTo, RaisedBy, Combine, CostOk;
    IsolatedOwns(g, s);
    OwnedDiskExact(g, box, costOf, inflateUnknown, before, after, via, s, p);
  }

  lemma LoneIsIsolated(g: Scene, s: Point)
    requires g.sources == {s}
    ensures Isolated(g, s)
  {
  }

  /** A single obstacle reaches the cells within the radius and no others, each with the cost of its true
      distance. */
  lemma OneObstacleExact(g: Scene, box: Box, costOf: int -> int, inflateUnknown: bool,
                         before: seq<int>, after: seq<int>, via: map<int, CellData>, s: Point, p: Point)
    requires Inflated(g, box, costOf, inflateUnknown, before, after, via) && |before| == g.sizeX * g.sizeY
    requires g.sources == {s} && InGrid(g, p)
    ensures 0 <= Index(g, p) < |before| == |after|
    ensures after[Index(g, p)] ==
            if InBox(box, p) && Near(g, p, s)
            then Combine(before[Index(g, p)], costOf(Norm(Minus(p, s))), inflateUnknown)
            else before[Index(g, p)]
    ensures CostOk(costOf) ==>
              RaisedBy(g, box, costOf, inflateUnknown, s, p, before[Index(g, p)], after[Index(g, p)])
  {
    hide Norm, RaisedTo, RaisedBy, Combine, CostOk, Near, Settled, Isolated, Index, Painted;
    LoneIsIsolated(g, s);
    SourceReached(g, via, s);
    CostOfReached(g, box, costOf, inflateUnknown, before, after, via, p);
    if Near(g, p, s) {
      IsolatedExact(g, box, costOf, inflateUnknown, before, after, via, s, p);
    } else {
      if Index(g, p) in via {
        ReachedCell(g, via, p);
        EntryNear(g, via[Index(g, p)]);
      }
      RaisedByIs(g, box, costOf, inflateUnknown, s, p, before[Index(g, p)], after[Index(g, p)]);
    }
  }

  // ---- a whole costmap ----

  /** v is the value of an obstacle. */
  predicate Blocks(v: int, around: bool) {
    v == 254 || (around && v == 255)
  }

  /** In a costmap whose only obstacle is s, an update raises exactly the cells of the bounds within the radius,
      each to the cost of its distance from s, and leaves all others as they were. */
  lemma LoneObstacleInflates(g: Scene, box: Box, costOf: int -> int, inflateUnknown: bool, around: bool,
                             before: seq<int>, after: seq<int>, via: map<int, CellData>, s: Point, p: Point)
    requires Inflated(g, box, costOf, inflateUnknown, before, after, via) && |before| == g.sizeX * g.sizeY
    requires CostOk(costOf) && InGrid(g, p) && InGrid(g, s)
    requires g.sources == Obstacles(before, g.sizeX, g.sizeY, ScanBox(box, g.radius, g.sizeX, g.sizeY), around)
    requires forall q: Point | InGrid(g, q) ::
               0 <= q.1 * g.sizeX + q.0 < |before| && (Blocks(before[q.1 * g.sizeX + q.0], around) <==> q == s)
    ensures |after| == |before|
    ensures var k := p.1 * g.sizeX + p.0; RaisedBy(g, box, costOf, inflateUnknown, s, p, before[k], after[k])
  {
    hide Settled, CostOk, RaisedBy, RaisedTo, Combine;
    SourcesAre(g, before, box, around, s);
    if g.sources == {s} {
      OneObstacleExact(g, box, costOf, inflateUnknown, before, after, via, s, p);
    } else {
      CostOfReached(g, box, costOf, inflateUnknown, before, after, via, p);
      NothingReached(g, via, p);
      UntouchedStays(g, before, box, around, costOf, inflateUnknown, s, p);
    }
  }

  lemma NothingReached(g: Scene, via: map<int, CellData>, p: Point)
    requires Settled(g, via) && g.sources == {} && InGrid(g, p)
    ensures Index(g, p) !in via
  {
    hide Offered, Offers, NeighbourEntry;
  }

  lemma SourcesAre(g: Scene, before: seq<int>, box: Box, around: bool, s: Point)
    requires |before| == g.sizeX * g.sizeY
    requires g.sources == Obstacles(before, g.sizeX, g.sizeY, ScanBox(box, g.radius, g.sizeX, g.sizeY), around)
    requires forall q: Point | InGrid(g, q) ::
               0 <= q.1 * g.sizeX + q.0 < |before| && (Blocks(before[q.1 * g.sizeX + q.0], around) <==> q == s)
    ensures g.sources == {s} || g.sources == {}
  {
    forall q | q in g.sources ensures q == s {
      assert InGrid(g, q);
    }
  }

  lemma UntouchedStays(g: Scene, before: seq<int>, box: Box, around: bool, costOf: int -> int, inflateUnknown: bool,
                       s: Point, p: Point)
    requires |before| == g.sizeX * g.sizeY && InGrid(g, p) && InGrid(g, s) && g.sources == {}
    requires g.sources == Obstacles(before, g.sizeX, g.sizeY, ScanBox(box, g.radius, g.sizeX, g.sizeY), around)
    requires 0 <= s.1 * g.sizeX + s.0 < |before| && Blocks(before[s.1 * g.sizeX + s.0], around)
    requires 0 <= p.1 * g.sizeX + p.0 < |before|
    ensures var v := before[p.1 * g.sizeX + p.0]; RaisedBy(g, box, costOf, inflateUnknown, s, p, v, v)
  {
    hide Obstacles, ScanBox, RaisedTo;
    if Touched(g, box, s, p) {
      ScanIsWideEnough(g, before, box, around, p, s);
      assert false;
    }
  }

  /** No obstacle further than the radius from the bounds, in either direction, is scanned. */
  lemma ScanIsNoWider(g: Scene, before: seq<int>, box: Box, around: bool, s: Point)
    requires |before| == g.sizeX * g.sizeY && s in g.sources
    requires g.sources == Obstacles(before, g.sizeX, g.sizeY, ScanBox(box, g.radius, g.sizeX, g.sizeY), around)
    ensures box.minI - g.radius <= s.0 < box.maxI + g.radius && box.minJ - g.radius <= s.1 < box.maxJ + g.radius
    ensures InGrid(g, s) && 0 <= s.1 * g.sizeX + s.0 < |before| && Blocks(before[s.1 * g.sizeX + s.0], around)
  {
  }
}
