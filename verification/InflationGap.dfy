/** A costmap in which inflation_layer.cpp gives a cell within the inflation radius of an obstacle no cost. */
module InflationGap {
  import opened InflationLevels
  import opened InflationWave
  import opened Inflation
  import opened InflationExact

  const SIZE: nat := 40
  const RADIUS: nat := 10

  const MIDDLE: Point := (15, 15)
  const ABOVE: Point := (12, 23)
  const ASIDE: Point := (23, 12)

  /** 98 from the middle obstacle, 101 from the other two, in squares. */
  const CELL: Point := (22, 22)

  ghost predicate GapScene(g: Scene) {
    g.sizeX == g.sizeY == SIZE && g.radius == RADIUS && g.sources == {MIDDLE, ABOVE, ASIDE}
  }

  /** Along its row and one step down. */
  function PathAbove(): seq<Point> {
    seq(10, i => (12 + i, 23)) + [(21, 22)]
  }

  function PathAside(): seq<Point> {
    seq(10, i => (23, 12 + i)) + [(22, 21)]
  }

  lemma AboveOwns(g: Scene, p: Point)
    requires GapScene(g) && ((p.1 == 23 && 12 <= p.0 <= 21) || p == (21, 22))
    ensures InGrid(g, p) && Owns(g, ABOVE, p)
  {
  }

  lemma AboveClimbs(g: Scene)
    requires GapScene(g)
    ensures Climbs(g, ABOVE, PathAbove())
  {
    hide Owns, StepsUp, GapScene;
    var path := PathAbove();
    forall i | 0 <= i < |path| ensures InGrid(g, path[i]) && Owns(g, ABOVE, path[i]) {
      AboveOwns(g, path[i]);
    }
    forall i | 0 < i < |path| ensures StepsUp(ABOVE, path[i - 1], path[i]) {
      AboveSteps(path[i - 1], path[i]);
    }
  }

  lemma AboveSteps(q: Point, p: Point)
    requires (q.1 == p.1 == 23 && 12 <= q.0 == p.0 - 1) || (q == (21, 23) && p == (21, 22))
    ensures StepsUp(ABOVE, q, p)
  {
    assert Neighbour(q, if p.1 == 23 then 2 else 1) == p;
  }

  lemma AsideOwns(g: Scene, p: Point)
    requires GapScene(g) && ((p.0 == 23 && 12 <= p.1 <= 21) || p == (22, 21))
    ensures InGrid(g, p) && Owns(g, ASIDE, p)
  {
  }

  lemma AsideClimbs(g: Scene)
    requires GapScene(g)
    ensures Climbs(g, ASIDE, PathAside())
  {
    hide Owns, StepsUp, GapScene;
    var path := PathAside();
    forall i | 0 <= i < |path| ensures InGrid(g, path[i]) && Owns(g, ASIDE, path[i]) {
      AsideOwns(g, path[i]);
    }
    forall i | 0 < i < |path| ensures StepsUp(ASIDE, path[i - 1], path[i]) {
      AsideSteps(path[i - 1], path[i]);
    }
  }

  lemma AsideSteps(q: Point, p: Point)
    requires (q.0 == p.0 == 23 && 12 <= q.1 == p.1 - 1) || (q == (23, 21) && p == (22, 21))
    ensures StepsUp(ASIDE, q, p)
  {
    assert Neighbour(q, if p.0 == 23 then 3 else 0) == p;
  }

  /** The two neighbours that could hand the cell on belong to the other obstacles. */
  lemma NeighboursTaken(g: Scene, via: map<int, CellData>)
    requires GapScene(g) && Settled(g, via)
    ensures Index(g, (21, 22)) in via && Source(via[Index(g, (21, 22))]) == ABOVE
    ensures Index(g, (22, 21)) in via && Source(via[Index(g, (22, 21))]) == ASIDE
  {
    hide Settled, Climbs;
    AboveClimbs(g);
    AsideClimbs(g);
    PathExact(g, via, ABOVE, PathAbove());
    PathExact(g, via, ASIDE, PathAside());
  }

  lemma OnlyMiddleNear(g: Scene, s: Point)
    requires GapScene(g) && s in g.sources
    ensures Near(g, CELL, s) <==> s == MIDDLE
  {
    assert Norm(Minus(CELL, MIDDLE)) == 98 && Norm(Minus(CELL, ABOVE)) == Norm(Minus(CELL, ASIDE)) == 101;
  }

  lemma OnlyTwoHandOn(q: Point, dir: nat)
    requires dir < 4 && Neighbour(q, dir) == CELL && Norm(Minus(q, MIDDLE)) < Norm(Minus(CELL, MIDDLE))
    ensures q == (21, 22) || q == (22, 21)
  {
  }

  /** The cell is within the radius of an obstacle, and is never reached. */
  lemma CellMissed(g: Scene, via: map<int, CellData>)
    requires GapScene(g) && Settled(g, via)
    ensures InGrid(g, CELL) && Near(g, CELL, MIDDLE) && Index(g, CELL) !in via
  {
    hide Settled, Near, Norm, Index, Neighbour;
    NeighboursTaken(g, via);
    OnlyMiddleNear(g, MIDDLE);
    if Index(g, CELL) in via {
      ReachedCell(g, via, CELL);
      var s := Source(via[Index(g, CELL)]);
      OnlyMiddleNear(g, s);
      var k, dir := OfferTo(g, via, CELL, s);
      OnlyTwoHandOn(Cell(via[k]), dir);
    }
  }

  // ---- the same in a costmap ----

  /** Free but for the three obstacles. */
  ghost predicate GapMap(master: seq<int>) {
    && |master| == SIZE * SIZE
    && forall i, j | 0 <= i < SIZE && 0 <= j < SIZE ::
         master[Flat(j, i, SIZE)] == if (i, j) in {MIDDLE, ABOVE, ASIDE} then LETHAL_OBSTACLE else FREE_SPACE
  }

  lemma GapObstacles(master: seq<int>)
    requires GapMap(master)
    ensures Obstacles(master, SIZE, SIZE, ScanBox(Box(0, 0, SIZE, SIZE), RADIUS, SIZE, SIZE), false)
         == {MIDDLE, ABOVE, ASIDE}
  {
    var scan := ScanBox(Box(0, 0, SIZE, SIZE), RADIUS, SIZE, SIZE);
    assert scan == Box(0, 0, SIZE, SIZE);
    forall i, j | 0 <= i < SIZE && 0 <= j < SIZE
      ensures IsObstacleAt(master, SIZE, scan, false, (i, j)) <==> (i, j) in {MIDDLE, ABOVE, ASIDE}
    {
      assert Flat(j, i, SIZE) == j * SIZE + i;
    }
    var found := Obstacles(master, SIZE, SIZE, scan, false);
    assert forall p :: p in found <==> p in {MIDDLE, ABOVE, ASIDE};
  }

  /** An update of the whole costmap with radius 10 leaves the cell free. */
  method UpdateMissesCell(layer: InflationLayer, master: array<int>)
    requires layer.Valid() && layer.enabled && !layer.inflateAroundUnknown && layer.cellInflationRadius == RADIUS
    requires GapMap(master[..])
    modifies layer`inflationCells, layer`seen, layer.seen, master
    ensures layer.Valid()
    ensures master.Length == SIZE * SIZE && master[Flat(CELL.1, CELL.0, SIZE)] == FREE_SPACE
  {
    hide Obstacles, Inflated, CacheOk, LevelsOk;
    ghost var before := master[..];
    GapObstacles(before);
    ghost var g, via;
    g, via := layer.UpdateCosts(master, SIZE, SIZE, Box(0, 0, SIZE, SIZE));
    InflatedSettles(g, Box(0, 0, SIZE, SIZE), layer.costOf, layer.inflateUnknown, before, master[..], via);
    CellMissed(g, via);
    CostOfReached(g, Box(0, 0, SIZE, SIZE), layer.costOf, layer.inflateUnknown, before, master[..], via, CELL);
    assert before[Flat(CELL.1, CELL.0, SIZE)] == FREE_SPACE;
  }

  lemma InflatedSettles(g: Scene, box: Box, costOf: int -> int, inflateUnknown: bool,
                        before: seq<int>, after: seq<int>, via: map<int, CellData>)
    requires Inflated(g, box, costOf, inflateUnknown, before, after, via)
    ensures Settled(g, via)
  {
    hide Settled;
  }
}
