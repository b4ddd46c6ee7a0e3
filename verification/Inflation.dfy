/** inflation_layer.cpp: caches, the bucket queue, and the update of the master costmap. */
module Inflation {
  import opened Arithmetic
  import opened InflationLevels
  import opened InflationWave

  const NO_INFORMATION := 255
  const LETHAL_OBSTACLE := 254
  const INSCRIBED_INFLATED_OBSTACLE := 253
  const FREE_SPACE := 0

  // ---- costs ----

  /** What `computeCost` gives its callers, by squared distance: lethal at the obstacle, less elsewhere,
      never more further away. */
  ghost predicate CostOk(costOf: int -> int) {
    && costOf(0) == LETHAL_OBSTACLE
    && (forall d | d > 0 :: FREE_SPACE <= costOf(d) <= INSCRIBED_INFLATED_OBSTACLE)
    && (forall d, e | 0 <= d <= e :: costOf(d) >= costOf(e))
  }

  /** The new value of a cell inside the bounds. */
  function Combine(prior: int, cost: int, inflateUnknown: bool): int {
    if prior == NO_INFORMATION && (if inflateUnknown then cost > FREE_SPACE else cost >= INSCRIBED_INFLATED_OBSTACLE)
    then cost else Max(prior, cost)
  }

  /** A cell of value v that is given cost k may end at r: a known value rises to k where that is more, and an
      unknown one takes k, or stays unknown when k is too small to inflate into unknown cells. */
  ghost predicate RaisedTo(v: int, k: int, inflateUnknown: bool, r: int) {
    if v != 255 then v <= r && k <= r && (r == v || r == k)
    else if (inflateUnknown && k > 0) || k >= 253 then r == k
    else r == 255
  }

  lemma CombineRaises(v: int, k: int, inflateUnknown: bool)
    requires 0 <= k <= 254
    ensures RaisedTo(v, k, inflateUnknown, Combine(v, k, inflateUnknown))
  {
  }

  /** The bounds of an update: minI <= x < maxI, minJ <= y < maxJ. */
  datatype Box = Box(minI: int, minJ: int, maxI: int, maxJ: int)

  predicate InBox(box: Box, p: Point) {
    box.minI <= p.0 < box.maxI && box.minJ <= p.1 < box.maxJ
  }

  function EntryCost(costOf: int -> int, e: CellData): int {
    costOf(Norm(Minus(Cell(e), Source(e))))
  }

  /** The master array after the cells in `via` have been painted, each once, from its value before. */
  ghost predicate Painted(box: Box, costOf: int -> int, inflateUnknown: bool,
                          before: seq<int>, after: seq<int>, via: map<int, CellData>) {
    && |after| == |before|
    && forall k | 0 <= k < |before| ::
         after[k] == if k in via && InBox(box, Cell(via[k]))
                     then Combine(before[k], EntryCost(costOf, via[k]), inflateUnknown) else before[k]
  }

  lemma PaintStep(box: Box, costOf: int -> int, inflateUnknown: bool,
                  before: seq<int>, after: seq<int>, via: map<int, CellData>, k: int, e: CellData, v: int)
    requires Painted(box, costOf, inflateUnknown, before, after, via) && 0 <= k < |before| && k !in via
    requires v == if InBox(box, Cell(e)) then Combine(after[k], EntryCost(costOf, e), inflateUnknown) else after[k]
    ensures Painted(box, costOf, inflateUnknown, before, after[k := v], via[k := e])
  {
  }

  // ---- the caches, indexed by i * length + j ----

  function Flat(i: nat, j: nat, len: nat): nat {
    i * len + j
  }

  /** Row i of a cache holds f(i^2 + j^2). */
  ghost predicate RowOk(cache: seq<int>, len: nat, i: nat, n: nat, f: int -> int) {
    forall j: nat | j < n :: Flat(i, j, len) < |cache| && cache[Flat(i, j, len)] == f(i * i + j * j)
  }

  ghost predicate CacheOk(cache: seq<int>, len: nat, f: int -> int) {
    forall i: nat | i < len :: RowOk(cache, len, i, len, f)
  }

  lemma RowGrows(cache: seq<int>, cache': seq<int>, len: nat, i: nat, n: nat, f: int -> int)
    requires RowOk(cache, len, i, n, f) && cache <= cache'
    ensures RowOk(cache', len, i, n, f)
  {
  }

  /** Fills a cache row by row. */
  method FillCache(len: nat, f: int -> int) returns (cache: seq<int>)
    ensures |cache| == len * len && CacheOk(cache, len, f)
  {
    hide RowOk;
    cache := [];
    for i := 0 to len
      invariant |cache| == i * len
      invariant forall r: nat | r < i :: RowOk(cache, len, r, len, f)
    {
      var row := FillRow(cache, len, i, f);
      forall r: nat | r < i ensures RowOk(row, len, r, len, f) {
        RowGrows(cache, row, len, r, len, f);
      }
      cache := row;
    }
  }

  method FillRow(before: seq<int>, len: nat, i: nat, f: int -> int) returns (cache: seq<int>)
    requires |before| == i * len
    ensures |cache| == (i + 1) * len && before <= cache && RowOk(cache, len, i, len, f)
  {
    cache := before;
    for j := 0 to len
      invariant |cache| == i * len + j && before <= cache && RowOk(cache, len, i, j, f)
    {
      RowGrows(cache, cache + [f(i * i + j * j)], len, i, j, f);
      cache := cache + [f(i * i + j * j)];
    }
  }

  function Identity(): int -> int {
    (d: int) => d
  }

  function Abs(a: int): nat {
    if a < 0 then -a else a
  }

  lemma AbsSquares(p: Point)
    ensures Abs(p.0) * Abs(p.0) + Abs(p.1) * Abs(p.1) == Norm(p)
  {
  }

  /** Neighbours of a listed cell stay within the caches, which reach one cell beyond the radius. */
  lemma NeighbourInCache(g: Scene, e: CellData, dir: nat)
    requires EntryOk(g, e) && dir < 4
    ensures var d := Minus(Neighbour(Cell(e), dir), Source(e));
            Abs(d.0) <= g.radius + 1 && Abs(d.1) <= g.radius + 1
  {
    NearInDisk(g, Cell(e), Source(e));
  }

  function CacheAt(cache: seq<int>, len: nat, d: Point): int {
    var k := Flat(Abs(d.0), Abs(d.1), len);
    if k < |cache| then cache[k] else -1
  }

  lemma CacheRead(cache: seq<int>, len: nat, f: int -> int, d: Point)
    requires CacheOk(cache, len, f) && Abs(d.0) < len && Abs(d.1) < len
    ensures Flat(Abs(d.0), Abs(d.1), len) < |cache|
    ensures CacheAt(cache, len, d) == f(Norm(d))
  {
    AbsSquares(d);
    assert RowOk(cache, len, Abs(d.0), len, f);
  }

  /** Costs are looked up from the distance cache, entry by entry. */
  method FillCosts(dist: seq<int>, len: nat, costOf: int -> int) returns (cache: seq<int>)
    requires |dist| == len * len && CacheOk(dist, len, Identity())
    ensures |cache| == len * len && CacheOk(cache, len, costOf)
  {
    hide RowOk;
    cache := [];
    for i := 0 to len
      invariant |cache| == i * len
      invariant forall r: nat | r < i :: RowOk(cache, len, r, len, costOf)
    {
      var row := FillCostRow(cache, dist, len, i, costOf);
      forall r: nat | r < i ensures RowOk(row, len, r, len, costOf) {
        RowGrows(cache, row, len, r, len, costOf);
      }
      cache := row;
    }
  }

  method FillCostRow(before: seq<int>, dist: seq<int>, len: nat, i: nat, costOf: int -> int) returns (cache: seq<int>)
    requires |before| == i * len && i < len && |dist| == len * len && RowOk(dist, len, i, len, Identity())
    ensures |cache| == (i + 1) * len && before <= cache && RowOk(cache, len, i, len, costOf)
  {
    cache := before;
    for j := 0 to len
      invariant |cache| == i * len + j && before <= cache && RowOk(cache, len, i, j, costOf)
    {
      assert Flat(i, j, len) < |dist| && dist[Flat(i, j, len)] == i * i + j * j;
      RowGrows(cache, cache + [costOf(dist[Flat(i, j, len)])], len, i, j, costOf);
      cache := cache + [costOf(dist[Flat(i, j, len)])];
    }
  }

  // ---- the obstacles of an update ----

  predicate IsObstacle(v: int, aroundUnknown: bool) {
    v == LETHAL_OBSTACLE || (aroundUnknown && v == NO_INFORMATION)
  }

  /** The obstacle cells of the scanned region. */
  ghost function Obstacles(master: seq<int>, sizeX: nat, sizeY: nat, scan: Box, aroundUnknown: bool): (r: set<Point>)
    requires |master| == sizeX * sizeY
  {
    set i, j | 0 <= i < sizeX && 0 <= j < sizeY && IsObstacleAt(master, sizeX, scan, aroundUnknown, (i, j)) :: (i, j)
  }

  ghost predicate IsObstacleAt(master: seq<int>, sizeX: nat, scan: Box, aroundUnknown: bool, p: Point) {
    && InBox(scan, p) && 0 <= p.1 * sizeX + p.0 < |master|
    && IsObstacle(master[p.1 * sizeX + p.0], aroundUnknown)
  }

  /** The bounds widened by the radius and clipped to the grid. */
  function ScanBox(box: Box, radius: nat, sizeX: nat, sizeY: nat): Box {
    Box(Max(0, box.minI - radius), Max(0, box.minJ - radius),
        Min(sizeX, box.maxI + radius), Min(sizeY, box.maxJ + radius))
  }

  // ---- the invariant of the wavefront ----

  /** Obstacles that have been processed were processed as their own source. */
  ghost predicate SourcesOwn(g: Scene, via: map<int, CellData>) {
    forall s | s in g.sources && Index(g, s) in via :: via[Index(g, s)] == Entry(g, s, s)
  }

  /** Bins below b are used up and i entries of bin b have been taken. */
  ghost predicate Running(g: Scene, bins: Bins, seen: seq<bool>, via: map<int, CellData>, b: int, i: int) {
    && SceneOk(g) && BinsOk(g, bins) && |bins| == g.top + 1 && |seen| == g.sizeX * g.sizeY
    && SeenBy(g, seen, via) && SourcesOwn(g, via) && Frontier(g, bins, seen, via, b, i)
    && 0 <= b && (b < |bins| ==> 0 <= i <= |bins[b]|)
  }

  /** The first bin lists every obstacle as its own source, the others are empty. */
  ghost predicate Seeded(g: Scene, bins: Bins) {
    && |bins| == g.top + 1 > 0
    && (forall e | e in bins[0] :: Source(e) in g.sources && e == Entry(g, Source(e), Source(e)))
    && (forall s | s in g.sources :: Entry(g, s, s) in bins[0])
    && (forall b | 1 <= b < |bins| :: bins[b] == [])
  }

  lemma StartRunning(g: Scene, bins: Bins, seen: seq<bool>)
    requires SceneOk(g) && Seeded(g, bins)
    requires |seen| == g.sizeX * g.sizeY && forall k | 0 <= k < |seen| :: !seen[k]
    ensures Running(g, bins, seen, map[], 0, 0)
  {
    forall e | e in bins[0] ensures EntryOk(g, e) && BinOf(g, Cell(e), Source(e)) == 0 {
      OriginBin(g, Source(e));
      assert g.radius * g.radius >= 0;
    }
    assert BinOk(g, bins[0], 0);
    forall b | 0 <= b < |bins| ensures BinOk(g, bins[b], b) {
    }
    forall s | s in g.sources ensures SeenOrWaits(g, bins, seen, Entry(g, s, s), 0, 0) {
      SourceWaits(g, bins, s);
    }
  }

  lemma SourceWaits(g: Scene, bins: Bins, s: Point)
    requires SceneOk(g) && |bins| > 0 && Entry(g, s, s) in bins[0]
    ensures Waits(g, bins, Entry(g, s, s), 0, 0)
  {
    OriginBin(g, s);
    var j :| 0 <= j < |bins[0]| && bins[0][j] == Entry(g, s, s);
    assert Pending(0, 0, 0, j);
  }

  lemma SkipStep(g: Scene, bins: Bins, seen: seq<bool>, via: map<int, CellData>, b: int, i: int)
    requires Running(g, bins, seen, via, b, i) && b < |bins| && i < |bins[b]| && SeenAt(seen, bins[b][i].index)
    ensures Running(g, bins, seen, via, b, i + 1)
  {
    hide BinsOk, SceneOk, SeenBy, SourcesOwn, Frontier;
    SkipKeeps(g, bins, seen, via, b, i);
  }

  lemma ListedEntry(g: Scene, bins: Bins, b: int, i: int)
    requires BinsOk(g, bins) && 0 <= b < |bins| && 0 <= i < |bins[b]|
    ensures EntryOk(g, bins[b][i]) && EntryBin(g, bins[b][i]) == b
    ensures 0 <= bins[b][i].index < g.sizeX * g.sizeY
  {
    assert BinOk(g, bins[b], b);
    assert bins[b][i] in bins[b];
    IndexRange(g, Cell(bins[b][i]));
  }

  /** An obstacle that is still unseen is taken as its own source. */
  lemma OwnStep(g: Scene, bins: Bins, seen: seq<bool>, via: map<int, CellData>, b: int, i: int, e: CellData)
    requires Next(g, bins, seen, via, b, i, e) && SourcesOwn(g, via) && SourcesOpen(g, bins, seen, b, i)
    ensures SourcesOwn(g, via[e.index := e])
  {
    hide BinsOk, SeenBy, BinOf, LevelsOk, Norm;
    forall s | s in g.sources && Index(g, s) in via[e.index := e]
      ensures via[e.index := e][Index(g, s)] == Entry(g, s, s) {
      if Index(g, s) == e.index {
        IndexInjective(g, s, Cell(e));
        OriginBin(g, s);
        OpenOfferBin(g, bins, seen, Entry(g, s, s), b, i);
        assert EntryBin(g, Entry(g, s, s)) == 0;
        FirstBinIsSource(g, e);
      }
    }
  }

  lemma FirstBinIsSource(g: Scene, e: CellData)
    requires SceneOk(g) && EntryOk(g, e) && EntryBin(g, e) == 0
    ensures Source(e) == Cell(e)
  {
    hide BinOf, LevelsOk;
    var t := Source(e);
    OriginBin(g, t);
    assert Near(g, t, t) by {
      assert g.radius * g.radius >= 0;
    }
    BinsFollowDistance(g, t, t, Cell(e), t);
    if Cell(e) != t {
      NormPositive(Minus(Cell(e), t));
    }
  }

  lemma NormPositive(d: Point)
    requires d != (0, 0)
    ensures Norm(d) > 0
  {
    assert d.0 * d.0 >= 0 && d.1 * d.1 >= 0;
    if d.0 > 0 || d.0 < 0 {
      assert d.0 * d.0 > 0;
    } else {
      assert d.1 * d.1 > 0;
    }
  }

  lemma ProcessStep(g: Scene, bins: Bins, seen: seq<bool>, via: map<int, CellData>, b: int, i: int)
    requires Running(g, bins, seen, via, b, i) && b < |bins| && i < |bins[b]|
    requires 0 <= bins[b][i].index < |seen| && !seen[bins[b][i].index]
    ensures var e := bins[b][i];
            var seen' := seen[e.index := true];
            Running(g, PushedAll(g, bins, seen', e), seen', via[e.index := e], b, i + 1)
  {
    hide BinsOk, SceneOk, SourcesOwn, PushedAll, SeenBy, EntryOk, EntryBin, OffersOpen, WaitingOffered;
    hide ReachedOffered, ReachedBelow, ReachedLeast, SourcesOpen, ListedBy;
    var e := bins[b][i];
    ListedEntry(g, bins, b, i);
    OwnStep(g, bins, seen, via, b, i, e);
    ProcessKeeps(g, bins, seen, via, b, i, e);
    assert bins[b] <= PushedAll(g, bins, seen[e.index := true], e)[b];
  }

  lemma NextBin(g: Scene, bins: Bins, seen: seq<bool>, via: map<int, CellData>, b: int)
    requires 0 <= b < |bins| && Running(g, bins, seen, via, b, |bins[b]|)
    ensures Running(g, bins, seen, via, b + 1, 0)
  {
    hide BinsOk, SceneOk, SeenBy, SourcesOwn, Frontier;
    NextBinKeeps(g, bins, seen, via, b);
  }

  // ---- termination: every processed cell is new ----

  function Unseen(seen: seq<bool>): nat {
    if seen == [] then 0 else Unseen(seen[..|seen| - 1]) + (if seen[|seen| - 1] then 0 else 1)
  }

  lemma {:induction false} UnseenShrinks(seen: seq<bool>, k: int)
    requires 0 <= k < |seen| && !seen[k]
    ensures Unseen(seen[k := true]) == Unseen(seen) - 1
  {
    var n := |seen| - 1;
    if k < n {
      UnseenShrinks(seen[..n], k);
      assert seen[k := true][..n] == seen[..n][k := true];
    } else {
      assert seen[k := true][..n] == seen[..n];
    }
  }

  /** What one update has done: `via` tells for every cell reached from which obstacle. */
  ghost predicate Inflated(g: Scene, box: Box, costOf: int -> int, inflateUnknown: bool,
                           before: seq<int>, after: seq<int>, via: map<int, CellData>) {
    Painted(box, costOf, inflateUnknown, before, after, via) && Settled(g, via)
  }

  lemma FinishInflation(g: Scene, bins: Bins, seen: seq<bool>, via: map<int, CellData>, b: int, box: Box,
                        costOf: int -> int, inflateUnknown: bool, before: seq<int>, after: seq<int>)
    requires b == |bins| && Running(g, bins, seen, via, b, 0)
    requires Painted(box, costOf, inflateUnknown, before, after, via)
    ensures Inflated(g, box, costOf, inflateUnknown, before, after, via)
  {
    hide BinsOk, SceneOk, SeenBy, Frontier, Painted, Settled;
    WaveSettles(g, bins, seen, via);
  }

  /** Only obstacles are listed, and every obstacle in the rows before j is. */
  ghost predicate ListsRows(g: Scene, scan: Box, obs: seq<CellData>, j: int) {
    && (forall e | e in obs :: Source(e) in g.sources && e == Entry(g, Source(e), Source(e)))
    && (forall s | s in g.sources && scan.minJ <= s.1 < j :: Entry(g, s, s) in obs)
  }

  ghost predicate ListsCells(g: Scene, scan: Box, obs: seq<CellData>, j: int, i: int) {
    && ListsRows(g, scan, obs, j)
    && (forall s | s in g.sources && s.1 == j && s.0 < i :: Entry(g, s, s) in obs)
  }

  lemma SourcesInGrid(g: Scene, before: seq<int>, scan: Box, around: bool)
    requires |before| == g.sizeX * g.sizeY && g.sources == Obstacles(before, g.sizeX, g.sizeY, scan, around)
    ensures forall s | s in g.sources :: InGrid(g, s) && InBox(scan, s)
  {
  }

  lemma RunningEntry(g: Scene, bins: Bins, seen: seq<bool>, via: map<int, CellData>, b: int, i: int)
    requires Running(g, bins, seen, via, b, i) && 0 <= b < |bins| && 0 <= i < |bins[b]|
    ensures EntryOk(g, bins[b][i]) && 0 <= bins[b][i].index < |seen|
    ensures seen[bins[b][i].index] <==> bins[b][i].index in via
  {
    ListedEntry(g, bins, b, i);
  }

  lemma RunningBins(g: Scene, bins: Bins, seen: seq<bool>, via: map<int, CellData>, b: int, i: int)
    requires Running(g, bins, seen, via, b, i) && 0 <= b < |bins|
    ensures 0 <= i <= |bins[b]|
  {
  }

  class InflationLayer {
    var enabled: bool
    var inflateUnknown: bool
    var inflateAroundUnknown: bool
    var cellInflationRadius: nat
    var cachedCellInflationRadius: nat
    var cacheLength: nat
    var cachedDistances: seq<int>  // squared distances
    var cachedCosts: seq<int>
    var distanceMatrix: seq<seq<int>>
    var inflationCells: Bins
    var seen: array<bool>
    const costOf: int -> int       // computeCost, by squared distance

    /** The caches belong to the current radius and the inflation list is empty. */
    ghost predicate Valid()
      reads this
    {
      && CostOk(costOf)
      && (cachedCellInflationRadius > 0 ==>
            var len := cachedCellInflationRadius + 2;
            |cachedDistances| == len * len && CacheOk(cachedDistances, len, Identity()))
      && (cellInflationRadius > 0 ==> Cached() && forall b | 0 <= b < |inflationCells| :: inflationCells[b] == [])
    }

    ghost predicate Cached()
      reads this
    {
      && cacheLength == cellInflationRadius + 2
      && |cachedDistances| == cacheLength * cacheLength == |cachedCosts|
      && CacheOk(cachedDistances, cacheLength, Identity()) && CacheOk(cachedCosts, cacheLength, costOf)
      && |inflationCells| > 0
      && LevelsOk(distanceMatrix, cellInflationRadius + 2, |inflationCells| - 1)
    }

    constructor (costOf: int -> int)
      requires CostOk(costOf)
      ensures Valid() && fresh(seen) && cellInflationRadius == 0
    {
      this.costOf := costOf;
      enabled, inflateUnknown, inflateAroundUnknown := true, false, false;
      cellInflationRadius, cachedCellInflationRadius, cacheLength := 0, 0, 0;
      cachedDistances, cachedCosts, distanceMatrix, inflationCells := [], [], [], [];
      seen := new bool[0];
    }

    /** Takes over the radius (in cells) and the grid size. */
    method MatchSize(radius: nat, sizeX: nat, sizeY: nat)
      requires Valid()
      modifies this
      ensures Valid() && cellInflationRadius == radius && fresh(seen) && seen.Length == sizeX * sizeY
      ensures enabled == old(enabled) && inflateUnknown == old(inflateUnknown)
      ensures inflateAroundUnknown == old(inflateAroundUnknown)
    {
      hide CacheOk, LevelsOk;
      cellInflationRadius := radius;
      ComputeCaches();
      seen := new bool[sizeX * sizeY](_ => false);
    }

    method ComputeCaches()
      requires CostOk(costOf)
      requires cachedCellInflationRadius > 0 ==>
                 var len := cachedCellInflationRadius + 2;
                 |cachedDistances| == len * len && CacheOk(cachedDistances, len, Identity())
      modifies this`cacheLength, this`cachedDistances, this`cachedCosts, this`cachedCellInflationRadius
      modifies this`distanceMatrix, this`inflationCells
      ensures Valid()
    {
      hide CacheOk, LevelsOk;
      if cellInflationRadius == 0 {
        return;
      }
      cacheLength := cellInflationRadius + 2;
      if cellInflationRadius != cachedCellInflationRadius {
        cachedDistances := FillCache(cacheLength, Identity());
        cachedCellInflationRadius := cellInflationRadius;
      }
      cachedCosts := FillCosts(cachedDistances, cacheLength, costOf);
      var maxDist: int;
      distanceMatrix, maxDist := GenerateIntegerDistances(cellInflationRadius);
      inflationCells := seq(maxDist + 1, _ => []);
    }

    /** The scene is the one the caches were built for. */
    ghost predicate Staged(g: Scene)
      reads this
    {
      && cellInflationRadius > 0 && Cached() && SceneOk(g)
      && g.radius == cellInflationRadius && g.dm == distanceMatrix && |inflationCells| == g.top + 1
      && seen.Length == g.sizeX * g.sizeY
    }

    /** The squared distance of two cells the caches reach. */
    function DistanceLookup(mx: int, my: int, srcX: int, srcY: int): (d: int)
      requires Cached() && Abs(mx - srcX) < cacheLength && Abs(my - srcY) < cacheLength
      reads this
      ensures d == Norm((mx - srcX, my - srcY))
    {
      CacheRead(cachedDistances, cacheLength, Identity(), (mx - srcX, my - srcY));
      CacheAt(cachedDistances, cacheLength, (mx - srcX, my - srcY))
    }

    /** The cost at that distance. */
    function CostLookup(mx: int, my: int, srcX: int, srcY: int): (c: int)
      requires Cached() && Abs(mx - srcX) < cacheLength && Abs(my - srcY) < cacheLength
      reads this
      ensures c == costOf(Norm((mx - srcX, my - srcY)))
    {
      CacheRead(cachedCosts, cacheLength, costOf, (mx - srcX, my - srcY));
      CacheAt(cachedCosts, cacheLength, (mx - srcX, my - srcY))
    }

    /** Lists an unseen cell in the bin of its distance if it is within the radius of the obstacle. */
    method Enqueue(index: int, mx: int, my: int, srcX: int, srcY: int,
                   ghost g: Scene, ghost e: CellData, ghost dir: nat)
      requires Staged(g) && EntryOk(g, e) && dir < 4 && InGrid(g, Neighbour(Cell(e), dir))
      requires CellData(index, mx, my, srcX, srcY) == NeighbourEntry(g, e, dir)
      modifies this`inflationCells
      ensures Staged(g)
      ensures inflationCells == Pushed(g, old(inflationCells), seen[..], e, dir)
    {
      hide CacheOk, LevelsOk, BinsOk, Norm;
      ghost var n := (mx, my);
      IndexRange(g, n);
      if !seen[index] {
        NeighbourInCache(g, e, dir);
        var distance := DistanceLookup(mx, my, srcX, srcY);
        if distance > cellInflationRadius * cellInflationRadius {
          return;
        }
        BinInRange(g, n, Source(e));
        var b := LevelOr(distanceMatrix, cellInflationRadius + 2, (mx - srcX, my - srcY));
        inflationCells := inflationCells[b := inflationCells[b] + [CellData(index, mx, my, srcX, srcY)]];
      }
    }

    /** The cell's cost from its obstacle, applied only inside the bounds. */
    method PaintCell(master: array<int>, e: CellData, box: Box, ghost g: Scene,
                     ghost before: seq<int>, ghost via: map<int, CellData>)
      requires Staged(g) && EntryOk(g, e) && 0 <= e.index < master.Length == |before| && e.index !in via
      requires Painted(box, costOf, inflateUnknown, before, master[..], via)
      modifies master
      ensures Painted(box, costOf, inflateUnknown, before, master[..], via[e.index := e])
    {
      hide CacheOk, LevelsOk, Painted, Norm;
      NearInDisk(g, Cell(e), Source(e));
      var cost := CostLookup(e.x, e.y, e.srcX, e.srcY);
      var oldCost := master[e.index];
      var v := if InBox(box, (e.x, e.y)) then Combine(oldCost, cost, inflateUnknown) else oldCost;
      PaintStep(box, costOf, inflateUnknown, before, master[..], via, e.index, e, v);
      ghost var painted := master[..][e.index := v];
      if e.x >= box.minI && e.y >= box.minJ && e.x < box.maxI && e.y < box.maxJ {
        if oldCost == NO_INFORMATION &&
           (if inflateUnknown then cost > FREE_SPACE else cost >= INSCRIBED_INFLATED_OBSTACLE)
        {
          master[e.index] := cost;
        } else {
          master[e.index] := Max(oldCost, cost);
        }
      }
      assert master[..] == painted;
    }

    /** Offers the four neighbours of a visited cell. */
    method EnqueueNeighbours(e: CellData, sizeX: nat, sizeY: nat, ghost g: Scene)
      requires Staged(g) && EntryOk(g, e) && g.sizeX == sizeX && g.sizeY == sizeY
      modifies this`inflationCells
      ensures Staged(g)
      ensures inflationCells == PushedAll(g, old(inflationCells), seen[..], e)
    {
      hide CacheOk, LevelsOk, BinsOk, Pushed, Near, Cached, SceneOk, NeighbourEntry, Index;
      NeighbourEntries(g, e);
      PushedOutside(g, inflationCells, seen[..], e, 0);
      if e.x > 0 {
        Enqueue(e.index - 1, e.x - 1, e.y, e.srcX, e.srcY, g, e, 0);
      }
      PushedOutside(g, inflationCells, seen[..], e, 1);
      if e.y > 0 {
        Enqueue(e.index - sizeX, e.x, e.y - 1, e.srcX, e.srcY, g, e, 1);
      }
      PushedOutside(g, inflationCells, seen[..], e, 2);
      if e.x < sizeX - 1 {
        Enqueue(e.index + 1, e.x + 1, e.y, e.srcX, e.srcY, g, e, 2);
      }
      PushedOutside(g, inflationCells, seen[..], e, 3);
      if e.y < sizeY - 1 {
        Enqueue(e.index + sizeX, e.x, e.y + 1, e.srcX, e.srcY, g, e, 3);
      }
    }

    /** Lists the obstacle cells of one row of the scanned region. */
    method ScanRow(master: array<int>, sizeX: nat, scan: Box, j: int, listed: seq<CellData>, ghost g: Scene)
      returns (obs: seq<CellData>)
      requires g.sizeX == sizeX && master.Length == sizeX * g.sizeY && 0 <= j < g.sizeY
      requires 0 <= scan.minI && scan.maxI <= sizeX && scan.minJ <= j < scan.maxJ
      requires g.sources == Obstacles(master[..], sizeX, g.sizeY, scan, inflateAroundUnknown)
      requires ListsRows(g, scan, listed, j)
      ensures ListsRows(g, scan, obs, j + 1)
    {
      obs := listed;
      var i := scan.minI;
      while i < scan.maxI
        invariant scan.minI <= i
        invariant ListsCells(g, scan, obs, j, i)
        decreases scan.maxI - i
      {
        IndexRange(g, (i, j));
        var index := j * sizeX + i;
        var cost := master[index];
        if cost == LETHAL_OBSTACLE || (inflateAroundUnknown && cost == NO_INFORMATION) {
          obs := obs + [CellData(index, i, j, i, j)];
        }
        i := i + 1;
      }
    }

    /** The obstacles of the scanned region, each at distance 0 from itself. */
    method SeedObstacles(master: array<int>, sizeX: nat, sizeY: nat, scan: Box, ghost g: Scene)
      requires |inflationCells| == g.top + 1 > 0 && forall b | 0 <= b < |inflationCells| :: inflationCells[b] == []
      requires g.sizeX == sizeX && g.sizeY == sizeY && master.Length == sizeX * sizeY
      requires 0 <= scan.minI && 0 <= scan.minJ && scan.maxI <= sizeX && scan.maxJ <= sizeY
      requires g.sources == Obstacles(master[..], sizeX, sizeY, scan, inflateAroundUnknown)
      modifies this`inflationCells
      ensures Seeded(g, inflationCells)
    {
      hide Obstacles;
      var obs := [];
      var j := scan.minJ;
      SourcesInGrid(g, master[..], scan, inflateAroundUnknown);
      while j < scan.maxJ
        invariant scan.minJ <= j && inflationCells == old(inflationCells)
        invariant ListsRows(g, scan, obs, j)
        decreases scan.maxJ - j
      {
        obs := ScanRow(master, sizeX, scan, j, obs, g);
        j := j + 1;
      }
      inflationCells := inflationCells[0 := obs];
    }

    /** Runs the wavefront until the last bin is used up. */
    method RunWave(master: array<int>, sizeX: nat, sizeY: nat, box: Box, ghost g: Scene, ghost before: seq<int>)
      returns (ghost via: map<int, CellData>)
      requires Staged(g) && g.sizeX == sizeX && g.sizeY == sizeY && Seeded(g, inflationCells)
      requires master.Length == sizeX * sizeY == |before| && master[..] == before
      requires forall k | 0 <= k < seen.Length :: !seen[k]
      modifies this`inflationCells, seen, master
      ensures Staged(g)
      ensures Inflated(g, box, costOf, inflateUnknown, before, master[..], via)
    {
      hide Running, Seeded, Inflated, Cached, SceneOk;
      via := map[];
      StartRunning(g, inflationCells, seen[..]);
      var b := 0;
      while b < |inflationCells|
        invariant 0 <= b <= |inflationCells| && Staged(g)
        invariant Running(g, inflationCells, seen[..], via, b, 0)
        invariant Painted(box, costOf, inflateUnknown, before, master[..], via)
        decreases |inflationCells| - b
      {
        via := UseUpBin(master, sizeX, sizeY, box, b, g, before, via);
        NextBin(g, inflationCells, seen[..], via, b);
        b := b + 1;
      }
      FinishInflation(g, inflationCells, seen[..], via, b, box, costOf, inflateUnknown, before, master[..]);
    }

    /** Takes the entries of one bin, which may grow meanwhile. */
    method UseUpBin(master: array<int>, sizeX: nat, sizeY: nat, box: Box, b: nat, ghost g: Scene,
                    ghost before: seq<int>, ghost via0: map<int, CellData>) returns (ghost via: map<int, CellData>)
      requires Staged(g) && g.sizeX == sizeX && g.sizeY == sizeY && b < |inflationCells|
      requires master.Length == sizeX * sizeY == |before|
      requires Running(g, inflationCells, seen[..], via0, b, 0)
      requires Painted(box, costOf, inflateUnknown, before, master[..], via0)
      modifies this`inflationCells, seen, master
      ensures Staged(g) && |inflationCells| == old(|inflationCells|)
      ensures Running(g, inflationCells, seen[..], via, b, |inflationCells[b]|)
      ensures Painted(box, costOf, inflateUnknown, before, master[..], via)
    {
      hide Running, Painted, Cached, SceneOk;
      via := via0;
      var i := 0;
      while i < |inflationCells[b]|
        invariant Staged(g) && |inflationCells| == old(|inflationCells|)
        invariant 0 <= i <= |inflationCells[b]|
        invariant Running(g, inflationCells, seen[..], via, b, i)
        invariant Painted(box, costOf, inflateUnknown, before, master[..], via)
        decreases Unseen(seen[..]), |inflationCells[b]| - i
      {
        via := TakeEntry(master, sizeX, sizeY, box, b, i, g, before, via);
        i := i + 1;
      }
    }

    method TakeEntry(master: array<int>, sizeX: nat, sizeY: nat, box: Box, b: nat, i: nat, ghost g: Scene,
                     ghost before: seq<int>, ghost via0: map<int, CellData>) returns (ghost via: map<int, CellData>)
      requires Staged(g) && g.sizeX == sizeX && g.sizeY == sizeY && b < |inflationCells| && i < |inflationCells[b]|
      requires master.Length == sizeX * sizeY == |before|
      requires Running(g, inflationCells, seen[..], via0, b, i)
      requires Painted(box, costOf, inflateUnknown, before, master[..], via0)
      modifies this`inflationCells, seen, master
      ensures Staged(g) && |inflationCells| == old(|inflationCells|) && i + 1 <= |inflationCells[b]|
      ensures Running(g, inflationCells, seen[..], via, b, i + 1)
      ensures Painted(box, costOf, inflateUnknown, before, master[..], via)
      ensures Unseen(seen[..]) < old(Unseen(seen[..])) ||
              (Unseen(seen[..]) == old(Unseen(seen[..])) && |inflationCells[b]| == old(|inflationCells[b]|))
    {
      hide Running, Painted, Cached, SceneOk, PushedAll, EntryOk;
      via := via0;
      var e := inflationCells[b][i];
      RunningEntry(g, inflationCells, seen[..], via, b, i);
      if seen[e.index] {
        SkipStep(g, inflationCells, seen[..], via, b, i);
        return;
      }
      ProcessStep(g, inflationCells, seen[..], via, b, i);
      UnseenShrinks(seen[..], e.index);
      seen[e.index] := true;
      PaintCell(master, e, box, g, before, via);
      EnqueueNeighbours(e, sizeX, sizeY, g);
      via := via[e.index := e];
      RunningBins(g, inflationCells, seen[..], via, b, i + 1);
    }

    /** Inflates the obstacles around the given bounds into the master costmap. */
    method UpdateCosts(master: array<int>, sizeX: nat, sizeY: nat, box: Box)
      returns (ghost g: Scene, ghost via: map<int, CellData>)
      requires Valid() && master.Length == sizeX * sizeY
      modifies this`inflationCells, this`seen, seen, master
      ensures Valid()
      ensures !enabled || cellInflationRadius == 0 ==> master[..] == old(master[..])
      ensures enabled && cellInflationRadius > 0 ==>
                && g.sizeX == sizeX && g.sizeY == sizeY && g.radius == cellInflationRadius
                && g.sources == Obstacles(old(master[..]), sizeX, sizeY,
                                          ScanBox(box, cellInflationRadius, sizeX, sizeY), inflateAroundUnknown)
                && Inflated(g, box, costOf, inflateUnknown, old(master[..]), master[..], via)
    {
      hide Inflated, LevelsOk, CacheOk, CostOk, Obstacles;
      g, via := Scene(sizeX, sizeY, 0, [], 0, {}), map[];
      if !enabled || cellInflationRadius == 0 {
        return;
      }
      if seen.Length != sizeX * sizeY {
        seen := new bool[sizeX * sizeY];
      }
      ClearSeen();
      var scan := ScanBox(box, cellInflationRadius, sizeX, sizeY);
      ghost var before := master[..];
      g := Scene(sizeX, sizeY, cellInflationRadius, distanceMatrix, |inflationCells| - 1,
                 Obstacles(before, sizeX, sizeY, scan, inflateAroundUnknown));
      SourcesInGrid(g, before, scan, inflateAroundUnknown);
      SeedObstacles(master, sizeX, sizeY, scan, g);
      via := RunWave(master, sizeX, sizeY, box, g, before);
      inflationCells := seq(|inflationCells|, _ => []);
    }

    method ClearSeen()
      modifies seen
      ensures forall k | 0 <= k < seen.Length :: !seen[k]
    {
      for k := 0 to seen.Length
        invariant forall q | 0 <= q < k :: !seen[q]
      {
        seen[k] := false;
      }
    }
  }

  lemma NeighbourEntries(g: Scene, e: CellData)
    requires EntryOk(g, e)
    ensures NeighbourEntry(g, e, 0) == CellData(e.index - 1, e.x - 1, e.y, e.srcX, e.srcY)
    ensures NeighbourEntry(g, e, 1) == CellData(e.index - g.sizeX, e.x, e.y - 1, e.srcX, e.srcY)
    ensures NeighbourEntry(g, e, 2) == CellData(e.index + 1, e.x + 1, e.y, e.srcX, e.srcY)
    ensures NeighbourEntry(g, e, 3) == CellData(e.index + g.sizeX, e.x, e.y + 1, e.srcX, e.srcY)
  {
    hide Near;
    assert (e.y - 1) * g.sizeX == e.y * g.sizeX - g.sizeX;
    assert (e.y + 1) * g.sizeX == e.y * g.sizeX + g.sizeX;
  }

  lemma PushedOutside(g: Scene, bins: Bins, seen: seq<bool>, e: CellData, dir: nat)
    requires dir < 4
    ensures !InGrid(g, Neighbour(Cell(e), dir)) ==> Pushed(g, bins, seen, e, dir) == bins
  {
  }

  // ---- what an update means for the costmap ----

  /** The widened scan sees every obstacle that could matter inside the bounds. */
  lemma ScanIsWideEnough(g: Scene, before: seq<int>, box: Box, around: bool, p: Point, s: Point)
    requires |before| == g.sizeX * g.sizeY && InGrid(g, p) && InBox(box, p) && InGrid(g, s) && Near(g, p, s)
    requires g.sources == Obstacles(before, g.sizeX, g.sizeY, ScanBox(box, g.radius, g.sizeX, g.sizeY), around)
    ensures 0 <= Index(g, s) < |before|
    ensures s in g.sources <==> IsObstacle(before[Index(g, s)], around)
  {
    NearInDisk(g, p, s);
    IndexRange(g, s);
  }

  /** Cells outside the bounds keep their value; known costs never go down. */
  lemma NeverLowered(g: Scene, box: Box, costOf: int -> int, inflateUnknown: bool,
                     before: seq<int>, after: seq<int>, via: map<int, CellData>, p: Point)
    requires Inflated(g, box, costOf, inflateUnknown, before, after, via) && |before| == g.sizeX * g.sizeY
    requires InGrid(g, p)
    ensures 0 <= Index(g, p) < |before| == |after|
    ensures !InBox(box, p) ==> after[Index(g, p)] == before[Index(g, p)]
    ensures before[Index(g, p)] != NO_INFORMATION ==> after[Index(g, p)] >= before[Index(g, p)]
    ensures before[Index(g, p)] == NO_INFORMATION && CostOk(costOf) && !inflateUnknown ==>
              after[Index(g, p)] >= INSCRIBED_INFLATED_OBSTACLE
  {
    IndexRange(g, p);
    var k := Index(g, p);
    if k in via {
      IndexInjective(g, Cell(via[k]), p);
    }
  }

  lemma CostFromNearest(costOf: int -> int, d: Point, e: Point)
    requires CostOk(costOf) && Norm(d) <= Norm(e)
    ensures costOf(Norm(e)) <= costOf(Norm(d))
  {
    assert d.0 * d.0 >= 0 && d.1 * d.1 >= 0;
  }

  /** Every painted cost comes from a real obstacle within the radius, so it never exceeds the
      cost of the distance to the nearest obstacle. */
  lemma NeverAboveExact(g: Scene, box: Box, costOf: int -> int, inflateUnknown: bool,
                        before: seq<int>, after: seq<int>, via: map<int, CellData>, p: Point, nearest: Point)
    requires Inflated(g, box, costOf, inflateUnknown, before, after, via) && |before| == g.sizeX * g.sizeY
    requires CostOk(costOf) && InGrid(g, p) && nearest in g.sources
    requires forall s | s in g.sources :: Norm(Minus(p, nearest)) <= Norm(Minus(p, s))
    ensures 0 <= Index(g, p) < |before| == |after|
    ensures var k, exact := Index(g, p), costOf(Norm(Minus(p, nearest)));
            && (before[k] != NO_INFORMATION ==> after[k] <= Max(before[k], exact))
            && (before[k] == NO_INFORMATION && after[k] != NO_INFORMATION ==> after[k] <= exact)
  {
    hide Norm, CostOk, Near;
    IndexRange(g, p);
    var k := Index(g, p);
    if k in via {
      IndexInjective(g, Cell(via[k]), p);
      CostFromNearest(costOf, Minus(p, nearest), Minus(p, Source(via[k])));
    }
  }

  /** Lethal obstacles inside the bounds stay lethal. */
  lemma ObstaclesStayLethal(g: Scene, box: Box, costOf: int -> int, inflateUnknown: bool,
                            before: seq<int>, after: seq<int>, via: map<int, CellData>, s: Point)
    requires Inflated(g, box, costOf, inflateUnknown, before, after, via) && |before| == g.sizeX * g.sizeY
    requires CostOk(costOf) && s in g.sources && InGrid(g, s) && InBox(box, s)
    requires 0 <= Index(g, s) < |before|
      && (before[Index(g, s)] == LETHAL_OBSTACLE || before[Index(g, s)] == NO_INFORMATION)
    ensures after[Index(g, s)] == LETHAL_OBSTACLE
  {
    var k := Index(g, s);
    assert via[k] == Entry(g, s, s);
    assert Norm(Minus(s, s)) == 0;
  }
}
