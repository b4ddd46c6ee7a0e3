/** The bucket wavefront of inflation_layer.cpp as steps on values: what is listed, what has been seen and
    by which entry, and why at the end every cell holds the nearest of the obstacles offered to it. */
module InflationWave {
  import opened Arithmetic
  import opened InflationLevels

  datatype CellData = CellData(index: int, x: int, y: int, srcX: int, srcY: int)

  type Bins = seq<seq<CellData>>

  /** Grid size, inflation radius in cells, level table and obstacle cells of one update. */
  datatype Scene = Scene(sizeX: nat, sizeY: nat, radius: nat, dm: seq<seq<int>>, top: int, sources: set<Point>)

  predicate InGrid(g: Scene, p: Point) {
    0 <= p.0 < g.sizeX && 0 <= p.1 < g.sizeY
  }

  function Index(g: Scene, p: Point): int {
    p.1 * g.sizeX + p.0
  }

  function Minus(p: Point, q: Point): Point {
    (p.0 - q.0, p.1 - q.1)
  }

  function Cell(e: CellData): Point {
    (e.x, e.y)
  }

  function Source(e: CellData): Point {
    (e.srcX, e.srcY)
  }

  function Entry(g: Scene, p: Point, s: Point): CellData {
    CellData(Index(g, p), p.0, p.1, s.0, s.1)
  }

  /** p lies within the inflation radius of s. */
  predicate Near(g: Scene, p: Point, s: Point) {
    Norm(Minus(p, s)) <= g.radius * g.radius
  }

  ghost predicate SceneOk(g: Scene) {
    && LevelsOk(g.dm, g.radius + 2, g.top) && g.top >= 0
    && forall s | s in g.sources :: InGrid(g, s)
  }

  /** The bin of cell p when reached from s. */
  function BinOf(g: Scene, p: Point, s: Point): int {
    LevelOr(g.dm, g.radius + 2, Minus(p, s))
  }

  /** A listed cell lies in the grid and within the radius of the real obstacle it came from. */
  ghost predicate EntryOk(g: Scene, e: CellData) {
    InGrid(g, Cell(e)) && Source(e) in g.sources && Near(g, Cell(e), Source(e)) && e == Entry(g, Cell(e), Source(e))
  }

  ghost predicate BinOk(g: Scene, bin: seq<CellData>, b: int) {
    forall e | e in bin :: EntryOk(g, e) && BinOf(g, Cell(e), Source(e)) == b
  }

  ghost predicate BinsOk(g: Scene, bins: Bins) {
    |bins| == g.top + 1 && forall b | 0 <= b < |bins| :: BinOk(g, bins[b], b)
  }

  /** `via` remembers, for every seen cell, the entry that processed it. */
  ghost predicate SeenBy(g: Scene, seen: seq<bool>, via: map<int, CellData>) {
    && |seen| == g.sizeX * g.sizeY
    && (forall k | 0 <= k < |seen| :: seen[k] <==> k in via)
    && (forall k | k in via :: 0 <= k < |seen| && EntryOk(g, via[k]) && via[k].index == k)
  }

  // ---- indices ----

  lemma IndexRange(g: Scene, p: Point)
    requires InGrid(g, p)
    ensures 0 <= Index(g, p) < g.sizeX * g.sizeY
  {
    Scaled(p.1 + 1, g.sizeY, g.sizeX);
    Scaled(0, p.1, g.sizeX);
  }

  lemma IndexInjective(g: Scene, p: Point, q: Point)
    requires InGrid(g, p) && InGrid(g, q) && Index(g, p) == Index(g, q)
    ensures p == q
  {
    if p.1 < q.1 {
      Scaled(p.1 + 1, q.1, g.sizeX);
    } else if q.1 < p.1 {
      Scaled(q.1 + 1, p.1, g.sizeX);
    }
  }

  // ---- bins of cells near a source ----

  lemma NearInDisk(g: Scene, p: Point, s: Point)
    requires Near(g, p, s)
    ensures InDisk(Minus(p, s), g.radius + 2)
    ensures var r: int := g.radius; -r <= p.0 - s.0 <= r && -r <= p.1 - s.1 <= r
  {
    NormBounds(Minus(p, s), g.radius);
    assert g.radius * g.radius <= (g.radius + 2) * (g.radius + 2);
  }

  lemma BinInRange(g: Scene, p: Point, s: Point)
    requires SceneOk(g) && Near(g, p, s)
    ensures 0 <= BinOf(g, p, s) <= g.top
  {
    NearInDisk(g, p, s);
  }

  /** The bins order cells by their distance, whatever obstacles they came from. */
  lemma BinsFollowDistance(g: Scene, p: Point, s: Point, q: Point, t: Point)
    requires SceneOk(g) && Near(g, p, s) && Near(g, q, t)
    ensures BinOf(g, p, s) < BinOf(g, q, t) <==> Norm(Minus(p, s)) < Norm(Minus(q, t))
  {
    NearInDisk(g, p, s);
    NearInDisk(g, q, t);
  }

  lemma OriginBin(g: Scene, s: Point)
    requires SceneOk(g)
    ensures BinOf(g, s, s) == 0
  {
    assert Minus(s, s) == (0, 0);
  }

  // ---- enqueue ----

  function Neighbour(p: Point, dir: nat): Point
    requires dir < 4
  {
    if dir == 0 then (p.0 - 1, p.1)
    else if dir == 1 then (p.0, p.1 - 1)
    else if dir == 2 then (p.0 + 1, p.1)
    else (p.0, p.1 + 1)
  }

  predicate Wanted(g: Scene, e: CellData, dir: nat)
    requires dir < 4
  {
    var n := Neighbour(Cell(e), dir);
    InGrid(g, n) && Near(g, n, Source(e))
  }

  function NeighbourEntry(g: Scene, e: CellData, dir: nat): CellData
    requires dir < 4
  {
    Entry(g, Neighbour(Cell(e), dir), Source(e))
  }

  /** The bins after offering the neighbour of e in direction dir. */
  function Pushed(g: Scene, bins: Bins, seen: seq<bool>, e: CellData, dir: nat): Bins
    requires dir < 4
  {
    var n := NeighbourEntry(g, e, dir);
    if Wanted(g, e, dir) && 0 <= n.index < |seen| && !seen[n.index] then
      var b := BinOf(g, Cell(n), Source(n));
      if 0 <= b < |bins| then bins[b := bins[b] + [n]] else bins
    else bins
  }

  /** n is a neighbour that e lists. */
  ghost predicate ListedBy(g: Scene, e: CellData, n: CellData) {
    exists dir: nat :: dir < 4 && Wanted(g, e, dir) && n == NeighbourEntry(g, e, dir)
  }

  /** Bins only grow at their ends, by neighbours of e. */
  ghost predicate Grown(g: Scene, bins: Bins, bins': Bins, e: CellData) {
    && |bins'| == |bins|
    && (forall b | 0 <= b < |bins| :: bins[b] <= bins'[b])
    && (forall b, j | 0 <= b < |bins| && |bins[b]| <= j < |bins'[b]| :: ListedBy(g, e, bins'[b][j]))
  }

  lemma GrownTwice(g: Scene, a: Bins, b: Bins, c: Bins, e: CellData)
    requires Grown(g, a, b, e) && Grown(g, b, c, e)
    ensures Grown(g, a, c, e)
  {
    hide ListedBy;
    forall i, j | 0 <= i < |a| && |a[i]| <= j < |c[i]| ensures ListedBy(g, e, c[i][j]) {
      if j < |b[i]| {
        assert b[i] <= c[i];
        assert c[i][j] == b[i][j];
      }
    }
    forall i | 0 <= i < |a| ensures a[i] <= c[i] {
      assert a[i] <= b[i] && b[i] <= c[i];
    }
  }

  /** The neighbour in direction dir is out of reach, seen, or listed. */
  ghost predicate Served(g: Scene, bins: Bins, seen: seq<bool>, e: CellData, dir: nat)
    requires dir < 4
  {
    var n := NeighbourEntry(g, e, dir);
    Wanted(g, e, dir) ==>
      && 0 <= n.index < |seen|
      && (|| seen[n.index]
          || (var b := BinOf(g, Cell(n), Source(n)); 0 <= b < |bins| && n in bins[b]))
  }

  ghost predicate AllServed(g: Scene, bins: Bins, seen: seq<bool>, e: CellData) {
    forall dir: nat | dir < 4 :: Served(g, bins, seen, e, dir)
  }

  lemma ServedGrows(g: Scene, bins: Bins, bins': Bins, seen: seq<bool>, e: CellData, dir: nat)
    requires dir < 4
    requires Served(g, bins, seen, e, dir) && Grown(g, bins, bins', e)
    ensures Served(g, bins', seen, e, dir)
  {
    var n := NeighbourEntry(g, e, dir);
    if Wanted(g, e, dir) && !seen[n.index] {
      var b := BinOf(g, Cell(n), Source(n));
      assert bins[b] <= bins'[b];
      var j :| 0 <= j < |bins[b]| && bins[b][j] == n;
      assert bins'[b][j] == n;
    }
  }

  lemma GrownSame(g: Scene, bins: Bins, e: CellData)
    ensures Grown(g, bins, bins, e)
  {
  }

  lemma PushKeeps(g: Scene, bins: Bins, seen: seq<bool>, e: CellData, dir: nat)
    requires SceneOk(g) && BinsOk(g, bins) && EntryOk(g, e) && dir < 4 && |seen| == g.sizeX * g.sizeY
    requires |bins| == g.top + 1
    ensures var bins' := Pushed(g, bins, seen, e, dir);
            BinsOk(g, bins') && Grown(g, bins, bins', e) && Served(g, bins', seen, e, dir)
  {
    hide SceneOk, BinsOk, Grown, BinOf, Near, ListedBy;
    GrownSame(g, bins, e);
    if Wanted(g, e, dir) {
      var n := NeighbourEntry(g, e, dir);
      IndexRange(g, Cell(n));
      BinInRange(g, Cell(n), Source(n));
      assert ListedBy(g, e, n) by {
        IsListed(g, e, dir);
      }
      if !seen[n.index] {
        PushOne(g, bins, e, n, BinOf(g, Cell(n), Source(n)));
      }
    }
  }

  lemma IsListed(g: Scene, e: CellData, dir: nat)
    requires dir < 4 && Wanted(g, e, dir)
    ensures ListedBy(g, e, NeighbourEntry(g, e, dir))
  {
  }

  lemma PushOne(g: Scene, bins: Bins, e: CellData, n: CellData, b: int)
    requires SceneOk(g) && BinsOk(g, bins) && EntryOk(g, n) && ListedBy(g, e, n)
    requires b == BinOf(g, Cell(n), Source(n)) && 0 <= b <= g.top
    ensures var bins' := bins[b := bins[b] + [n]];
            BinsOk(g, bins') && Grown(g, bins, bins', e) && n in bins'[b]
  {
    hide EntryOk, SceneOk, BinOf, ListedBy;
    var bins' := bins[b := bins[b] + [n]];
    forall c | 0 <= c < |bins'| ensures BinOk(g, bins'[c], c) {
      assert BinOk(g, bins[c], c);
    }
  }

  function PushedAll(g: Scene, bins: Bins, seen: seq<bool>, e: CellData): Bins {
    Pushed(g, Pushed(g, Pushed(g, Pushed(g, bins, seen, e, 0), seen, e, 1), seen, e, 2), seen, e, 3)
  }

  lemma PushAllServes(g: Scene, bins: Bins, seen: seq<bool>, e: CellData)
    requires SceneOk(g) && BinsOk(g, bins) && EntryOk(g, e) && |seen| == g.sizeX * g.sizeY
    requires |bins| == g.top + 1
    ensures var bins' := PushedAll(g, bins, seen, e);
            && BinsOk(g, bins') && |bins'| == |bins| && Grown(g, bins, bins', e)
            && AllServed(g, bins', seen, e)
  {
    hide SceneOk, BinsOk, EntryOk, Served, Pushed;
    var b1 := Pushed(g, bins, seen, e, 0);
    PushKeeps(g, bins, seen, e, 0);
    var b2 := Pushed(g, b1, seen, e, 1);
    PushKeeps(g, b1, seen, e, 1);
    ServedGrows(g, b1, b2, seen, e, 0);
    GrownTwice(g, bins, b1, b2, e);
    var b3 := Pushed(g, b2, seen, e, 2);
    PushKeeps(g, b2, seen, e, 2);
    ServedGrows(g, b2, b3, seen, e, 0);
    ServedGrows(g, b2, b3, seen, e, 1);
    GrownTwice(g, bins, b2, b3, e);
    var b4 := Pushed(g, b3, seen, e, 3);
    PushKeeps(g, b3, seen, e, 3);
    ServedGrows(g, b3, b4, seen, e, 0);
    ServedGrows(g, b3, b4, seen, e, 1);
    ServedGrows(g, b3, b4, seen, e, 2);
    GrownTwice(g, bins, b3, b4, e);
    forall dir: nat | dir < 4 ensures Served(g, b4, seen, e, dir) {
      assert dir == 0 || dir == 1 || dir == 2 || dir == 3;
    }
  }

  // ---- offers ----

  /** The squared distance of a listed cell from its obstacle. */
  function Range(e: CellData): int {
    Norm(Minus(Cell(e), Source(e)))
  }

  function EntryBin(g: Scene, e: CellData): int {
    BinOf(g, Cell(e), Source(e))
  }

  /** A reached cell offers its obstacle to a neighbour further away from it, within the radius. */
  predicate Offers(g: Scene, e: CellData, dir: nat)
    requires dir < 4
  {
    Wanted(g, e, dir) && Range(e) < Range(NeighbourEntry(g, e, dir))
  }

  /** n is an obstacle itself, or a reached cell offers it. */
  ghost predicate Offered(g: Scene, via: map<int, CellData>, n: CellData) {
    || (Source(n) in g.sources && n == Entry(g, Source(n), Source(n)))
    || exists k, dir: nat :: k in via && dir < 4 && Offers(g, via[k], dir) && n == NeighbourEntry(g, via[k], dir)
  }

  /** Place j of bin c comes after the first i entries of bin b. */
  predicate Pending(b: int, i: int, c: int, j: int) {
    c > b || (c == b && j >= i)
  }

  ghost predicate Waits(g: Scene, bins: Bins, n: CellData, b: int, i: int) {
    var c := EntryBin(g, n);
    0 <= c < |bins| && exists j :: 0 <= j < |bins[c]| && bins[c][j] == n && Pending(b, i, c, j)
  }

  ghost predicate SeenAt(seen: seq<bool>, k: int) {
    0 <= k < |seen| && seen[k]
  }

  ghost predicate SeenOrWaits(g: Scene, bins: Bins, seen: seq<bool>, n: CellData, b: int, i: int) {
    SeenAt(seen, n.index) || Waits(g, bins, n, b, i)
  }

  // The invariant while the first i entries of bin b have been taken: every offer has been seen or waits,

  ghost predicate OffersOpen(g: Scene, bins: Bins, seen: seq<bool>, via: map<int, CellData>, b: int, i: int) {
    forall k, dir: nat | k in via && dir < 4 && Offers(g, via[k], dir) ::
      SeenOrWaits(g, bins, seen, NeighbourEntry(g, via[k], dir), b, i)
  }

  ghost predicate SourcesOpen(g: Scene, bins: Bins, seen: seq<bool>, b: int, i: int) {
    forall s | s in g.sources :: SeenOrWaits(g, bins, seen, Entry(g, s, s), b, i)
  }

  // everything that waits, and everything reached, has been offered,

  ghost predicate WaitingOffered(g: Scene, bins: Bins, via: map<int, CellData>, b: int, i: int) {
    forall c, j | 0 <= c < |bins| && 0 <= j < |bins[c]| && Pending(b, i, c, j) :: Offered(g, via, bins[c][j])
  }

  ghost predicate ReachedOffered(g: Scene, via: map<int, CellData>) {
    forall k | k in via :: Offered(g, via, via[k])
  }

  // no cell was reached from a bin after b, and none was offered a nearer obstacle.

  ghost predicate ReachedBelow(g: Scene, via: map<int, CellData>, b: int) {
    forall k | k in via :: EntryBin(g, via[k]) <= b
  }

  ghost predicate ReachedLeast(g: Scene, via: map<int, CellData>) {
    forall k, dir: nat | k in via && dir < 4 && Offers(g, via[k], dir) ::
      var n := NeighbourEntry(g, via[k], dir); n.index in via ==> Range(via[n.index]) <= Range(n)
  }

  ghost predicate Frontier(g: Scene, bins: Bins, seen: seq<bool>, via: map<int, CellData>, b: int, i: int) {
    && OffersOpen(g, bins, seen, via, b, i) && SourcesOpen(g, bins, seen, b, i)
    && WaitingOffered(g, bins, via, b, i) && ReachedOffered(g, via)
    && ReachedBelow(g, via, b) && ReachedLeast(g, via)
  }

  // ---- processing one unseen cell ----

  lemma MarkKeeps(g: Scene, seen: seq<bool>, via: map<int, CellData>, e: CellData)
    requires SeenBy(g, seen, via) && EntryOk(g, e) && 0 <= e.index < |seen| && !seen[e.index]
    ensures SeenBy(g, seen[e.index := true], via[e.index := e])
  {
  }

  lemma OfferStays(g: Scene, via: map<int, CellData>, e: CellData, n: CellData)
    requires Offered(g, via, n) && e.index !in via
    ensures Offered(g, via[e.index := e], n)
  {
    hide Offers, NeighbourEntry;
    if !(Source(n) in g.sources && n == Entry(g, Source(n), Source(n))) {
      var k, dir: nat :| k in via && dir < 4 && Offers(g, via[k], dir) && n == NeighbourEntry(g, via[k], dir);
      assert via[e.index := e][k] == via[k];
    }
  }

  /** Taking e leaves everything else waiting. */
  lemma StillWaits(g: Scene, bins: Bins, bins': Bins, seen: seq<bool>, b: int, i: int, e: CellData, n: CellData)
    requires 0 <= b < |bins| && 0 <= i < |bins[b]| && bins[b][i] == e && 0 <= e.index < |seen|
    requires Grown(g, bins, bins', e) && SeenOrWaits(g, bins, seen, n, b, i)
    ensures SeenOrWaits(g, bins', seen[e.index := true], n, b, i + 1)
  {
    hide EntryBin, ListedBy;
    if !SeenAt(seen, n.index) {
      var c := EntryBin(g, n);
      var j :| 0 <= j < |bins[c]| && bins[c][j] == n && Pending(b, i, c, j);
      assert bins[c] <= bins'[c];
      assert bins'[c][j] == n;
    }
  }

  /** The neighbours of a cell are never as far from an obstacle as the cell itself. */
  lemma NeighbourDiffers(g: Scene, e: CellData, dir: nat)
    requires dir < 4
    ensures Range(NeighbourEntry(g, e, dir)) != Range(e)
  {
    var d := Minus(Cell(e), Source(e));
    SquareStep(d.0);
    SquareStep(d.1);
  }

  lemma SquareStep(a: int)
    ensures (a + 1) * (a + 1) == a * a + 2 * a + 1 && (a - 1) * (a - 1) == a * a - 2 * a + 1
  {
  }

  lemma EntryNear(g: Scene, e: CellData)
    requires EntryOk(g, e)
    ensures Near(g, Cell(e), Source(e))
  {
  }

  lemma WantedNear(g: Scene, e: CellData, dir: nat)
    requires dir < 4 && Wanted(g, e, dir)
    ensures var n := NeighbourEntry(g, e, dir); Near(g, Cell(n), Source(n))
  {
  }

  /** An offer lies in a later bin, and any other wanted neighbour in an earlier one. */
  lemma OfferBin(g: Scene, e: CellData, dir: nat)
    requires SceneOk(g) && EntryOk(g, e) && dir < 4 && Wanted(g, e, dir)
    ensures EntryBin(g, NeighbourEntry(g, e, dir)) != EntryBin(g, e)
    ensures Offers(g, e, dir) <==> EntryBin(g, NeighbourEntry(g, e, dir)) > EntryBin(g, e)
  {
    hide SceneOk, BinOf, Near, Norm, EntryOk, Neighbour;
    var n := NeighbourEntry(g, e, dir);
    NeighbourDiffers(g, e, dir);
    EntryNear(g, e);
    WantedNear(g, e, dir);
    BinsFollowDistance(g, Cell(e), Source(e), Cell(n), Source(n));
    BinsFollowDistance(g, Cell(n), Source(n), Cell(e), Source(e));
  }

  /** What e lists in a bin after its own it has offered. */
  lemma NewOffered(g: Scene, via: map<int, CellData>, e: CellData, n: CellData)
    requires SceneOk(g) && EntryOk(g, e) && ListedBy(g, e, n) && EntryBin(g, n) >= EntryBin(g, e)
    ensures Offered(g, via[e.index := e], n)
  {
    hide SceneOk, EntryOk, EntryBin, Wanted, Offers, NeighbourEntry;
    var dir: nat :| dir < 4 && Wanted(g, e, dir) && n == NeighbourEntry(g, e, dir);
    OfferBin(g, e, dir);
    assert via[e.index := e][e.index] == e;
  }

  /** e is the next entry of bin b, and its cell has not been seen. */
  ghost predicate Next(g: Scene, bins: Bins, seen: seq<bool>, via: map<int, CellData>, b: int, i: int, e: CellData) {
    && SceneOk(g) && BinsOk(g, bins) && SeenBy(g, seen, via)
    && 0 <= b < |bins| && 0 <= i < |bins[b]| && bins[b][i] == e && EntryOk(g, e) && EntryBin(g, e) == b
    && |seen| == g.sizeX * g.sizeY && 0 <= e.index < |seen| && !seen[e.index]
  }

  lemma ProcessOpen(g: Scene, bins: Bins, bins': Bins, seen: seq<bool>, via: map<int, CellData>,
                    b: int, i: int, e: CellData)
    requires Next(g, bins, seen, via, b, i, e) && Frontier(g, bins, seen, via, b, i)
    requires Grown(g, bins, bins', e) && AllServed(g, bins', seen[e.index := true], e)
    ensures OffersOpen(g, bins', seen[e.index := true], via[e.index := e], b, i + 1)
    ensures SourcesOpen(g, bins', seen[e.index := true], b, i + 1)
  {
    hide SceneOk, BinsOk, SeenBy, EntryOk, EntryBin, Offers, Served, Grown, SeenOrWaits, NeighbourEntry;
    hide WaitingOffered, ReachedOffered, ReachedBelow, ReachedLeast;
    var seen', via' := seen[e.index := true], via[e.index := e];
    forall s | s in g.sources ensures SeenOrWaits(g, bins', seen', Entry(g, s, s), b, i + 1) {
      StillWaits(g, bins, bins', seen, b, i, e, Entry(g, s, s));
    }
    forall k, dir: nat | k in via' && dir < 4 && Offers(g, via'[k], dir)
      ensures SeenOrWaits(g, bins', seen', NeighbourEntry(g, via'[k], dir), b, i + 1)
    {
      if k == e.index {
        OwnOffer(g, bins', seen', b, i, e, dir);
      } else {
        assert via'[k] == via[k];
        StillWaits(g, bins, bins', seen, b, i, e, NeighbourEntry(g, via[k], dir));
      }
    }
  }

  lemma OwnOffer(g: Scene, bins: Bins, seen: seq<bool>, b: int, i: int, e: CellData, dir: nat)
    requires SceneOk(g) && EntryOk(g, e) && EntryBin(g, e) == b && dir < 4 && Offers(g, e, dir)
    requires Served(g, bins, seen, e, dir)
    ensures SeenOrWaits(g, bins, seen, NeighbourEntry(g, e, dir), b, i + 1)
  {
    hide SceneOk, EntryOk, BinOf, Wanted, Near, Range;
    var n := NeighbourEntry(g, e, dir);
    OfferBin(g, e, dir);
    if !SeenAt(seen, n.index) {
      var c := EntryBin(g, n);
      var j :| 0 <= j < |bins[c]| && bins[c][j] == n;
      assert Pending(b, i + 1, c, j);
    }
  }

  lemma BinOfListed(g: Scene, bins: Bins, c: int, j: int)
    requires BinsOk(g, bins) && 0 <= c < |bins| && 0 <= j < |bins[c]|
    ensures EntryOk(g, bins[c][j]) && EntryBin(g, bins[c][j]) == c
  {
    assert BinOk(g, bins[c], c) && bins[c][j] in bins[c];
  }

  lemma ProcessOffered(g: Scene, bins: Bins, bins': Bins, seen: seq<bool>, via: map<int, CellData>,
                       b: int, i: int, e: CellData)
    requires Next(g, bins, seen, via, b, i, e) && Frontier(g, bins, seen, via, b, i)
    requires Grown(g, bins, bins', e) && BinsOk(g, bins')
    ensures WaitingOffered(g, bins', via[e.index := e], b, i + 1)
    ensures ReachedOffered(g, via[e.index := e])
  {
    hide SceneOk, BinsOk, EntryOk, EntryBin, Offered, ListedBy, OffersOpen, SourcesOpen, ReachedBelow, ReachedLeast;
    var via' := via[e.index := e];
    assert e.index !in via;
    assert Pending(b, i, b, i);
    forall c, j | 0 <= c < |bins'| && 0 <= j < |bins'[c]| && Pending(b, i + 1, c, j)
      ensures Offered(g, via', bins'[c][j])
    {
      if j < |bins[c]| {
        assert bins[c] <= bins'[c];
        assert bins'[c][j] == bins[c][j] && Pending(b, i, c, j);
        OfferStays(g, via, e, bins[c][j]);
      } else {
        BinOfListed(g, bins', c, j);
        NewOffered(g, via, e, bins'[c][j]);
      }
    }
    forall k | k in via' ensures Offered(g, via', via'[k]) {
      OfferStays(g, via, e, via'[k]);
    }
  }

  lemma ProcessLeast(g: Scene, bins: Bins, seen: seq<bool>, via: map<int, CellData>, b: int, i: int, e: CellData)
    requires Next(g, bins, seen, via, b, i, e) && Frontier(g, bins, seen, via, b, i)
    ensures ReachedBelow(g, via[e.index := e], b) && ReachedLeast(g, via[e.index := e])
  {
    hide SceneOk, BinsOk, EntryOk, EntryBin, Offers, NeighbourEntry, Range, SourcesOpen, WaitingOffered, ReachedOffered;
    var via' := via[e.index := e];
    forall k, dir: nat | k in via' && dir < 4 && Offers(g, via'[k], dir)
      ensures var n := NeighbourEntry(g, via'[k], dir); n.index in via' ==> Range(via'[n.index]) <= Range(n)
    {
      var n := NeighbourEntry(g, via'[k], dir);
      assert via'[k] == if k == e.index then e else via[k];
      assert EntryOk(g, via'[k]);
      assert Range(via'[k]) < Range(n) by {
        OfferIsFurther(g, via'[k], dir);
      }
      if n.index == e.index {
        if k != e.index {
          OpenOfferBin(g, bins, seen, n, b, i);
          EntriesByBin(g, e, via[k], dir);
        }
      } else if n.index in via && k == e.index {
        EntriesOrdered(g, via[n.index], e);
      }
    }
  }

  lemma OfferIsFurther(g: Scene, e: CellData, dir: nat)
    requires dir < 4 && Offers(g, e, dir)
    ensures Range(e) < Range(NeighbourEntry(g, e, dir)) && Wanted(g, e, dir)
  {
  }

  lemma OpenOfferBin(g: Scene, bins: Bins, seen: seq<bool>, n: CellData, b: int, i: int)
    requires SeenOrWaits(g, bins, seen, n, b, i) && !SeenAt(seen, n.index)
    ensures EntryBin(g, n) >= b
  {
    hide EntryBin;
  }

  lemma EntriesOrdered(g: Scene, e: CellData, f: CellData)
    requires SceneOk(g) && EntryOk(g, e) && EntryOk(g, f) && EntryBin(g, e) <= EntryBin(g, f)
    ensures Range(e) <= Range(f)
  {
    hide SceneOk, EntryOk, BinOf, Near, Norm;
    EntryNear(g, e);
    EntryNear(g, f);
    BinsFollowDistance(g, Cell(f), Source(f), Cell(e), Source(e));
  }

  lemma EntriesByBin(g: Scene, e: CellData, f: CellData, dir: nat)
    requires SceneOk(g) && EntryOk(g, e) && dir < 4 && Offers(g, f, dir)
    requires EntryBin(g, e) <= EntryBin(g, NeighbourEntry(g, f, dir))
    ensures Range(e) <= Range(NeighbourEntry(g, f, dir))
  {
    hide SceneOk, EntryOk, BinOf, Near, Norm, Neighbour;
    var n := NeighbourEntry(g, f, dir);
    EntryNear(g, e);
    WantedNear(g, f, dir);
    BinsFollowDistance(g, Cell(n), Source(n), Cell(e), Source(e));
  }

  lemma ProcessKeeps(g: Scene, bins: Bins, seen: seq<bool>, via: map<int, CellData>, b: int, i: int, e: CellData)
    requires Next(g, bins, seen, via, b, i, e) && Frontier(g, bins, seen, via, b, i) && |bins| == g.top + 1
    ensures var seen', via' := seen[e.index := true], via[e.index := e];
            var bins' := PushedAll(g, bins, seen', e);
            && BinsOk(g, bins') && Grown(g, bins, bins', e) && SeenBy(g, seen', via')
            && Frontier(g, bins', seen', via', b, i + 1)
  {
    hide SceneOk, BinsOk, EntryOk, Served, PushedAll, SeenBy, EntryBin, Grown, OffersOpen, SourcesOpen;
    hide WaitingOffered, ReachedOffered, ReachedBelow, ReachedLeast;
    var seen' := seen[e.index := true];
    var bins' := PushedAll(g, bins, seen', e);
    MarkKeeps(g, seen, via, e);
    PushAllServes(g, bins, seen', e);
    ProcessOpen(g, bins, bins', seen, via, b, i, e);
    ProcessOffered(g, bins, bins', seen, via, b, i, e);
    ProcessLeast(g, bins, seen, via, b, i, e);
  }

  // ---- the other steps ----

  lemma SkipKeeps(g: Scene, bins: Bins, seen: seq<bool>, via: map<int, CellData>, b: int, i: int)
    requires Frontier(g, bins, seen, via, b, i) && 0 <= b < |bins| && 0 <= i < |bins[b]|
    requires SeenAt(seen, bins[b][i].index)
    ensures Frontier(g, bins, seen, via, b, i + 1)
  {
    hide EntryBin, Offers, NeighbourEntry, Offered, Range, SeenOrWaits;
    forall n | SeenOrWaits(g, bins, seen, n, b, i) ensures SeenOrWaits(g, bins, seen, n, b, i + 1) {
      SkipWaits(g, bins, seen, n, b, i);
    }
  }

  lemma SkipWaits(g: Scene, bins: Bins, seen: seq<bool>, n: CellData, b: int, i: int)
    requires SeenOrWaits(g, bins, seen, n, b, i) && 0 <= b < |bins| && 0 <= i < |bins[b]|
    requires SeenAt(seen, bins[b][i].index)
    ensures SeenOrWaits(g, bins, seen, n, b, i + 1)
  {
    hide EntryBin;
    if !SeenAt(seen, n.index) {
      var c := EntryBin(g, n);
      var j :| 0 <= j < |bins[c]| && bins[c][j] == n && Pending(b, i, c, j);
      assert Pending(b, i + 1, c, j);
    }
  }

  lemma NextBinKeeps(g: Scene, bins: Bins, seen: seq<bool>, via: map<int, CellData>, b: int)
    requires 0 <= b < |bins| && Frontier(g, bins, seen, via, b, |bins[b]|)
    ensures Frontier(g, bins, seen, via, b + 1, 0)
  {
    hide EntryBin, Offers, NeighbourEntry, Offered, Range, SeenOrWaits;
    forall n | SeenOrWaits(g, bins, seen, n, b, |bins[b]|) ensures SeenOrWaits(g, bins, seen, n, b + 1, 0) {
      NextBinWaits(g, bins, seen, n, b);
    }
    forall c, j | 0 <= c < |bins| && 0 <= j < |bins[c]| && Pending(b + 1, 0, c, j) ensures Offered(g, via, bins[c][j]) {
      assert Pending(b, |bins[b]|, c, j);
    }
  }

  lemma NextBinWaits(g: Scene, bins: Bins, seen: seq<bool>, n: CellData, b: int)
    requires 0 <= b < |bins| && SeenOrWaits(g, bins, seen, n, b, |bins[b]|)
    ensures SeenOrWaits(g, bins, seen, n, b + 1, 0)
  {
    hide EntryBin;
    if !SeenAt(seen, n.index) {
      var c := EntryBin(g, n);
      var j :| 0 <= j < |bins[c]| && bins[c][j] == n && Pending(b, |bins[b]|, c, j);
      assert Pending(b + 1, 0, c, j);
    }
  }

  // ---- the end ----

  /** Where the wavefront stops: whatever was reached has been offered, every obstacle is its own source, and
      every offer reached its cell, or a nearer one did. */
  ghost predicate Settled(g: Scene, via: map<int, CellData>) {
    && (forall k | k in via :: EntryOk(g, via[k]) && via[k].index == k && Offered(g, via, via[k]))
    && (forall s | s in g.sources :: Index(g, s) in via && via[Index(g, s)] == Entry(g, s, s))
    && (forall k, dir: nat | k in via && dir < 4 && Offers(g, via[k], dir) ::
          var n := NeighbourEntry(g, via[k], dir); n.index in via && Range(via[n.index]) <= Range(n))
  }

  lemma WaveSettles(g: Scene, bins: Bins, seen: seq<bool>, via: map<int, CellData>)
    requires SeenBy(g, seen, via) && Frontier(g, bins, seen, via, |bins|, 0)
    requires forall s | s in g.sources && Index(g, s) in via :: via[Index(g, s)] == Entry(g, s, s)
    ensures Settled(g, via)
  {
    hide EntryOk, EntryBin, Offers, NeighbourEntry, Offered, Range, SeenOrWaits;
    forall n | SeenOrWaits(g, bins, seen, n, |bins|, 0) ensures n.index in via {
      NothingWaits(g, bins, seen, n);
    }
    assert forall s | s in g.sources :: Entry(g, s, s).index == Index(g, s);
  }

  lemma NothingWaits(g: Scene, bins: Bins, seen: seq<bool>, n: CellData)
    requires SeenOrWaits(g, bins, seen, n, |bins|, 0)
    ensures SeenAt(seen, n.index)
  {
    hide EntryBin;
  }
}
