/** lane_mapper.cpp over whole runs: the map over absolute cells, limited to the moving window. */
module LaneRuns {
  import opened Arithmetic
  import opened Options
  import opened RingWindow
  import opened LaneMap
  import opened LaneScan

  // ---- the map ----

  datatype Map = Map(started: bool, origin: Cell, cells: map<Cell, Val>)

  function Window(m: Model, o: Cell): set<Cell> {
    set x, y | o.x <= x < o.x + m.p.w && o.y <= y < o.y + m.p.h :: Cell(x, y)
  }

  lemma WindowIs(m: Model, o: Cell)
    ensures forall c :: c in Window(m, o) <==> Inside(m, o, c)
  {
    forall c | Inside(m, o, c) ensures c in Window(m, o) {
      assert c == Cell(c.x, c.y);
    }
  }

  ghost predicate MapOk(m: Model, a: Map) {
    forall c :: c in a.cells <==> Inside(m, a.origin, c)
  }

  /** The value of a cell after the window has moved: kept in the overlap, blank elsewhere. */
  function Moved(m: Model, a: Map, c: Cell): Val {
    if a.started && c in a.cells then a.cells[c] else BLANK
  }

  function Recentered(m: Model, a: Map, pose: Pose): (r: Map)
    requires ModelOk(m)
    ensures MapOk(m, r)
  {
    var o := OriginOf(m, pose);
    WindowIs(m, o);
    Map(true, o, map c | c in Window(m, o) :: Moved(m, a, c))
  }

  /** The map after a frame: the window moves, then every cell takes the updates of the frame. */
  function Inserted(m: Model, a: Map, f: Frame): (r: Map)
    requires ModelOk(m) && PointsOk(f.pts)
    ensures MapOk(m, r)
  {
    var o := OriginOf(m, f.pose);
    WindowIs(m, o);
    Map(true, o, map c | c in Window(m, o) :: UpdatedAll(m, Moved(m, a, c), Updates(m, f, c)))
  }

  /** A map that holds nothing yet. */
  function Start(m: Model, o: Cell): Map {
    Map(false, o, map c | c in Window(m, o) :: BLANK)
  }

  ghost predicate FramesOk(fs: seq<Frame>) {
    forall k | 0 <= k < |fs| :: PointsOk(fs[k].pts)
  }

  function RunAll(m: Model, fs: seq<Frame>): Map
    requires ModelOk(m) && FramesOk(fs)
  {
    if fs == [] then Start(m, Cell(0, 0)) else Inserted(m, RunAll(m, fs[..|fs| - 1]), fs[|fs| - 1])
  }

  /** The first frame finds a blank map, whatever the arrays held. */
  lemma FirstFrameStartsBlank(m: Model, a: Map, f: Frame)
    requires ModelOk(m) && PointsOk(f.pts) && !a.started
    ensures Inserted(m, a, f) == RunAll(m, [f])
  {
    hide Updates, UpdatedAll;
    assert [f][..0] == [];
  }

  // ---- the order of the points ----

  lemma PointsStayOk(a: seq<Point>, b: seq<Point>)
    requires PointsOk(a) && multiset(b) == multiset(a)
    ensures PointsOk(b) && |b| == |a|
  {
    forall k | 0 <= k < |b| ensures b[k].range >= 0.0 {
      assert b[k] in multiset(b);
      assert b[k] in multiset(a);
    }
    assert |b| == |multiset(b)| == |multiset(a)| == |a|;
  }

  lemma ScanUpdatesPermute(m: Model, f: Frame, g: Frame, ds: seq<Cell>, e: real)
    requires ModelOk(m) && f.pose == g.pose && DoMiss(m, f) == DoMiss(m, g)
    ensures ScanUpdates(m, f, ds, e) == ScanUpdates(m, g, ds, e)
  {
    hide DoMiss, Weight, RobotX, Hit;
    forall d, x: real ensures HitMiss(m, f, d, x) == HitMiss(m, g, d, x) {
    }
  }

  lemma UpdatesPermute(m: Model, f: Frame, pts: seq<Point>, c: Cell)
    requires ModelOk(m) && PointsOk(f.pts) && multiset(pts) == multiset(f.pts) && PointsOk(pts)
    ensures Updates(m, f.(pts := pts), c) == Updates(m, f, c)
  {
    hide FrameEvidence, Sharers, ScanList, ScanUpdates;
    PointsStayOk(f.pts, pts);
    EvidenceAtMost(m, f.pose, pts, f.pts, c);
    EvidenceAtMost(m, f.pose, f.pts, pts, c);
    var e := FrameEvidence(m, f.pose, f.pts, c);
    assert FrameEvidence(m, f.pose, pts, c) == e;
    ScanUpdatesPermute(m, f, f.(pts := pts), Sharers(m, f.pose, ScanList(m, f.pose), c), e);
  }

  /** A frame leaves the same map in whatever order its points come. */
  lemma PointsPermute(m: Model, a: Map, f: Frame, pts: seq<Point>)
    requires ModelOk(m) && PointsOk(f.pts) && multiset(pts) == multiset(f.pts)
    ensures PointsOk(pts) && Inserted(m, a, f.(pts := pts)) == Inserted(m, a, f)
  {
    hide Updates, UpdatedAll, Moved;
    PointsStayOk(f.pts, pts);
    forall c ensures Updates(m, f.(pts := pts), c) == Updates(m, f, c) {
      UpdatesPermute(m, f, pts, c);
    }
  }

  // ---- whole runs ----

  /** The updates of the frames, one after the other, on a blank cell. */
  function Folded(m: Model, fs: seq<Frame>, c: Cell): Val
    requires ModelOk(m) && FramesOk(fs)
  {
    if fs == [] then BLANK
    else UpdatedAll(m, Folded(m, fs[..|fs| - 1], c), Updates(m, fs[|fs| - 1], c))
  }

  /** The cell entered the window with frame k and has been in it ever since. */
  ghost predicate InSince(m: Model, fs: seq<Frame>, c: Cell, k: nat)
    requires ModelOk(m)
  {
    && k < |fs| && (k == 0 || !Inside(m, OriginOf(m, fs[k - 1].pose), c))
    && forall j | k <= j < |fs| :: Inside(m, OriginOf(m, fs[j].pose), c)
  }

  lemma RunWindow(m: Model, fs: seq<Frame>)
    requires ModelOk(m) && FramesOk(fs) && fs != []
    ensures MapOk(m, RunAll(m, fs)) && RunAll(m, fs).started
    ensures RunAll(m, fs).origin == OriginOf(m, fs[|fs| - 1].pose)
  {
    hide Updates, UpdatedAll, Moved;
  }

  /** In every run, an in-window cell holds the fold of its updates since it last entered the window. */
  lemma {:induction false} CellIsFoldSinceEntry(m: Model, fs: seq<Frame>, c: Cell, k: nat)
    requires ModelOk(m) && FramesOk(fs) && InSince(m, fs, c, k)
    ensures MapOk(m, RunAll(m, fs)) && c in RunAll(m, fs).cells
    ensures RunAll(m, fs).cells[c] == Folded(m, fs[k..], c)
  {
    hide Updates, UpdatedAll;
    var n := |fs| - 1;
    WindowIs(m, OriginOf(m, fs[n].pose));
    var a := RunAll(m, fs[..n]);
    assert fs[k..][..n - k] == fs[k..n] == fs[..n][k..];
    if k < n {
      assert InSince(m, fs[..n], c, k);
      CellIsFoldSinceEntry(m, fs[..n], c, k);
    } else if n > 0 {
      RunWindow(m, fs[..n]);
      assert fs[..n][n - 1] == fs[k - 1];
    }
    assert RunAll(m, fs).cells[c] == UpdatedAll(m, Moved(m, a, c), Updates(m, fs[n], c));
  }

  /** The frame with which an in-window cell last entered the window. */
  function EntryOf(m: Model, fs: seq<Frame>, c: Cell): (k: nat)
    requires ModelOk(m) && fs != [] && Inside(m, OriginOf(m, fs[|fs| - 1].pose), c)
    ensures InSince(m, fs, c, k)
  {
    var n := |fs| - 1;
    if n == 0 || !Inside(m, OriginOf(m, fs[n - 1].pose), c) then n else EntryOf(m, fs[..n], c)
  }

  /** What a run has made of a cell; cells outside the window are blank. */
  function Held(m: Model, fs: seq<Frame>, c: Cell): Val
    requires ModelOk(m) && FramesOk(fs)
  {
    if fs != [] && Inside(m, OriginOf(m, fs[|fs| - 1].pose), c) then Folded(m, fs[EntryOf(m, fs, c)..], c) else BLANK
  }

  lemma RunHolds(m: Model, fs: seq<Frame>, c: Cell)
    requires ModelOk(m) && FramesOk(fs) && c in RunAll(m, fs).cells
    ensures RunAll(m, fs).cells[c] == Held(m, fs, c)
  {
    hide Folded, Updates, UpdatedAll;
    if fs != [] {
      RunWindow(m, fs);
      CellIsFoldSinceEntry(m, fs, c, EntryOf(m, fs, c));
    }
  }

  /** A seen cell is within the limits; an unseen one is at 0. */
  lemma {:induction false} FoldIsBounded(m: Model, fs: seq<Frame>, c: Cell)
    requires ModelOk(m) && FramesOk(fs)
    ensures var v := Folded(m, fs, c); if v.seen then m.p.lMin <= v.log <= m.p.lMax else v == BLANK
  {
    hide Updates, UpdatedAll;
    if fs != [] {
      var n := |fs| - 1;
      FoldIsBounded(m, fs[..n], c);
      var v, us := Folded(m, fs[..n], c), Updates(m, fs[n], c);
      SeenAfter(m, v, us);
      BoundedAfter(m, v, us);
      NothingApplied(m, v);
    }
  }

  lemma NothingApplied(m: Model, v: Val)
    ensures UpdatedAll(m, v, []) == v
  {
  }

  /** The updates meant for the cell, one per frame at most. */
  function Meant(m: Model, fs: seq<Frame>, c: Cell): Val
    requires ModelOk(m) && FramesOk(fs)
  {
    if fs == [] then BLANK else Updated(m, Meant(m, fs[..|fs| - 1], c), Update(m, fs[|fs| - 1], c))
  }

  lemma ListedOnce(m: Model, v: Val, u: Option<real>)
    ensures UpdatedAll(m, v, Listed(u)) == Updated(m, v, u)
  {
    NothingApplied(m, v);
    if u.Some? {
      assert [u.value][..0] == [];
    }
  }

  /** As long as a cell has been in the window with exact frames only, it holds the updates meant for it. */
  lemma {:induction false} ExactRunsHoldWhatIsMeant(m: Model, fs: seq<Frame>, c: Cell)
    requires ModelOk(m) && FramesOk(fs)
    requires forall k | 0 <= k < |fs| :: Exact(m, fs[k]) && Inside(m, OriginOf(m, fs[k].pose), c)
    ensures Folded(m, fs, c) == Meant(m, fs, c)
  {
    hide Updates, Update, UpdatedAll, Updated;
    if fs != [] {
      var n := |fs| - 1;
      ExactRunsHoldWhatIsMeant(m, fs[..n], c);
      ListedOnce(m, Folded(m, fs[..n], c), Update(m, fs[n], c));
      assert Exact(m, fs[n]);
    }
  }

  // ---- what a snapshot shows ----

  predicate Occupied(m: Model, v: Val) {
    v.seen && v.log >= m.p.lOccupied
  }

  /** The occupied cells that support the one at (x, y) of the window. The bounds are half-open, and the
      last row and column never count. */
  function Support(m: Model, a: Map, x: int, y: int): set<Cell> {
    var r := m.p.speckleRadius;
    set c | c in a.cells && Occupied(m, a.cells[c])
            && Max(0, y - r) <= c.y - a.origin.y < Min(m.p.h - 1, y + r)
            && Max(0, x - r) <= c.x - a.origin.x < Min(m.p.w - 1, x + r)
  }

  /** -1 unknown, 0 free, 100 occupied and supported. */
  function Shown(m: Model, a: Map, x: int, y: int): int
    requires Cell(a.origin.x + x, a.origin.y + y) in a.cells
  {
    var v := a.cells[Cell(a.origin.x + x, a.origin.y + y)];
    if !v.seen then -1
    else if Occupied(m, v) && |Support(m, a, x, y)| >= m.p.speckleSupport then 100 else 0
  }

  lemma SubsetSmaller<T>(a: set<T>, b: set<T>)
    requires a <= b
    ensures |a| <= |b|
  {
    assert b == a + (b - a);
    assert |b| == |a| + |b - a|;
  }

  /** With radius 1 the window is 2 x 2, not 3 x 3: the cell itself and its left, lower and lower left
      neighbours. In the lower left corner of the map it is the cell alone. */
  lemma SpeckleWindow(m: Model, a: Map, x: int, y: int)
    requires m.p.speckleRadius == 1 && m.p.w > 0 && m.p.h > 0
    ensures forall c | c in Support(m, a, x, y) ::
              x - 1 <= c.x - a.origin.x <= x && y - 1 <= c.y - a.origin.y <= y
    ensures |Support(m, a, x, y)| <= 4
    ensures x == 0 && y == 0 ==> |Support(m, a, x, y)| <= 1
  {
    hide Occupied;
    var ox, oy := a.origin.x, a.origin.y;
    var s := Support(m, a, x, y);
    SubsetSmaller(s,
                 {Cell(ox + x - 1, oy + y - 1), Cell(ox + x, oy + y - 1),
                  Cell(ox + x - 1, oy + y), Cell(ox + x, oy + y)});
    if x == 0 && y == 0 {
      SubsetSmaller(s, {Cell(ox, oy)});
    }
  }

  /** 1 where an occupied cell lies outside the last row and the last column, which no support counts. */
  function CountedAt(m: Model, a: Map, x: int, y: int): int {
    var c := Cell(a.origin.x + x, a.origin.y + y);
    if 0 <= x < m.p.w - 1 && 0 <= y < m.p.h - 1 && c in a.cells && a.cells[c].seen && a.cells[c].log >= m.p.lOccupied
    then 1 else 0
  }

  /** With radius 1 the support of a cell is the number of occupied cells among itself and its left, lower and lower
      left neighbours, of which the last row and the last column of the window never count. */
  lemma SupportIsCount(m: Model, a: Map, x: int, y: int)
    requires m.p.speckleRadius == 1 && 0 <= x < m.p.w && 0 <= y < m.p.h
    ensures |Support(m, a, x, y)| == CountedAt(m, a, x - 1, y - 1) + CountedAt(m, a, x, y - 1)
                                   + CountedAt(m, a, x - 1, y) + CountedAt(m, a, x, y)
  {
    var ox, oy, s := a.origin.x, a.origin.y, Support(m, a, x, y);
    var c0, c1 := Cell(ox + x - 1, oy + y - 1), Cell(ox + x, oy + y - 1);
    var c2, c3 := Cell(ox + x - 1, oy + y), Cell(ox + x, oy + y);
    assert forall c | c in s :: c == c0 || c == c1 || c == c2 || c == c3;
    assert c0 in s <==> CountedAt(m, a, x - 1, y - 1) == 1;
    assert c1 in s <==> CountedAt(m, a, x, y - 1) == 1;
    assert c2 in s <==> CountedAt(m, a, x - 1, y) == 1;
    assert c3 in s <==> CountedAt(m, a, x, y) == 1;
    FourCells(s, c0, c1, c2, c3);
  }

  function Has(s: set<Cell>, c: Cell): int {
    if c in s then 1 else 0
  }

  lemma Without(s: set<Cell>, c: Cell)
    ensures |s| == |s - {c}| + Has(s, c)
  {
    if c in s {
      assert s == (s - {c}) + {c};
    } else {
      assert s == s - {c};
    }
  }

  lemma TwoCells(s: set<Cell>, c: Cell, d: Cell)
    requires forall e | e in s :: e == c || e == d
    requires c != d
    ensures |s| == Has(s, c) + Has(s, d)
  {
    Without(s, c);
    Without(s - {c}, d);
    assert s - {c} - {d} == {};
  }

  lemma FourCells(s: set<Cell>, a: Cell, b: Cell, c: Cell, d: Cell)
    requires forall e | e in s :: e == a || e == b || e == c || e == d
    requires a != b && a != c && a != d && b != c && b != d && c != d
    ensures |s| == Has(s, a) + Has(s, b) + Has(s, c) + Has(s, d)
  {
    var t := s - {a} - {b};
    Without(s, a);
    Without(s - {a}, b);
    TwoCells(t, c, d);
    assert Has(t, c) == Has(s, c) && Has(t, d) == Has(s, d) && Has(s - {a}, b) == Has(s, b);
  }

  /** What a snapshot shows of a cell: unknown until it was seen, and occupied where its own value and its support
      reach their thresholds. */
  lemma ShownIs(m: Model, a: Map, x: int, y: int)
    requires Cell(a.origin.x + x, a.origin.y + y) in a.cells
    ensures var v, r := a.cells[Cell(a.origin.x + x, a.origin.y + y)], Shown(m, a, x, y);
            && (r == -1 <==> !v.seen)
            && (r == 100 <==> v.seen && m.p.lOccupied <= v.log && m.p.speckleSupport <= |Support(m, a, x, y)|)
            && (r == -1 || r == 0 || r == 100)
  {
    hide Support;
  }
}
