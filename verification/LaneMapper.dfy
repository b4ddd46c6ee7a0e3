/** lane_mapper.cpp: the mapper object over its three arrays. */
module LaneMapperObject {
  import opened Arithmetic
  import opened RingWindow
  import opened LaneMap
  import opened LaneScan
  import opened LaneRuns
  import opened LaneSlots

  /** Where a snapshot lies in the world. */
  datatype Geometry = Geometry(originX: real, originY: real, resolution: real, w: int, h: int)

  class LaneMapper {
    const m: Model
    const logOdds: array<real>
    const frameEv: array<real>
    const seen: array<bool>
    var touched: seq<int>
    var origin: Cell
    var started: bool
    ghost var frames: seq<Frame>

    ghost predicate Sized()
      reads this
    {
      && ModelOk(m) && logOdds.Length == frameEv.Length == seen.Length == Size(m)
      && logOdds != frameEv
    }

    ghost function Value(): Slots
      reads this, logOdds, frameEv, seen
    {
      Slots(logOdds[..], seen[..], frameEv[..], touched)
    }

    /** Between two calls no evidence is left. */
    ghost predicate Clean()
      reads this, logOdds, frameEv, seen
    {
      && Sized() && SlotsOk(m, Value()) && touched == []
      && forall i | 0 <= i < Size(m) :: frameEv[i] == 0.0
    }

    /** The map is what the frames since the last reset have made of it. */
    ghost predicate Valid()
      reads this, logOdds, frameEv, seen
    {
      && Clean() && FramesOk(frames) && (started <==> frames != [])
      && View() == if frames == [] then Start(m, origin) else RunAll(m, frames)
    }

    /** The map a reader sees: every cell of the window with the value in its slot. */
    ghost function View(): Map
      requires Sized()
      reads this, logOdds, frameEv, seen
    {
      Map(started, origin, map c | c in Window(m, origin) :: At(Value(), IdxOf(m, c)))
    }

    constructor (m: Model)
      requires ModelOk(m)
      ensures Valid() && this.m == m && frames == []
      ensures fresh(logOdds) && fresh(frameEv) && fresh(seen)
    {
      hide SlotsOk, IdxOf;
      this.m := m;
      assert m.p.w * m.p.h >= 0;
      logOdds := new real[m.p.w * m.p.h](_ => 0.0);
      frameEv := new real[m.p.w * m.p.h](_ => 0.0);
      seen := new bool[m.p.w * m.p.h](_ => false);
      touched, origin, started, frames := [], Cell(0, 0), false, [];
      new;
      BlankSlots(m, Value());
      BlankView(m, Value(), origin);
    }

    /** Forgets everything but the origin. */
    method Reset()
      requires Clean()
      modifies this`started, this`frames, logOdds, seen
      ensures Valid() && frames == [] && origin == old(origin)
    {
      hide SlotsOk, IdxOf;
      ghost var before := Value();
      Blank();
      started, frames := false, [];
      BlankIsOk(m, before, Value());
      BlankView(m, Value(), origin);
    }

    // ---- the rolling window ----

    method Blank()
      requires Sized()
      modifies logOdds, seen
      ensures forall i | 0 <= i < Size(m) :: logOdds[i] == 0.0 && !seen[i]
    {
      for i := 0 to logOdds.Length
        invariant forall j | 0 <= j < i :: logOdds[j] == 0.0
      {
        logOdds[i] := 0.0;
      }
      for i := 0 to seen.Length
        invariant forall j | 0 <= j < i :: !seen[j]
        invariant forall j | 0 <= j < logOdds.Length :: logOdds[j] == 0.0
      {
        seen[i] := false;
      }
    }

    /** Blanks the slots of one column; the others keep their value. */
    method ClearColumn(gridX: int)
      requires Sized()
      modifies logOdds, seen
      ensures forall r, c | 0 <= r < m.p.h && 0 <= c < m.p.w ::
                0 <= Flat(m.p.w, r, c) < Size(m) &&
                At(Value(), Flat(m.p.w, r, c)) ==
                if c == PMod(gridX, m.p.w) then BLANK else old(At(Value(), Flat(m.p.w, r, c)))
    {
      hide PMod, Flat;
      var w, k := m.p.w, PMod(gridX, m.p.w);
      ghost var before := Value();
      AllInRange(m);
      for r := 0 to m.p.h
        invariant forall r', c | 0 <= r' < m.p.h && 0 <= c < w ::
                    0 <= Flat(w, r', c) < Size(m) &&
                    At(Value(), Flat(w, r', c)) == if r' < r && c == k then BLANK else At(before, Flat(w, r', c))
      {
        var i := Flat(w, r, k);
        logOdds[i] := 0.0;
        seen[i] := false;
        OthersDiffer(m, r, k);
      }
    }

    method ClearRow(gridY: int)
      requires Sized()
      modifies logOdds, seen
      ensures forall r, c | 0 <= r < m.p.h && 0 <= c < m.p.w ::
                0 <= Flat(m.p.w, r, c) < Size(m) &&
                At(Value(), Flat(m.p.w, r, c)) ==
                if r == PMod(gridY, m.p.h) then BLANK else old(At(Value(), Flat(m.p.w, r, c)))
    {
      hide PMod, Flat;
      var w, k := m.p.w, PMod(gridY, m.p.h);
      ghost var before := Value();
      AllInRange(m);
      for c := 0 to w
        invariant forall r, c' | 0 <= r < m.p.h && 0 <= c' < w ::
                    0 <= Flat(w, r, c') < Size(m) &&
                    At(Value(), Flat(w, r, c')) == if r == k && c' < c then BLANK else At(before, Flat(w, r, c'))
      {
        var i := Flat(w, k, c);
        logOdds[i] := 0.0;
        seen[i] := false;
        OthersDiffer(m, k, c);
      }
    }

    /** Blanks the slots of all columns from lo on, below hi. */
    method ClearColumns(lo: int, hi: int)
      requires Sized() && lo <= hi
      modifies logOdds, seen
      ensures forall r, c | 0 <= r < m.p.h && 0 <= c < m.p.w ::
                0 <= Flat(m.p.w, r, c) < Size(m) &&
                At(Value(), Flat(m.p.w, r, c)) ==
                if HasResidue(lo, hi, m.p.w, c) then BLANK else old(At(Value(), Flat(m.p.w, r, c)))
    {
      hide PMod, Flat, HasResidue;
      AllInRange(m);
      ghost var before := Value();
      NoResidue(lo, m.p.w);
      for k := lo to hi
        invariant forall r, c | 0 <= r < m.p.h && 0 <= c < m.p.w ::
                    0 <= Flat(m.p.w, r, c) < Size(m) &&
                    At(Value(), Flat(m.p.w, r, c)) ==
                    if HasResidue(lo, k, m.p.w, c) then BLANK else At(before, Flat(m.p.w, r, c))
      {
        ClearColumn(k);
        MoreResidues(lo, k, m.p.w);
      }
    }

    method ClearRows(lo: int, hi: int)
      requires Sized() && lo <= hi
      modifies logOdds, seen
      ensures forall r, c | 0 <= r < m.p.h && 0 <= c < m.p.w ::
                0 <= Flat(m.p.w, r, c) < Size(m) &&
                At(Value(), Flat(m.p.w, r, c)) ==
                if HasResidue(lo, hi, m.p.h, r) then BLANK else old(At(Value(), Flat(m.p.w, r, c)))
    {
      hide PMod, Flat, HasResidue;
      AllInRange(m);
      ghost var before := Value();
      NoResidue(lo, m.p.h);
      for k := lo to hi
        invariant forall r, c | 0 <= r < m.p.h && 0 <= c < m.p.w ::
                    0 <= Flat(m.p.w, r, c) < Size(m) &&
                    At(Value(), Flat(m.p.w, r, c)) ==
                    if HasResidue(lo, k, m.p.h, r) then BLANK else At(before, Flat(m.p.w, r, c))
      {
        ClearRow(k);
        MoreResidues(lo, k, m.p.h);
      }
    }

    /** Clears the lines between the old and the new origin, of windows that overlap. */
    method ClearLeaving(o: Cell)
      requires Sized() && -m.p.w < o.x - origin.x < m.p.w && -m.p.h < o.y - origin.y < m.p.h
      modifies logOdds, seen
      ensures forall c | Inside(m, o, c) ::
                At(Value(), IdxOf(m, c)) == if Inside(m, origin, c) then old(At(Value(), IdxOf(m, c))) else BLANK
    {
      hide PMod, Flat, HasResidue, IdxOf;
      ghost var before := Value();
      ClearColumns(Min(origin.x, o.x), Max(origin.x, o.x));
      ClearRows(Min(origin.y, o.y), Max(origin.y, o.y));
      OverlapKept(m, origin, o, before, Value());
    }

    /** Moves the window: cells of the overlap keep their value, entering cells are blank. */
    method Recenter(pose: Pose)
      requires Clean()
      modifies this`origin, this`started, logOdds, seen
      ensures Clean() && View() == Recentered(m, old(View()), pose)
    {
      hide OriginOf, IdxOf, SlotsOk;
      var o := OriginOf(m, pose);
      ghost var a, before := View(), Value();
      SlotsSized(m, before);
      WindowIs(m, o);
      WindowIs(m, origin);
      if !started {
        Blank();
        started := true;
      } else {
        var dx, dy := o.x - origin.x, o.y - origin.y;
        if dx >= m.p.w || -dx >= m.p.w || dy >= m.p.h || -dy >= m.p.h {
          Blank();
        } else {
          ClearLeaving(o);
        }
      }
      origin := o;
      BlankIsOk(m, before, Value());
    }

    // ---- one frame ----

    method ApplyLogOdds(i: int, d: real)
      requires Sized() && SlotsOk(m, Value()) && 0 <= i < Size(m)
      modifies logOdds, seen
      ensures Value() == Applied(m, old(Value()), i, d)
    {
      logOdds[i] := Clamp(logOdds[i] + d, m.p.lMin, m.p.lMax);
      seen[i] := true;
    }

    method SplatInto(pt: Point, pose: Pose, c: Cell)
      requires Sized() && SlotsOk(m, Value()) && pt.range >= 0.0
      modifies this`touched, frameEv
      ensures Value() == SplatCell(m, pose, pt, origin, old(Value()), c)
    {
      hide SlotsOk, Evidence, IdxOf;
      SlotsSized(m, Value());
      if !Inside(m, origin, c) {
        return;
      }
      var evidence := Evidence(m, pose, pt, c);
      var i := IdxOf(m, c);
      if frameEv[i] == 0.0 {
        touched := touched + [i];
      }
      if evidence > frameEv[i] {
        frameEv[i] := evidence;
      }
    }

    method SplatRow(pt: Point, pose: Pose, x0: int, x1: int, y: int, ghost start: Slots, ghost done: seq<Cell>)
      requires Sized() && SlotsOk(m, start) && SlotsOk(m, Value()) && pt.range >= 0.0 && x0 <= x1 + 1
      requires Value() == SplatCells(m, pose, pt, origin, start, done)
      modifies this`touched, frameEv
      ensures SlotsOk(m, Value())
      ensures Value() == SplatCells(m, pose, pt, origin, start, done + RowCells(x0, x1 + 1, y))
    {
      hide SlotsOk, SplatCell, SplatCells;
      ghost var cells := done;
      var x := x0;
      while x <= x1
        invariant x0 <= x <= x1 + 1 && cells == done + RowCells(x0, x, y)
        invariant SlotsOk(m, Value()) && Value() == SplatCells(m, pose, pt, origin, start, cells)
      {
        SplatInto(pt, pose, Cell(x, y));
        OneMoreSplat(m, pose, pt, origin, start, cells, Cell(x, y));
        cells := cells + [Cell(x, y)];
        x := x + 1;
      }
    }

    /** The splat of one point over the cells around it. */
    method SplatOne(pt: Point, pose: Pose)
      requires Sized() && SlotsOk(m, Value()) && pt.range >= 0.0
      modifies this`touched, frameEv
      ensures Value() == SplatPoint(m, pose, pt, origin, old(Value()))
    {
      hide SlotsOk, SplatCells, SplatCenter, Radius, RowCells;
      var center, radius := SplatCenter(m, pose, pt), Radius(m, pt);
      ghost var start, done := Value(), [];
      NothingSplat(m, pose, pt, origin, start);
      var y := center.y - radius;
      while y <= center.y + radius
        invariant y <= center.y + radius + 1
        invariant done == Rows(center.x - radius, center.x + radius, center.y - radius, y)
        invariant SlotsOk(m, Value()) && Value() == SplatCells(m, pose, pt, origin, start, done)
      {
        SplatRow(pt, pose, center.x - radius, center.x + radius, y, start, done);
        done := done + RowCells(center.x - radius, center.x + radius + 1, y);
        y := y + 1;
      }
    }

    method SplatPass(pts: seq<Point>, pose: Pose)
      requires Sized() && SlotsOk(m, Value()) && PointsOk(pts)
      modifies this`touched, frameEv
      ensures Value() == SplatAll(m, pose, pts, origin, old(Value()))
    {
      hide SlotsOk, SplatPoint;
      ghost var start := Value();
      for k := 0 to |pts|
        invariant Value() == SplatAll(m, pose, pts[..k], origin, start)
      {
        assert pts[..k + 1][..k] == pts[..k];
        SplatOne(pts[k], pose);
      }
      assert pts[..|pts|] == pts;
    }

    method FindBounds(pose: Pose) returns (b: Bounds)
      ensures b == BoundsOf(Corners(m, pose))
    {
      var cs := Corners(m, pose);
      b := Bounds(FAR, -FAR, FAR, -FAR);
      for k := 0 to |cs|
        invariant b == BoundsOf(cs[..k])
      {
        assert cs[..k + 1][..k] == cs[..k];
        var c := cs[k];
        b := Bounds(RMin(b.minX, c.0), RMax(b.maxX, c.0), RMin(b.minY, c.1), RMax(b.maxY, c.1));
      }
      assert cs[..|cs|] == cs;
    }

    method RoiOne(f: Frame, c: Cell)
      requires Sized() && SlotsOk(m, Value())
      modifies logOdds, seen, frameEv
      ensures Value() == RoiCell(m, f, old(Value()), c)
    {
      hide Applied, HitMiss, IdxOf;
      ghost var before := Value();
      var x, y := RobotX(m, f.pose, c), RobotY(m, f.pose, c);
      if x < m.p.roiXMin || x > m.p.roiXMax {
        return;
      }
      if RAbs(y) > HalfWidth(m, x) {
        return;
      }
      var i := IdxOf(m, c);
      var evidence := frameEv[i];
      var miss := DoMiss(m, f);
      if evidence == 0.0 && !miss {
        return;
      }
      ApplyLogOdds(i, HitMiss(m, f, c, evidence));
      frameEv[i] := 0.0;
      assert Value() == Applied(m, before, i, HitMiss(m, f, c, evidence)).(ev := before.ev[i := 0.0]);
    }

    /** The scan of the region of interest. */
    method RoiPass(f: Frame)
      requires Sized() && SlotsOk(m, Value()) && origin == OriginOf(m, f.pose)
      modifies logOdds, seen, frameEv
      ensures Value() == RoiAll(m, f, old(Value()))
    {
      hide SlotsOk, RoiCell, RoiCells, BoundsOf, Corners, GridNumber;
      var b := FindBounds(f.pose);
      var x0, y0 := Max(GridNumber(m, b.minX), origin.x), Max(GridNumber(m, b.minY), origin.y);
      var x1, y1 := Min(GridNumber(m, b.maxX), m.p.w - 1), Min(GridNumber(m, b.maxY), m.p.h - 1);
      ghost var start, done := Value(), [];
      NothingScanned(m, f, start);
      var y := y0;
      while y <= y1
        invariant done == Rows(x0, x1, y0, y) && (y <= y1 + 1 || y == y0)
        invariant SlotsOk(m, Value()) && Value() == RoiCells(m, f, start, done)
      {
        ghost var rows := done;
        var x := x0;
        while x <= x1
          invariant x0 <= x && (x <= x1 + 1 || x == x0)
          invariant done == rows + RowCells(x0, x, y)
          invariant SlotsOk(m, Value()) && Value() == RoiCells(m, f, start, done)
        {
          RoiOne(f, Cell(x, y));
          OneMoreScan(m, f, start, done, Cell(x, y));
          done := done + [Cell(x, y)];
          x := x + 1;
        }
        assert RowCells(x0, x, y) == RowCells(x0, x1 + 1, y);
        y := y + 1;
      }
      assert Rows(x0, x1, y0, y) == Rows(x0, x1, y0, y1 + 1);
    }

    method LeftOne(i: int)
      requires Sized() && SlotsOk(m, Value()) && 0 <= i < Size(m)
      modifies logOdds, seen, frameEv
      ensures Value() == LeftSlot(m, old(Value()), i)
    {
      hide Applied, Hit;
      if frameEv[i] > 0.0 {
        ApplyLogOdds(i, Hit(m, frameEv[i]));
      }
      frameEv[i] := 0.0;
    }

    /** Evidence that the scan did not use counts as a hit. */
    method Leftovers()
      requires Sized() && SlotsOk(m, Value())
      modifies this`touched, logOdds, seen, frameEv
      ensures Value() == LeftAll(m, old(Value()), old(touched)).(touched := [])
    {
      hide LeftSlot, LeftAll;
      ghost var start := Value();
      NothingLeft(m, start);
      for k := 0 to |touched|
        invariant touched == start.touched
        invariant SlotsOk(m, Value()) && Value() == LeftAll(m, start, start.touched[..k])
      {
        OneMoreLeft(m, start, touched, k);
        LeftOne(touched[k]);
      }
      assert touched[..|touched|] == touched;
      touched := [];
    }

    /** The three passes after the window has moved. */
    method ApplyFrame(f: Frame)
      requires Clean() && PointsOk(f.pts) && origin == OriginOf(m, f.pose)
      modifies this`touched, logOdds, seen, frameEv
      ensures Clean() && Value() == FrameSlots(m, f, old(Value()))
    {
      hide SlotsOk, FrameSlots, OriginOf, SplatAll, RoiAll, LeftAll;
      ghost var moved := Value();
      SlotsSized(m, moved);
      SplatPass(f.pts, f.pose);
      RoiPass(f);
      Leftovers();
      FrameIs(m, f, moved);
      FrameLeavesNoEvidence(m, f, moved);
      SlotsSized(m, Value());
    }

    /** One frame: the window moves, and every cell takes its updates. */
    method Insert(f: Frame)
      requires Valid() && PointsOk(f.pts)
      modifies this, logOdds, seen, frameEv
      ensures Valid() && frames == old(frames) + [f]
      ensures FramesOk(frames) && View() == RunAll(m, frames)
    {
      hide SlotsOk, FrameSlots, OriginOf, Updates, UpdatedAll, Moved, IdxOf;
      ghost var a := View();
      Recenter(f.pose);
      ghost var moved := Value();
      SlotsSized(m, moved);
      ApplyFrame(f);
      WindowIs(m, origin);
      FrameUpdatesAll(m, f, moved);
      assert View() == Inserted(m, a, f);
      RunGrows(m, a, frames, f);
      frames := frames + [f];
    }

    // ---- queries ----

    /** What the frames have made of the cell at (x, y). */
    method LogOdds(x: real, y: real) returns (v: real)
      requires Valid()
      ensures v == Held(m, frames, Cell(GridNumber(m, x), GridNumber(m, y))).log
    {
      hide SlotsOk, IdxOf, GridNumber, Held;
      var c := Cell(GridNumber(m, x), GridNumber(m, y));
      ViewHolds(m, View(), frames, c);
      v := if Inside(m, origin, c) then logOdds[IdxOf(m, c)] else 0.0;
    }

    method IsOccupied(x: real, y: real) returns (occupied: bool)
      requires Valid()
      ensures var c := Cell(GridNumber(m, x), GridNumber(m, y));
              occupied <==> Inside(m, origin, c) && Held(m, frames, c).log >= m.p.lOccupied
    {
      hide SlotsOk, IdxOf, GridNumber, Held;
      var c := Cell(GridNumber(m, x), GridNumber(m, y));
      ViewHolds(m, View(), frames, c);
      occupied := Inside(m, origin, c) && logOdds[IdxOf(m, c)] >= m.p.lOccupied;
    }

    /** The number of occupied cells around (x, y), counted row by row. */
    method CountSupport(occupied: array<int>, x: int, y: int) returns (count: int)
      requires Clean() && 0 <= x < m.p.w && 0 <= y < m.p.h && occupied.Length == Size(m)
      requires ShowsOccupied(m, View(), occupied[..])
      ensures count == |Support(m, View(), x, y)|
    {
      hide PMod, SlotsOk, View, Support, Occupied, Flat;
      var r := m.p.speckleRadius;
      ghost var a := View();
      AllInRange(m);
      NoSupport(m, a, x, y);
      count := 0;
      var dy := Max(0, y - r);
      while dy < Min(m.p.h - 1, y + r)
        invariant Max(0, y - r) <= dy && a == View() && ShowsOccupied(m, a, occupied[..])
        invariant count == |SupportBelow(m, a, x, y, dy, Max(0, x - r))|
      {
        var dx := Max(0, x - r);
        while dx < Min(m.p.w - 1, x + r)
          invariant Max(0, x - r) <= dx && a == View() && ShowsOccupied(m, a, occupied[..])
          invariant count == |SupportBelow(m, a, x, y, dy, dx)|
        {
          SupportGrows(m, a, x, y, dy, dx);
          count := count + occupied[Flat(m.p.w, dy, dx)];
          dx := dx + 1;
        }
        RowCounted(m, a, x, y, dy, dx);
        dy := dy + 1;
      }
      AllCounted(m, a, x, y, dy);
    }

    method FillOne(output: array<int>, occupied: array<int>, y: int, x: int)
      requires Clean() && 0 <= x < m.p.w && 0 <= y < m.p.h
      requires output.Length == occupied.Length == Size(m) && output != occupied
      requires Filled(m, Value(), origin, output[..], occupied[..], y, x)
      modifies output, occupied
      ensures Filled(m, Value(), origin, output[..], occupied[..], y, x + 1)
    {
      hide PMod, Flat, SlotsOk, IdxOf;
      OthersDiffer(m, y, x);
      var i := IdxOf(m, Cell(origin.x + x, origin.y + y));
      if seen[i] {
        output[Flat(m.p.w, y, x)] := 0;
        if logOdds[i] >= m.p.lOccupied {
          occupied[Flat(m.p.w, y, x)] := 1;
        }
      }
    }

    /** Unrolls the window: what is known, and what is occupied. */
    method FillKnown(output: array<int>, occupied: array<int>)
      requires Clean() && output.Length == occupied.Length == Size(m) && output != occupied
      modifies output, occupied
      ensures Filled(m, Value(), origin, output[..], occupied[..], m.p.h, 0)
    {
      hide PMod, Flat, SlotsOk, IdxOf, Filled;
      for i := 0 to Size(m)
        invariant forall j | 0 <= j < i :: output[j] == -1 && occupied[j] == 0
      {
        output[i], occupied[i] := -1, 0;
      }
      StartFilled(m, Value(), origin, output[..], occupied[..]);
      for y := 0 to m.p.h
        invariant Clean() && Filled(m, Value(), origin, output[..], occupied[..], y, 0)
      {
        for x := 0 to m.p.w
          invariant Clean() && Filled(m, Value(), origin, output[..], occupied[..], y, x)
        {
          FillOne(output, occupied, y, x);
        }
        RowFilled(m, Value(), origin, output[..], occupied[..], y);
      }
    }

    /** The unrolled window, row by row from the origin, speckles removed, and where it lies. */
    method Snapshot() returns (output: array<int>, window: Geometry)
      requires Valid()
      ensures fresh(output) && output.Length == Size(m)
      ensures window == Geometry(origin.x as real * m.p.resolution, origin.y as real * m.p.resolution,
                                 m.p.resolution, m.p.w, m.p.h)
      ensures MapOk(m, View())
      ensures forall r, c | 0 <= r < m.p.h && 0 <= c < m.p.w ::
                0 <= Flat(m.p.w, r, c) < Size(m) && output[Flat(m.p.w, r, c)] == Shown(m, View(), c, r)
    {
      hide PMod, Flat, SlotsOk, IdxOf, Filled, Support, ShowsOccupied, Rendered;
      output := new int[Size(m)];
      var occupied := new int[Size(m)];
      FillKnown(output, occupied);
      ghost var a := View();
      FilledShows(m, Value(), started, origin, output[..], occupied[..]);
      for y := 0 to m.p.h
        invariant Clean() && a == View() && ShowsOccupied(m, a, occupied[..])
        invariant fresh(output) && Rendered(m, a, output[..], y, 0)
      {
        for x := 0 to m.p.w
          invariant Clean() && a == View() && ShowsOccupied(m, a, occupied[..])
          invariant fresh(output) && Rendered(m, a, output[..], y, x)
        {
          RenderOne(output, occupied, y, x);
        }
        RowRendered(m, a, output[..], y);
      }
      AllRendered(m, a, output[..]);
      window := Geometry(origin.x as real * m.p.resolution, origin.y as real * m.p.resolution,
                         m.p.resolution, m.p.w, m.p.h);
    }

    method RenderOne(output: array<int>, occupied: array<int>, y: int, x: int)
      requires Clean() && 0 <= x < m.p.w && 0 <= y < m.p.h
      requires output.Length == occupied.Length == Size(m) && output != occupied
      requires ShowsOccupied(m, View(), occupied[..]) && Rendered(m, View(), output[..], y, x)
      modifies output
      ensures Rendered(m, View(), output[..], y, x + 1)
    {
      hide PMod, Flat, SlotsOk, IdxOf, Support;
      ghost var a := View();
      OthersDiffer(m, y, x);
      if occupied[Flat(m.p.w, y, x)] == 1 {
        var count := CountSupport(occupied, x, y);
        if count >= m.p.speckleSupport {
          output[Flat(m.p.w, y, x)] := 100;
        }
      }
      assert a == View();
    }
  }

  lemma AllInRange(m: Model)
    ensures forall r, c | 0 <= r < m.p.h && 0 <= c < m.p.w :: 0 <= Flat(m.p.w, r, c) < Size(m)
  {
    forall r, c | 0 <= r < m.p.h && 0 <= c < m.p.w ensures 0 <= Flat(m.p.w, r, c) < Size(m) {
      FlatInRange(m.p.w, m.p.h, r, c);
    }
  }

  lemma OthersDiffer(m: Model, r: int, k: int)
    requires 0 <= r < m.p.h && 0 <= k < m.p.w
    ensures forall r', c | 0 <= r' < m.p.h && 0 <= c < m.p.w && Flat(m.p.w, r', c) == Flat(m.p.w, r, k)
              :: r' == r && c == k
  {
    forall r', c | 0 <= r' < m.p.h && 0 <= c < m.p.w && Flat(m.p.w, r', c) == Flat(m.p.w, r, k)
      ensures r' == r && c == k {
      FlatInjective(m.p.w, r, k, r', c);
    }
  }

  /** After both clearings the cells of the new window hold their old value, or are blank if they entered. */
  lemma OverlapKept(m: Model, a: Cell, b: Cell, before: Slots, after: Slots)
    requires ModelOk(m) && |before.log| == |before.seen| == |after.log| == |after.seen| == Size(m)
    requires -m.p.w < b.x - a.x < m.p.w && -m.p.h < b.y - a.y < m.p.h
    requires forall r, c | 0 <= r < m.p.h && 0 <= c < m.p.w ::
               0 <= Flat(m.p.w, r, c) < Size(m) &&
               At(after, Flat(m.p.w, r, c)) ==
               if HasResidue(Min(a.x, b.x), Max(a.x, b.x), m.p.w, c)
               || HasResidue(Min(a.y, b.y), Max(a.y, b.y), m.p.h, r)
               then BLANK else At(before, Flat(m.p.w, r, c))
    ensures forall c | Inside(m, b, c) ::
              At(after, IdxOf(m, c)) == if Inside(m, a, c) then At(before, IdxOf(m, c)) else BLANK
  {
    hide PMod, Flat, HasResidue, Min, Max;
    forall c | Inside(m, b, c)
      ensures At(after, IdxOf(m, c)) == if Inside(m, a, c) then At(before, IdxOf(m, c)) else BLANK
    {
      ClearedResidues(a.x, b.x, m.p.w, c.x);
      ClearedResidues(a.y, b.y, m.p.h, c.y);
      assert IdxOf(m, c) == Flat(m.p.w, PMod(c.y, m.p.h), PMod(c.x, m.p.w));
    }
  }

  lemma NoResidue(lo: int, n: int)
    requires n > 0
    ensures forall r :: !HasResidue(lo, lo, n, r)
  {
  }

  lemma MoreResidues(lo: int, k: int, n: int)
    requires n > 0 && lo <= k
    ensures forall r :: HasResidue(lo, k + 1, n, r) <==> HasResidue(lo, k, n, r) || r == PMod(k, n)
  {
    hide PMod, HasResidue;
    forall r ensures HasResidue(lo, k + 1, n, r) <==> HasResidue(lo, k, n, r) || r == PMod(k, n) {
      OneMoreResidue(lo, k, n, r);
    }
  }

  lemma OneMoreResidue(lo: int, k: int, n: int, r: int)
    requires n > 0 && lo <= k
    ensures HasResidue(lo, k + 1, n, r) <==> HasResidue(lo, k, n, r) || r == PMod(k, n)
  {
    hide PMod;
    if HasResidue(lo, k, n, r) {
      var j :| lo <= j < k && PMod(j, n) == r;
      assert lo <= j < k + 1;
    }
    if r == PMod(k, n) {
      assert lo <= k < k + 1;
    }
  }

  lemma FrameUpdatesAll(m: Model, f: Frame, s: Slots)
    requires ModelOk(m) && PointsOk(f.pts) && SlotsOk(m, s)
    requires forall i | 0 <= i < Size(m) :: s.ev[i] == 0.0
    ensures SlotsOk(m, FrameSlots(m, f, s))
    ensures forall c | Inside(m, OriginOf(m, f.pose), c) ::
              At(FrameSlots(m, f, s), IdxOf(m, c)) == UpdatedAll(m, At(s, IdxOf(m, c)), Updates(m, f, c))
  {
    hide FrameSlots, OriginOf, Updates, UpdatedAll, IdxOf;
    FrameLeavesNoEvidence(m, f, s);
    forall c | Inside(m, OriginOf(m, f.pose), c)
      ensures At(FrameSlots(m, f, s), IdxOf(m, c)) == UpdatedAll(m, At(s, IdxOf(m, c)), Updates(m, f, c))
    {
      FrameUpdatesCell(m, f, s, c);
    }
  }

  /** Whatever the origin was, the frames so far and one more make the map after it. */
  lemma RunGrows(m: Model, a: Map, fs: seq<Frame>, f: Frame)
    requires ModelOk(m) && FramesOk(fs) && PointsOk(f.pts) && (a.started <==> fs != [])
    requires fs != [] ==> a == RunAll(m, fs)
    ensures FramesOk(fs + [f]) && Inserted(m, a, f) == RunAll(m, fs + [f])
  {
    hide Inserted;
    assert (fs + [f])[..|fs|] == fs;
    if fs == [] {
      FirstFrameStartsBlank(m, a, f);
      assert fs + [f] == [f];
    }
  }

  /** The map of a run shows what the run holds, and nothing outside the window. */
  lemma ViewHolds(m: Model, a: Map, fs: seq<Frame>, c: Cell)
    requires ModelOk(m) && FramesOk(fs)
    requires a == if fs == [] then Start(m, a.origin) else RunAll(m, fs)
    ensures MapOk(m, a) && if Inside(m, a.origin, c) then a.cells[c] == Held(m, fs, c) else Held(m, fs, c) == BLANK
  {
    hide RunAll, Folded, EntryOf;
    WindowIs(m, a.origin);
    if fs != [] {
      RunWindow(m, fs);
      if Inside(m, a.origin, c) {
        RunHolds(m, fs, c);
      }
    }
  }

  lemma BlankSlots(m: Model, s: Slots)
    requires |s.log| == |s.seen| == |s.ev| == Size(m) && s.touched == []
    requires forall i | 0 <= i < Size(m) :: s.ev[i] == 0.0
    ensures SlotsOk(m, s)
  {
  }

  lemma BlankView(m: Model, s: Slots, o: Cell)
    requires ModelOk(m) && |s.log| == |s.seen| == Size(m)
    requires forall i | 0 <= i < Size(m) :: s.log[i] == 0.0 && !s.seen[i]
    ensures Map(false, o, map c | c in Window(m, o) :: At(s, IdxOf(m, c))) == Start(m, o)
  {
    hide IdxOf;
  }

  lemma BlankIsOk(m: Model, before: Slots, after: Slots)
    requires SlotsOk(m, before) && after.ev == before.ev && after.touched == before.touched
    requires |after.log| == |after.seen| == Size(m)
    ensures SlotsOk(m, after)
  {
  }

  lemma FrameIs(m: Model, f: Frame, s: Slots)
    requires ModelOk(m) && PointsOk(f.pts) && SlotsOk(m, s)
    ensures var t := RoiAll(m, f, SplatAll(m, f.pose, f.pts, OriginOf(m, f.pose), s));
            FrameSlots(m, f, s) == LeftAll(m, t, t.touched).(touched := [])
  {
    hide RoiAll, SplatAll, LeftAll, SlotsOk;
  }

  lemma NothingSplat(m: Model, pose: Pose, pt: Point, o: Cell, s: Slots)
    requires ModelOk(m) && pt.range >= 0.0 && SlotsOk(m, s)
    ensures SplatCells(m, pose, pt, o, s, []) == s
  {
  }

  /** The entries before row y, column x are filled; the others are unknown and free. */
  ghost predicate Filled(m: Model, s: Slots, o: Cell, output: seq<int>, occupied: seq<int>, y: int, x: int)
    requires ModelOk(m) && SlotsOk(m, s) && |output| == |occupied| == Size(m)
  {
    forall r, c | 0 <= r < m.p.h && 0 <= c < m.p.w ::
      var k := Flat(m.p.w, r, c);
      var v := At(s, IdxOf(m, Cell(o.x + c, o.y + r)));
      var done := r < y || (r == y && c < x);
      && 0 <= k < Size(m)
      && output[k] == (if done && v.seen then 0 else -1)
      && occupied[k] == (if done && Occupied(m, v) then 1 else 0)
  }

  lemma StartFilled(m: Model, s: Slots, o: Cell, output: seq<int>, occupied: seq<int>)
    requires ModelOk(m) && SlotsOk(m, s) && |output| == |occupied| == Size(m)
    requires forall j | 0 <= j < Size(m) :: output[j] == -1 && occupied[j] == 0
    ensures Filled(m, s, o, output, occupied, 0, 0)
  {
    hide Flat, SlotsOk, IdxOf, Occupied;
    AllInRange(m);
  }

  lemma RowFilled(m: Model, s: Slots, o: Cell, output: seq<int>, occupied: seq<int>, y: int)
    requires ModelOk(m) && SlotsOk(m, s) && |output| == |occupied| == Size(m)
    requires Filled(m, s, o, output, occupied, y, m.p.w)
    ensures Filled(m, s, o, output, occupied, y + 1, 0)
  {
    hide Flat, SlotsOk, IdxOf, Occupied;
  }

  /** The entries that are 1 are those of the occupied cells, row by row from the origin. */
  ghost predicate ShowsOccupied(m: Model, a: Map, occupied: seq<int>) {
    && MapOk(m, a)
    && forall r, c | 0 <= r < m.p.h && 0 <= c < m.p.w ::
         0 <= Flat(m.p.w, r, c) < |occupied|
         && occupied[Flat(m.p.w, r, c)] ==
            if Occupied(m, a.cells[Cell(a.origin.x + c, a.origin.y + r)]) then 1 else 0
  }

  lemma FilledShows(m: Model, s: Slots, started: bool, o: Cell, output: seq<int>, occupied: seq<int>)
    requires ModelOk(m) && SlotsOk(m, s) && |output| == |occupied| == Size(m)
    requires Filled(m, s, o, output, occupied, m.p.h, 0)
    ensures var a := Map(started, o, map c | c in Window(m, o) :: At(s, IdxOf(m, c)));
            ShowsOccupied(m, a, occupied) && Rendered(m, a, output, 0, 0)
  {
    hide Flat, SlotsOk, IdxOf, Occupied;
    WindowIs(m, o);
  }

  /** The entries before row y, column x are final; the others are 0 where known. */
  ghost predicate Rendered(m: Model, a: Map, output: seq<int>, y: int, x: int) {
    && MapOk(m, a)
    && forall r, c | 0 <= r < m.p.h && 0 <= c < m.p.w ::
         0 <= Flat(m.p.w, r, c) < |output|
         && output[Flat(m.p.w, r, c)] ==
            if r < y || (r == y && c < x) then Shown(m, a, c, r)
            else if a.cells[Cell(a.origin.x + c, a.origin.y + r)].seen then 0 else -1
  }

  lemma RowRendered(m: Model, a: Map, output: seq<int>, y: int)
    requires Rendered(m, a, output, y, m.p.w)
    ensures Rendered(m, a, output, y + 1, 0)
  {
    hide Flat, Occupied, Shown;
  }

  lemma AllRendered(m: Model, a: Map, output: seq<int>)
    requires Rendered(m, a, output, m.p.h, 0)
    ensures MapOk(m, a) && forall r, c | 0 <= r < m.p.h && 0 <= c < m.p.w ::
              0 <= Flat(m.p.w, r, c) < |output| && output[Flat(m.p.w, r, c)] == Shown(m, a, c, r)
  {
    hide Flat, Occupied, Shown;
  }

  /** The supporting cells of the rows below dy, and of row dy left of dx. */
  ghost function SupportBelow(m: Model, a: Map, x: int, y: int, dy: int, dx: int): set<Cell> {
    set c | c in Support(m, a, x, y)
            && (c.y - a.origin.y < dy || (c.y - a.origin.y == dy && c.x - a.origin.x < dx))
  }

  lemma NoSupport(m: Model, a: Map, x: int, y: int)
    ensures SupportBelow(m, a, x, y, Max(0, y - m.p.speckleRadius), Max(0, x - m.p.speckleRadius)) == {}
  {
  }

  lemma SupportGrows(m: Model, a: Map, x: int, y: int, dy: int, dx: int)
    requires MapOk(m, a)
    requires Max(0, y - m.p.speckleRadius) <= dy < Min(m.p.h - 1, y + m.p.speckleRadius)
    requires Max(0, x - m.p.speckleRadius) <= dx < Min(m.p.w - 1, x + m.p.speckleRadius)
    ensures var c := Cell(a.origin.x + dx, a.origin.y + dy);
            |SupportBelow(m, a, x, y, dy, dx + 1)| ==
            |SupportBelow(m, a, x, y, dy, dx)| + if Occupied(m, a.cells[c]) then 1 else 0
  {
    hide Occupied;
    var c := Cell(a.origin.x + dx, a.origin.y + dy);
    var s := SupportBelow(m, a, x, y, dy, dx);
    assert SupportBelow(m, a, x, y, dy, dx + 1) == if Occupied(m, a.cells[c]) then s + {c} else s;
  }

  lemma RowCounted(m: Model, a: Map, x: int, y: int, dy: int, dx: int)
    requires dx >= Min(m.p.w - 1, x + m.p.speckleRadius)
    ensures SupportBelow(m, a, x, y, dy, dx) == SupportBelow(m, a, x, y, dy + 1, Max(0, x - m.p.speckleRadius))
  {
    hide Occupied;
  }

  lemma AllCounted(m: Model, a: Map, x: int, y: int, dy: int)
    requires dy >= Min(m.p.h - 1, y + m.p.speckleRadius)
    ensures SupportBelow(m, a, x, y, dy, Max(0, x - m.p.speckleRadius)) == Support(m, a, x, y)
  {
    hide Occupied;
  }

  lemma OneMoreSplat(m: Model, pose: Pose, pt: Point, o: Cell, s: Slots, cells: seq<Cell>, c: Cell)
    requires ModelOk(m) && pt.range >= 0.0 && SlotsOk(m, s)
    ensures SplatCells(m, pose, pt, o, s, cells + [c]) ==
            SplatCell(m, pose, pt, o, SplatCells(m, pose, pt, o, s, cells), c)
  {
    hide SplatCell, SlotsOk;
    assert (cells + [c])[..|cells|] == cells;
  }

  lemma NothingScanned(m: Model, f: Frame, s: Slots)
    requires ModelOk(m) && SlotsOk(m, s)
    ensures RoiCells(m, f, s, []) == s
  {
  }

  lemma OneMoreScan(m: Model, f: Frame, s: Slots, cells: seq<Cell>, c: Cell)
    requires ModelOk(m) && SlotsOk(m, s)
    ensures RoiCells(m, f, s, cells + [c]) == RoiCell(m, f, RoiCells(m, f, s, cells), c)
  {
    hide RoiCell, SlotsOk;
    assert (cells + [c])[..|cells|] == cells;
  }

  lemma NothingLeft(m: Model, s: Slots)
    requires ModelOk(m) && SlotsOk(m, s)
    ensures LeftAll(m, s, []) == s
  {
  }

  lemma OneMoreLeft(m: Model, s: Slots, idx: seq<int>, k: int)
    requires ModelOk(m) && SlotsOk(m, s) && 0 <= k < |idx| && forall j | 0 <= j < |idx| :: 0 <= idx[j] < Size(m)
    ensures LeftAll(m, s, idx[..k + 1]) == LeftSlot(m, LeftAll(m, s, idx[..k]), idx[k])
  {
    hide LeftSlot, SlotsOk;
    assert idx[..k + 1][..k] == idx[..k];
  }
}
