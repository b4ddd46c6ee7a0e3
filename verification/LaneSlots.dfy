/** The three passes of one frame over the slots of the rolling window, and what they do to its cells. */
module LaneSlots {
  import opened Arithmetic
  import opened Options
  import opened RingWindow
  import opened LaneMap
  import opened LaneScan

  datatype Slots = Slots(log: seq<real>, seen: seq<bool>, ev: seq<real>, touched: seq<int>)

  /** No evidence is negative, and every slot with evidence is touched. */
  ghost predicate SlotsOk(m: Model, s: Slots) {
    && |s.log| == |s.seen| == |s.ev| == Size(m)
    && (forall k | 0 <= k < |s.touched| :: 0 <= s.touched[k] < Size(m))
    && (forall i | 0 <= i < |s.ev| :: s.ev[i] >= 0.0 && (s.ev[i] > 0.0 ==> i in s.touched))
  }

  function At(s: Slots, i: int): Val
    requires 0 <= i < |s.log| == |s.seen|
  {
    Val(s.log[i], s.seen[i])
  }

  function Applied(m: Model, s: Slots, i: int, d: real): (r: Slots)
    requires 0 <= i < |s.log| == |s.seen|
    ensures |r.log| == |s.log| && |r.seen| == |s.seen| && r.ev == s.ev && r.touched == s.touched
    ensures At(r, i) == Updated(m, At(s, i), Some(d))
    ensures forall j | 0 <= j < |s.log| && j != i :: At(r, j) == At(s, j)
  {
    s.(log := s.log[i := Clamp(s.log[i] + d, m.p.lMin, m.p.lMax)], seen := s.seen[i := true])
  }

  // ---- the splat pass ----

  function SplatCell(m: Model, pose: Pose, pt: Point, o: Cell, s: Slots, c: Cell): (r: Slots)
    requires ModelOk(m) && pt.range >= 0.0 && SlotsOk(m, s)
    ensures SlotsOk(m, r) && r.log == s.log && r.seen == s.seen
  {
    if !Inside(m, o, c) then s
    else
      var i, e := IdxOf(m, c), Evidence(m, pose, pt, c);
      s.(touched := if s.ev[i] == 0.0 then s.touched + [i] else s.touched,
         ev := if e > s.ev[i] then s.ev[i := e] else s.ev)
  }

  function SplatCells(m: Model, pose: Pose, pt: Point, o: Cell, s: Slots, cells: seq<Cell>): (r: Slots)
    requires ModelOk(m) && pt.range >= 0.0 && SlotsOk(m, s)
    ensures SlotsOk(m, r) && r.log == s.log && r.seen == s.seen
  {
    if cells == [] then s
    else SplatCell(m, pose, pt, o, SplatCells(m, pose, pt, o, s, cells[..|cells| - 1]), cells[|cells| - 1])
  }

  function SplatPoint(m: Model, pose: Pose, pt: Point, o: Cell, s: Slots): (r: Slots)
    requires ModelOk(m) && pt.range >= 0.0 && SlotsOk(m, s)
    ensures SlotsOk(m, r) && r.log == s.log && r.seen == s.seen
  {
    var c, r := SplatCenter(m, pose, pt), Radius(m, pt);
    SplatCells(m, pose, pt, o, s, Rows(c.x - r, c.x + r, c.y - r, c.y + r + 1))
  }

  function SplatAll(m: Model, pose: Pose, pts: seq<Point>, o: Cell, s: Slots): (r: Slots)
    requires ModelOk(m) && PointsOk(pts) && SlotsOk(m, s)
    ensures SlotsOk(m, r) && r.log == s.log && r.seen == s.seen
  {
    if pts == [] then s
    else SplatPoint(m, pose, pts[|pts| - 1], o, SplatAll(m, pose, pts[..|pts| - 1], o, s))
  }

  lemma SplatCellAt(m: Model, pose: Pose, pt: Point, o: Cell, s: Slots, d: Cell, c: Cell)
    requires ModelOk(m) && pt.range >= 0.0 && SlotsOk(m, s) && Inside(m, o, c)
    ensures SplatCell(m, pose, pt, o, s, d).ev[IdxOf(m, c)]
         == if c == d then RMax(s.ev[IdxOf(m, c)], Evidence(m, pose, pt, c)) else s.ev[IdxOf(m, c)]
  {
    hide Evidence, SlotsOk;
    assert |s.ev| == Size(m) by {
      SlotsSized(m, s);
    }
    if Inside(m, o, d) {
      IdxInjective(m.p.w, m.p.h, o, c, d);
    }
  }

  lemma SlotsSized(m: Model, s: Slots)
    requires SlotsOk(m, s)
    ensures |s.log| == |s.seen| == |s.ev| == Size(m)
  {
  }

  lemma {:induction false} SplatCellsAt(m: Model, pose: Pose, pt: Point, o: Cell, s: Slots, cells: seq<Cell>, c: Cell)
    requires ModelOk(m) && pt.range >= 0.0 && SlotsOk(m, s) && Inside(m, o, c)
    ensures SplatCells(m, pose, pt, o, s, cells).ev[IdxOf(m, c)]
         == if c in cells then RMax(s.ev[IdxOf(m, c)], Evidence(m, pose, pt, c)) else s.ev[IdxOf(m, c)]
  {
    hide Evidence, SplatCell, IdxOf, SlotsOk;
    SlotsSized(m, s);
    SlotsSized(m, SplatCells(m, pose, pt, o, s, cells));
    if cells != [] {
      var n := |cells| - 1;
      SplatCellsAt(m, pose, pt, o, s, cells[..n], c);
      SplatCellAt(m, pose, pt, o, SplatCells(m, pose, pt, o, s, cells[..n]), cells[n], c);
      assert cells == cells[..n] + [cells[n]];
    }
  }

  lemma SplatPointAt(m: Model, pose: Pose, pt: Point, o: Cell, s: Slots, c: Cell)
    requires ModelOk(m) && pt.range >= 0.0 && SlotsOk(m, s) && Inside(m, o, c)
    ensures SplatPoint(m, pose, pt, o, s).ev[IdxOf(m, c)] == RMax(s.ev[IdxOf(m, c)], PointEvidence(m, pose, pt, c))
  {
    hide Evidence, SplatCells, IdxOf, Rows, SplatCenter, Radius;
    var d, r := SplatCenter(m, pose, pt), Radius(m, pt);
    var cells := Rows(d.x - r, d.x + r, d.y - r, d.y + r + 1);
    RowsHave(d.x - r, d.x + r, d.y - r, d.y + r + 1);
    SplatCellsAt(m, pose, pt, o, s, cells, c);
  }

  /** After the splat pass the slots of the window hold the evidence of the frame. */
  lemma {:induction false} SplatAllAt(m: Model, pose: Pose, pts: seq<Point>, o: Cell, s: Slots, c: Cell)
    requires ModelOk(m) && PointsOk(pts) && SlotsOk(m, s) && Inside(m, o, c) && s.ev[IdxOf(m, c)] == 0.0
    ensures SplatAll(m, pose, pts, o, s).ev[IdxOf(m, c)] == FrameEvidence(m, pose, pts, c)
  {
    hide SplatPoint, IdxOf, PointEvidence, SlotsOk;
    SlotsSized(m, SplatAll(m, pose, pts, o, s));
    if pts != [] {
      var n := |pts| - 1;
      SplatAllAt(m, pose, pts[..n], o, s, c);
      SplatPointAt(m, pose, pts[n], o, SplatAll(m, pose, pts[..n], o, s), c);
    }
  }

  // ---- the pass over the region of interest ----

  function RoiCell(m: Model, f: Frame, s: Slots, c: Cell): (r: Slots)
    requires ModelOk(m) && SlotsOk(m, s)
    ensures SlotsOk(m, r) && r.touched == s.touched
  {
    var i := IdxOf(m, c);
    if !InRoi(m, f.pose, c) || (s.ev[i] == 0.0 && !DoMiss(m, f)) then s
    else Applied(m, s, i, HitMiss(m, f, c, s.ev[i])).(ev := s.ev[i := 0.0])
  }

  function RoiCells(m: Model, f: Frame, s: Slots, cells: seq<Cell>): (r: Slots)
    requires ModelOk(m) && SlotsOk(m, s)
    ensures SlotsOk(m, r) && r.touched == s.touched
  {
    if cells == [] then s else RoiCell(m, f, RoiCells(m, f, s, cells[..|cells| - 1]), cells[|cells| - 1])
  }

  function RoiAll(m: Model, f: Frame, s: Slots): (r: Slots)
    requires ModelOk(m) && SlotsOk(m, s)
    ensures SlotsOk(m, r) && r.touched == s.touched
  {
    RoiCells(m, f, s, ScanList(m, f.pose))
  }

  lemma SlotSharedIff(m: Model, c: Cell, d: Cell)
    requires ModelOk(m)
    ensures IdxOf(m, c) == IdxOf(m, d) <==> Congruent(m.p.w, m.p.h, c, d)
  {
    hide PMod, Flat;
    SameSlot(m.p.w, m.p.h, c, d);
  }

  /** The slot of c after the scan of cells of which `ds` share it, as many as `us` updates. */
  ghost predicate ScannedSlot(m: Model, s: Slots, r: Slots, c: Cell, ds: seq<Cell>, us: seq<real>)
    requires ModelOk(m) && SlotsOk(m, s) && SlotsOk(m, r)
  {
    var i := IdxOf(m, c);
    r.ev[i] == (if ds == [] then s.ev[i] else 0.0) && At(r, i) == UpdatedAll(m, At(s, i), us)
  }

  lemma RoiCellElsewhere(m: Model, f: Frame, s: Slots, d: Cell, c: Cell)
    requires ModelOk(m) && SlotsOk(m, s) && !SharesSlot(m, f.pose, c, d)
    ensures var r, i := RoiCell(m, f, s, d), IdxOf(m, c); r.ev[i] == s.ev[i] && At(r, i) == At(s, i)
  {
    hide HitMiss, InRoi, Updated, IdxOf, Congruent, Applied;
    SlotSharedIff(m, c, d);
  }

  lemma RoiCellShared(m: Model, f: Frame, s: Slots, d: Cell, c: Cell)
    requires ModelOk(m) && SlotsOk(m, s) && SharesSlot(m, f.pose, c, d)
    ensures var r, i := RoiCell(m, f, s, d), IdxOf(m, c);
            && r.ev[i] == 0.0
            && At(r, i) == if s.ev[i] == 0.0 && !DoMiss(m, f) then At(s, i)
                           else Updated(m, At(s, i), Some(HitMiss(m, f, d, s.ev[i])))
  {
    hide HitMiss, InRoi, Updated, IdxOf, Congruent, Applied, DoMiss;
    SlotSharedIff(m, c, d);
  }

  /** One more sharer: it takes the evidence if it is the first, and finds none otherwise. */
  lemma OneMoreSharer(m: Model, f: Frame, ds: seq<Cell>, d: Cell, e: real)
    requires ModelOk(m) && e >= 0.0
    ensures var left := if ds == [] then e else 0.0;
            ScanUpdates(m, f, ds + [d], e)
            == ScanUpdates(m, f, ds, e) + if left == 0.0 && !DoMiss(m, f) then [] else [HitMiss(m, f, d, left)]
  {
    hide DoMiss, HitMiss;
    if ds != [] {
      assert (ds + [d])[0] == ds[0];
    }
  }

  lemma UpdatedOnce(m: Model, v: Val, us: seq<real>, u: real)
    ensures UpdatedAll(m, v, us + [u]) == Updated(m, UpdatedAll(m, v, us), Some(u))
  {
    hide Updated;
    assert (us + [u])[..|us|] == us;
  }

  /** The scan of any cells updates the slot of c by those that share it, in their order. */
  lemma {:induction false} RoiCellsAt(m: Model, f: Frame, s: Slots, cells: seq<Cell>, c: Cell)
    requires ModelOk(m) && SlotsOk(m, s)
    ensures var ds := Sharers(m, f.pose, cells, c);
            ScannedSlot(m, s, RoiCells(m, f, s, cells), c, ds, ScanUpdates(m, f, ds, s.ev[IdxOf(m, c)]))
  {
    hide RoiCell, IdxOf, ScanUpdates, HitMiss, SharesSlot, Updated, DoMiss, SlotsOk;
    SlotsSized(m, s);
    SlotsSized(m, RoiCells(m, f, s, cells));
    var i := IdxOf(m, c);
    EvNonNegative(m, s, i);
    if cells == [] {
      NoSharers(m, f, s.ev[i], At(s, i));
    } else {
      var n := |cells| - 1;
      var t, d, ds := RoiCells(m, f, s, cells[..n]), cells[n], Sharers(m, f.pose, cells[..n], c);
      RoiCellsAt(m, f, s, cells[..n], c);
      SlotsSized(m, t);
      var us := ScanUpdates(m, f, ds, s.ev[i]);
      if SharesSlot(m, f.pose, c, d) {
        RoiCellShared(m, f, t, d, c);
        OneMoreSharer(m, f, ds, d, s.ev[i]);
        if t.ev[i] == 0.0 && !DoMiss(m, f) {
          assert us + [] == us;
        } else {
          UpdatedOnce(m, At(s, i), us, HitMiss(m, f, d, t.ev[i]));
        }
      } else {
        RoiCellElsewhere(m, f, t, d, c);
        assert ds + [] == ds;
      }
    }
  }

  lemma EvNonNegative(m: Model, s: Slots, i: int)
    requires SlotsOk(m, s) && 0 <= i < Size(m)
    ensures |s.ev| == Size(m) && s.ev[i] >= 0.0
  {
  }

  lemma NoSharers(m: Model, f: Frame, e: real, v: Val)
    requires ModelOk(m)
    ensures ScanUpdates(m, f, [], e) == [] && UpdatedAll(m, v, []) == v
  {
  }

  // ---- the leftovers ----

  function LeftSlot(m: Model, s: Slots, i: int): (r: Slots)
    requires ModelOk(m) && SlotsOk(m, s) && 0 <= i < Size(m)
    ensures SlotsOk(m, r) && r.touched == s.touched
  {
    var t := if s.ev[i] > 0.0 then Applied(m, s, i, Hit(m, s.ev[i])) else s;
    t.(ev := s.ev[i := 0.0])
  }

  function LeftAll(m: Model, s: Slots, idx: seq<int>): (r: Slots)
    requires ModelOk(m) && SlotsOk(m, s) && forall k | 0 <= k < |idx| :: 0 <= idx[k] < Size(m)
    ensures SlotsOk(m, r) && r.touched == s.touched
  {
    if idx == [] then s else LeftSlot(m, LeftAll(m, s, idx[..|idx| - 1]), idx[|idx| - 1])
  }

  /** What the last pass does to slot i: the evidence that is left is a hit, once, however often it is listed. */
  lemma {:induction false} LeftAllAt(m: Model, s: Slots, idx: seq<int>, i: int)
    requires ModelOk(m) && SlotsOk(m, s) && 0 <= i < Size(m)
    requires forall k | 0 <= k < |idx| :: 0 <= idx[k] < Size(m)
    ensures var r := LeftAll(m, s, idx);
            && r.ev[i] == (if i in idx then 0.0 else s.ev[i])
            && At(r, i) == Updated(m, At(s, i), if i in idx && s.ev[i] > 0.0 then Some(Hit(m, s.ev[i])) else None)
  {
    hide Hit;
    if idx != [] {
      var n := |idx| - 1;
      LeftAllAt(m, s, idx[..n], i);
      assert idx == idx[..n] + [idx[n]];
    }
  }

  // ---- one frame ----

  /** Everything one frame does after the window has moved. */
  function FrameSlots(m: Model, f: Frame, s: Slots): (r: Slots)
    requires ModelOk(m) && PointsOk(f.pts) && SlotsOk(m, s)
  {
    var t := RoiAll(m, f, SplatAll(m, f.pose, f.pts, OriginOf(m, f.pose), s));
    LeftAll(m, t, t.touched).(touched := [])
  }

  /** Every frame leaves no evidence behind, wherever it scanned. */
  lemma FrameLeavesNoEvidence(m: Model, f: Frame, s: Slots)
    requires ModelOk(m) && PointsOk(f.pts) && SlotsOk(m, s)
    ensures SlotsOk(m, FrameSlots(m, f, s)) && FrameSlots(m, f, s).touched == []
    ensures forall i | 0 <= i < Size(m) :: FrameSlots(m, f, s).ev[i] == 0.0
  {
    hide RoiAll, SplatAll, LeftAll, Updated;
    var t := RoiAll(m, f, SplatAll(m, f.pose, f.pts, OriginOf(m, f.pose), s));
    forall i | 0 <= i < Size(m) ensures LeftAll(m, t, t.touched).ev[i] == 0.0 {
      LeftAllAt(m, t, t.touched, i);
    }
  }

  /** Wherever it scans, one frame gives every cell of the window exactly its updates, in order. */
  lemma FrameUpdatesCell(m: Model, f: Frame, s: Slots, c: Cell)
    requires ModelOk(m) && PointsOk(f.pts) && SlotsOk(m, s) && Inside(m, OriginOf(m, f.pose), c)
    requires s.ev[IdxOf(m, c)] == 0.0
    ensures SlotsOk(m, FrameSlots(m, f, s))
    ensures At(FrameSlots(m, f, s), IdxOf(m, c)) == UpdatedAll(m, At(s, IdxOf(m, c)), Updates(m, f, c))
  {
    hide RoiCells, SplatAll, LeftAll, IdxOf, OriginOf, Hit, ScanUpdates, FrameEvidence,
         Updated, Sharers, ScanList, SlotsOk;
    FrameLeavesNoEvidence(m, f, s);
    var i := IdxOf(m, c);
    var a := SplatAll(m, f.pose, f.pts, OriginOf(m, f.pose), s);
    SplatAllAt(m, f.pose, f.pts, OriginOf(m, f.pose), s, c);
    var t := RoiAll(m, f, a);
    var ds, e := Sharers(m, f.pose, ScanList(m, f.pose), c), FrameEvidence(m, f.pose, f.pts, c);
    RoiCellsAt(m, f, a, ScanList(m, f.pose), c);
    SlotsSized(m, s);
    NoSharers(m, f, e, At(s, i));
    LeftGivesHit(m, s, a, t, i, e, ds, ScanUpdates(m, f, ds, e));
  }

  lemma LeftGivesHit(m: Model, s: Slots, a: Slots, t: Slots, i: int, e: real, ds: seq<Cell>, us: seq<real>)
    requires ModelOk(m) && SlotsOk(m, s) && SlotsOk(m, a) && SlotsOk(m, t) && 0 <= i < Size(m) && e >= 0.0
    requires a.log == s.log && a.seen == s.seen && a.ev[i] == e
    requires t.ev[i] == (if ds == [] then e else 0.0) && At(t, i) == UpdatedAll(m, At(a, i), us)
    requires ds == [] ==> us == []
    ensures At(LeftAll(m, t, t.touched), i)
         == UpdatedAll(m, At(s, i), if ds == [] && e > 0.0 then [Hit(m, e)] else us)
  {
    hide LeftAll, Hit, Updated;
    LeftAllAt(m, t, t.touched, i);
    if ds == [] && e > 0.0 {
      UpdatedOnce(m, At(s, i), [], Hit(m, e));
      assert [] + [Hit(m, e)] == [Hit(m, e)];
    }
    assert Updated(m, At(t, i), None) == At(t, i) by {
      NoUpdate(m, At(t, i));
    }
  }

  lemma NoUpdate(m: Model, v: Val)
    ensures Updated(m, v, None) == v
  {
  }

  // ---- the order of the points ----

  lemma SplatPermutes(m: Model, pose: Pose, a: seq<Point>, b: seq<Point>, o: Cell, s: Slots)
    requires ModelOk(m) && PointsOk(a) && PointsOk(b) && multiset(a) == multiset(b) && SlotsOk(m, s)
    requires forall i | 0 <= i < Size(m) :: s.ev[i] == 0.0
    ensures SplatAll(m, pose, a, o, s).ev == SplatAll(m, pose, b, o, s).ev
  {
    hide SplatAll, FrameEvidence, CellAt, Idx;
    forall i | 0 <= i < Size(m) ensures SplatAll(m, pose, a, o, s).ev[i] == SplatAll(m, pose, b, o, s).ev[i] {
      var c := CellAt(m.p.w, m.p.h, o, i);
      IdxOnto(m.p.w, m.p.h, o, i);
      SplatAllAt(m, pose, a, o, s, c);
      SplatAllAt(m, pose, b, o, s, c);
      EvidenceAtMost(m, pose, a, b, c);
      EvidenceAtMost(m, pose, b, a, c);
    }
  }

  lemma {:induction false} RoiIgnoresTouched(m: Model, f: Frame, s: Slots, touched: seq<int>, cells: seq<Cell>)
    requires ModelOk(m) && SlotsOk(m, s) && SlotsOk(m, s.(touched := touched))
    ensures RoiCells(m, f, s.(touched := touched), cells) == RoiCells(m, f, s, cells).(touched := touched)
  {
    hide HitMiss, InRoi, IdxOf, Clamp, SlotsOk;
    if cells != [] {
      RoiIgnoresTouched(m, f, s, touched, cells[..|cells| - 1]);
    }
  }

  lemma RoiCellSamePose(m: Model, f: Frame, g: Frame, s: Slots, c: Cell)
    requires ModelOk(m) && SlotsOk(m, s) && f.pose == g.pose && DoMiss(m, f) == DoMiss(m, g)
    ensures RoiCell(m, f, s, c) == RoiCell(m, g, s, c)
  {
    hide InRoi, IdxOf, Clamp;
    assert HitMiss(m, f, c, s.ev[IdxOf(m, c)]) == HitMiss(m, g, c, s.ev[IdxOf(m, c)]);
  }

  lemma {:induction false} RoiSamePose(m: Model, f: Frame, g: Frame, s: Slots, cells: seq<Cell>)
    requires ModelOk(m) && SlotsOk(m, s) && f.pose == g.pose && DoMiss(m, f) == DoMiss(m, g)
    ensures RoiCells(m, f, s, cells) == RoiCells(m, g, s, cells)
  {
    hide RoiCell, SlotsOk;
    if cells != [] {
      RoiSamePose(m, f, g, s, cells[..|cells| - 1]);
      RoiCellSamePose(m, f, g, RoiCells(m, f, s, cells[..|cells| - 1]), cells[|cells| - 1]);
    }
  }

  lemma LeftSlotSame(m: Model, s: Slots, touched: seq<int>, i: int)
    requires ModelOk(m) && SlotsOk(m, s) && SlotsOk(m, s.(touched := touched)) && 0 <= i < Size(m)
    ensures var a, b := LeftAll(m, s, s.touched), LeftAll(m, s.(touched := touched), touched);
            a.ev[i] == b.ev[i] && a.log[i] == b.log[i] && a.seen[i] == b.seen[i]
  {
    hide Updated, LeftAll, Hit;
    var t := s.(touched := touched);
    LeftAllAt(m, s, s.touched, i);
    LeftAllAt(m, t, touched, i);
    assert At(LeftAll(m, s, s.touched), i) == At(LeftAll(m, t, touched), i);
  }

  lemma LeftIgnoresOrder(m: Model, s: Slots, touched: seq<int>)
    requires ModelOk(m) && SlotsOk(m, s) && SlotsOk(m, s.(touched := touched))
    ensures LeftAll(m, s, s.touched).(touched := [])
         == LeftAll(m, s.(touched := touched), touched).(touched := [])
  {
    hide LeftAll, SlotsOk;
    var t := s.(touched := touched);
    TouchedInRange(m, s);
    TouchedInRange(m, t);
    var a, b := LeftAll(m, s, s.touched), LeftAll(m, t, touched);
    SlotsSized(m, a);
    SlotsSized(m, b);
    forall i | 0 <= i < Size(m) ensures a.ev[i] == b.ev[i] && a.log[i] == b.log[i] && a.seen[i] == b.seen[i] {
      LeftSlotSame(m, s, touched, i);
    }
    assert a.log == b.log;
    assert a.seen == b.seen;
    assert a.ev == b.ev;
  }

  lemma TouchedInRange(m: Model, s: Slots)
    requires SlotsOk(m, s)
    ensures forall k | 0 <= k < |s.touched| :: 0 <= s.touched[k] < Size(m)
  {
  }

  /** Whatever was scanned, a frame leaves the same slots for every order of its points. */
  lemma FramePermutes(m: Model, f: Frame, pts: seq<Point>, s: Slots)
    requires ModelOk(m) && PointsOk(f.pts) && PointsOk(pts) && multiset(pts) == multiset(f.pts) && SlotsOk(m, s)
    requires forall i | 0 <= i < Size(m) :: s.ev[i] == 0.0
    ensures FrameSlots(m, f.(pts := pts), s) == FrameSlots(m, f, s)
  {
    hide SplatAll, RoiCells, LeftAll, SlotsOk, ScanList, OriginOf;
    var g, o := f.(pts := pts), OriginOf(m, f.pose);
    assert |pts| == |multiset(pts)| == |multiset(f.pts)| == |f.pts|;
    var a, b := SplatAll(m, f.pose, f.pts, o, s), SplatAll(m, f.pose, pts, o, s);
    SplatPermutes(m, f.pose, pts, f.pts, o, s);
    assert b == a.(touched := b.touched);
    var cells := ScanList(m, f.pose);
    RoiIgnoresTouched(m, f, a, b.touched, cells);
    RoiSamePose(m, f, g, b, cells);
    LeftIgnoresOrder(m, RoiCells(m, f, a, cells), b.touched);
  }
}
