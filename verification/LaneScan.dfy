/** What one frame of lane_mapper.cpp does to one cell of the window, whatever it scans; when that is the
    one update meant for the cell; and which cells of the region of interest the scan leaves out. */
module LaneScan {
  import opened Options
  import opened RingWindow
  import opened LaneMap

  // ---- the scanned cells that share the slot of a cell ----

  /** The scan order. */
  function ScanList(m: Model, pose: Pose): seq<Cell>
    requires ModelOk(m)
  {
    var q := RoiRect(m, pose);
    Rows(q.x0, q.x1, q.y0, q.y1 + 1)
  }

  predicate SharesSlot(m: Model, pose: Pose, c: Cell, d: Cell)
    requires ModelOk(m)
  {
    InRoi(m, pose, d) && Congruent(m.p.w, m.p.h, c, d)
  }

  /** Those of the cells that are in the region of interest and congruent to c, in their order. */
  function Sharers(m: Model, pose: Pose, cells: seq<Cell>, c: Cell): seq<Cell>
    requires ModelOk(m)
  {
    if cells == [] then []
    else
      var d := cells[|cells| - 1];
      Sharers(m, pose, cells[..|cells| - 1], c) + if SharesSlot(m, pose, c, d) then [d] else []
  }

  /** What scanning these cells does to the slot they share, when its evidence is e: the first takes the
      evidence, the others find none. */
  function ScanUpdates(m: Model, f: Frame, ds: seq<Cell>, e: real): seq<real>
    requires ModelOk(m)
  {
    if ds == [] then []
    else if DoMiss(m, f) then seq(|ds|, k requires 0 <= k < |ds| => HitMiss(m, f, ds[k], if k == 0 then e else 0.0))
    else if e > 0.0 then [HitMiss(m, f, ds[0], e)] else []
  }

  /** Everything frame f applies to the slot of the cell c, in order; unused evidence is a hit at the end. */
  function Updates(m: Model, f: Frame, c: Cell): seq<real>
    requires ModelOk(m) && PointsOk(f.pts)
  {
    var ds, e := Sharers(m, f.pose, ScanList(m, f.pose), c), FrameEvidence(m, f.pose, f.pts, c);
    if ds == [] && e > 0.0 then [Hit(m, e)] else ScanUpdates(m, f, ds, e)
  }

  function UpdatedAll(m: Model, v: Val, us: seq<real>): Val {
    if us == [] then v else Updated(m, UpdatedAll(m, v, us[..|us| - 1]), Some(us[|us| - 1]))
  }

  lemma {:induction false} SeenAfter(m: Model, v: Val, us: seq<real>)
    ensures UpdatedAll(m, v, us).seen == (v.seen || us != [])
  {
    if us != [] {
      SeenAfter(m, v, us[..|us| - 1]);
    }
  }

  lemma {:induction false} BoundedAfter(m: Model, v: Val, us: seq<real>)
    requires m.p.lMin <= m.p.lMax
    ensures us != [] ==> m.p.lMin <= UpdatedAll(m, v, us).log <= m.p.lMax
  {
  }

  lemma {:induction false} SharersHave(m: Model, pose: Pose, cells: seq<Cell>, c: Cell)
    requires ModelOk(m)
    ensures forall d :: d in Sharers(m, pose, cells, c) <==> d in cells && SharesSlot(m, pose, c, d)
    ensures Distinct(cells) ==> Distinct(Sharers(m, pose, cells, c))
  {
    hide SharesSlot;
    if cells != [] {
      var n := |cells| - 1;
      SharersHave(m, pose, cells[..n], c);
      assert cells == cells[..n] + [cells[n]];
      if Distinct(cells) {
        LastIsNew(cells, n);
      }
    }
  }

  lemma LastIsNew(cells: seq<Cell>, n: nat)
    requires Distinct(cells) && |cells| == n + 1
    ensures Distinct(cells[..n]) && cells[n] !in cells[..n]
  {
  }

  /** The cells that share the slot of c are the scanned cells congruent to it, each once. */
  lemma SharersAreScanned(m: Model, f: Frame, c: Cell)
    requires ModelOk(m)
    ensures var ds := Sharers(m, f.pose, ScanList(m, f.pose), c);
            Distinct(ds) && forall d :: d in ds <==> Scanned(m, f, d) && Congruent(m.p.w, m.p.h, c, d)
  {
    hide InRoi, RoiRect, Rows;
    var q := RoiRect(m, f.pose);
    RowsHave(q.x0, q.x1, q.y0, q.y1 + 1);
    SharersHave(m, f.pose, ScanList(m, f.pose), c);
  }

  // ---- when a frame is exact ----

  function Listed(u: Option<real>): seq<real> {
    if u.Some? then [u.value] else []
  }

  /** Every scanned cell lies in the window. */
  ghost predicate ScanStaysInside(m: Model, f: Frame)
    requires ModelOk(m)
  {
    forall d | Scanned(m, f, d) :: Inside(m, OriginOf(m, f.pose), d)
  }

  /** The frame gives every cell of the window the one update meant for it, or none. */
  ghost predicate Exact(m: Model, f: Frame)
    requires ModelOk(m) && PointsOk(f.pts)
  {
    forall c | Inside(m, OriginOf(m, f.pose), c) :: Updates(m, f, c) == Listed(Update(m, f, c))
  }

  lemma OnlyItself(m: Model, f: Frame, c: Cell)
    requires ModelOk(m) && ScanStaysInside(m, f) && Inside(m, OriginOf(m, f.pose), c)
    ensures Sharers(m, f.pose, ScanList(m, f.pose), c) == if Scanned(m, f, c) then [c] else []
  {
    hide Scanned, OriginOf, Sharers, ScanList, Congruent;
    var ds := Sharers(m, f.pose, ScanList(m, f.pose), c);
    SharersAreScanned(m, f, c);
    ItselfCongruent(m, c);
    forall k | 0 <= k < |ds| ensures ds[k] == c {
      assert ds[k] in ds;
      SameSlot(m.p.w, m.p.h, c, ds[k]);
      IdxInjective(m.p.w, m.p.h, OriginOf(m, f.pose), c, ds[k]);
    }
    AtMostOne(ds, c);
    assert Scanned(m, f, c) <==> c in ds;
  }

  lemma AtMostOne(ds: seq<Cell>, c: Cell)
    requires Distinct(ds) && forall k | 0 <= k < |ds| :: ds[k] == c
    ensures ds == [] || ds == [c]
  {
    FirstTwoDiffer(ds);
  }

  lemma FirstTwoDiffer(ds: seq<Cell>)
    requires Distinct(ds)
    ensures |ds| >= 2 ==> ds[0] != ds[1]
  {
  }

  lemma ItselfCongruent(m: Model, c: Cell)
    requires ModelOk(m)
    ensures Congruent(m.p.w, m.p.h, c, c)
  {
  }

  lemma NoMissIsHit(m: Model, f: Frame, c: Cell, e: real)
    requires ModelOk(m) && !DoMiss(m, f)
    ensures HitMiss(m, f, c, e) == Hit(m, e)
  {
  }

  /** A frame without misses is always exact; one with misses, whenever its scan stays in the window. */
  lemma FrameIsExact(m: Model, f: Frame)
    requires ModelOk(m) && PointsOk(f.pts) && (!DoMiss(m, f) || ScanStaysInside(m, f))
    ensures Exact(m, f)
  {
    hide Scanned, OriginOf, Sharers, ScanList, HitMiss, Hit, FrameEvidence, ScanStaysInside, DoMiss;
    forall c | Inside(m, OriginOf(m, f.pose), c) ensures Updates(m, f, c) == Listed(Update(m, f, c)) {
      var e := FrameEvidence(m, f.pose, f.pts, c);
      if DoMiss(m, f) {
        OnlyItself(m, f, c);
      } else {
        NoMissIsHit(m, f, c, e);
        var ds := Sharers(m, f.pose, ScanList(m, f.pose), c);
        if ds != [] {
          NoMissIsHit(m, f, ds[0], e);
        }
      }
    }
  }

  /** The cell of the window whose slot d uses. */
  function Owner(m: Model, pose: Pose, d: Cell): (c: Cell)
    requires ModelOk(m)
    ensures Inside(m, OriginOf(m, pose), c) && Congruent(m.p.w, m.p.h, c, d)
  {
    IdxInRange(m.p.w, m.p.h, d);
    IdxOnto(m.p.w, m.p.h, OriginOf(m, pose), IdxOf(m, d));
    SameSlot(m.p.w, m.p.h, CellAt(m.p.w, m.p.h, OriginOf(m, pose), IdxOf(m, d)), d);
    CellAt(m.p.w, m.p.h, OriginOf(m, pose), IdxOf(m, d))
  }

  lemma OwnerIs(m: Model, pose: Pose, c: Cell, d: Cell)
    requires ModelOk(m) && Inside(m, OriginOf(m, pose), c) && Congruent(m.p.w, m.p.h, c, d)
    ensures Owner(m, pose, d) == c
  {
    hide Congruent, CellAt, OriginOf;
    SameSlot(m.p.w, m.p.h, c, d);
    SameSlot(m.p.w, m.p.h, Owner(m, pose, d), d);
    IdxInjective(m.p.w, m.p.h, OriginOf(m, pose), c, Owner(m, pose, d));
  }

  /** A frame with misses updates a cell exactly when it means to, or some scanned cell shares its slot. */
  lemma UpdatedIff(m: Model, f: Frame, c: Cell)
    requires ModelOk(m) && PointsOk(f.pts) && DoMiss(m, f)
    ensures Updates(m, f, c) != [] <==>
            Update(m, f, c).Some? || exists d :: Scanned(m, f, d) && Congruent(m.p.w, m.p.h, c, d)
  {
    hide Scanned, Sharers, ScanList, HitMiss, Hit, FrameEvidence, Congruent, DoMiss;
    var ds := Sharers(m, f.pose, ScanList(m, f.pose), c);
    SharersAreScanned(m, f, c);
    ItselfCongruent(m, c);
    if ds != [] {
      assert ds[0] in ds;
    }
  }

  /** In a frame with misses the seen flags are as meant, from every state of the map, exactly when every
      scanned cell outside the window uses the slot of a cell that has an update itself. */
  lemma SeenExactIff(m: Model, f: Frame)
    requires ModelOk(m) && PointsOk(f.pts) && DoMiss(m, f)
    ensures (forall c, v: Val | Inside(m, OriginOf(m, f.pose), c) ::
               UpdatedAll(m, v, Updates(m, f, c)).seen == Updated(m, v, Update(m, f, c)).seen)
       <==> (forall d | Scanned(m, f, d) && !Inside(m, OriginOf(m, f.pose), d) ::
               Update(m, f, Owner(m, f.pose, d)).Some?)
  {
    hide Scanned, OriginOf, Updates, Update, UpdatedAll, Owner, Congruent, DoMiss;
    var o := OriginOf(m, f.pose);
    forall d | Scanned(m, f, d) && !Inside(m, o, d)
      ensures Update(m, f, Owner(m, f.pose, d)).Some?
           || UpdatedAll(m, BLANK, Updates(m, f, Owner(m, f.pose, d))).seen
              != Updated(m, BLANK, Update(m, f, Owner(m, f.pose, d))).seen
    {
      var c := Owner(m, f.pose, d);
      UpdatedIff(m, f, c);
      SeenAfter(m, BLANK, Updates(m, f, c));
    }
    if forall d | Scanned(m, f, d) && !Inside(m, o, d) :: Update(m, f, Owner(m, f.pose, d)).Some? {
      forall c, v: Val | Inside(m, o, c)
        ensures UpdatedAll(m, v, Updates(m, f, c)).seen == Updated(m, v, Update(m, f, c)).seen
      {
        SeenAfter(m, v, Updates(m, f, c));
        OwnersUpdated(m, f, c);
      }
    }
  }

  lemma OwnersUpdated(m: Model, f: Frame, c: Cell)
    requires ModelOk(m) && PointsOk(f.pts) && DoMiss(m, f) && Inside(m, OriginOf(m, f.pose), c)
    requires forall d | Scanned(m, f, d) && !Inside(m, OriginOf(m, f.pose), d)
               :: Update(m, f, Owner(m, f.pose, d)).Some?
    ensures Updates(m, f, c) != [] <==> Update(m, f, c).Some?
  {
    hide OriginOf, Updates, Owner, Congruent, DoMiss, RoiRect, InRoi, FrameEvidence, HitMiss;
    UpdatedIff(m, f, c);
    forall d | Scanned(m, f, d) && Congruent(m.p.w, m.p.h, c, d) ensures Update(m, f, c).Some? {
      OwnerIs(m, f.pose, c, d);
      if Inside(m, OriginOf(m, f.pose), d) {
        SameSlot(m.p.w, m.p.h, c, d);
        IdxInjective(m.p.w, m.p.h, OriginOf(m, f.pose), c, d);
      }
    }
  }

  /** Where misses weigh anything and no splat is a full hit, a frame is exact if and only if it brings no
      misses or its scan stays in the window. */
  lemma ExactIff(m: Model, f: Frame)
    requires ModelOk(m) && PointsOk(f.pts) && m.p.lMiss != 0.0
    requires forall c | Inside(m, OriginOf(m, f.pose), c) :: FrameEvidence(m, f.pose, f.pts, c) != 1.0
    ensures Exact(m, f) <==> !DoMiss(m, f) || ScanStaysInside(m, f)
  {
    hide Exact, ScanStaysInside, DoMiss, OriginOf, FrameEvidence;
    if !DoMiss(m, f) || ScanStaysInside(m, f) {
      FrameIsExact(m, f);
    } else {
      LeavesWindow(m, f);
      var d :| Scanned(m, f, d) && !Inside(m, OriginOf(m, f.pose), d);
      OutsideDisturbs(m, f, d);
      NotExact(m, f, Owner(m, f.pose, d));
    }
  }

  lemma LeavesWindow(m: Model, f: Frame)
    requires ModelOk(m) && !ScanStaysInside(m, f)
    ensures exists d :: Scanned(m, f, d) && !Inside(m, OriginOf(m, f.pose), d)
  {
  }

  lemma NotExact(m: Model, f: Frame, c: Cell)
    requires ModelOk(m) && PointsOk(f.pts) && Inside(m, OriginOf(m, f.pose), c)
    requires Updates(m, f, c) != Listed(Update(m, f, c))
    ensures !Exact(m, f)
  {
  }

  /** A cell scanned outside the window disturbs the cell whose slot it uses. */
  lemma OutsideDisturbs(m: Model, f: Frame, d: Cell)
    requires ModelOk(m) && PointsOk(f.pts) && DoMiss(m, f) && Scanned(m, f, d)
    requires !Inside(m, OriginOf(m, f.pose), d) && m.p.lMiss != 0.0
    requires FrameEvidence(m, f.pose, f.pts, Owner(m, f.pose, d)) != 1.0
    ensures Updates(m, f, Owner(m, f.pose, d)) != Listed(Update(m, f, Owner(m, f.pose, d)))
  {
    hide Scanned, OriginOf, Sharers, ScanList, HitMiss, FrameEvidence, Congruent, DoMiss, Owner, Hit;
    var c := Owner(m, f.pose, d);
    var ds, e := Sharers(m, f.pose, ScanList(m, f.pose), c), FrameEvidence(m, f.pose, f.pts, c);
    SharersAreScanned(m, f, c);
    ItselfCongruent(m, c);
    assert d in ds;
    assert c != d by {
      assert Inside(m, OriginOf(m, f.pose), c);
    }
    if Scanned(m, f, c) {
      assert c in ds;
      TwoOf(ds, c, d);
    } else if |ds| == 1 {
      assert ds == [d];
      MissWeighs(m, f, d, e);
      SingletonsDiffer(HitMiss(m, f, d, e), Hit(m, e));
      assert Updates(m, f, c) == [HitMiss(m, f, d, e)];
    }
  }

  lemma SingletonsDiffer(a: real, b: real)
    requires a != b
    ensures [a] != [b]
  {
    assert [a][0] == a && [b][0] == b;
  }

  lemma TwoOf(ds: seq<Cell>, c: Cell, d: Cell)
    requires c in ds && d in ds && c != d
    ensures |ds| >= 2
  {
  }

  lemma NonZeroProduct(a: real, b: real, p: real)
    requires a != 0.0 && b != 0.0 && p == a * b
    ensures p != 0.0
  {
  }

  lemma MissWeighs(m: Model, f: Frame, d: Cell, e: real)
    requires ModelOk(m) && DoMiss(m, f) && m.p.lMiss != 0.0 && e != 1.0
    ensures HitMiss(m, f, d, e) != Hit(m, e)
  {
    hide DoMiss, Weight, RobotX, Hit;
    var w := Weight(m, RobotX(m, f.pose, d));
    NonZeroProduct(1.0 - e, m.p.lMiss, (1.0 - e) * m.p.lMiss);
    NonZeroProduct((1.0 - e) * m.p.lMiss, w, (1.0 - e) * m.p.lMiss * w);
  }

  // ---- when the scan stays in the window ----

  /** The scanned rectangle lies in the window, or is empty. */
  predicate RoiFits(m: Model, pose: Pose)
    requires ModelOk(m)
  {
    var r, o := RoiRect(m, pose), OriginOf(m, pose);
    r.x1 < r.x0 || r.y1 < r.y0 || (r.x1 < o.x + m.p.w && r.y1 < o.y + m.p.h)
  }

  lemma FittingScanStaysInside(m: Model, f: Frame)
    requires ModelOk(m) && RoiFits(m, f.pose)
    ensures ScanStaysInside(m, f)
  {
    hide BoundsOf, Corners, GridNumber, InRoi;
  }

  /** No corner of the region of interest is further than r from the robot. */
  predicate Reaches(m: Model, r: real) {
    && r >= 0.0
    && m.p.roiXMin * m.p.roiXMin + m.p.roiHalfFar * m.p.roiHalfFar <= r * r
    && m.p.roiXMax * m.p.roiXMax + m.p.roiHalfFar * m.p.roiHalfFar <= r * r
  }

  predicate IsRotation(pose: Pose) {
    pose.sin * pose.sin + pose.cos * pose.cos == 1.0
  }

  lemma ProductPositive(a: real, b: real, p: real)
    requires a > 0.0 && b > 0.0 && p == a * b
    ensures p > 0.0
  {
  }

  lemma SquareAbove(t: real, r: real)
    requires t > r >= 0.0
    ensures t * t > r * r
  {
    assert t * t - r * r == (t - r) * (t + r);
    ProductPositive(t - r, t + r, t * t - r * r);
  }

  lemma SquareBelow(t: real, r: real)
    requires r >= 0.0 && t * t <= r * r
    ensures t <= r
  {
    if t > r {
      SquareAbove(t, r);
    }
  }

  /** A rotation keeps distances, so no coordinate of a turned corner exceeds r. */
  lemma TurnedBelow(s: real, c: real, x: real, y: real, r: real)
    requires s * s + c * c == 1.0 && r >= 0.0 && x * x + y * y <= r * r
    ensures c * x - s * y <= r && s * x + c * y <= r
  {
    var a, b := c * x - s * y, s * x + c * y;
    assert a * a + b * b == (s * s + c * c) * (x * x + y * y);
    SquareNonNegative(a);
    SquareNonNegative(b);
    SquareBelow(a, r);
    SquareBelow(b, r);
  }

  // ---- a reach below half the window ----

  lemma CornerBelow(m: Model, pose: Pose, x: real, y: real, r: real)
    requires IsRotation(pose) && r >= 0.0 && x * x + y * y <= r * r
    ensures Corner(m, pose, x, y).0 <= pose.x + r && Corner(m, pose, x, y).1 <= pose.y + r
  {
    TurnedBelow(pose.sin, pose.cos, x, y, r);
  }

  // ---- the box of the scan ----

  lemma {:induction false} BoundsHold(cs: seq<(real, real)>)
    ensures var b := BoundsOf(cs); forall c | c in cs :: b.minX <= c.0 <= b.maxX && b.minY <= c.1 <= b.maxY
  {
    if cs != [] {
      BoundsHold(cs[..|cs| - 1]);
      assert cs == cs[..|cs| - 1] + [cs[|cs| - 1]];
    }
  }

  /** The forward distance x and the lateral distance y of a corner of the region's rectangle. */
  predicate IsCorner(m: Model, x: real, y: real) {
    (x == m.p.roiXMin || x == m.p.roiXMax) && (y == m.p.roiHalfFar || y == -m.p.roiHalfFar)
  }

  /** The place in the world of a point in front of a robot at the pose. */
  predicate InFront(pose: Pose, x: real, y: real, u: real, v: real) {
    u == pose.x + pose.cos * x - pose.sin * y && v == pose.y + pose.sin * x + pose.cos * y
  }

  lemma CornersAre(m: Model, pose: Pose, x: real, y: real, u: real, v: real)
    requires IsCorner(m, x, y) && InFront(pose, x, y, u, v)
    ensures (u, v) in Corners(m, pose)
  {
    assert (u, v) == Corner(m, pose, x, y);
    assert Corners(m, pose)[0] == Corner(m, pose, m.p.roiXMin, -m.p.roiHalfFar);
    assert Corners(m, pose)[1] == Corner(m, pose, m.p.roiXMin, m.p.roiHalfFar);
    assert Corners(m, pose)[2] == Corner(m, pose, m.p.roiXMax, -m.p.roiHalfFar);
    assert Corners(m, pose)[3] == Corner(m, pose, m.p.roiXMax, m.p.roiHalfFar);
  }

  /** Over lo .. hi the product with k is least at one end and greatest at the other. */
  lemma Along(k: real, lo: real, hi: real, t: real, p: real) returns (a: real, b: real, pa: real, pb: real)
    requires lo <= t <= hi && p == k * t
    ensures (a == lo || a == hi) && (b == lo || b == hi) && pa == k * a && pb == k * b && pa <= p <= pb
  {
    a, b := if k >= 0.0 then lo else hi, if k >= 0.0 then hi else lo;
    pa, pb := k * a, k * b;
    OrderTimes(k, lo, t);
    OrderTimes(k, t, hi);
  }

  lemma OrderTimes(k: real, s: real, t: real)
    requires s <= t
    ensures if k >= 0.0 then k * s <= k * t else k * t <= k * s
  {
  }

  lemma BoxHoldsCorner(m: Model, pose: Pose, x: real, y: real, p: real, q: real)
    requires IsCorner(m, x, y)
    ensures var b := BoundsOf(Corners(m, pose));
            && (p == pose.cos * x && q == pose.sin * y ==> b.minX <= pose.x + p - q <= b.maxX)
            && (p == pose.sin * x && q == pose.cos * y ==> b.minY <= pose.y + p + q <= b.maxY)
  {
    hide Corners, BoundsOf;
    BoundsHold(Corners(m, pose));
    CornersAre(m, pose, x, y, pose.x + pose.cos * x - pose.sin * y, pose.y + pose.sin * x + pose.cos * y);
  }

  /** The scanned box holds the rectangle in which the region of interest lies. */
  lemma BoxHoldsRegion(m: Model, pose: Pose, x: real, y: real, u: real, v: real)
    requires m.p.roiXMin <= x <= m.p.roiXMax && -m.p.roiHalfFar <= y <= m.p.roiHalfFar && InFront(pose, x, y, u, v)
    ensures var b := BoundsOf(Corners(m, pose)); b.minX <= u <= b.maxX && b.minY <= v <= b.maxY
  {
    hide Corners, BoundsOf;
    BoxAcross(m, pose, x, y, pose.cos * x, pose.sin * y);
    BoxAlong(m, pose, x, y, pose.sin * x, pose.cos * y);
  }

  lemma BoxAcross(m: Model, pose: Pose, x: real, y: real, p: real, q: real)
    requires m.p.roiXMin <= x <= m.p.roiXMax && -m.p.roiHalfFar <= y <= m.p.roiHalfFar
    requires p == pose.cos * x && q == pose.sin * y
    ensures var b := BoundsOf(Corners(m, pose)); b.minX <= pose.x + p - q <= b.maxX
  {
    hide Corners, BoundsOf;
    var a, b, pa, pb := Along(pose.cos, m.p.roiXMin, m.p.roiXMax, x, p);
    var c, d, qc, qd := Along(pose.sin, -m.p.roiHalfFar, m.p.roiHalfFar, y, q);
    BoxHoldsCorner(m, pose, a, d, pa, qd);
    BoxHoldsCorner(m, pose, b, c, pb, qc);
  }

  lemma BoxAlong(m: Model, pose: Pose, x: real, y: real, p: real, q: real)
    requires m.p.roiXMin <= x <= m.p.roiXMax && -m.p.roiHalfFar <= y <= m.p.roiHalfFar
    requires p == pose.sin * x && q == pose.cos * y
    ensures var b := BoundsOf(Corners(m, pose)); b.minY <= pose.y + p + q <= b.maxY
  {
    hide Corners, BoundsOf;
    var a, b, pa, pb := Along(pose.sin, m.p.roiXMin, m.p.roiXMax, x, p);
    var c, d, qc, qd := Along(pose.cos, -m.p.roiHalfFar, m.p.roiHalfFar, y, q);
    BoxHoldsCorner(m, pose, a, c, pa, qc);
    BoxHoldsCorner(m, pose, b, d, pb, qd);
  }

  ghost predicate Meets(cs: seq<(real, real)>, b: Bounds) {
    && (exists c :: c in cs && c.0 == b.minX) && (exists c :: c in cs && c.0 == b.maxX)
    && (exists c :: c in cs && c.1 == b.minY) && (exists c :: c in cs && c.1 == b.maxY)
  }

  lemma {:induction false} BoundsMet(cs: seq<(real, real)>)
    requires cs != [] && forall c | c in cs :: -FAR <= c.0 <= FAR && -FAR <= c.1 <= FAR
    ensures Meets(cs, BoundsOf(cs))
  {
    var n := |cs| - 1;
    assert cs[n] in cs;
    assert forall c | c in cs[..n] :: c in cs;
    if n > 0 {
      BoundsMet(cs[..n]);
    }
  }

  /** ... and every side of the box runs through a corner of that rectangle, up to 10^18 m away. */
  lemma BoxMeetsCorners(m: Model, pose: Pose)
    requires forall d | d in Corners(m, pose) :: -FAR <= d.0 <= FAR && -FAR <= d.1 <= FAR
    ensures Meets(Corners(m, pose), BoundsOf(Corners(m, pose)))
    ensures forall c | c in Corners(m, pose) :: AtCorner(m, pose, c)
  {
    assert |Corners(m, pose)| == 4;
    hide Corners, BoundsOf, AtCorner, Meets;
    BoundsMet(Corners(m, pose));
    forall c | c in Corners(m, pose) ensures AtCorner(m, pose, c) {
      AtSomeCorner(m, pose, c);
    }
  }

  ghost predicate AtCorner(m: Model, pose: Pose, c: (real, real)) {
    exists x, y :: IsCorner(m, x, y) && InFront(pose, x, y, c.0, c.1)
  }

  lemma AtSomeCorner(m: Model, pose: Pose, c: (real, real))
    requires c in Corners(m, pose)
    ensures AtCorner(m, pose, c)
  {
    var k :| 0 <= k < 4 && Corners(m, pose)[k] == c;
    var x := if k < 2 then m.p.roiXMin else m.p.roiXMax;
    var y := if k % 2 == 0 then -m.p.roiHalfFar else m.p.roiHalfFar;
    assert IsCorner(m, x, y) && c == Corner(m, pose, x, y);
    assert InFront(pose, x, y, c.0, c.1);
  }

  lemma {:induction false} BoundsBelow(cs: seq<(real, real)>, x: real, y: real)
    requires x >= -FAR && y >= -FAR && forall k | 0 <= k < |cs| :: cs[k].0 <= x && cs[k].1 <= y
    ensures BoundsOf(cs).maxX <= x && BoundsOf(cs).maxY <= y
  {
    if cs != [] {
      BoundsBelow(cs[..|cs| - 1], x, y);
    }
  }

  lemma CornersBelow(m: Model, pose: Pose, r: real)
    requires IsRotation(pose) && Reaches(m, r) && pose.x >= -FAR && pose.y >= -FAR
    ensures BoundsOf(Corners(m, pose)).maxX <= pose.x + r && BoundsOf(Corners(m, pose)).maxY <= pose.y + r
  {
    hide Corner, BoundsOf;
    var p := m.p;
    assert (-p.roiHalfFar) * (-p.roiHalfFar) == p.roiHalfFar * p.roiHalfFar;
    CornerBelow(m, pose, p.roiXMin, -p.roiHalfFar, r);
    CornerBelow(m, pose, p.roiXMin, p.roiHalfFar, r);
    CornerBelow(m, pose, p.roiXMax, -p.roiHalfFar, r);
    CornerBelow(m, pose, p.roiXMax, p.roiHalfFar, r);
    BoundsBelow(Corners(m, pose), pose.x + r, pose.y + r);
  }

  /** A coordinate at most `n` cells further than `at` has a grid number at most n + 1 higher. */
  lemma GridBelow(m: Model, v: real, at: real, r: real, n: int)
    requires ModelOk(m) && v <= at + r && r < n as real * m.p.resolution
    ensures GridNumber(m, v) <= GridNumber(m, at) + n
  {
    var q := m.p.resolution;
    QuotientBelow(v, at + n as real * q, q);
    assert (at + n as real * q) / q == at / q + n as real;
  }

  lemma QuotientBelow(a: real, b: real, q: real)
    requires q > 0.0 && a <= b
    ensures a / q <= b / q
  {
  }

  /** Where the region of interest reaches less far than half the window less one cell, the scan stays in
      the window for every pose, so every frame is exact. */
  lemma ShortReachIsExact(m: Model, f: Frame, r: real)
    requires ModelOk(m) && PointsOk(f.pts) && IsRotation(f.pose) && f.pose.x >= -FAR && f.pose.y >= -FAR
    requires Reaches(m, r) && r < (m.p.w - m.p.w / 2 - 1) as real * m.p.resolution
                           && r < (m.p.h - m.p.h / 2 - 1) as real * m.p.resolution
    ensures RoiFits(m, f.pose) && Exact(m, f)
  {
    hide BoundsOf, Corners, GridNumber, Exact, ScanStaysInside, DoMiss;
    var b := BoundsOf(Corners(m, f.pose));
    CornersBelow(m, f.pose, r);
    GridBelow(m, b.maxX, f.pose.x, r, m.p.w - m.p.w / 2 - 1);
    GridBelow(m, b.maxY, f.pose.y, r, m.p.h - m.p.h / 2 - 1);
    FittingScanStaysInside(m, f);
    FrameIsExact(m, f);
  }

  // ---- the region of interest ----

  /** The cell's place as the code computes it: x forward, y to the left. */
  predicate SeenAtPlace(m: Model, pose: Pose, c: Cell, x: real, y: real) {
    var dx := (c.x as real + 0.5) * m.p.resolution - pose.x;
    var dy := (c.y as real + 0.5) * m.p.resolution - pose.y;
    x == pose.cos * dx - pose.sin * dy && y == pose.sin * dy - pose.sin * dx
  }

  /** The region of interest is a trapezoid: between its near and far end, and no wider than the line from half the
      near width to half the far width. */
  lemma RoiIsTrapezoid(m: Model, pose: Pose, c: Cell, x: real, y: real)
    requires ModelOk(m) && m.p.roiXMin < m.p.roiXMax && SeenAtPlace(m, pose, c, x, y)
    ensures InRoi(m, pose, c) <==>
            && m.p.roiXMin <= x <= m.p.roiXMax
            && y * (m.p.roiXMax - m.p.roiXMin)
               <= m.p.roiHalfNear * (m.p.roiXMax - x) + m.p.roiHalfFar * (x - m.p.roiXMin)
            && -y * (m.p.roiXMax - m.p.roiXMin)
               <= m.p.roiHalfNear * (m.p.roiXMax - x) + m.p.roiHalfFar * (x - m.p.roiXMin)
  {
    hide HalfWidth, RobotX, RobotY, SeenAtPlace;
    PlaceIs(m, pose, c, x, y);
    var p, span := m.p, m.p.roiXMax - m.p.roiXMin;
    var edge := p.roiHalfNear * (p.roiXMax - x) + p.roiHalfFar * (x - p.roiXMin);
    HalfWidthIs(m, x, span, HalfWidth(m, x), edge);
    Cancels(y, HalfWidth(m, x), span, y * span, edge);
    Cancels(-y, HalfWidth(m, x), span, -y * span, edge);
  }

  lemma PlaceIs(m: Model, pose: Pose, c: Cell, x: real, y: real)
    requires SeenAtPlace(m, pose, c, x, y)
    ensures x == RobotX(m, pose, c) && y == RobotY(m, pose, c)
  {
    var dx, dy := Center(m, c).0 - pose.x, Center(m, c).1 - pose.y;
    assert -pose.sin * dx + pose.sin * dy == pose.sin * dy - pose.sin * dx;
  }

  lemma HalfWidthIs(m: Model, x: real, span: real, w: real, edge: real)
    requires ModelOk(m) && span == m.p.roiXMax - m.p.roiXMin > 0.0 && w == HalfWidth(m, x)
    requires edge == m.p.roiHalfNear * (m.p.roiXMax - x) + m.p.roiHalfFar * (x - m.p.roiXMin)
    ensures w * span == edge
  {
    var t, g := (x - m.p.roiXMin) / span, m.p.roiHalfFar - m.p.roiHalfNear;
    assert t * span == x - m.p.roiXMin;
    assert w == m.p.roiHalfNear + t * g;
    Spread(m.p.roiHalfNear, t, g, span, x - m.p.roiXMin, w);
    Weigh(m.p.roiHalfNear, m.p.roiHalfFar, m.p.roiXMax - x, x - m.p.roiXMin, span);
  }

  lemma Spread(a: real, t: real, g: real, span: real, u: real, w: real)
    requires t * span == u && w == a + t * g
    ensures w * span == a * span + u * g
  {
    assert (t * g) * span == (t * span) * g;
  }

  lemma Weigh(a: real, b: real, u: real, v: real, span: real)
    requires span == u + v
    ensures a * span + v * (b - a) == a * u + b * v
  {
  }

  lemma Cancels(a: real, b: real, k: real, p: real, q: real)
    requires k > 0.0 && p == a * k && q == b * k
    ensures a <= b <==> p <= q
  {
    assert q - p == (b - a) * k;
    if a < b {
      ProductPositive(b - a, k, q - p);
    } else if b < a {
      ProductPositive(a - b, k, p - q);
    }
  }

  // ---- what the scan leaves out ----

  /** The grid cells of the box around the region's corners. */
  predicate InBox(m: Model, pose: Pose, c: Cell)
    requires ModelOk(m)
  {
    var b := BoundsOf(Corners(m, pose));
    InRect(GridNumber(m, b.minX), GridNumber(m, b.maxX), GridNumber(m, b.minY), GridNumber(m, b.maxY), c)
  }

  /** A window cell of the region of interest is scanned if and only if its coordinates are below the size
      of the window, wherever the window is. */
  lemma ScannedIff(m: Model, f: Frame, c: Cell)
    requires ModelOk(m) && Inside(m, OriginOf(m, f.pose), c)
    ensures Scanned(m, f, c) <==> InBox(m, f.pose, c) && InRoi(m, f.pose, c) && c.x < m.p.w && c.y < m.p.h
  {
    hide BoundsOf, Corners, GridNumber, InRoi;
  }

  /** The scan can leave out window cells if and only if an origin coordinate is positive. */
  lemma NothingLeftOutIff(m: Model, pose: Pose)
    requires ModelOk(m)
    ensures (forall c | Inside(m, OriginOf(m, pose), c) :: c.x < m.p.w && c.y < m.p.h)
       <==> OriginOf(m, pose).x <= 0 && OriginOf(m, pose).y <= 0
  {
    hide OriginOf;
    var o := OriginOf(m, pose);
    assert Inside(m, o, Cell(o.x + m.p.w - 1, o.y + m.p.h - 1));
  }

  /** A window cell of the region of interest that is left out gets its hit, but never a miss. */
  lemma LeftOutUpdate(m: Model, f: Frame, c: Cell)
    requires ModelOk(m) && PointsOk(f.pts) && Inside(m, OriginOf(m, f.pose), c) && (c.x >= m.p.w || c.y >= m.p.h)
    ensures var e := FrameEvidence(m, f.pose, f.pts, c);
            && (e == 0.0 ==> Update(m, f, c) == None)
            && (e > 0.0 ==> Update(m, f, c) == Some(Hit(m, e)))
  {
    hide FrameEvidence, InRoi, HitMiss, OriginOf, Scanned, InBox;
    ScannedIff(m, f, c);
  }
}
