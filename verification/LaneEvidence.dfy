/** lane_mapper.cpp: what sightings of lane points do to the map, in numbers: how strong a point's evidence is,
    that hits make a cell occupied, and that misses free it. */
module LaneEvidence {
  import opened Arithmetic
  import opened RingWindow
  import opened LaneMap
  import opened LaneScan
  import opened LaneRuns

  // ---- the evidence of one point ----

  /** The point in the world, for a robot at the pose. */
  ghost predicate LiesAt(pose: Pose, pt: Point, x: real, y: real) {
    && x == pose.x + pose.cos * pt.x - pose.sin * pt.y
    && y == pose.y + pose.sin * pt.x + pose.cos * pt.y
  }

  /** The width of the splat of a point at this range. */
  function Width(m: Model, range: real): real {
    m.p.sigmaBase + m.p.sigmaPerM * range + m.p.sigmaPerM2 * (range * range)
  }

  /** A point spreads as a Gaussian of its width around it: a cell whose centre is at squared distance -u times
      twice the squared width gets exp(u), weakened by the square of the range. */
  lemma EvidenceIsGaussian(m: Model, pose: Pose, pt: Point, c: Cell, u: real, q: real)
    requires ModelOk(m) && pt.range >= 0.0 && q == pt.range / m.p.rangeRef
    requires SquaredDistance(m, pose, pt, c) == -u * (2.0 * (Width(m, pt.range) * Width(m, pt.range)))
    ensures Evidence(m, pose, pt, c) * (1.0 + q * q) == m.exp(u)
  {
    hide Width, Sigma, SquaredDistance, Gauss, Weight;
    WidthIsSigma(m, pt.range);
    GaussIs(m, SquaredDistance(m, pose, pt, c), Sigma(m, pt.range), u);
    WeightUndone(m, pt.range, q, m.exp(u), Evidence(m, pose, pt, c));
  }

  /** How far the centre of cell c, of cells of size q, lies beyond x. */
  function Beyond(c: int, q: real, x: real): real {
    (c as real + 0.5) * q - x
  }

  lemma DistanceIs(m: Model, pose: Pose, pt: Point, c: Cell, x: real, y: real)
    requires LiesAt(pose, pt, x, y)
    ensures var dx, dy := Beyond(c.x, m.p.resolution, x), Beyond(c.y, m.p.resolution, y);
            SquaredDistance(m, pose, pt, c) == dx * dx + dy * dy
  {
    GlobalIs(pose, pt, x, y);
  }

  lemma WidthIsSigma(m: Model, range: real)
    requires ModelOk(m) && range >= 0.0
    ensures Width(m, range) == Sigma(m, range) > 0.0
  {
  }

  lemma GaussIs(m: Model, squares: real, s: real, u: real)
    requires ModelOk(m) && s > 0.0 && squares == -u * (2.0 * (s * s))
    ensures Gauss(m, squares, s) == m.exp(u)
  {
    hide Exponent;
    ExponentIs(squares, s, u);
  }

  lemma ExponentIs(squares: real, s: real, u: real)
    requires s > 0.0 && squares == -u * (2.0 * (s * s))
    ensures Exponent(squares, s) == u
  {
    hide InverseTwoSquares;
    InverseIs(s, 2.0 * (s * s), InverseTwoSquares(s));
    Cancelled(squares, u, 2.0 * (s * s), InverseTwoSquares(s));
  }

  lemma InverseIs(s: real, d: real, i: real)
    requires s > 0.0 && d == 2.0 * (s * s) && i == InverseTwoSquares(s)
    ensures d * i == 1.0
  {
    ProductPositive(s, s, s * s);
  }

  lemma Cancelled(squares: real, u: real, d: real, i: real)
    requires squares == -u * d && d * i == 1.0
    ensures -squares * i == u
  {
    assert -squares * i == u * (d * i);
  }

  lemma WeightUndone(m: Model, r: real, q: real, e: real, v: real)
    requires ModelOk(m) && q == r / m.p.rangeRef && v == Weight(m, r) * e
    ensures v * (1.0 + q * q) == e
  {
    SquareNonNegative(q);
    var d, w := 1.0 + q * q, Weight(m, r);
    assert w * d == 1.0;
    assert v * d == (w * d) * e;
  }

  /** The cells of size q that the distance covers, rounded up. */
  function CellsFor(far: real, q: real): int
    requires q > 0.0
  {
    -((-(far / q)).Floor)
  }

  /** The splat covers every cell whose centre is within three widths of the point in both directions, and
      reaches less than one and a half cells further. */
  lemma SplatReach(m: Model, pose: Pose, pt: Point, c: Cell, x: real, y: real)
    requires ModelOk(m) && pt.range >= 0.0 && LiesAt(pose, pt, x, y)
    ensures var far := 3.0 * Width(m, pt.range);
            var dx, dy := Beyond(c.x, m.p.resolution, x), Beyond(c.y, m.p.resolution, y);
            && (-far <= dx <= far && -far <= dy <= far ==> InSplat(m, pose, pt, c))
            && (InSplat(m, pose, pt, c) ==>
                  var more := far + 1.5 * m.p.resolution; -more < dx < more && -more < dy < more)
  {
    hide Width, Sigma, Beyond, CellsFor, Radius, GridNumber, Global;
    WidthIsSigma(m, pt.range);
    var far := 3.0 * Sigma(m, pt.range);
    RadiusIs(m, pt, far);
    GlobalIs(pose, pt, x, y);
    LineReach(m, far, c.x, x);
    LineReach(m, far, c.y, y);
  }

  lemma RadiusIs(m: Model, pt: Point, far: real)
    requires ModelOk(m) && pt.range >= 0.0 && far == 3.0 * Sigma(m, pt.range)
    ensures Radius(m, pt) == CellsFor(far, m.p.resolution)
  {
    hide Sigma;
  }

  lemma GlobalIs(pose: Pose, pt: Point, x: real, y: real)
    requires LiesAt(pose, pt, x, y)
    ensures Global(pose, pt) == (x, y)
  {
  }

  /** The same along one axis. */
  lemma LineReach(m: Model, far: real, c: int, x: real)
    requires ModelOk(m) && far > 0.0
    ensures var q := m.p.resolution;
            var r, o, d := CellsFor(far, q), GridNumber(m, x), Beyond(c, q, x);
            && (-far <= d <= far ==> o - r <= c <= o + r)
            && (o - r <= c <= o + r ==> -far - 1.5 * q < d < far + 1.5 * q)
  {
    var q := m.p.resolution;
    var f, u := far / q, x / q;
    var r, o := -((-f).Floor), u.Floor;
    var d := (c as real + 0.5) * q - x;
    assert f * q == far && u * q == x;
    var e := c as real + 0.5 - u;
    assert d == e * q;
    if -far <= d <= far {
      NotFurther(f, e, q, far, d);
    }
    if o - r <= c <= o + r {
      WithinCells(f, e, q, far, d);
    }
  }

  lemma NotFurther(f: real, e: real, q: real, far: real, d: real)
    requires q > 0.0 && f * q == far && e * q == d && -far <= d <= far
    ensures -f <= e <= f
  {
    ScaleBack(-f, e, q);
    ScaleBack(e, f, q);
  }

  lemma WithinCells(f: real, e: real, q: real, far: real, d: real)
    requires q > 0.0 && f * q == far && e * q == d && -(f + 1.5) < e < f + 1.5
    ensures -far - 1.5 * q < d < far + 1.5 * q
  {
    ScaleUp(-(f + 1.5), e, q);
    ScaleUp(e, f + 1.5, q);
    assert (f + 1.5) * q == f * q + 1.5 * q;
    assert -(f + 1.5) * q == -((f + 1.5) * q);
  }

  lemma ScaleBack(a: real, b: real, q: real)
    requires q > 0.0 && a * q <= b * q
    ensures a <= b
  {
    if a > b {
      ScaleUp(b, a, q);
    }
  }

  lemma ScaleUp(a: real, b: real, q: real)
    requires q > 0.0 && a < b
    ensures a * q < b * q
  {
    ProductPositive(b - a, q, (b - a) * q);
    assert (b - a) * q == b * q - a * q;
  }

  /** A robot that turns and drives keeps the distances of its points. */
  lemma PointsMoveRigidly(pose: Pose, a: Point, b: Point, x: real, y: real, x': real, y': real)
    requires pose.sin * pose.sin + pose.cos * pose.cos == 1.0
    requires LiesAt(pose, a, x, y) && LiesAt(pose, b, x', y')
    ensures (x - x') * (x - x') + (y - y') * (y - y')
         == (a.x - b.x) * (a.x - b.x) + (a.y - b.y) * (a.y - b.y)
  {
    var s, c, u, v := pose.sin, pose.cos, a.x - b.x, a.y - b.y;
    assert x - x' == c * u - s * v && y - y' == s * u + c * v;
    Turned(s, c, u, v);
  }

  lemma Turned(s: real, c: real, u: real, v: real)
    requires s * s + c * c == 1.0
    ensures (c * u - s * v) * (c * u - s * v) + (s * u + c * v) * (s * u + c * v) == u * u + v * v
  {
    assert (c * u - s * v) * (c * u - s * v) + (s * u + c * v) * (s * u + c * v) == (s * s + c * c) * (u * u + v * v);
  }

  // ---- what one frame does ----

  /** r is v + d, limited to lo .. hi. */
  ghost predicate Limited(v: real, d: real, lo: real, hi: real, r: real) {
    && lo <= r <= hi
    && (lo <= v + d <= hi ==> r == v + d) && (v + d < lo ==> r == lo) && (v + d > hi ==> r == hi)
  }

  /** The frame brings too few points to count cells without evidence as free. */
  predicate HitsOnly(m: Model, f: Frame) {
    (f.health > 0 && f.health < m.p.minPointsForMiss) || (f.health <= 0 && |f.pts| < m.p.minPointsForMiss)
  }

  /** In such a frame a cell of the window with evidence e changes by e * lHit, up to lMax, and is seen; for a
      positive lHit it rises. A cell without evidence keeps its value. */
  lemma HitsRaise(m: Model, a: Map, f: Frame, c: Cell, e: real, d: real)
    requires ModelOk(m) && PointsOk(f.pts) && HitsOnly(m, f) && Inside(m, OriginOf(m, f.pose), c)
    requires e == FrameEvidence(m, f.pose, f.pts, c) && d == e * m.p.lHit
    ensures c in Inserted(m, a, f).cells
    ensures var v, r := Moved(m, a, c), Inserted(m, a, f).cells[c];
            && (e > 0.0 ==> r.seen && Limited(v.log, d, m.p.lMin, m.p.lMax, r.log))
            && (e > 0.0 && m.p.lHit > 0.0 && v.log < m.p.lMax ==> r.log > v.log)
            && (e == 0.0 ==> r == v)
  {
    hide FrameEvidence, OriginOf, Moved, Updates, UpdatedAll, HitsOnly, Limited, Hit;
    WindowIs(m, OriginOf(m, f.pose));
    OneUpdate(m, f, c);
    var v := Moved(m, a, c);
    if e > 0.0 {
      assert IsProduct(e, m.p.lHit, d);
      HitStep(m, v, e, d);
      assert Inserted(m, a, f).cells[c] == UpdatedAll(m, v, [Hit(m, e)]);
    } else {
      NothingApplied(m, v);
    }
  }

  predicate IsProduct(a: real, b: real, p: real) {
    p == a * b
  }

  lemma HitStep(m: Model, v: Val, e: real, d: real)
    requires ModelOk(m) && e > 0.0 && IsProduct(e, m.p.lHit, d)
    ensures var r := UpdatedAll(m, v, [Hit(m, e)]);
            && r.seen && Limited(v.log, d, m.p.lMin, m.p.lMax, r.log)
            && (m.p.lHit > 0.0 && v.log < m.p.lMax ==> r.log > v.log)
  {
    hide UpdatedAll;
    SingleUpdate(m, v, Hit(m, e));
    LimitedBy(v.log, Hit(m, e), d, m.p.lMin, m.p.lMax, UpdatedAll(m, v, [Hit(m, e)]).log);
    if m.p.lHit > 0.0 {
      ProductPositive(e, m.p.lHit, d);
    }
  }

  lemma LimitedBy(v: real, d: real, d': real, lo: real, hi: real, r: real)
    requires Limited(v, d, lo, hi, r) && d == d'
    ensures Limited(v, d', lo, hi, r)
  {
  }

  lemma OneUpdate(m: Model, f: Frame, c: Cell)
    requires ModelOk(m) && PointsOk(f.pts) && HitsOnly(m, f)
    ensures var e := FrameEvidence(m, f.pose, f.pts, c); Updates(m, f, c) == if e > 0.0 then [Hit(m, e)] else []
  {
    hide FrameEvidence, Sharers, ScanList, HitMiss, Hit;
    var ds, e := Sharers(m, f.pose, ScanList(m, f.pose), c), FrameEvidence(m, f.pose, f.pts, c);
    if ds != [] {
      NoMissIsHit(m, f, ds[0], e);
    }
  }

  lemma SingleUpdate(m: Model, v: Val, d: real)
    requires m.p.lMin <= m.p.lMax
    ensures var r := UpdatedAll(m, v, [d]); r.seen && Limited(v.log, d, m.p.lMin, m.p.lMax, r.log)
  {
    NothingApplied(m, v);
    assert [d][..0] == [];
  }

  /** Evidence for a cell comes from a point whose splat reaches it, and no point's evidence is greater. */
  ghost predicate Strongest(m: Model, f: Frame, c: Cell, e: real)
    requires ModelOk(m) && PointsOk(f.pts)
  {
    && (e == 0.0 || exists k :: 0 <= k < |f.pts| && InSplat(m, f.pose, f.pts[k], c)
                                && e == Evidence(m, f.pose, f.pts[k], c))
    && forall k | 0 <= k < |f.pts| && InSplat(m, f.pose, f.pts[k], c) :: Evidence(m, f.pose, f.pts[k], c) <= e
  }

  lemma EvidenceIsStrongest(m: Model, f: Frame, c: Cell)
    requires ModelOk(m) && PointsOk(f.pts)
    ensures Strongest(m, f, c, FrameEvidence(m, f.pose, f.pts, c))
  {
    hide FrameEvidence, Evidence, InSplat;
    EvidenceIsMax(m, f.pose, f.pts, c);
  }

  /** A frame with misses lowers every scanned cell of the window that has no evidence. */
  lemma MissesLower(m: Model, a: Map, f: Frame, c: Cell)
    requires ModelOk(m) && PointsOk(f.pts) && !HitsOnly(m, f) && m.p.lMiss < 0.0
    requires Inside(m, OriginOf(m, f.pose), c) && Scanned(m, f, c) && FrameEvidence(m, f.pose, f.pts, c) == 0.0
    ensures c in Inserted(m, a, f).cells
    ensures var v, r := Moved(m, a, c), Inserted(m, a, f).cells[c];
            r.seen && m.p.lMin <= r.log <= m.p.lMax && (v.log > m.p.lMin ==> r.log < v.log)
  {
    hide FrameEvidence, Sharers, ScanList, OriginOf, Moved, Scanned, HitMiss, Congruent, Updated;
    var v := Moved(m, a, c);
    WindowIs(m, OriginOf(m, f.pose));
    SharersAreScanned(m, f, c);
    ItselfCongruent(m, c);
    var us := Updates(m, f, c);
    assert c in Sharers(m, f.pose, ScanList(m, f.pose), c);
    forall k | 0 <= k < |us| ensures us[k] < 0.0 {
      MissIsNegative(m, f, Sharers(m, f.pose, ScanList(m, f.pose), c)[k]);
    }
    SeenAfter(m, v, us);
    BoundedAfter(m, v, us);
    NegativesLower(m, v, us);
  }

  lemma MissIsNegative(m: Model, f: Frame, d: Cell)
    requires ModelOk(m) && !HitsOnly(m, f) && m.p.lMiss < 0.0
    ensures HitMiss(m, f, d, 0.0) < 0.0
  {
    hide Weight, RobotX;
    var w := Weight(m, RobotX(m, f.pose, d));
    ProductPositive(-m.p.lMiss, w, -m.p.lMiss * w);
    assert (1.0 - 0.0) * m.p.lMiss * w == -(-m.p.lMiss * w);
  }

  lemma {:induction false} NegativesLower(m: Model, v: Val, us: seq<real>)
    requires m.p.lMin <= m.p.lMax && us != [] && forall k | 0 <= k < |us| :: us[k] < 0.0
    ensures v.log > m.p.lMin ==> UpdatedAll(m, v, us).log < v.log
  {
    var n := |us| - 1;
    if n > 0 {
      NegativesLower(m, v, us[..n]);
    } else {
      assert us[..0] == [];
    }
  }

  /** In a frame with misses whose scan stays in the window, a scanned cell with evidence e changes by
      e * lHit + (1 - e) * lMiss, the miss weakened by the square of the forward distance. */
  lemma MixedUpdate(m: Model, a: Map, f: Frame, c: Cell, d: real)
    requires ModelOk(m) && PointsOk(f.pts) && !HitsOnly(m, f) && ScanStaysInside(m, f)
    requires Inside(m, OriginOf(m, f.pose), c) && Scanned(m, f, c)
    requires var e := FrameEvidence(m, f.pose, f.pts, c);
             var x := f.pose.cos * ((c.x as real + 0.5) * m.p.resolution - f.pose.x)
                    - f.pose.sin * ((c.y as real + 0.5) * m.p.resolution - f.pose.y);
             var q := x / m.p.rangeRef;
             (d - e * m.p.lHit) * (1.0 + q * q) == (1.0 - e) * m.p.lMiss
    ensures c in Inserted(m, a, f).cells
    ensures var v, r := Moved(m, a, c), Inserted(m, a, f).cells[c];
            r.seen && Limited(v.log, d, m.p.lMin, m.p.lMax, r.log)
  {
    hide FrameEvidence, OriginOf, Moved, Scanned, Updates, ScanStaysInside, UpdatedAll, Weight, Limited;
    hide RobotX, HitsOnly;
    var v, e := Moved(m, a, c), FrameEvidence(m, f.pose, f.pts, c);
    WindowIs(m, OriginOf(m, f.pose));
    FrameIsExact(m, f);
    MixedIs(m, f, c, e, d);
    SingleUpdate(m, v, d);
  }

  lemma MixedIs(m: Model, f: Frame, c: Cell, e: real, d: real)
    requires ModelOk(m) && !HitsOnly(m, f)
    requires var x := f.pose.cos * ((c.x as real + 0.5) * m.p.resolution - f.pose.x)
                    - f.pose.sin * ((c.y as real + 0.5) * m.p.resolution - f.pose.y);
             var q := x / m.p.rangeRef;
             (d - e * m.p.lHit) * (1.0 + q * q) == (1.0 - e) * m.p.lMiss
    ensures DoMiss(m, f) && HitMiss(m, f, c, e) == d
  {
    var q := RobotX(m, f.pose, c) / m.p.rangeRef;
    SquareNonNegative(q);
    WeightSolves(1.0 + q * q, d - e * m.p.lHit, (1.0 - e) * m.p.lMiss);
  }

  lemma WeightSolves(k: real, d: real, b: real)
    requires k > 0.0 && d * k == b
    ensures d == b * (1.0 / k)
  {
    assert 1.0 / k * k == 1.0;
    assert b * (1.0 / k) == d * (1.0 / k * k);
  }

  // ---- enough hits make a cell occupied ----

  /** Since frame k, every frame brings hits only, and at least e for the cell. */
  ghost predicate HitSince(m: Model, fs: seq<Frame>, c: Cell, k: nat, e: real)
    requires ModelOk(m) && FramesOk(fs)
  {
    forall j | k <= j < |fs| :: HitsOnly(m, fs[j]) && FrameEvidence(m, fs[j].pose, fs[j].pts, c) >= e
  }

  lemma {:induction false} HitsAddUp(m: Model, fs: seq<Frame>, c: Cell, e: real)
    requires ModelOk(m) && FramesOk(fs) && HitSince(m, fs, c, 0, e) && e > 0.0 && m.p.lHit > 0.0
    ensures fs != [] ==>
              var v := Folded(m, fs, c); v.seen && (v.log >= m.p.lMax || v.log >= |fs| as real * (e * m.p.lHit))
  {
    hide FrameEvidence, Updates, UpdatedAll, HitsOnly, Hit;
    if fs != [] {
      var n := |fs| - 1;
      HitsAddUp(m, fs[..n], c, e);
      var v, x := Folded(m, fs[..n], c), FrameEvidence(m, fs[n].pose, fs[n].pts, c);
      OneUpdate(m, fs[n], c);
      SingleUpdate(m, v, Hit(m, x));
      MoreHits(m, x, e, m.p.lHit, e * m.p.lHit);
      Once(n as real, e * m.p.lHit);
    }
  }

  lemma Once(n: real, s: real)
    ensures (n + 1.0) * s == n * s + s
  {
  }

  lemma MoreHits(m: Model, x: real, e: real, h: real, s: real)
    requires x >= e > 0.0 && h == m.p.lHit > 0.0 && s == e * h
    ensures Hit(m, x) >= s > 0.0
  {
    ProductPositive(e, h, e * h);
    ProductNonNegative(x - e, h);
    assert (x - e) * h == x * h - e * h;
  }

  /** A cell that has been in the window since frame k is occupied once the hits since then add up to the
      threshold: |fs| - k frames of evidence at least e each. */
  lemma EnoughHitsOccupy(m: Model, fs: seq<Frame>, c: Cell, k: nat, e: real)
    requires ModelOk(m) && FramesOk(fs) && InSince(m, fs, c, k) && HitSince(m, fs, c, k, e)
    requires e > 0.0 && m.p.lHit > 0.0 && m.p.lOccupied <= m.p.lMax
    requires (|fs| - k) as real * (e * m.p.lHit) >= m.p.lOccupied
    ensures fs != [] && Inside(m, OriginOf(m, fs[|fs| - 1].pose), c)
    ensures Held(m, fs, c).seen && Held(m, fs, c).log >= m.p.lOccupied
  {
    hide FrameEvidence, Folded, HitsOnly, RunAll, Held;
    CellIsFoldSinceEntry(m, fs, c, k);
    RunHolds(m, fs, c);
    HitsAddUp(m, fs[k..], c, e);
  }
}
