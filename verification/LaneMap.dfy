/** lane_mapper.cpp on values: geometry, evidence, the region of interest, and the update of one cell. */
module LaneMap {
  import opened Arithmetic
  import opened Options
  import opened RingWindow

  datatype Params = Params(resolution: real, w: int, h: int,
                           roiXMin: real, roiXMax: real, roiHalfNear: real, roiHalfFar: real,
                           sigmaBase: real, sigmaPerM: real, sigmaPerM2: real, rangeRef: real,
                           lHit: real, lMiss: real, lMin: real, lMax: real, lOccupied: real,
                           minPointsForMiss: int, speckleRadius: int, speckleSupport: int)

  /** The parameters and the exponential function. */
  datatype Model = Model(p: Params, exp: real -> real)

  /** The yaw is given by its sine and cosine. */
  datatype Pose = Pose(x: real, y: real, sin: real, cos: real)

  /** A point in the robot frame with its distance from the robot. */
  datatype Point = Point(x: real, y: real, range: real)

  datatype Frame = Frame(pts: seq<Point>, pose: Pose, health: int)

  ghost predicate ModelOk(m: Model) {
    && m.p.resolution > 0.0 && m.p.w > 0 && m.p.h > 0 && m.p.lMin <= m.p.lMax
    && m.p.roiXMin != m.p.roiXMax && m.p.rangeRef != 0.0
    && m.p.sigmaBase > 0.0 && m.p.sigmaPerM >= 0.0 && m.p.sigmaPerM2 >= 0.0
    && forall t :: m.exp(t) >= 0.0
  }

  predicate PointsOk(pts: seq<Point>) {
    forall k | 0 <= k < |pts| :: pts[k].range >= 0.0
  }

  // ---- geometry ----

  function GridNumber(m: Model, v: real): int
    requires ModelOk(m)
  {
    (v / m.p.resolution).Floor
  }

  function OriginOf(m: Model, pose: Pose): Cell
    requires ModelOk(m)
  {
    Cell(GridNumber(m, pose.x) - m.p.w / 2, GridNumber(m, pose.y) - m.p.h / 2)
  }

  function Size(m: Model): int {
    m.p.w * m.p.h
  }

  function IdxOf(m: Model, c: Cell): (i: int)
    requires ModelOk(m)
    ensures 0 <= i < Size(m)
  {
    IdxInRange(m.p.w, m.p.h, c);
    Idx(m.p.w, m.p.h, c)
  }

  predicate Inside(m: Model, o: Cell, c: Cell) {
    InWindow(m.p.w, m.p.h, o, c)
  }

  function Center(m: Model, c: Cell): (real, real) {
    ((c.x as real + 0.5) * m.p.resolution, (c.y as real + 0.5) * m.p.resolution)
  }

  function Weight(m: Model, r: real): (q: real)
    requires ModelOk(m)
    ensures q > 0.0
  {
    SquareNonNegative(r / m.p.rangeRef);
    1.0 / (1.0 + (r / m.p.rangeRef) * (r / m.p.rangeRef))
  }

  lemma SquareNonNegative(t: real)
    ensures t * t >= 0.0
  {
  }

  // ---- the splat of one point ----

  function Sigma(m: Model, r: real): (s: real)
    requires ModelOk(m) && r >= 0.0
    ensures s > 0.0
  {
    ProductNonNegative(m.p.sigmaPerM, r);
    ProductNonNegative(r, r);
    ProductNonNegative(m.p.sigmaPerM2, r * r);
    m.p.sigmaBase + m.p.sigmaPerM * r + m.p.sigmaPerM2 * (r * r)
  }

  function InverseTwoSquares(s: real): real
    requires s > 0.0
  {
    1.0 / (2.0 * (s * s))
  }

  function Global(pose: Pose, pt: Point): (real, real) {
    (pose.x + pose.cos * pt.x - pose.sin * pt.y, pose.y + pose.sin * pt.x + pose.cos * pt.y)
  }

  lemma QuotientPositive(a: real, b: real)
    requires a > 0.0 && b > 0.0
    ensures a / b > 0.0
  {
  }

  function Radius(m: Model, pt: Point): (r: int)
    requires ModelOk(m) && pt.range >= 0.0
    ensures r > 0
  {
    QuotientPositive(3.0 * Sigma(m, pt.range), m.p.resolution);
    -((-(3.0 * Sigma(m, pt.range) / m.p.resolution)).Floor)
  }

  function SplatCenter(m: Model, pose: Pose, pt: Point): Cell
    requires ModelOk(m)
  {
    Cell(GridNumber(m, Global(pose, pt).0), GridNumber(m, Global(pose, pt).1))
  }

  function SquaredDistance(m: Model, pose: Pose, pt: Point, c: Cell): real {
    var ex := Center(m, c).0 - Global(pose, pt).0;
    var ey := Center(m, c).1 - Global(pose, pt).1;
    ex * ex + ey * ey
  }

  function Exponent(squares: real, s: real): real
    requires s > 0.0
  {
    -squares * InverseTwoSquares(s)
  }

  function Gauss(m: Model, squares: real, s: real): (e: real)
    requires ModelOk(m) && s > 0.0
    ensures e >= 0.0
  {
    m.exp(Exponent(squares, s))
  }

  function Evidence(m: Model, pose: Pose, pt: Point, c: Cell): (e: real)
    requires ModelOk(m) && pt.range >= 0.0
    ensures e >= 0.0
  {
    Weight(m, pt.range) * Gauss(m, SquaredDistance(m, pose, pt, c), Sigma(m, pt.range))
  }

  predicate InSplat(m: Model, pose: Pose, pt: Point, c: Cell)
    requires ModelOk(m) && pt.range >= 0.0
  {
    var o, r := SplatCenter(m, pose, pt), Radius(m, pt);
    InRect(o.x - r, o.x + r, o.y - r, o.y + r, c)
  }

  function PointEvidence(m: Model, pose: Pose, pt: Point, c: Cell): (e: real)
    requires ModelOk(m) && pt.range >= 0.0
    ensures e >= 0.0
  {
    if InSplat(m, pose, pt, c) then Evidence(m, pose, pt, c) else 0.0
  }

  /** The evidence for cell c in a frame: the strongest splat that reaches it. */
  function FrameEvidence(m: Model, pose: Pose, pts: seq<Point>, c: Cell): (e: real)
    requires ModelOk(m) && PointsOk(pts)
    ensures e >= 0.0
  {
    if pts == [] then 0.0
    else
      RMax(FrameEvidence(m, pose, pts[..|pts| - 1], c), PointEvidence(m, pose, pts[|pts| - 1], c))
  }

  // ---- the region of interest ----

  function DoMiss(m: Model, f: Frame): bool {
    (if f.health > 0 then f.health else |f.pts|) >= m.p.minPointsForMiss
  }

  function Corner(m: Model, pose: Pose, x: real, y: real): (real, real) {
    (pose.x + pose.cos * x - pose.sin * y, pose.y + pose.sin * x + pose.cos * y)
  }

  function Corners(m: Model, pose: Pose): seq<(real, real)> {
    var p := m.p;
    [Corner(m, pose, p.roiXMin, -p.roiHalfFar), Corner(m, pose, p.roiXMin, p.roiHalfFar),
     Corner(m, pose, p.roiXMax, -p.roiHalfFar), Corner(m, pose, p.roiXMax, p.roiHalfFar)]
  }

  const FAR: real := 1000000000000000000.0

  /** Least and greatest coordinates, x and y, of the corners. */
  datatype Bounds = Bounds(minX: real, maxX: real, minY: real, maxY: real)

  function BoundsOf(cs: seq<(real, real)>): Bounds {
    if cs == [] then Bounds(FAR, -FAR, FAR, -FAR)
    else
      var b, c := BoundsOf(cs[..|cs| - 1]), cs[|cs| - 1];
      Bounds(RMin(b.minX, c.0), RMax(b.maxX, c.0), RMin(b.minY, c.1), RMax(b.maxY, c.1))
  }

  datatype Rect = Rect(x0: int, x1: int, y0: int, y1: int)

  /** The scanned rectangle. Its upper sides are cut at w - 1 and h - 1, whatever the origin. */
  function RoiRect(m: Model, pose: Pose): Rect
    requires ModelOk(m)
  {
    var b, o := BoundsOf(Corners(m, pose)), OriginOf(m, pose);
    Rect(Max(GridNumber(m, b.minX), o.x), Min(GridNumber(m, b.maxX), m.p.w - 1),
         Max(GridNumber(m, b.minY), o.y), Min(GridNumber(m, b.maxY), m.p.h - 1))
  }

  function RobotX(m: Model, pose: Pose, c: Cell): real {
    pose.cos * (Center(m, c).0 - pose.x) - pose.sin * (Center(m, c).1 - pose.y)
  }

  function RobotY(m: Model, pose: Pose, c: Cell): real {
    -pose.sin * (Center(m, c).0 - pose.x) + pose.sin * (Center(m, c).1 - pose.y)
  }

  function HalfWidth(m: Model, x: real): real
    requires ModelOk(m)
  {
    m.p.roiHalfNear + (x - m.p.roiXMin) / (m.p.roiXMax - m.p.roiXMin) * (m.p.roiHalfFar - m.p.roiHalfNear)
  }

  predicate InRoi(m: Model, pose: Pose, c: Cell)
    requires ModelOk(m)
  {
    var x, y := RobotX(m, pose, c), RobotY(m, pose, c);
    m.p.roiXMin <= x <= m.p.roiXMax && RAbs(y) <= HalfWidth(m, x)
  }

  // ---- updates ----

  function Clamp(v: real, lo: real, hi: real): real {
    if v < lo then lo else if hi < v then hi else v
  }

  /** Hit evidence alone. */
  function Hit(m: Model, e: real): real {
    e * m.p.lHit
  }

  /** Hit evidence, and a miss as far as the cell was not hit. */
  function HitMiss(m: Model, f: Frame, c: Cell, e: real): real
    requires ModelOk(m)
  {
    Hit(m, e) + if DoMiss(m, f) then (1.0 - e) * m.p.lMiss * Weight(m, RobotX(m, f.pose, c)) else 0.0
  }

  predicate Scanned(m: Model, f: Frame, c: Cell)
    requires ModelOk(m)
  {
    var r := RoiRect(m, f.pose);
    InRect(r.x0, r.x1, r.y0, r.y1, c) && InRoi(m, f.pose, c)
  }

  /** The update frame f applies to the absolute cell c, if any. */
  function Update(m: Model, f: Frame, c: Cell): Option<real>
    requires ModelOk(m) && PointsOk(f.pts)
  {
    var e := FrameEvidence(m, f.pose, f.pts, c);
    if Scanned(m, f, c) && (e > 0.0 || DoMiss(m, f)) then Some(HitMiss(m, f, c, e))
    else if e > 0.0 then Some(Hit(m, e))
    else None
  }

  datatype Val = Val(log: real, seen: bool)

  const BLANK := Val(0.0, false)

  function Updated(m: Model, v: Val, u: Option<real>): Val {
    if u.None? then v else Val(Clamp(v.log + u.value, m.p.lMin, m.p.lMax), true)
  }

  // ---- the evidence does not depend on the order of the points ----

  lemma {:induction false} EvidenceIsMax(m: Model, pose: Pose, pts: seq<Point>, c: Cell)
    requires ModelOk(m) && PointsOk(pts)
    ensures forall k | 0 <= k < |pts| :: PointEvidence(m, pose, pts[k], c) <= FrameEvidence(m, pose, pts, c)
    ensures FrameEvidence(m, pose, pts, c) == 0.0
         || exists k :: 0 <= k < |pts| && PointEvidence(m, pose, pts[k], c) == FrameEvidence(m, pose, pts, c)
  {
    hide PointEvidence;
    if pts != [] {
      var front := pts[..|pts| - 1];
      EvidenceIsMax(m, pose, front, c);
      forall k | 0 <= k < |pts| - 1
        ensures PointEvidence(m, pose, pts[k], c) <= FrameEvidence(m, pose, front, c)
      {
        assert front[k] == pts[k];
      }
      if FrameEvidence(m, pose, pts, c) == FrameEvidence(m, pose, front, c) && FrameEvidence(m, pose, pts, c) != 0.0 {
        var k :| 0 <= k < |front| && PointEvidence(m, pose, front[k], c) == FrameEvidence(m, pose, front, c);
        assert pts[k] == front[k];
      }
    }
  }

  lemma EvidenceAtMost(m: Model, pose: Pose, a: seq<Point>, b: seq<Point>, c: Cell)
    requires ModelOk(m) && PointsOk(a) && PointsOk(b) && multiset(a) <= multiset(b)
    ensures FrameEvidence(m, pose, a, c) <= FrameEvidence(m, pose, b, c)
  {
    hide PointEvidence, FrameEvidence;
    EvidenceIsMax(m, pose, a, c);
    EvidenceIsMax(m, pose, b, c);
    if FrameEvidence(m, pose, a, c) != 0.0 {
      var k :| 0 <= k < |a| && PointEvidence(m, pose, a[k], c) == FrameEvidence(m, pose, a, c);
      assert a[k] in multiset(a);
      assert a[k] in multiset(b);
      var j :| 0 <= j < |b| && b[j] == a[k];
    }
  }
}
