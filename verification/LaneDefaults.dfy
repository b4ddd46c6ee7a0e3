/** The parameters that the mapping node declares, and what they mean for the scan. */
module LaneDefaults {
  import opened Arithmetic
  import opened Options
  import opened RingWindow
  import opened LaneMap
  import opened LaneScan

  const DECLARED := Params(0.1, 250, 250, 1.02, 7.72, 1.93, 11.02, 0.09, 0.0, 0.002, 5.0,
                           0.9, -0.12, -2.0, 5.0, 1.5, 30, 1, 3)

  /** The robot at the origin of the odometry frame, turned by the angle with sine 0.6 and cosine 0.8. */
  const TURNED := Pose(0.0, 0.0, 0.6, 0.8)

  /** The robot 20 m ahead, not turned. */
  const AHEAD := Pose(20.0, 0.0, 0.0, 1.0)

  function Node(exp: real -> real): Model {
    Model(DECLARED, exp)
  }

  lemma {:induction false} FourBounds(a: (real, real), b: (real, real), c: (real, real), d: (real, real))
    ensures BoundsOf([a, b, c, d]) ==
            Bounds(RMin(RMin(RMin(RMin(FAR, a.0), b.0), c.0), d.0), RMax(RMax(RMax(RMax(-FAR, a.0), b.0), c.0), d.0),
                   RMin(RMin(RMin(RMin(FAR, a.1), b.1), c.1), d.1), RMax(RMax(RMax(RMax(-FAR, a.1), b.1), c.1), d.1))
  {
    hide RMin, RMax;
    assert [a, b, c, d][..3] == [a, b, c];
    assert [a, b, c][..2] == [a, b];
    assert [a, b][..1] == [a];
    assert [a][..0] == [];
    assert BoundsOf([a]) == Bounds(RMin(FAR, a.0), RMax(-FAR, a.0), RMin(FAR, a.1), RMax(-FAR, a.1));
    assert BoundsOf([a, b, c]) ==
           Bounds(RMin(RMin(RMin(FAR, a.0), b.0), c.0), RMax(RMax(RMax(-FAR, a.0), b.0), c.0),
                  RMin(RMin(RMin(FAR, a.1), b.1), c.1), RMax(RMax(RMax(-FAR, a.1), b.1), c.1));
  }

  lemma TurnedBounds(exp: real -> real)
    ensures BoundsOf(Corners(Node(exp), TURNED)) == Bounds(-5.796, 12.788, -8.204, 13.448)
  {
    hide BoundsOf;
    FourBounds((7.428, -8.204), (-5.796, 9.428), (12.788, -4.184), (-0.436, 13.448));
    assert Corners(Node(exp), TURNED) == [(7.428, -8.204), (-5.796, 9.428), (12.788, -4.184), (-0.436, 13.448)];
  }

  lemma AheadBounds(exp: real -> real)
    ensures BoundsOf(Corners(Node(exp), AHEAD)) == Bounds(21.02, 27.72, -11.02, 11.02)
  {
    hide BoundsOf;
    FourBounds((21.02, -11.02), (21.02, 11.02), (27.72, -11.02), (27.72, 11.02));
    assert Corners(Node(exp), AHEAD) == [(21.02, -11.02), (21.02, 11.02), (27.72, -11.02), (27.72, 11.02)];
  }

  /** Node(exp) is a model for every nonnegative exp. */
  lemma NodeOk(exp: real -> real)
    requires forall t :: exp(t) >= 0.0
    ensures ModelOk(Node(exp))
  {
  }

  lemma TurnedRect(exp: real -> real)
    requires forall t :: exp(t) >= 0.0
    ensures ModelOk(Node(exp)) && OriginOf(Node(exp), TURNED) == Cell(-125, -125)
    ensures RoiRect(Node(exp), TURNED) == Rect(-58, 127, -83, 134)
  {
    hide BoundsOf, Corners;
    TurnedBounds(exp);
  }

  lemma AheadRect(exp: real -> real)
    requires forall t :: exp(t) >= 0.0
    ensures ModelOk(Node(exp)) && OriginOf(Node(exp), AHEAD) == Cell(75, -125)
    ensures forall c :: InBox(Node(exp), AHEAD, c) <==> InRect(210, 277, -111, 110, c)
  {
    hide BoundsOf, Corners;
    AheadBounds(exp);
  }

  /** With the declared parameters the scan leaves the window: the cell (127, 45) outside is scanned, and
      the window cell (-123, 45), for which the frame has nothing, is updated through the slot they share. */
  lemma DeclaredScanLeavesTheWindow(exp: real -> real)
    requires forall t :: exp(t) >= 0.0
    ensures ModelOk(Node(exp))
    ensures var m, f, c, d := Node(exp), Frame([], TURNED, 30), Cell(-123, 45), Cell(127, 45);
            && !RoiFits(m, f.pose) && Inside(m, OriginOf(m, f.pose), c) && !Inside(m, OriginOf(m, f.pose), d)
            && Scanned(m, f, d) && Update(m, f, c) == None
            && Updates(m, f, c) != [] && UpdatedAll(m, BLANK, Updates(m, f, c)).seen && !Exact(m, f)
  {
    hide OriginOf, RoiRect, Sharers, ScanList, InRoi, Updates, UpdatedAll, Exact, DECLARED;
    var m, f, c, d := Node(exp), Frame([], TURNED, 30), Cell(-123, 45), Cell(127, 45);
    TurnedRect(exp);
    NodeSizes(exp);
    TurnedRoi(exp);
    SameLine();
    UpdatedIff(m, f, c);
    SeenAfter(m, BLANK, Updates(m, f, c));
    NotExact(m, f, c);
  }

  lemma NodeSizes(exp: real -> real)
    ensures Node(exp).p.w == Node(exp).p.h == 250 && Node(exp).p.minPointsForMiss == 30
  {
  }

  lemma TurnedRoi(exp: real -> real)
    requires forall t :: exp(t) >= 0.0
    ensures ModelOk(Node(exp)) && InRoi(Node(exp), TURNED, Cell(127, 45))
  {
    NodeOk(exp);
    assert RobotX(Node(exp), TURNED, Cell(127, 45)) == 7.47;
    assert RobotY(Node(exp), TURNED, Cell(127, 45)) == -4.92;
    assert HalfWidth(Node(exp), 7.47) >= 4.92;
  }

  lemma SameLine()
    ensures Congruent(250, 250, Cell(-123, 45), Cell(127, 45))
  {
    ResidueShift(-123, 250);
  }

  /** With the declared parameters, 20 m along the x axis, the window cell (260, 0) lies in the region of
      interest and is not scanned. */
  lemma DeclaredScanLeavesOut(exp: real -> real)
    requires forall t :: exp(t) >= 0.0
    ensures ModelOk(Node(exp))
    ensures var m, f, c := Node(exp), Frame([], AHEAD, 30), Cell(260, 0);
            && Inside(m, OriginOf(m, f.pose), c) && InBox(m, f.pose, c) && InRoi(m, f.pose, c)
            && !Scanned(m, f, c) && Update(m, f, c) == None
  {
    hide OriginOf, InBox, InRoi, Scanned, DECLARED;
    AheadRect(exp);
    NodeSizes(exp);
    AheadRoi(exp);
    ScannedIff(Node(exp), Frame([], AHEAD, 30), Cell(260, 0));
  }

  lemma AheadRoi(exp: real -> real)
    requires forall t :: exp(t) >= 0.0
    ensures ModelOk(Node(exp)) && InRoi(Node(exp), AHEAD, Cell(260, 0))
  {
    NodeOk(exp);
    assert RobotX(Node(exp), AHEAD, Cell(260, 0)) == 6.05;
    assert RobotY(Node(exp), AHEAD, Cell(260, 0)) == 0.0;
    assert HalfWidth(Node(exp), 6.05) >= 0.0;
  }
}
