/** What the other messages of intersection_input.hpp lead to: signs that are not authentic, not measured or not in
    time, and stop-line clouds. */
module StopLines {
  import opened Options
  import opened Sorting
  import opened DecisionSpec
  import opened SharedSpec
  import opened Maneuver
  import opened RealStops

  // ---- signs ----

  /** Some detection of the message is a sign, measured or not. */
  ghost predicate ShowsSign(ic: InputConfig, msg: seq<SignDet>) {
    exists k :: 0 <= k < |msg| && (msg[k].isStopSign || msg[k].className == ic.signClass)
             && msg[k].score.Some? && msg[k].score.value >= ic.minScore
  }

  predicate InTime(ic: InputConfig, stamp: real, now: real) {
    stamp - 0.05 <= now <= stamp + ic.maxAge
  }

  /** A message that is late, too far ahead of time or without a sign changes nothing. */
  lemma OtherSignsIgnored(c: Setup, w: World, e: Step)
    requires SharedOk(w.shared) && e.Signs? && (!InTime(c.ic, e.stamp, e.now) || !ShowsSign(c.ic, e.msg))
    ensures Apply(c, w, e) == w
  {
    hide NearestSign, IsNearestSign, Updated, Decide;
    if Fresh(c.ic.maxAge, e.stamp, e.now) {
      assert !ShowsSign(c.ic, e.msg);
      NoSignNoMessage(c.ic, e.msg);
    }
  }

  lemma NoSignNoMessage(ic: InputConfig, msg: seq<SignDet>)
    requires !ShowsSign(ic, msg)
    ensures !SawSign(ic, msg)
  {
  }

  lemma SignShown(ic: InputConfig, msg: seq<SignDet>)
    requires ShowsSign(ic, msg)
    ensures SawSign(ic, msg)
  {
    var k :| 0 <= k < |msg| && (msg[k].isStopSign || msg[k].className == ic.signClass)
             && msg[k].score.Some? && msg[k].score.value >= ic.minScore;
    assert IsSign(ic, msg[k]);
  }

  /** A sign without a measured distance only keeps the lines out: no list of detections, and no stamp changes. */
  lemma UnmeasuredSign(c: Setup, w: World, e: Step)
    requires e.Signs? && InTime(c.ic, e.stamp, e.now) && ShowsSign(c.ic, e.msg)
    requires forall k | 0 <= k < |e.msg| :: !Measured(c.ic, e.msg[k])
    ensures ListOf(c, w, e) == Some([]) && !Forgets(c, e)
    ensures InputAfter(c, w, e) == w.input.(signInputStamp := e.stamp)
  {
    hide NearestSign;
    SignShown(c.ic, e.msg);
  }

  /** A message led by a sign that is not authentic makes every earlier sign forgotten: no stop is asked for. */
  lemma FakeSignForgets(c: Setup, w: World, e: Step, k: int)
    requires SharedOk(w.shared) && SignsConfigured(c) && e.now >= 0.0 && w.shared.lastCompleted >= NEVER
    requires e.Signs? && InTime(c.ic, e.stamp, e.now) && Leads(c.ic, e.msg, k) && !Authentic(c.ic, e.msg[k])
    ensures var r := Apply(c, w, e);
            && r.input.realSignStamp == NEVER && r.shared.intersections.stopSignTime == NEVER
            && !r.shared.intersection.needsStop
  {
    hide ListOf, Updated, Decide, Scanned, SignsConfigured;
    LeadIsNearest(c.ic, e.msg, k);
    LeadIsShown(c.ic, e.msg, k);
    FakeStamps(c, w, e, k);
    var s := BeforeList(w.shared.intersections, true);
    ListSetsSign(c, w, e, s);
    var dets := ListOf(c, w, e).value;
    DecisionTellsTime(c, s, dets, e.now);
    StopNeedsSign(c, s, dets, e.now);
  }

  lemma LeadIsShown(ic: InputConfig, msg: seq<SignDet>, k: int)
    requires Leads(ic, msg, k)
    ensures ShowsSign(ic, msg)
  {
  }

  lemma FakeStamps(c: Setup, w: World, e: Step, k: int)
    requires e.Signs? && InTime(c.ic, e.stamp, e.now) && ShowsSign(c.ic, e.msg)
    requires 0 <= k < |e.msg| && NearestSign(c.ic, e.msg) == Some(e.msg[k]) && !Authentic(c.ic, e.msg[k])
    ensures InputAfter(c, w, e).realSignStamp == NEVER && ListOf(c, w, e).Some? && Forgets(c, e)
  {
    hide NearestSign, IsNearestSign, SawSign, SignDetections;
    SignShown(c.ic, e.msg);
    RealIs(c.ic, e.msg[k]);
  }

  // ---- lines ----

  /** A cloud that is not in time, or comes while a sign message is recent, changes nothing. */
  lemma OtherLinesIgnored(c: Setup, w: World, e: Step)
    requires SharedOk(w.shared) && e.Line?
    requires !InTime(c.ic, e.stamp, e.now) || InTime(c.ic, w.input.signInputStamp, e.now)
    ensures Apply(c, w, e) == w
  {
    hide Updated, Decide;
  }

  /** The point lies ahead of the robot, in the corridor. */
  predicate InCorridor(ic: InputConfig, p: (real, real)) {
    p.0 >= 0.0 && -ic.halfWidth <= p.1 <= ic.halfWidth
  }

  function CorridorBelow(ic: InputConfig, cloud: seq<(real, real)>, n: nat): set<int> {
    set k | 0 <= k < n && k < |cloud| && InCorridor(ic, cloud[k])
  }

  lemma {:induction false} AheadIsCorridor(ic: InputConfig, cloud: seq<(real, real)>, n: nat)
    requires n <= |cloud|
    ensures |Ahead(ic, cloud[..n])| == |CorridorBelow(ic, cloud, n)|
  {
    if n > 0 {
      AheadIsCorridor(ic, cloud, n - 1);
      assert cloud[..n][..n - 1] == cloud[..n - 1];
      if InCorridor(ic, cloud[n - 1]) {
        assert CorridorBelow(ic, cloud, n) == CorridorBelow(ic, cloud, n - 1) + {n - 1};
      } else {
        assert CorridorBelow(ic, cloud, n) == CorridorBelow(ic, cloud, n - 1);
      }
    }
  }

  /** The line is at x: a tenth of the points may lie nearer, and no other point does. */
  ghost predicate IsEdge(xs: seq<real>, x: real, low: seq<real>, high: seq<real>) {
    && multiset(xs) == multiset(low + [x] + high) && |low| == |xs| / 10
    && (forall k | 0 <= k < |low| :: low[k] <= x) && (forall k | 0 <= k < |high| :: x <= high[k])
  }

  lemma EdgeIs(xs: seq<real>) returns (low: seq<real>, high: seq<real>)
    requires xs != []
    ensures IsEdge(xs, LineEdge(xs), low, high)
  {
    hide InsertionSort, StrictWeakOn;
    RealsOrdered(Elements(xs));
    AllIn(xs);
    InsertionSortSorts(RealLess(), xs, Elements(xs));
    var s, n := InsertionSort(RealLess(), xs), |xs| / 10;
    low, high := s[..n], s[n + 1..];
    assert s == low + [s[n]] + high;
  }

  lemma RealsOrdered(dom: set<real>)
    ensures StrictWeakOn(RealLess(), dom)
  {
  }

  lemma AllIn(xs: seq<real>)
    ensures forall k | 0 <= k < |xs| :: xs[k] in Elements(xs)
  {
  }

  /** The list is one line, followed by a copy of it as a sign exactly when the real sign was stamped after the last
      completion and no longer ago than a sign lasts. */
  predicate WithCopy(ic: InputConfig, stamp: real, completed: real, dets: seq<Detection>, now: real) {
    && 1 <= |dets| <= 2
    && (|dets| == 2 <==> stamp > completed && now <= stamp + ic.signTtl)
    && (|dets| == 2 ==> dets[1] == dets[0].(cls := "sign", observedAt := Some(stamp)))
  }

  /** d is a stop line at this distance with so many points, at its place in the world, and without an id. */
  predicate IsLine(d: Detection, distance: real, points: int, anchor: (real, real)) {
    && d.cls == "stopline" && d.valid && d.score == 1.0 && d.id == -1 && d.localY == 0.0 && d.observedAt == None
    && d.distance == Some(distance) && d.nPts == points && d.x == anchor.0 && d.y == anchor.1
  }

  /** A cloud that counts hands on a line where enough points lie in the corridor: at least one, and at least
      minPoints. */
  lemma LineHandedOnIff(c: Setup, w: World, e: Step)
    requires e.Line? && InTime(c.ic, e.stamp, e.now) && !InTime(c.ic, w.input.signInputStamp, e.now)
    requires e.cloud.Some? && e.anchor.Some?
    ensures ListOf(c, w, e).Some?
    ensures var n := |CorridorBelow(c.ic, e.cloud.value, |e.cloud.value|)|; var dets := ListOf(c, w, e).value;
            && (dets != [] <==> n >= 1 && n >= c.ic.minPoints)
            && (dets != [] ==>
                  && IsLine(dets[0], LineEdge(Ahead(c.ic, e.cloud.value)), n, e.anchor.value)
                  && WithCopy(c.ic, w.input.realSignStamp, w.shared.lastCompleted, dets, e.now))
  {
    hide Ahead, LineEdge;
    var cloud := e.cloud.value;
    AheadIsCorridor(c.ic, cloud, |cloud|);
    assert cloud[..|cloud|] == cloud;
  }

  /** A sign message led by sign k hands on a line at the distance of that sign, authentic or not. */
  lemma LeadHandedOn(c: Setup, w: World, e: Step, k: int)
    requires e.Signs? && InTime(c.ic, e.stamp, e.now) && Leads(c.ic, e.msg, k) && e.anchor.Some?
    ensures ListOf(c, w, e).Some? && InputAfter(c, w, e).signInputStamp == e.stamp
    ensures var dets := ListOf(c, w, e).value;
            && WithCopy(c.ic, InputAfter(c, w, e).realSignStamp, w.shared.lastCompleted, dets, e.now)
            && IsLine(dets[0], e.msg[k].distance.value, e.msg[k].nPts, e.anchor.value)
    ensures InputAfter(c, w, e).realSignStamp == if Authentic(c.ic, e.msg[k]) then e.stamp else NEVER
  {
    hide NearestSign, IsNearestSign, SawSign, ShowsSign, Measured;
    LeadIsNearest(c.ic, e.msg, k);
    LeadIsShown(c.ic, e.msg, k);
    SignShown(c.ic, e.msg);
    RealIs(c.ic, e.msg[k]);
  }
}
