/** A real stop sign leads to a stop: what an authentic sign, in the fields of the message, does to the decider,
    how long it lasts, and that the intersection latched then waits for its stop. */
module RealStops {
  import opened Options
  import opened DecisionSpec
  import opened SharedSpec
  import opened Maneuver

  /** A sign of the message that was measured. */
  predicate Measured(ic: InputConfig, d: SignDet) {
    && (d.isStopSign || d.className == ic.signClass) && d.score.Some? && d.score.value >= ic.minScore
    && d.depthValid && d.distance.Some? && d.distance.value >= 0.0 && d.nPts >= 1 && d.nPts >= ic.minPoints
  }

  /** An explicit stop sign that is probably real. */
  predicate Authentic(ic: InputConfig, d: SignDet) {
    d.isStopSign && d.realProb.Some? && d.realProb.value >= ic.realThreshold && d.realProb.value <= 1.0
  }

  /** Sign k is measured, and every other measured sign is further away, or as far and later in the message. */
  ghost predicate Leads(ic: InputConfig, msg: seq<SignDet>, k: int) {
    && 0 <= k < |msg| && Measured(ic, msg[k])
    && forall j | 0 <= j < |msg| && j != k && Measured(ic, msg[j]) ::
         msg[j].distance.value > msg[k].distance.value || (msg[j].distance.value == msg[k].distance.value && j > k)
  }

  /** The class "sign" marks stop signs, and accepts one at this distance with so many points. */
  predicate Accepts(cfg: Config, distance: real, points: int) {
    && "sign" in cfg.classes && cfg.classes["sign"].markStopSign && distance <= cfg.classes["sign"].triggerDistance
    && cfg.minPoints <= points && cfg.minScore <= 1.0 && cfg.maxLateralOffset >= 0.0
  }

  /** A sign message that arrives in time, not from before the last completion, with its place in the world, and led
      by an authentic stop sign in the reach of the class "sign". */
  ghost predicate TellsStop(c: Setup, lastCompleted: real, e: Step, k: int) {
    && e.Signs? && e.anchor.Some? && e.stamp <= e.now + 0.05 && e.now <= e.stamp + c.ic.maxAge
    && e.stamp > lastCompleted && e.now <= e.stamp + c.ic.signTtl
    && Leads(c.ic, e.msg, k) && Authentic(c.ic, e.msg[k]) && Accepts(c.cfg, e.msg[k].distance.value, e.msg[k].nPts)
  }

  // ---- the message ----

  lemma MeasuredIs(ic: InputConfig, d: SignDet)
    ensures Measured(ic, d) <==> IsSign(ic, d) && HasDepth(ic, d)
  {
  }

  lemma {:induction false} LeadIsNearest(ic: InputConfig, msg: seq<SignDet>, k: int)
    requires Leads(ic, msg, k)
    ensures NearestSign(ic, msg) == Some(msg[k])
    decreases |msg|
  {
    hide IsSign, HasDepth, IsNearestSign;
    var n := |msg| - 1;
    MeasuredIs(ic, msg[n]);
    MeasuredIs(ic, msg[k]);
    if k < n {
      assert forall j | 0 <= j < n :: msg[..n][j] == msg[j];
      LeadIsNearest(ic, msg[..n], k);
    } else {
      NearestFurther(ic, msg, k);
    }
  }

  lemma NearestFurther(ic: InputConfig, msg: seq<SignDet>, k: int)
    requires Leads(ic, msg, k) && k == |msg| - 1
    ensures var c := NearestSign(ic, msg[..k]);
            c.Some? ==> c.value.distance.Some? && c.value.distance.value > msg[k].distance.value
  {
    hide IsSign, HasDepth;
    var c := NearestSign(ic, msg[..k]);
    if c.Some? {
      var j :| 0 <= j < k && msg[..k][j] == c.value;
      MeasuredIs(ic, msg[j]);
    }
  }

  /** What the message hands on: the line, and the same as a sign seen at the stamp. */
  lemma HandsOnSign(c: Setup, w: World, e: Step, k: int)
    requires TellsStop(c, w.shared.lastCompleted, e, k)
    ensures InputAfter(c, w, e).realSignStamp == e.stamp && Forgets(c, e)
    ensures var line := LineDetection(e.msg[k].distance.value, e.msg[k].nPts, e.anchor.value);
            ListOf(c, w, e) == Some([line, line.(cls := "sign", observedAt := Some(e.stamp))])
  {
    hide IsSign, HasDepth, IsNearestSign, NearestSign;
    LeadIsNearest(c.ic, e.msg, k);
    MeasuredIs(c.ic, e.msg[k]);
    assert SawSign(c.ic, e.msg);
    RealIs(c.ic, e.msg[k]);
  }

  lemma RealIs(ic: InputConfig, d: SignDet)
    ensures Authentic(ic, d) <==> IsReal(ic, d)
  {
  }

  lemma SignIsTaken(c: Setup, s: State, line: Detection, stamp: real, now: real)
    requires line.distance.Some? && line.distance.value >= 0.0 && line.valid && line.score == 1.0 && line.localY == 0.0
    requires Accepts(c.cfg, line.distance.value, line.nPts)
    ensures var dets := [line, line.(cls := "sign", observedAt := Some(stamp))];
            Scanned(Rules(c), s, dets, now).stopSignTime == stamp
  {
    hide Known, Refreshed, Nearer, Expired, InRange;
    var sign := line.(cls := "sign", observedAt := Some(stamp));
    var dets := [line, sign];
    SignInRange(c, sign);
    var start := Scan([None, None, None], Expired(Rules(c), s.handled, now), s.stopSignTime);
    assert dets[..1] == [line];
    var one := ScanAll(Rules(c), start, [line], now);
    assert ScanAll(Rules(c), start, dets, now) == ScanOne(Rules(c), one, sign, now);
  }

  lemma SignInRange(c: Setup, sign: Detection)
    requires sign.distance.Some? && sign.distance.value >= 0.0 && sign.valid && sign.score == 1.0 && sign.localY == 0.0
    requires Accepts(c.cfg, sign.distance.value, sign.nPts) && sign.cls == "sign"
    ensures InRange(Rules(c), sign) && Rules(c).classes["sign"].markStopSign
  {
  }

  /** The decider asks for a stop as long as less than stopSignTtl has passed since the sign. */
  ghost predicate SignHolds(c: Setup, w: World, stamp: real) {
    && w.input.realSignStamp == stamp && w.shared.intersections.stopSignTime == stamp
    && (w.shared.intersection.action == Intersection ==>
          (w.shared.intersection.needsStop <==> w.shared.intersectionTime < stamp + c.cfg.stopSignTtl))
  }

  lemma DecisionTellsTime(c: Setup, s: State, dets: seq<Detection>, now: real)
    requires StateOk(s)
    ensures Updated(Rules(c), s, dets, now).stopSignTime == Scanned(Rules(c), s, dets, now).stopSignTime
    ensures var d := Decide(Rules(c), s, dets, now);
            d.action == Intersection ==>
              (d.needsStop <==> now < Scanned(Rules(c), s, dets, now).stopSignTime + c.cfg.stopSignTtl)
  {
    hide Scanned;
  }

  /** After such a message every intersection that is reported asks for a stop, within the time of the sign. */
  lemma RealSignTellsStop(c: Setup, w: World, e: Step, k: int)
    requires SharedOk(w.shared) && TellsStop(c, w.shared.lastCompleted, e, k)
    ensures SignHolds(c, Apply(c, w, e), e.stamp)
    ensures Apply(c, w, e).shared.intersectionTime == e.now
  {
    hide ListOf, InputAfter, Forgets, Updated, Decide, Scanned, Measured, Authentic, LineDetection;
    HandsOnSign(c, w, e, k);
    LeadDistance(c.ic, e.msg, k);
    var line := LineDetection(e.msg[k].distance.value, e.msg[k].nPts, e.anchor.value);
    var dets := [line, line.(cls := "sign", observedAt := Some(e.stamp))];
    LineIs(e.msg[k].distance.value, e.msg[k].nPts, e.anchor.value);
    var s := BeforeList(w.shared.intersections, true);
    SignIsTaken(c, s, line, e.stamp, e.now);
    DecisionTellsTime(c, s, dets, e.now);
  }

  lemma LeadDistance(ic: InputConfig, msg: seq<SignDet>, k: int)
    requires Leads(ic, msg, k)
    ensures msg[k].distance.Some? && msg[k].distance.value >= 0.0
  {
  }

  lemma LineIs(distance: real, points: int, anchor: (real, real))
    ensures var line := LineDetection(distance, points, anchor);
            && line.distance == Some(distance) && line.nPts == points && line.valid && line.score == 1.0
            && line.localY == 0.0
  {
  }

  // ---- afterwards ----

  /** Step k tells a stop, and no sign message and no completion came after it. */
  ghost predicate StopTold(c: Setup, es: seq<Step>, k: int, j: int) {
    && 0 <= k < |es| && TellsStop(c, Run(c, es[..k]).shared.lastCompleted, es[k], j)
    && forall i | k < i < |es| :: !es[i].Signs? && !Succeeds(es[i])
  }

  lemma LineKeepsSign(c: Setup, w: World, e: Step, stamp: real)
    requires SharedOk(w.shared) && SignsConfigured(c) && SignHolds(c, w, stamp) && e.Line?
    ensures SignHolds(c, Apply(c, w, e), stamp)
    ensures Apply(c, w, e).shared.intersectionTime in {w.shared.intersectionTime, e.now}
  {
    hide ListOf, Updated, Decide, Scanned, SignsConfigured;
    if ListOf(c, w, e).Some? {
      ListSetsSign(c, w, e, w.shared.intersections);
      DecisionTellsTime(c, w.shared.intersections, ListOf(c, w, e).value, e.now);
    }
  }

  lemma OtherKeepsSign(c: Setup, w: World, e: Step, stamp: real)
    requires SharedOk(w.shared) && SignHolds(c, w, stamp) && !e.Line? && !e.Signs? && !Succeeds(e)
    ensures SignHolds(c, Apply(c, w, e), stamp)
    ensures Apply(c, w, e).shared.intersectionTime == w.shared.intersectionTime
  {
    hide Updated, Decide, RulesFor, Marked, Current;
  }

  /** The sign lasts through stop lines, ticks and failures, until the next sign message or completion. */
  lemma {:induction false} SignLasts(c: Setup, es: seq<Step>, k: int, j: int)
    requires SignsConfigured(c) && Possible(c, es) && StopTold(c, es, k, j)
    ensures SignHolds(c, Run(c, es), es[k].stamp) && Run(c, es).shared.intersectionTime <= Clock(es)
    decreases |es|
  {
    hide Apply, SignsConfigured, Enabled, Leads, Authentic, Accepts, SignHolds;
    var n := |es| - 1;
    PossiblePrefix(c, es, n);
    if k == n {
      RealSignTellsStop(c, Run(c, es[..n]), es[n], j);
    } else {
      assert es[..n][..k] == es[..k] && es[..n][k] == es[k];
      assert forall i | k < i < n :: es[..n][i] == es[i];
      SignLasts(c, es[..n], k, j);
      if es[n].Line? {
        LineKeepsSign(c, Run(c, es[..n]), es[n], es[k].stamp);
      } else {
        OtherKeepsSign(c, Run(c, es[..n]), es[n], es[k].stamp);
      }
    }
  }

  /** A real sign leads to a stop: an intersection latched after it, less than stopSignTtl after its stamp, needs a
      stop until one is marked. */
  lemma RealSignStops(c: Setup, es: seq<Step>, k: int, j: int, m: int)
    requires SignsConfigured(c) && Possible(c, es) && LatchedAt(c, es, m) && k < m && StopTold(c, es[..m], k, j)
    requires es[m].now < es[k].stamp + c.cfg.stopSignTtl
    ensures Run(c, es).shared.active.action == Intersection
    ensures Run(c, es).shared.active.needsStop <==> !StopMarked(es, m + 1)
  {
    hide Run, Possible, SignsConfigured, TellsStop, StopMarked, NoSuccess;
    PossiblePrefix(c, es, m);
    SignLasts(c, es[..m], k, j);
    StartsLater(c, es, m);
    var w := Run(c, es[..m]).shared;
    assert es[..m][k] == es[k];
    assert w.intersection.needsStop;
    SuccessLater(es, m);
    BegunStaysLatched(c, es, m + 1);
  }

  lemma SuccessLater(es: seq<Step>, m: nat)
    requires NoSuccess(es, m)
    ensures NoSuccess(es, m + 1)
  {
  }

  lemma StartsLater(c: Setup, es: seq<Step>, m: nat)
    requires Possible(c, es) && m < |es|
    ensures Clock(es[..m]) <= es[m].now
  {
    hide Run, Enabled;
    PossiblePrefix(c, es, m + 1);
    assert es[..m + 1][..m] == es[..m];
  }
}
