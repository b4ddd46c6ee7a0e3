/** shared_state.hpp, intersection_input.hpp and the intersection nodes on values. */
module SharedSpec {
  import opened Arithmetic
  import opened Options
  import opened DecisionSpec
  import opened Sorting

  // ---- the state shared by the callbacks and the tree ----

  datatype Shared = Shared(obstacles: State, intersections: State,
                           obstacle: Decision, intersection: Decision, active: Decision,
                           obstacleTime: real, intersectionTime: real, lastCompleted: real, turns: seq<int>)

  const START := Shared(INITIAL, INITIAL, NO_DECISION, NO_DECISION, NO_DECISION, NEVER, NEVER, NEVER, [])

  /** The state the executor starts with. */
  function StartWith(turns: seq<int>): Shared {
    START.(turns := turns)
  }

  ghost predicate SharedOk(w: Shared) {
    StateOk(w.obstacles) && StateOk(w.intersections)
  }

  predicate IsIntersectionRule(r: ClassRule) {
    r.action == Intersection || r.markStopSign
  }

  /** The two deciders split the classes; stop lines keep the long memory although they have no ids. */
  function RulesFor(cfg: Config, intersection: bool): Config {
    cfg.(classes := map c | c in cfg.classes && IsIntersectionRule(cfg.classes[c]) == intersection :: cfg.classes[c],
         pseudoTtl := if intersection then cfg.handledTtl else cfg.pseudoTtl)
  }

  function OnDetections(cfg: Config, w: Shared, dets: seq<Detection>, now: real): Shared
    requires SharedOk(w)
  {
    w.(obstacleTime := now,
       obstacles := Updated(RulesFor(cfg, false), w.obstacles, dets, now),
       obstacle := Decide(RulesFor(cfg, false), w.obstacles, dets, now))
  }

  /** The intersection decider before a list, its sign forgotten if the list says so. */
  function BeforeList(s: State, reset: bool): State {
    if reset then s.(stopSignTime := NEVER) else s
  }

  function OnIntersectionDetections(cfg: Config, w: Shared, dets: seq<Detection>, reset: bool, now: real): Shared
    requires SharedOk(w)
  {
    var s := BeforeList(w.intersections, reset);
    w.(intersectionTime := now,
       intersections := Updated(RulesFor(cfg, true), s, dets, now),
       intersection := Decide(RulesFor(cfg, true), s, dets, now))
  }

  /** A fresh STOP first, then a begun intersection, then a fresh new one, then the fresh obstacle decision. */
  function Current(stale: real, w: Shared, t: real): Decision {
    var freshObstacle := t - w.obstacleTime <= stale;
    if freshObstacle && w.obstacle.action == Stop then w.obstacle
    else if w.active.action == Intersection then w.active
    else if t - w.intersectionTime <= stale && w.intersection.action == Intersection then w.intersection
    else if freshObstacle then w.obstacle else NO_DECISION
  }

  function Begin(stale: real, w: Shared, t: real): Shared {
    if w.active.action != Intersection && Current(stale, w, t).action == Intersection
    then w.(active := Current(stale, w, t)) else w
  }

  function MarkStopped(w: Shared): Shared {
    w.(active := w.active.(needsStop := false))
  }

  /** The clock is read twice, for the memory and for the completion time. */
  function Complete(w: Shared, sent: Decision, markTime: real, doneTime: real): Shared
    requires SharedOk(w)
  {
    w.(intersections := Marked(w.intersections, sent, markTime), lastCompleted := doneTime,
       active := NO_DECISION, intersection := NO_DECISION,
       turns := if w.turns == [] then [] else w.turns[1..])
  }

  function ObstacleHandled(w: Shared, d: Decision, now: real): Shared
    requires SharedOk(w)
  {
    w.(obstacles := Marked(w.obstacles, d, now),
       obstacle := if w.obstacle.action == d.action && w.obstacle.obstacleId == d.obstacleId
                  then NO_DECISION else w.obstacle)
  }

  // ---- the turn node ----

  /** The decision of the last goal sent, and when a goal last failed. */
  datatype Turner = Turner(sent: Decision, lastFail: real)

  /** A goal may be sent: the retry pause is over, and the latched intersection does not wait for a stop. */
  predicate MaySend(minRetry: real, t: Turner, w: Shared, now: real) {
    now - t.lastFail >= minRetry && w.active.action == Intersection && !w.active.needsStop
  }

  function GoalFor(minRetry: real, t: Turner, w: Shared, now: real): Option<int> {
    if MaySend(minRetry, t, w, now) && w.turns != [] then Some(w.turns[0]) else None
  }

  function TurnStarted(minRetry: real, t: Turner, w: Shared, now: real, failTime: real): Turner {
    if !MaySend(minRetry, t, w, now) then t
    else if w.turns == [] then t.(lastFail := failTime) else t.(sent := w.active)
  }

  // ---- signs and stop lines ----

  datatype InputConfig = InputConfig(signClass: string, maxAge: real, signTtl: real, minScore: real,
                                     realThreshold: real, minPoints: int, halfWidth: real)

  /** A detection of the sign topic; None stands for a value that is not finite. */
  datatype SignDet = SignDet(className: string, isStopSign: bool, score: Option<real>, depthValid: bool,
                             distance: Option<real>, nPts: int, realProb: Option<real>)

  datatype Input = Input(realSignStamp: real, signInputStamp: real)

  predicate Fresh(maxAge: real, stamp: real, now: real) {
    -0.05 <= now - stamp <= maxAge
  }

  predicate IsSign(ic: InputConfig, d: SignDet) {
    (d.className == ic.signClass || d.isStopSign) && d.score.Some? && d.score.value >= ic.minScore
  }

  function PointsNeeded(ic: InputConfig): int {
    if ic.minPoints > 1 then ic.minPoints else 1
  }

  predicate HasDepth(ic: InputConfig, d: SignDet) {
    d.depthValid && d.distance.Some? && d.distance.value >= 0.0 && d.nPts >= PointsNeeded(ic)
  }

  /** An explicit stop sign whose authenticity is known and high enough. */
  predicate IsReal(ic: InputConfig, d: SignDet) {
    d.isStopSign && d.realProb.Some? && ic.realThreshold <= d.realProb.value <= 1.0
  }

  /** c is a nearest sign with depth of the list, or there is none. */
  ghost predicate IsNearestSign(ic: InputConfig, dets: seq<SignDet>, c: Option<SignDet>) {
    && (c.Some? ==> c.value in dets && IsSign(ic, c.value) && HasDepth(ic, c.value))
    && (forall k | 0 <= k < |dets| && IsSign(ic, dets[k]) && HasDepth(ic, dets[k]) ::
          c.Some? && c.value.distance.Some? && c.value.distance.value <= dets[k].distance.value)
  }

  /** The first of the nearest signs with depth. */
  function NearestSign(ic: InputConfig, dets: seq<SignDet>): (c: Option<SignDet>)
    ensures IsNearestSign(ic, dets, c)
  {
    if dets == [] then None
    else
      var n := |dets| - 1;
      var c := NearestSign(ic, dets[..n]);
      var d := dets[n];
      assert dets == dets[..n] + [d];
      if IsSign(ic, d) && HasDepth(ic, d) && (c.None? || d.distance.value < c.value.distance.value) then Some(d) else c
  }

  predicate SawSign(ic: InputConfig, dets: seq<SignDet>) {
    exists k :: 0 <= k < |dets| && IsSign(ic, dets[k])
  }

  /** A stop line in front of the robot, anchored in the world for the handled memory. */
  function LineDetection(distance: real, points: int, anchor: (real, real)): Detection {
    Detection("stopline", 1.0, points, true, Some(distance), -1, anchor.0, anchor.1, None, 0.0)
  }

  /** The line, and a copy as a sign when a real sign was seen recently and after the last completion. */
  function WithRealSign(ic: InputConfig, inp: Input, lastCompleted: real, line: Detection, now: real): seq<Detection> {
    if now - inp.realSignStamp <= ic.signTtl && inp.realSignStamp > lastCompleted
    then [line, line.(cls := "sign", observedAt := Some(inp.realSignStamp))] else [line]
  }

  /** Sign messages that are too old, or show no sign, are dropped. */
  predicate SignsCount(ic: InputConfig, stamp: real, dets: seq<SignDet>, now: real) {
    Fresh(ic.maxAge, stamp, now) && SawSign(ic, dets)
  }

  /** A stop-line cloud only counts when no sign was seen recently. */
  predicate LineCounts(ic: InputConfig, inp: Input, stamp: real, now: real) {
    Fresh(ic.maxAge, stamp, now) && !Fresh(ic.maxAge, inp.signInputStamp, now)
  }

  /** What a sign message does to the stamps. */
  function SignStamps(ic: InputConfig, inp: Input, stamp: real, dets: seq<SignDet>): Input {
    var c := NearestSign(ic, dets);
    inp.(signInputStamp := stamp,
         realSignStamp := if c.None? then inp.realSignStamp else if IsReal(ic, c.value) then stamp else NEVER)
  }

  /** The detections a sign message hands on; nothing when the world anchor is not available. */
  function SignDetections(ic: InputConfig, inp: Input, lastCompleted: real, dets: seq<SignDet>,
                          anchor: Option<(real, real)>, now: real): seq<Detection> {
    var c := NearestSign(ic, dets);
    if c.None? || anchor.None? then []
    else WithRealSign(ic, inp, lastCompleted, LineDetection(c.value.distance.value, c.value.nPts, anchor.value), now)
  }

  /** Forward distances of the cloud points in the corridor ahead. */
  function Ahead(ic: InputConfig, cloud: seq<(real, real)>): seq<real> {
    if cloud == [] then []
    else
      var p := cloud[|cloud| - 1];
      Ahead(ic, cloud[..|cloud| - 1]) + (if p.0 >= 0.0 && RAbs(p.1) <= ic.halfWidth then [p.0] else [])
  }

  function RealLess(): (real, real) -> bool {
    (a: real, b: real) => a < b
  }

  /** The distance of the line: the tenth of the points nearest to the robot is passed over. */
  function LineEdge(xs: seq<real>): real
    requires xs != []
  {
    InsertionSort(RealLess(), xs)[|xs| / 10]
  }

  function LineDetections(ic: InputConfig, inp: Input, lastCompleted: real, cloud: Option<seq<(real, real)>>,
                          anchor: Option<(real, real)>, now: real): seq<Detection> {
    if cloud.None? || anchor.None? then []
    else
      var xs := Ahead(ic, cloud.value);
      if |xs| < PointsNeeded(ic) then []
      else WithRealSign(ic, inp, lastCompleted, LineDetection(LineEdge(xs), |xs|, anchor.value), now)
  }
}
