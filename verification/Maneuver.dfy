/** Every interleaving of the detection callbacks and the intersection nodes over the shared state.
    One step is one callback or one call of a node; a node's goal is pending until its result or its halt. */
module Maneuver {
  import opened Options
  import opened DecisionSpec
  import opened SharedSpec
  import T = DecisionTraces
  import S = Slots

  datatype Setup = Setup(cfg: Config, ic: InputConfig, stale: real, minRetry: real, turns: seq<int>)

  datatype Step =
    | ObstacleList(now: real, dets: seq<Detection>)
    | Signs(now: real, stamp: real, msg: seq<SignDet>, anchor: Option<(real, real)>)
    | Line(now: real, stamp: real, cloud: Option<seq<(real, real)>>, anchor: Option<(real, real)>)
    | BeginTick(now: real)
    | StoppedTick(now: real)
    | TurnStart(now: real, failTime: real)
    | TurnResult(now: real, succeeded: bool, doneTime: real)
    | TurnFailure(now: real, invalidGoal: bool)
    | TurnHalt(now: real)
    | LaneDone(now: real, handled: Decision)

  datatype World = World(shared: Shared, input: Input, turner: Turner, goal: Option<int>)

  function Rules(c: Setup): Config {
    RulesFor(c.cfg, true)
  }

  function Initial(c: Setup): World {
    World(StartWith(c.turns), Input(NEVER, NEVER), Turner(NO_DECISION, NEVER), None)
  }

  /** The detection list a step hands to the intersection decider, if any. */
  function ListOf(c: Setup, w: World, e: Step): Option<seq<Detection>> {
    match e
    case Signs(now, stamp, msg, anchor) =>
      if SignsCount(c.ic, stamp, msg, now)
      then Some(SignDetections(c.ic, SignStamps(c.ic, w.input, stamp, msg), w.shared.lastCompleted, msg, anchor, now))
      else None
    case Line(now, stamp, cloud, anchor) =>
      if LineCounts(c.ic, w.input, stamp, now)
      then Some(LineDetections(c.ic, w.input, w.shared.lastCompleted, cloud, anchor, now))
      else None
    case _ => None
  }

  /** A list with a measured sign makes the decider forget the sign it knew. */
  predicate Forgets(c: Setup, e: Step) {
    e.Signs? && NearestSign(c.ic, e.msg).Some?
  }

  function InputAfter(c: Setup, w: World, e: Step): Input {
    if e.Signs? && SignsCount(c.ic, e.stamp, e.msg, e.now) then SignStamps(c.ic, w.input, e.stamp, e.msg) else w.input
  }

  function Apply(c: Setup, w: World, e: Step): (r: World)
    requires SharedOk(w.shared)
    ensures SharedOk(r.shared)
  {
    match e
    case ObstacleList(now, dets) => w.(shared := OnDetections(c.cfg, w.shared, dets, now))
    case Signs(_, _, _, _) => HandOn(c, w, e)
    case Line(_, _, _, _) => HandOn(c, w, e)
    case BeginTick(now) => w.(shared := Begin(c.stale, w.shared, now))
    case StoppedTick(_) => w.(shared := MarkStopped(w.shared))
    case TurnStart(now, failTime) =>
      w.(turner := TurnStarted(c.minRetry, w.turner, w.shared, now, failTime),
         goal := GoalFor(c.minRetry, w.turner, w.shared, now))
    case TurnResult(now, succeeded, doneTime) =>
      if succeeded then w.(shared := Complete(w.shared, w.turner.sent, now, doneTime), goal := None)
      else w.(turner := w.turner.(lastFail := now), goal := None)
    case TurnFailure(now, invalidGoal) =>
      w.(turner := if invalidGoal then w.turner else w.turner.(lastFail := now), goal := None)
    case TurnHalt(_) => w.(goal := None)
    case LaneDone(now, d) => w.(shared := ObstacleHandled(w.shared, d, now))
  }

  function HandOn(c: Setup, w: World, e: Step): (r: World)
    requires SharedOk(w.shared)
    ensures SharedOk(r.shared)
  {
    var dets := ListOf(c, w, e);
    if dets.None? then w
    else World(OnIntersectionDetections(c.cfg, w.shared, dets.value, Forgets(c, e), e.now),
               InputAfter(c, w, e), w.turner, w.goal)
  }

  function Run(c: Setup, es: seq<Step>): (w: World)
    ensures SharedOk(w.shared)
  {
    if es == [] then Initial(c) else Apply(c, Run(c, es[..|es| - 1]), es[|es| - 1])
  }

  function Until(e: Step): real {
    if e.TurnStart? then e.failTime else if e.TurnResult? then e.doneTime else e.now
  }

  function Clock(es: seq<Step>): real {
    if es == [] then 0.0 else Until(es[|es| - 1])
  }

  /** A goal is started when none is pending; a result belongs to a pending goal. */
  predicate Enabled(w: World, e: Step) {
    (e.TurnStart? ==> w.goal.None?) && (e.TurnResult? ==> w.goal.Some?)
  }

  /** The clock starts at 0 or later and never runs backwards. */
  ghost predicate Possible(c: Setup, es: seq<Step>) {
    es == [] ||
    var front, e := es[..|es| - 1], es[|es| - 1];
    Possible(c, front) && Clock(front) <= e.now <= Until(e) && Enabled(Run(c, front), e)
  }

  predicate Succeeds(e: Step) {
    e.TurnResult? && e.succeeded
  }

  predicate NoSuccess(es: seq<Step>, k: nat) {
    forall i | k <= i < |es| :: !Succeeds(es[i])
  }

  predicate StopMarked(es: seq<Step>, k: nat) {
    exists i :: k <= i < |es| && es[i].StoppedTick?
  }

  lemma {:induction false} PossiblePrefix(c: Setup, es: seq<Step>, n: nat)
    requires Possible(c, es) && n <= |es|
    ensures Possible(c, es[..n]) && 0.0 <= Clock(es[..n]) <= Clock(es)
  {
    hide Run, Enabled;
    if n < |es| {
      PossiblePrefix(c, es[..|es| - 1], n);
      assert es[..|es| - 1][..n] == es[..n];
    } else {
      assert es[..n] == es;
      if n > 0 {
        PossiblePrefix(c, es[..n - 1], n - 1);
      }
    }
  }

  // ---- the obstacle stream never reports an intersection ----

  lemma NoIntersectionRule(cfg: Config, s: State, dets: seq<Detection>, now: real)
    ensures Scanned(RulesFor(cfg, false), s, dets, now).best[2].None?
  {
    hide Scanned, Matches;
    T.CandidateIsNearestEligible(RulesFor(cfg, false), s, dets, now, 2);
  }

  lemma ObstacleListReports(cfg: Config, s: State, dets: seq<Detection>, now: real)
    requires StateOk(s) && s.holdUntil[2] == 0.0 && now >= 0.0
    ensures Updated(RulesFor(cfg, false), s, dets, now).holdUntil[2] == 0.0
    ensures Decide(RulesFor(cfg, false), s, dets, now).action != Intersection
  {
    hide Scanned, RulesFor;
    NoIntersectionRule(cfg, s, dets, now);
  }

  ghost predicate ObstaclesOk(w: Shared) {
    StateOk(w.obstacles) && w.obstacles.holdUntil[2] == 0.0 && w.obstacle.action != Intersection
  }

  lemma StepKeepsObstacles(c: Setup, w: World, e: Step)
    requires SharedOk(w.shared) && ObstaclesOk(w.shared) && e.now >= 0.0
    ensures ObstaclesOk(Apply(c, w, e).shared)
  {
    hide Updated, Decide, RulesFor, ListOf, InputAfter, Forgets, Current;
    if e.ObstacleList? {
      ObstacleListReports(c.cfg, w.shared.obstacles, e.dets, e.now);
    }
  }

  // ---- the latch and the pending goal ----

  /** Nothing is latched or an intersection is; a pending goal is the next turn of the latched intersection. */
  ghost predicate TurnOk(w: World) {
    && (w.shared.active == NO_DECISION || w.shared.active.action == Intersection)
    && (w.goal.Some? ==>
          && w.shared.active.action == Intersection && !w.shared.active.needsStop
          && w.turner.sent == w.shared.active && w.shared.turns != [] && w.goal.value == w.shared.turns[0])
  }

  lemma StepKeepsTurn(c: Setup, w: World, e: Step)
    requires SharedOk(w.shared) && TurnOk(w) && Enabled(w, e)
    ensures TurnOk(Apply(c, w, e))
  {
    hide Updated, Decide, RulesFor, ListOf, InputAfter, Forgets, Marked, Current;
  }

  lemma {:induction false} RunOk(c: Setup, es: seq<Step>)
    requires Possible(c, es)
    ensures ObstaclesOk(Run(c, es).shared) && TurnOk(Run(c, es))
  {
    hide Apply, Enabled, TurnOk, ObstaclesOk;
    if es != [] {
      var n := |es| - 1;
      RunOk(c, es[..n]);
      PossiblePrefix(c, es, n);
      StepKeepsTurn(c, Run(c, es[..n]), es[n]);
      StepKeepsObstacles(c, Run(c, es[..n]), es[n]);
    } else {
      InitialOk(c);
    }
  }

  lemma InitialOk(c: Setup)
    ensures ObstaclesOk(Initial(c).shared) && TurnOk(Initial(c))
  {
  }

  // ---- the turns ----

  /** The turns of the goals that succeeded. */
  function Finished(c: Setup, es: seq<Step>): seq<int> {
    if es == [] then []
    else
      var n := |es| - 1;
      var goal := Run(c, es[..n]).goal;
      Finished(c, es[..n]) + if Succeeds(es[n]) && goal.Some? then [goal.value] else []
  }

  lemma StepConsumes(c: Setup, w: World, e: Step)
    requires SharedOk(w.shared) && TurnOk(w) && Enabled(w, e)
    ensures (if Succeeds(e) then [w.goal.value] else []) + Apply(c, w, e).shared.turns == w.shared.turns
  {
    hide Updated, Decide, RulesFor, ListOf, InputAfter, Forgets, Marked, Current;
  }

  /** The finished turns and the waiting ones are the configured list: successes take them in order,
      and failed, rejected and halted goals take none. */
  lemma {:induction false} TurnsFinishInOrder(c: Setup, es: seq<Step>)
    requires Possible(c, es)
    ensures Finished(c, es) + Run(c, es).shared.turns == c.turns
  {
    hide Apply, TurnOk, ObstaclesOk, Enabled;
    if es != [] {
      var n := |es| - 1;
      TurnsFinishInOrder(c, es[..n]);
      RunOk(c, es[..n]);
      StepConsumes(c, Run(c, es[..n]), es[n]);
      SuccessHasGoal(Run(c, es[..n]), es[n]);
    }
  }

  lemma SuccessHasGoal(w: World, e: Step)
    requires Enabled(w, e)
    ensures Succeeds(e) ==> w.goal.Some?
  {
  }

  // ---- the latch ----

  lemma StepKeepsLatch(c: Setup, w: World, e: Step)
    requires SharedOk(w.shared) && w.shared.active.action == Intersection && !Succeeds(e)
    ensures Apply(c, w, e).shared.active
         == if e.StoppedTick? then w.shared.active.(needsStop := false) else w.shared.active
  {
    hide Updated, Decide, RulesFor, ListOf, InputAfter, Forgets, Marked, Current;
  }

  /** A begun intersection stays latched until a goal for it succeeds; only its need to stop may end. */
  lemma {:induction false} BegunStaysLatched(c: Setup, es: seq<Step>, k: nat)
    requires k <= |es| && Run(c, es[..k]).shared.active.action == Intersection && NoSuccess(es, k)
    ensures var begun := Run(c, es[..k]).shared.active;
            Run(c, es).shared.active == begun.(needsStop := begun.needsStop && !StopMarked(es, k))
  {
    hide Apply;
    var n := |es| - 1;
    if k == |es| {
      assert es[..k] == es;
    } else {
      assert es[..n][..k] == es[..k];
      assert forall i | 0 <= i < n :: es[..n][i] == es[i];
      BegunStaysLatched(c, es[..n], k);
      StepKeepsLatch(c, Run(c, es[..n]), es[n]);
      StopMarkedGrows(es, k, n);
    }
  }

  lemma StopMarkedGrows(es: seq<Step>, k: nat, n: nat)
    requires |es| == n + 1 && k <= n
    ensures StopMarked(es, k) <==> StopMarked(es[..n], k) || es[n].StoppedTick?
  {
    if StopMarked(es[..n], k) {
      var i :| k <= i < n && es[..n][i].StoppedTick?;
      assert es[i].StoppedTick?;
    }
    if StopMarked(es, k) && !es[n].StoppedTick? {
      var i :| k <= i < |es| && es[i].StoppedTick?;
      assert es[..n][i].StoppedTick?;
    }
  }

  /** While an intersection is latched the tree sees that decision, or a STOP from a fresh obstacle list. */
  lemma OnlyFreshStopPreempts(c: Setup, es: seq<Step>, k: nat, t: real)
    requires k <= |es| && Run(c, es[..k]).shared.active.action == Intersection && NoSuccess(es, k)
    ensures var w := Run(c, es).shared;
            var begun := Run(c, es[..k]).shared.active;
            Current(c.stale, w, t) ==
              if t - w.obstacleTime <= c.stale && w.obstacle.action == Stop then w.obstacle
              else begun.(needsStop := begun.needsStop && !StopMarked(es, k))
  {
    hide Run, StopMarked;
    BegunStaysLatched(c, es, k);
  }

  /** What is latched was the fresh decision of the intersection stream. */
  lemma LatchesTheReport(c: Setup, w: World, e: Step)
    requires SharedOk(w.shared) && ObstaclesOk(w.shared) && TurnOk(w)
    requires w.shared.active.action != Intersection && Apply(c, w, e).shared.active.action == Intersection
    ensures e.BeginTick? && Apply(c, w, e).shared.active == w.shared.intersection
    ensures w.shared.intersection.action == Intersection && e.now - w.shared.intersectionTime <= c.stale
  {
    hide Updated, Decide, RulesFor, ListOf, InputAfter, Forgets, Marked;
  }

  /** Step k latched the intersection that is still latched at the end. */
  ghost predicate LatchedAt(c: Setup, es: seq<Step>, k: int) {
    && 0 <= k < |es| && es[k].BeginTick? && NoSuccess(es, k)
    && Run(c, es[..k]).shared.active.action != Intersection
    && Run(c, es[..k + 1]).shared.active == Run(c, es[..k]).shared.intersection
    && Run(c, es[..k]).shared.intersection.action == Intersection
  }

  lemma {:induction false} LatchHasStart(c: Setup, es: seq<Step>) returns (k: int)
    requires Possible(c, es) && Run(c, es).shared.active.action == Intersection
    ensures LatchedAt(c, es, k)
  {
    hide Apply, TurnOk, ObstaclesOk, Enabled;
    EmptyNotLatched(c);
    var n := |es| - 1;
    var w := Run(c, es[..n]);
    RunOk(c, es[..n]);
    if Succeeds(es[n]) {
      SuccessUnlatches(c, w, es[n]);
    }
    if w.shared.active.action == Intersection {
      k := LatchHasStart(c, es[..n]);
      assert es[..n][..k] == es[..k] && es[..n][..k + 1] == es[..k + 1];
      forall i | k <= i < |es| ensures !Succeeds(es[i]) {
        assert i < n ==> es[..n][i] == es[i];
      }
    } else {
      LatchesTheReport(c, w, es[n]);
      k := n;
      assert es[..k + 1] == es;
    }
  }

  lemma EmptyNotLatched(c: Setup)
    ensures Run(c, []).shared.active.action != Intersection
  {
  }

  lemma SuccessUnlatches(c: Setup, w: World, e: Step)
    requires SharedOk(w.shared) && Succeeds(e)
    ensures Apply(c, w, e).shared.active == NO_DECISION && Apply(c, w, e).shared.intersection == NO_DECISION
    ensures Apply(c, w, e).shared.lastCompleted == e.doneTime
  {
  }

  /** A goal is sent only for an intersection latched before, its stop marked since if it needed one. */
  lemma GoalFollowsStop(c: Setup, es: seq<Step>, now: real, failTime: real) returns (k: int)
    requires Possible(c, es + [TurnStart(now, failTime)]) && Run(c, es + [TurnStart(now, failTime)]).goal.Some?
    ensures LatchedAt(c, es, k)
    ensures var begun := Run(c, es[..k + 1]).shared.active;
            && Run(c, es + [TurnStart(now, failTime)]).turner.sent == begun.(needsStop := false)
            && (begun.needsStop ==> StopMarked(es, k + 1))
  {
    hide Apply, Run, ObstaclesOk, StopMarked;
    var all := es + [TurnStart(now, failTime)];
    assert all[..|es|] == es;
    PossiblePrefix(c, all, |es|);
    SentIsLatched(c, es, all[|es|]);
    k := LatchHasStart(c, es);
    BegunStaysLatched(c, es, k + 1);
  }

  lemma StartSends(c: Setup, w: World, e: Step)
    requires SharedOk(w.shared) && e.TurnStart? && Apply(c, w, e).goal.Some?
    ensures w.shared.active.action == Intersection && !w.shared.active.needsStop
    ensures Apply(c, w, e).turner.sent == w.shared.active
  {
    hide HandOn, OnDetections, Begin, MarkStopped, Complete, ObstacleHandled;
  }

  lemma SentIsLatched(c: Setup, es: seq<Step>, e: Step)
    requires e.TurnStart? && Run(c, es + [e]).goal.Some?
    ensures var w := Run(c, es).shared.active;
            w.action == Intersection && !w.needsStop && Run(c, es + [e]).turner.sent == w
  {
    hide Apply, SharedOk;
    assert (es + [e])[..|es|] == es;
    assert Run(c, es + [e]) == Apply(c, Run(c, es), e);
    StartSends(c, Run(c, es), e);
  }

  // ---- stop signs ----

  /** Step e is a sign message whose nearest measured sign is an authentic stop sign, stamped so. */
  predicate ShowsRealSign(c: Setup, e: Step, stamp: real) {
    && e.Signs? && SignsCount(c.ic, e.stamp, e.msg, e.now) && e.stamp == stamp
    && NearestSign(c.ic, e.msg).Some? && IsReal(c.ic, NearestSign(c.ic, e.msg).value)
  }

  /** A real sign was seen at this time. */
  ghost predicate RealSignAt(c: Setup, es: seq<Step>, stamp: real) {
    exists j :: 0 <= j < |es| && ShowsRealSign(c, es[j], stamp)
  }

  /** A real sign was seen after this time. */
  ghost predicate RealSignAfter(c: Setup, es: seq<Step>, t: real) {
    exists stamp :: RealSignAt(c, es, stamp) && stamp > t
  }

  /** Everything known about stop signs comes from real signs stamped after the last completion. */
  ghost predicate SignsOk(c: Setup, es: seq<Step>, w: World) {
    && w.shared.lastCompleted >= NEVER
    && (w.input.realSignStamp == NEVER || RealSignAt(c, es, w.input.realSignStamp))
    && (w.shared.intersections.stopSignTime == NEVER || RealSignAfter(c, es, w.shared.lastCompleted))
    && (w.shared.intersection.needsStop || w.shared.active.needsStop ==> RealSignAfter(c, es, w.shared.lastCompleted))
  }

  /** Stop lines themselves are no stop signs, and a sign lasts for at most 10^9 s. */
  predicate SignsConfigured(c: Setup) {
    && ("stopline" in c.cfg.classes ==> !c.cfg.classes["stopline"].markStopSign)
    && c.cfg.stopSignTtl <= -NEVER
  }

  lemma SignPersists(c: Setup, es: seq<Step>, n: nat, t: real)
    requires |es| == n + 1 && RealSignAt(c, es[..n], t)
    ensures RealSignAt(c, es, t)
  {
    hide ShowsRealSign;
    var j :| 0 <= j < n && ShowsRealSign(c, es[..n][j], t);
    assert es[j] == es[..n][j];
  }

  lemma SignsPersist(c: Setup, es: seq<Step>, n: nat, t: real)
    requires |es| == n + 1
    ensures RealSignAt(c, es[..n], t) ==> RealSignAt(c, es, t)
    ensures RealSignAfter(c, es[..n], t) ==> RealSignAfter(c, es, t)
  {
    hide RealSignAt;
    if RealSignAt(c, es[..n], t) {
      SignPersists(c, es, n, t);
    }
    if RealSignAfter(c, es[..n], t) {
      var stamp :| RealSignAt(c, es[..n], stamp) && stamp > t;
      SignPersists(c, es, n, stamp);
    }
  }

  lemma AtIsAfter(c: Setup, es: seq<Step>, stamp: real, t: real)
    requires RealSignAt(c, es, stamp) && stamp > t
    ensures RealSignAfter(c, es, t)
  {
  }

  /** A line, alone or with the sign that goes with it, sets the stop sign time only to that sign's stamp. */
  lemma LineSetsSign(c: Setup, s: State, inp: Input, lastCompleted: real, line: Detection, now: real)
    requires SignsConfigured(c) && line.cls == "stopline"
    ensures var t := Scanned(Rules(c), s, WithRealSign(c.ic, inp, lastCompleted, line, now), now).stopSignTime;
            t == s.stopSignTime || (t == inp.realSignStamp && t > lastCompleted)
  {
    hide InRange, Known, Refreshed, Nearer, Expired;
    var dets := WithRealSign(c.ic, inp, lastCompleted, line, now);
    var start := Scan([None, None, None], Expired(Rules(c), s.handled, now), s.stopSignTime);
    LineIsNoSign(c, line);
    var one := ScanAll(Rules(c), start, [line], now);
    assert ScanAll(Rules(c), start, [line][..0], now) == start;
    assert one.stopSignTime == s.stopSignTime;
    if |dets| == 2 {
      assert dets[..1] == [line];
      assert ScanAll(Rules(c), start, dets, now) == ScanOne(Rules(c), one, dets[1], now);
    }
  }

  lemma LineIsNoSign(c: Setup, line: Detection)
    requires SignsConfigured(c) && line.cls == "stopline"
    ensures InRange(Rules(c), line) ==> !Rules(c).classes[line.cls].markStopSign
  {
  }

  lemma ListSetsSign(c: Setup, w: World, e: Step, s: State)
    requires SignsConfigured(c) && ListOf(c, w, e).Some?
    ensures var t := Scanned(Rules(c), s, ListOf(c, w, e).value, e.now).stopSignTime;
            t == s.stopSignTime || (t == InputAfter(c, w, e).realSignStamp && t > w.shared.lastCompleted)
  {
    hide Scanned, NearestSign, IsNearestSign, SignsCount, LineCounts, Ahead, LineEdge, WithRealSign, SignsConfigured;
    var inp, dets, last := InputAfter(c, w, e), ListOf(c, w, e).value, w.shared.lastCompleted;
    if dets == [] {
      NothingScanned(c, s, e.now);
    } else if e.Signs? {
      var n := NearestSign(c.ic, e.msg).value;
      NearestHasDepth(c, e.msg);
      LineSetsSign(c, s, inp, last, LineDetection(n.distance.value, n.nPts, e.anchor.value), e.now);
    } else {
      var xs := Ahead(c.ic, e.cloud.value);
      LineSetsSign(c, s, inp, last, LineDetection(LineEdge(xs), |xs|, e.anchor.value), e.now);
    }
  }

  lemma NearestHasDepth(c: Setup, msg: seq<SignDet>)
    ensures NearestSign(c.ic, msg).Some? ==> NearestSign(c.ic, msg).value.distance.Some?
  {
    assert IsNearestSign(c.ic, msg, NearestSign(c.ic, msg));
  }

  lemma NothingScanned(c: Setup, s: State, now: real)
    ensures Scanned(Rules(c), s, [], now).stopSignTime == s.stopSignTime
  {
  }

  lemma StampIsReal(c: Setup, es: seq<Step>, n: nat, w: World)
    requires |es| == n + 1 && (w.input.realSignStamp == NEVER || RealSignAt(c, es[..n], w.input.realSignStamp))
    ensures var t := InputAfter(c, w, es[n]).realSignStamp; t == NEVER || RealSignAt(c, es, t)
  {
    hide NearestSign, IsNearestSign, SignsCount, IsReal;
    var t := InputAfter(c, w, es[n]).realSignStamp;
    SignsPersist(c, es, n, w.input.realSignStamp);
    if t != w.input.realSignStamp && t != NEVER {
      assert ShowsRealSign(c, es[n], t);
    }
  }

  /** A stop is asked for only while a sign is remembered. */
  lemma StopNeedsSign(c: Setup, s: State, dets: seq<Detection>, now: real)
    requires StateOk(s) && SignsConfigured(c) && now >= 0.0
    ensures Decide(Rules(c), s, dets, now).needsStop ==> Scanned(Rules(c), s, dets, now).stopSignTime != NEVER
  {
    hide Scanned;
  }

  lemma HandOnKeepsSigns(c: Setup, es: seq<Step>, n: nat, w: World)
    requires SignsConfigured(c) && |es| == n + 1 && es[n].now >= 0.0
    requires SharedOk(w.shared) && SignsOk(c, es[..n], w)
    ensures SignsOk(c, es, HandOn(c, w, es[n]))
  {
    hide ListOf, InputAfter, Updated, Decide, SignsConfigured, Forgets, RealSignAt, RealSignAfter;
    var e, last := es[n], w.shared.lastCompleted;
    StampIsReal(c, es, n, w);
    SignsPersist(c, es, n, last);
    NoListNoInput(c, w, e);
    if ListOf(c, w, e).Some? {
      var dets := ListOf(c, w, e).value;
      var s := BeforeList(w.shared.intersections, Forgets(c, e));
      ListSetsSign(c, w, e, s);
      StopNeedsSign(c, s, dets, e.now);
      UpdatedSign(Rules(c), s, dets, e.now);
      var t := InputAfter(c, w, e).realSignStamp;
      if t != NEVER && t > last {
        AtIsAfter(c, es, t, last);
      }
    }
  }

  lemma UpdatedSign(cfg: Config, s: State, dets: seq<Detection>, now: real)
    requires StateOk(s)
    ensures Updated(cfg, s, dets, now).stopSignTime == Scanned(cfg, s, dets, now).stopSignTime
  {
    hide Scanned;
  }

  lemma NoListNoInput(c: Setup, w: World, e: Step)
    ensures ListOf(c, w, e).None? ==> InputAfter(c, w, e) == w.input
  {
    hide NearestSign, IsNearestSign, SignsCount, LineCounts;
  }

  lemma OtherKeepsSigns(c: Setup, es: seq<Step>, n: nat, w: World)
    requires |es| == n + 1 && es[n].now >= 0.0 && es[n].now <= Until(es[n]) && !es[n].Signs? && !es[n].Line?
    requires SharedOk(w.shared) && SignsOk(c, es[..n], w) && ObstaclesOk(w.shared) && TurnOk(w) && Enabled(w, es[n])
    ensures SignsOk(c, es, Apply(c, w, es[n]))
  {
    hide Updated, Decide, RealSignAt, RealSignAfter, RulesFor, Current;
    var e, last := es[n], w.shared.lastCompleted;
    SignsPersist(c, es, n, last);
    SignsPersist(c, es, n, w.input.realSignStamp);
    if Apply(c, w, e).shared.active.action == Intersection && w.shared.active.action != Intersection {
      LatchesTheReport(c, w, e);
    }
  }

  lemma {:induction false} SignsAreReal(c: Setup, es: seq<Step>)
    requires SignsConfigured(c) && Possible(c, es)
    ensures SignsOk(c, es, Run(c, es))
  {
    hide SignsOk, HandOn, TurnOk, ObstaclesOk, Enabled, SignsConfigured;
    if es != [] {
      var n := |es| - 1;
      SignsAreReal(c, es[..n]);
      RunOk(c, es[..n]);
      PossiblePrefix(c, es, n);
      if es[n].Signs? || es[n].Line? {
        HandOnKeepsSigns(c, es, n, Run(c, es[..n]));
      } else {
        OtherKeepsSigns(c, es, n, Run(c, es[..n]));
      }
    } else {
      InitialSigns(c);
    }
  }

  lemma InitialSigns(c: Setup)
    ensures SignsOk(c, [], Initial(c))
  {
  }

  lemma StepCompletes(c: Setup, w: World, e: Step)
    requires SharedOk(w.shared)
    ensures Apply(c, w, e).shared.lastCompleted == if Succeeds(e) then e.doneTime else w.shared.lastCompleted
  {
    hide Updated, Decide, RulesFor, ListOf, InputAfter, Forgets, Marked, Current;
  }

  /** Every completion so far ended no later than the last one. */
  lemma {:induction false} LastCompletion(c: Setup, es: seq<Step>, i: nat)
    requires Possible(c, es) && i < |es| && Succeeds(es[i])
    ensures es[i].doneTime <= Run(c, es).shared.lastCompleted <= Clock(es)
  {
    hide Apply, Enabled;
    var n := |es| - 1;
    StepCompletes(c, Run(c, es[..n]), es[n]);
    if i < n {
      assert es[..n][i] == es[i];
      LastCompletion(c, es[..n], i);
    }
    if Succeeds(es[n]) && i < n {
      PossiblePrefix(c, es, n);
    }
  }

  /** A latched intersection that needs a stop owes it to a real stop sign, stamped after the end of
      every intersection completed so far. */
  lemma StopNeedsNewSign(c: Setup, es: seq<Step>) returns (j: int, stamp: real)
    requires SignsConfigured(c) && Possible(c, es) && Run(c, es).shared.active.needsStop
    ensures 0 <= j < |es| && ShowsRealSign(c, es[j], stamp)
    ensures forall i | 0 <= i < |es| && Succeeds(es[i]) :: es[i].doneTime < stamp
  {
    hide Run, Possible, ShowsRealSign, SignsConfigured;
    SignsAreReal(c, es);
    var last := Run(c, es).shared.lastCompleted;
    stamp :| RealSignAt(c, es, stamp) && stamp > last;
    j :| 0 <= j < |es| && ShowsRealSign(c, es[j], stamp);
    forall i | 0 <= i < |es| && Succeeds(es[i]) ensures es[i].doneTime < stamp {
      LastCompletion(c, es, i);
    }
  }

  // ---- the intersection decider's own run ----

  function TraceOf(c: Setup, w: World, e: Step): seq<T.Event> {
    var dets := ListOf(c, w, e);
    if dets.Some? then
      (if Forgets(c, e) then [T.ForgetSign, T.List(dets.value, e.now)] else [T.List(dets.value, e.now)])
    else if Succeeds(e) then [T.Done(w.turner.sent, e.now)]
    else []
  }

  /** What the intersection decider went through. */
  function Trace(c: Setup, es: seq<Step>): seq<T.Event> {
    if es == [] then []
    else
      var n := |es| - 1;
      Trace(c, es[..n]) + TraceOf(c, Run(c, es[..n]), es[n])
  }

  /** The intersection stream's decision is what its decider said about its last list. */
  ghost predicate ReportOk(c: Setup, evs: seq<T.Event>, w: Shared) {
    && w.intersections == T.RunAll(Rules(c), evs)
    && (w.intersection != NO_DECISION ==>
          && evs != [] && evs[|evs| - 1].List?
          && w.intersection == Decide(Rules(c), T.RunAll(Rules(c), evs[..|evs| - 1]),
                                  evs[|evs| - 1].dets, evs[|evs| - 1].now))
  }

  lemma ForgetExtends(c: Setup, evs: seq<T.Event>)
    ensures T.RunAll(Rules(c), evs + [T.ForgetSign]) == BeforeList(T.RunAll(Rules(c), evs), true)
  {
    hide Updated, RulesFor, Marked;
    assert (evs + [T.ForgetSign])[..|evs|] == evs;
  }

  lemma ListExtends(c: Setup, evs: seq<T.Event>, w: Shared, s: State, dets: seq<Detection>, now: real)
    requires SharedOk(w) && s == T.RunAll(Rules(c), evs)
    ensures ReportOk(c, evs + [T.List(dets, now)],
              w.(intersectionTime := now, intersections := Updated(Rules(c), s, dets, now),
                 intersection := Decide(Rules(c), s, dets, now)))
  {
    hide Updated, Decide, RulesFor, Marked;
    assert (evs + [T.List(dets, now)])[..|evs|] == evs;
  }

  lemma HandOnExtends(c: Setup, evs: seq<T.Event>, w: World, e: Step)
    requires SharedOk(w.shared) && ReportOk(c, evs, w.shared) && ListOf(c, w, e).Some?
    ensures ReportOk(c, evs + TraceOf(c, w, e), HandOn(c, w, e).shared)
  {
    hide Updated, Decide, RulesFor, InputAfter, Forgets, ListOf, T.RunAll;
    var dets := ListOf(c, w, e).value;
    if Forgets(c, e) {
      ForgetExtends(c, evs);
      ListExtends(c, evs + [T.ForgetSign], w.shared, BeforeList(w.shared.intersections, true), dets, e.now);
      assert evs + TraceOf(c, w, e) == evs + [T.ForgetSign] + [T.List(dets, e.now)];
    } else {
      ListExtends(c, evs, w.shared, w.shared.intersections, dets, e.now);
    }
  }

  lemma StepExtends(c: Setup, evs: seq<T.Event>, w: World, e: Step)
    requires SharedOk(w.shared) && ReportOk(c, evs, w.shared)
    ensures ReportOk(c, evs + TraceOf(c, w, e), Apply(c, w, e).shared)
  {
    hide Updated, Decide, RulesFor, InputAfter, Forgets, Current, SignsCount, LineCounts, SignDetections,
         LineDetections, OnIntersectionDetections;
    if ListOf(c, w, e).Some? {
      HandOnExtends(c, evs, w, e);
    } else if Succeeds(e) {
      assert (evs + TraceOf(c, w, e))[..|evs|] == evs;
    } else {
      assert evs + TraceOf(c, w, e) == evs;
    }
  }

  lemma {:induction false} RunReports(c: Setup, es: seq<Step>)
    ensures ReportOk(c, Trace(c, es), Run(c, es).shared)
  {
    hide Apply, TraceOf;
    if es != [] {
      var n := |es| - 1;
      RunReports(c, es[..n]);
      StepExtends(c, Trace(c, es[..n]), Run(c, es[..n]), es[n]);
    }
  }

  ghost predicate TimesUpTo(evs: seq<T.Event>, now: real) {
    forall k | 0 <= k < |evs| && evs[k].List? :: 0.0 <= evs[k].now <= now
  }

  lemma {:induction false} TraceInOrder(c: Setup, es: seq<Step>)
    requires Possible(c, es)
    ensures T.InOrder(Trace(c, es)) && TimesUpTo(Trace(c, es), Clock(es))
  {
    hide TraceOf, Enabled, Run;
    if es != [] {
      var n := |es| - 1;
      TraceInOrder(c, es[..n]);
      PossiblePrefix(c, es, n);
      TraceTimes(c, Run(c, es[..n]), es[n]);
    }
  }

  lemma TraceTimes(c: Setup, w: World, e: Step)
    ensures forall k | 0 <= k < |TraceOf(c, w, e)| && TraceOf(c, w, e)[k].List? :: TraceOf(c, w, e)[k].now == e.now
  {
    hide ListOf, Forgets;
  }

  lemma {:induction false} TracePrefix(c: Setup, es: seq<Step>, n: nat)
    requires n <= |es|
    ensures Trace(c, es[..n]) <= Trace(c, es)
  {
    if n < |es| {
      assert es[..|es| - 1][..n] == es[..n];
      TracePrefix(c, es[..|es| - 1], n);
    } else {
      assert es[..n] == es;
    }
  }

  lemma {:induction false} TicksPrefix(cfg: Config, a: seq<T.Event>, evs: seq<T.Event>, i: nat)
    requires i < 3 && a <= evs
    ensures T.Ticks(cfg, a, i) <= T.Ticks(cfg, evs, i)
  {
    hide T.TickOf;
    if |a| < |evs| {
      TicksPrefix(cfg, a, evs[..|evs| - 1], i);
    } else {
      assert a == evs;
    }
  }

  lemma SuccessTraced(c: Setup, w: World, e: Step)
    requires Succeeds(e) && TurnOk(w) && Enabled(w, e)
    ensures TraceOf(c, w, e) == [T.Done(w.turner.sent, e.now)] && w.turner.sent.action == Intersection
  {
  }

  /** The intersection ticks up to the end of a success end with its reset. */
  lemma SuccessResets(c: Setup, es: seq<Step>, i: nat)
    requires Possible(c, es) && i < |es| && Succeeds(es[i])
    ensures T.Ticks(Rules(c), Trace(c, es[..i]), 2) + [S.Reset] <= T.Ticks(Rules(c), Trace(c, es), 2)
  {
    hide Apply, RulesFor, TraceOf, Enabled, TurnOk, ObstaclesOk;
    var w := Run(c, es[..i]);
    PossiblePrefix(c, es, i + 1);
    PossiblePrefix(c, es, i);
    assert es[..i + 1][..i] == es[..i];
    RunOk(c, es[..i]);
    SuccessTraced(c, w, es[i]);
    var a := Trace(c, es[..i]);
    var b := Trace(c, es[..i + 1]);
    assert b == a + [T.Done(w.turner.sent, es[i].now)];
    assert b[..|a|] == a;
    TracePrefix(c, es, i + 1);
    TicksPrefix(Rules(c), b, Trace(c, es), 2);
  }

  /** After a completed intersection, another one is latched only when its own run of at least
      `confirm_intersection` consecutive eligible lists came after that completion. */
  lemma NewLatchNeedsFreshRun(c: Setup, es: seq<Step>, i: nat, e: Step) returns (j: int)
    requires Possible(c, es + [e]) && i < |es| && Succeeds(es[i]) && c.cfg.confirmIntersection >= 1
    requires Run(c, es).shared.active.action != Intersection && Run(c, es + [e]).shared.active.action == Intersection
    ensures var before := T.Ticks(Rules(c), Trace(c, es[..i]), 2) + [S.Reset];
            && before <= T.Ticks(Rules(c), Trace(c, es), 2)
            && S.Holds(c.cfg.confirmIntersection, c.cfg.intersectionHold,
               T.Ticks(Rules(c), Trace(c, es), 2)[|before|..], j)
  {
    hide Apply, Trace, S.Holds, S.Active, T.Ticks, T.InOrder, TimesUpTo, ObstaclesOk, TurnOk, Decide, T.RunAll, Enabled;
    var all := es + [e];
    assert all[..|es|] == es && all[|es|] == e;
    PossiblePrefix(c, all, |es|);
    RunOk(c, es);
    LatchesTheReport(c, Run(c, es), e);
    RunReports(c, es);
    TraceInOrder(c, es);
    SuccessResets(c, es, i);
    j := ReportNeedsFreshRun(c, Trace(c, es), T.Ticks(Rules(c), Trace(c, es[..i]), 2));
  }

  lemma ReportNeedsFreshRun(c: Setup, evs: seq<T.Event>, before: seq<S.Tick<Detection>>) returns (j: int)
    requires evs != [] && evs[|evs| - 1].List? && T.InOrder(evs) && c.cfg.confirmIntersection >= 1
    requires var last := evs[|evs| - 1];
             Decide(Rules(c), T.RunAll(Rules(c), evs[..|evs| - 1]), last.dets, last.now).action == Intersection
    requires before + [S.Reset] <= T.Ticks(Rules(c), evs, 2)
    ensures S.Holds(c.cfg.confirmIntersection, c.cfg.intersectionHold, T.Ticks(Rules(c), evs, 2)[|before| + 1..], j)
  {
    hide Updated, Scanned, S.Holds, T.RunAll, S.Active, T.Ticks, T.InOrder, SlotActive, T.Confirmed, S.Timed, S.Run;
    var front, last := evs[..|evs| - 1], evs[|evs| - 1];
    assert evs == front + [T.List(last.dets, last.now)];
    T.SlotActiveIffConfirmed(Rules(c), front, last.dets, last.now, 1);
    T.SlotActiveIffConfirmed(Rules(c), front, last.dets, last.now, 2);
    LastIsLatest(evs);
    T.TicksInOrder(Rules(c), evs, 2, last.now);
    var ticks := T.Ticks(Rules(c), evs, 2);
    var after := ticks[|before| + 1..];
    assert ticks == before + [S.Reset] + after;
    LastTickIsNoReset(c, evs);
    assert after != [];
    j := S.FreshRunNeeded(c.cfg.confirmIntersection, c.cfg.intersectionHold, NO_DETECTION, before, after);
  }

  lemma LastIsLatest(evs: seq<T.Event>)
    requires evs != [] && evs[|evs| - 1].List? && T.InOrder(evs)
    ensures forall k | 0 <= k < |evs| && evs[k].List? :: evs[k].now <= evs[|evs| - 1].now
  {
  }

  lemma LastTickIsNoReset(c: Setup, evs: seq<T.Event>)
    requires evs != [] && evs[|evs| - 1].List?
    ensures var ticks := T.Ticks(Rules(c), evs, 2); ticks != [] && !ticks[|ticks| - 1].Reset?
  {
    hide Scanned, T.RunAll;
  }
}
