/** When the tree begins an intersection, sends a goal, and pauses before it retries; and which detections go to
    which decider. */
module ManeuverSteps {
  import opened Options
  import opened DecisionSpec
  import opened SharedSpec
  import opened Maneuver

  // ---- beginning ----

  /** A tick latches an intersection exactly when none is latched, the intersection stream reported one at most
      `stale` ago, and no STOP was reported by an obstacle list at most `stale` ago. */
  lemma BeginsIff(c: Setup, w: World, now: real)
    requires SharedOk(w.shared) && ObstaclesOk(w.shared) && w.shared.active.action != Intersection
    ensures var r, o := Apply(c, w, BeginTick(now)).shared, w.shared;
            && (r.active.action == Intersection <==>
                  && o.intersection.action == Intersection && now <= o.intersectionTime + c.stale
                  && !(o.obstacle.action == Stop && now <= o.obstacleTime + c.stale))
            && (r.active.action == Intersection ==> r.active == o.intersection)
  {
  }

  /** Without a latched intersection the tree sees a fresh STOP, else a fresh intersection, else the fresh obstacle
      decision, else nothing. */
  lemma SeenUnlatched(stale: real, w: Shared, t: real)
    requires w.active.action != Intersection
    ensures var d := Current(stale, w, t);
            && (w.obstacle.action == Stop && t <= w.obstacleTime + stale ==> d == w.obstacle)
            && (w.obstacle.action != Stop && w.intersection.action == Intersection ==>
                  t <= w.intersectionTime + stale ==> d == w.intersection)
            && (w.intersection.action != Intersection && t <= w.obstacleTime + stale ==> d == w.obstacle)
            && (t > w.obstacleTime + stale && t > w.intersectionTime + stale ==> d == NO_DECISION)
  {
  }

  /** The success for an obstacle takes the decision for it away from the tree, and no other one. */
  lemma SuccessTakesItsOwn(c: Setup, w: World, now: real, d: Decision, t: real)
    requires SharedOk(w.shared)
    ensures var r, o := Apply(c, w, LaneDone(now, d)).shared, w.shared;
            && (o.obstacle.action == d.action && o.obstacle.obstacleId == d.obstacleId ==>
                  Current(c.stale, r, t) in {NO_DECISION, o.active, o.intersection})
            && (o.obstacle.action != d.action || o.obstacle.obstacleId != d.obstacleId ==>
                  Current(c.stale, r, t) == Current(c.stale, o, t))
  {
  }

  /** A STOP that an obstacle list reports is what the tree sees for `stale` from then on, whatever is latched; later
      it sees nothing of the list any more, unless another one comes. */
  lemma ListIsSeen(c: Setup, w: World, now: real, dets: seq<Detection>, t: real)
    requires SharedOk(w.shared)
    ensures var r := Apply(c, w, ObstacleList(now, dets)).shared;
            var d := Decide(RulesFor(c.cfg, false), w.shared.obstacles, dets, now);
            && (d.action == Stop && t <= now + c.stale ==> Current(c.stale, r, t) == d)
            && (t > now + c.stale ==> Current(c.stale, r, t) in {w.shared.active, w.shared.intersection, NO_DECISION})
  {
    hide Decide, Updated, RulesFor;
  }

  // ---- goals and pauses ----

  /** The turn node failed at this time: a goal ended without success, or there was no turn left to send. */
  ghost predicate FailsAt(c: Setup, w: World, e: Step, t: real) {
    || (e.TurnResult? && !e.succeeded && t == e.now)
    || (e.TurnFailure? && !e.invalidGoal && t == e.now)
    || (e.TurnStart? && w.shared.turns == [] && t == e.failTime
        && w.shared.active.action == Intersection && !w.shared.active.needsStop
        && e.now >= w.turner.lastFail + c.minRetry)
  }

  /** A goal is sent exactly when an intersection is latched that does not wait for a stop, a turn is left, and the
      pause after the last failure is over. */
  lemma SendsIff(c: Setup, w: World, now: real, failTime: real)
    requires SharedOk(w.shared)
    ensures var r := Apply(c, w, TurnStart(now, failTime));
            && (r.goal.Some? <==>
                  && w.shared.active.action == Intersection && !w.shared.active.needsStop && w.shared.turns != []
                  && now >= w.turner.lastFail + c.minRetry)
            && (r.goal.Some? ==> r.goal.value == w.shared.turns[0] && r.turner.sent == w.shared.active)
  {
  }

  lemma StepNotesFailure(c: Setup, w: World, e: Step, t: real)
    requires SharedOk(w.shared) && FailsAt(c, w, e, t)
    ensures Apply(c, w, e).turner.lastFail == t
  {
    hide Updated, Decide, RulesFor, Marked, Current;
  }

  lemma StepKeepsFailure(c: Setup, w: World, e: Step)
    requires SharedOk(w.shared)
    ensures Apply(c, w, e).turner.lastFail == w.turner.lastFail
         || FailsAt(c, w, e, Apply(c, w, e).turner.lastFail)
  {
    hide Updated, Decide, RulesFor, Marked, Current, ListOf, InputAfter, Forgets;
  }

  lemma FailsNow(c: Setup, w: World, e: Step, t: real)
    requires FailsAt(c, w, e, t) && e.now <= Until(e)
    ensures e.now <= t <= Until(e)
  {
  }

  /** The failure that is noted is the latest one. */
  lemma {:induction false} LatestFailure(c: Setup, es: seq<Step>, i: nat, t: real)
    requires Possible(c, es) && i < |es| && FailsAt(c, Run(c, es[..i]), es[i], t)
    ensures t <= Run(c, es).turner.lastFail <= Clock(es)
    decreases |es|
  {
    hide Apply, Enabled, FailsAt;
    var n := |es| - 1;
    var w := Run(c, es[..n]);
    PossiblePrefix(c, es, n);
    StepKeepsFailure(c, w, es[n]);
    if i < n {
      assert es[..n][i] == es[i] && es[..n][..i] == es[..i];
      LatestFailure(c, es[..n], i, t);
      if FailsAt(c, w, es[n], Run(c, es).turner.lastFail) {
        FailsNow(c, w, es[n], Run(c, es).turner.lastFail);
      }
    } else {
      StepNotesFailure(c, w, es[n], t);
      FailsNow(c, w, es[n], t);
    }
  }

  /** No goal is sent less than `minRetry` after a failure. */
  lemma RetryPause(c: Setup, es: seq<Step>, now: real, failTime: real, i: nat, t: real)
    requires Possible(c, es + [TurnStart(now, failTime)]) && Run(c, es + [TurnStart(now, failTime)]).goal.Some?
    requires i < |es| && FailsAt(c, Run(c, es[..i]), es[i], t)
    ensures now >= t + c.minRetry
  {
    hide Apply, Possible, FailsAt;
    var all := es + [TurnStart(now, failTime)];
    assert all[..|es|] == es;
    PossiblePrefix(c, all, |es|);
    LatestFailure(c, es, i, t);
    SendsIff(c, Run(c, es), now, failTime);
  }

  // ---- the two deciders ----

  /** Every class keeps its rule in exactly one decider: in the second where it is for intersections or marks
      signs, in the first otherwise. The second remembers lines as long as other decisions. */
  lemma ClassesSplit(cfg: Config, cls: string)
    requires cls in cfg.classes
    ensures var r, a, b := cfg.classes[cls], RulesFor(cfg, false), RulesFor(cfg, true);
            && (r.action == Intersection || r.markStopSign ==>
                  cls !in a.classes && cls in b.classes && b.classes[cls] == r)
            && (r.action != Intersection && !r.markStopSign ==>
                  cls in a.classes && a.classes[cls] == r && cls !in b.classes)
            && a.handledTtl == b.handledTtl == b.pseudoTtl == cfg.handledTtl && a.pseudoTtl == cfg.pseudoTtl
  {
  }

  predicate MarksSign(cfg: Config, d: Detection) {
    InRange(cfg, d) && cfg.classes[d.cls].markStopSign
  }

  /** Detection k is the last one of the list that marks a sign. */
  ghost predicate LastSign(cfg: Config, dets: seq<Detection>, k: int) {
    0 <= k < |dets| && MarksSign(cfg, dets[k]) && forall j | k < j < |dets| :: !MarksSign(cfg, dets[j])
  }

  lemma {:induction false} SignTimeIs(cfg: Config, s: Scan, dets: seq<Detection>, now: real)
    requires ScanOk(s)
    ensures var t := ScanAll(cfg, s, dets, now).stopSignTime;
            && (forall k | LastSign(cfg, dets, k) ::
                  t == if dets[k].observedAt.Some? then dets[k].observedAt.value else now)
            && ((forall k :: !LastSign(cfg, dets, k)) ==> t == s.stopSignTime)
  {
    hide MarksSign, ScanOne;
    if dets != [] {
      var n := |dets| - 1;
      SignTimeIs(cfg, s, dets[..n], now);
      SignOfOne(cfg, ScanAll(cfg, s, dets[..n], now), dets[n], now);
      if MarksSign(cfg, dets[n]) {
        assert LastSign(cfg, dets, n);
      } else {
        forall k | LastSign(cfg, dets[..n], k) ensures LastSign(cfg, dets, k) {
        }
        forall k | LastSign(cfg, dets, k) ensures LastSign(cfg, dets[..n], k) {
          assert dets[..n][k] == dets[k];
        }
      }
    }
  }

  lemma SignOfOne(cfg: Config, s: Scan, d: Detection, now: real)
    requires ScanOk(s)
    ensures ScanOne(cfg, s, d, now).stopSignTime ==
            if !MarksSign(cfg, d) then s.stopSignTime else if d.observedAt.Some? then d.observedAt.value else now
  {
    hide Usable, Known, Refreshed, Nearer;
  }

  /** After a list the time of the sign is that of the last sign of the list: when it was observed, or now. */
  lemma SignTimeOfList(cfg: Config, s: State, dets: seq<Detection>, now: real)
    requires StateOk(s)
    ensures var t := Updated(cfg, s, dets, now).stopSignTime;
            && (forall k | LastSign(cfg, dets, k) ::
                  t == if dets[k].observedAt.Some? then dets[k].observedAt.value else now)
            && ((forall k :: !LastSign(cfg, dets, k)) ==> t == s.stopSignTime)
  {
    hide ScanAll, LastSign, Expired;
    SignTimeIs(cfg, Scan([None, None, None], Expired(cfg, s.handled, now), s.stopSignTime), dets, now);
    UpdatedSign(cfg, s, dets, now);
  }
}
