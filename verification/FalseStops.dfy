/** When the need to stop at an intersection can do without a real stop sign. */
module FalseStops {
  import opened Arithmetic
  import opened Options
  import opened Sorting
  import opened DecisionSpec
  import opened SharedSpec
  import opened Maneuver

  /** The settings let a stop line, with points enough, bring about an intersection. */
  predicate LineTriggers(c: Setup) {
    && "stopline" in c.cfg.classes && c.cfg.classes["stopline"].action == Intersection
    && c.cfg.classes["stopline"].triggerDistance >= 0.0
    && c.cfg.minScore <= 1.0 && c.cfg.maxLateralOffset >= 0.0 && c.cfg.stopSignTtl > 0.0
    && 0.0 <= c.ic.maxAge < -NEVER && c.ic.halfWidth >= 0.0 && c.stale >= 0.0
  }

  function Points(c: Setup): nat {
    Max(PointsNeeded(c.ic), c.cfg.minPoints)
  }

  /** A cloud right at the robot. */
  function Cloud(n: nat): seq<(real, real)> {
    seq(n, _ => (0.0, 0.0))
  }

  function LineStep(c: Setup): Step {
    Line(0.0, 0.0, Some(Cloud(Points(c))), Some((0.0, 0.0)))
  }

  function TheLine(c: Setup): Detection {
    LineDetection(0.0, Points(c), (0.0, 0.0))
  }

  function Lines(c: Setup, n: nat): seq<Step> {
    seq(n, _ => LineStep(c))
  }

  predicate Marks(c: Setup)
    requires LineTriggers(c)
  {
    c.cfg.classes["stopline"].markStopSign
  }

  lemma {:induction false} CloudIsAhead(ic: InputConfig, n: nat)
    requires ic.halfWidth >= 0.0
    ensures |Ahead(ic, Cloud(n))| == n && forall k | 0 <= k < n :: Ahead(ic, Cloud(n))[k] == 0.0
  {
    if n > 0 {
      assert Cloud(n)[..n - 1] == Cloud(n - 1);
      CloudIsAhead(ic, n - 1);
    }
  }

  lemma EdgeOfZeros(xs: seq<real>)
    requires xs != [] && forall k | 0 <= k < |xs| :: xs[k] == 0.0
    ensures LineEdge(xs) == 0.0
  {
    hide InsertionSort;
    var s := InsertionSort(RealLess(), xs);
    SameMembers(s, xs);
    assert s[|xs| / 10] in s;
  }

  /** The step hands on just the line. */
  lemma LineHandedOn(c: Setup, w: World)
    requires LineTriggers(c) && w.input == Input(NEVER, NEVER) && w.shared.lastCompleted == NEVER
    ensures ListOf(c, w, LineStep(c)) == Some([TheLine(c)])
  {
    hide Ahead, LineEdge, LineDetection;
    CloudIsAhead(c.ic, Points(c));
    EdgeOfZeros(Ahead(c.ic, Cloud(Points(c))));
  }

  lemma LineInRange(c: Setup)
    requires LineTriggers(c)
    ensures InRange(Rules(c), TheLine(c)) && Rules(c).classes["stopline"] == c.cfg.classes["stopline"]
  {
  }

  /** The line is the candidate for an intersection, and a sign time only if its rule says so. */
  lemma LineScanned(c: Setup, s: State)
    requires LineTriggers(c) && s.handled == []
    ensures Scanned(Rules(c), s, [TheLine(c)], 0.0)
         == Scan([None, None, Some(TheLine(c))], [], if Marks(c) then 0.0 else s.stopSignTime)
  {
    hide InRange, RulesFor;
    LineInRange(c);
    var start := Scan([None, None, None], [], s.stopSignTime);
    assert Expired(Rules(c), [], 0.0) == [];
    assert ScanAll(Rules(c), start, [TheLine(c)][..0], 0.0) == start;
  }

  /** The decider after n lines. */
  ghost predicate AfterLines(c: Setup, s: State, n: nat)
    requires LineTriggers(c)
  {
    && StateOk(s) && s.hits[1] == 0 && s.hits[2] == n && s.holdUntil[1] == 0.0 && s.handled == []
    && s.stopSignTime == if Marks(c) && n > 0 then 0.0 else NEVER
  }

  lemma OneMoreLine(c: Setup, s: State, n: nat)
    requires LineTriggers(c) && AfterLines(c, s, n)
    ensures AfterLines(c, Updated(Rules(c), s, [TheLine(c)], 0.0), n + 1)
    ensures n + 1 >= c.cfg.confirmIntersection ==>
              var d := Decide(Rules(c), s, [TheLine(c)], 0.0);
              d.action == Intersection && (!SignsConfigured(c) ==> d.needsStop)
  {
    hide Scanned, RulesFor;
    LineScanned(c, s);
    RulesKeep(c);
  }

  lemma RulesKeep(c: Setup)
    ensures Rules(c).confirmIntersection == c.cfg.confirmIntersection && Rules(c).stopSignTtl == c.cfg.stopSignTtl
  {
  }

  /** Nothing but lines so far. */
  ghost predicate OnlyLines(c: Setup, w: World, n: nat)
    requires LineTriggers(c)
  {
    && SharedOk(w.shared) && AfterLines(c, w.shared.intersections, n)
    && w.input == Input(NEVER, NEVER) && w.shared.lastCompleted == NEVER
    && w.shared.active == NO_DECISION && w.shared.obstacle == NO_DECISION
  }

  lemma LineStepRuns(c: Setup, w: World, n: nat)
    requires LineTriggers(c) && OnlyLines(c, w, n)
    ensures var r := Apply(c, w, LineStep(c));
            && OnlyLines(c, r, n + 1) && r.shared.intersectionTime == 0.0
            && r.shared.intersection == Decide(Rules(c), w.shared.intersections, [TheLine(c)], 0.0)
  {
    hide ListOf, Updated, Decide, AfterLines, LineTriggers, RulesFor;
    LineHandedOn(c, w);
    OneMoreLine(c, w.shared.intersections, n);
  }

  lemma {:induction false} LinesRun(c: Setup, n: nat)
    requires LineTriggers(c)
    ensures Possible(c, Lines(c, n)) && Clock(Lines(c, n)) == 0.0 && OnlyLines(c, Run(c, Lines(c, n)), n)
  {
    hide Apply, LineTriggers, OnlyLines;
    if n > 0 {
      assert Lines(c, n)[..n - 1] == Lines(c, n - 1);
      LinesRun(c, n - 1);
      LineStepRuns(c, Run(c, Lines(c, n - 1)), n - 1);
    } else {
      NothingYet(c);
    }
  }

  lemma NothingYet(c: Setup)
    requires LineTriggers(c)
    ensures OnlyLines(c, Initial(c), 0)
  {
  }

  lemma LatchesLine(c: Setup, w: World, n: nat)
    requires LineTriggers(c) && OnlyLines(c, w, n) && w.shared.intersectionTime == 0.0
    requires w.shared.intersection.action == Intersection
    ensures Apply(c, w, BeginTick(0.0)).shared.active == w.shared.intersection
  {
  }

  /** With other settings, enough lines and a tick latch a need to stop without any sign. */
  lemma StopWithoutSign(c: Setup) returns (es: seq<Step>)
    requires LineTriggers(c) && !SignsConfigured(c)
    ensures Possible(c, es) && Run(c, es).shared.active.needsStop
    ensures forall k | 0 <= k < |es| :: !es[k].Signs?
  {
    hide Apply, LineTriggers, SignsConfigured, OnlyLines, AfterLines, Decide;
    var n: nat := Max(0, c.cfg.confirmIntersection - 1);
    var front := Lines(c, n);
    var lines := Lines(c, n + 1);
    assert lines[..n] == front;
    LinesRun(c, n);
    LinesRun(c, n + 1);
    var w := Run(c, front);
    LineStepRuns(c, w, n);
    DecidesStop(c, w, n);
    es := lines + [BeginTick(0.0)];
    assert es[..n + 1] == lines;
    LatchesLine(c, Run(c, lines), n + 1);
  }

  lemma DecidesStop(c: Setup, w: World, n: nat)
    requires LineTriggers(c) && OnlyLines(c, w, n) && !SignsConfigured(c) && n + 1 >= c.cfg.confirmIntersection
    ensures var d := Decide(Rules(c), w.shared.intersections, [TheLine(c)], 0.0);
            d.action == Intersection && d.needsStop
  {
    hide Decide, SignsConfigured;
    OneMoreLine(c, w.shared.intersections, n);
  }

  ghost predicate SawRealSign(c: Setup, es: seq<Step>) {
    exists j, stamp :: 0 <= j < |es| && ShowsRealSign(c, es[j], stamp)
  }

  /** Where lines alone can trigger an intersection, every latched need to stop goes back to a real sign if
      and only if the rule for lines marks no signs and a sign lasts for at most 10^9 s. */
  lemma StopNeedsSignIff(c: Setup)
    requires LineTriggers(c)
    ensures SignsConfigured(c) <==>
            forall es | Possible(c, es) && Run(c, es).shared.active.needsStop :: SawRealSign(c, es)
  {
    hide Run, Possible, LineTriggers, SignsConfigured, ShowsRealSign;
    if SignsConfigured(c) {
      forall es | Possible(c, es) && Run(c, es).shared.active.needsStop ensures SawRealSign(c, es) {
        var j, stamp := StopNeedsNewSign(c, es);
      }
    } else {
      var es := StopWithoutSign(c);
      NoSignSeen(c, es);
    }
  }

  lemma NoSignSeen(c: Setup, es: seq<Step>)
    requires forall k | 0 <= k < |es| :: !es[k].Signs?
    ensures !SawRealSign(c, es)
  {
  }
}
