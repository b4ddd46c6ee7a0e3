/** What decision.hpp owes a new obstacle, in the fields of detections and remembered entries: it becomes a
    candidate, and enough lists that show one make the decider report. */
module NewObstacles {
  import opened DecisionSpec
  import opened DecisionTraces

  /** A trusted detection in the lane corridor, between the least distance and the trigger distance of its class.
      Intersections and signs have no least distance. */
  predicate InReach(cfg: Config, d: Detection) {
    && d.valid && cfg.minScore <= d.score && cfg.minPoints <= d.nPts && d.cls in cfg.classes && d.distance.Some?
    && -cfg.maxLateralOffset <= d.localY <= cfg.maxLateralOffset
    && d.distance.value <= cfg.classes[d.cls].triggerDistance
    && (if cfg.classes[d.cls].action == Intersection || cfg.classes[d.cls].markStopSign
        then 0.0 <= d.distance.value else cfg.minDistance <= d.distance.value)
  }

  /** The entry is not yet forgotten; entries with an id and others have their own times. */
  predicate Recalled(cfg: Config, h: Handled, now: real) {
    (h.id >= 0 && now <= h.lastSeen + cfg.handledTtl) || (h.id < 0 && now <= h.lastSeen + cfg.pseudoTtl)
  }

  /** Another thing: no common id, and another class or more than 1.8 m away. */
  predicate Apart(h: Handled, d: Detection) {
    && (d.id < 0 || h.id != d.id)
    && (h.cls != d.cls || (d.x - h.x) * (d.x - h.x) + (d.y - h.y) * (d.y - h.y) > 1.8 * 1.8)
  }

  ghost predicate IsNew(cfg: Config, handled: seq<Handled>, d: Detection, now: real) {
    forall h | h in handled && Recalled(cfg, h, now) :: Apart(h, d)
  }

  function ActionOf(i: nat): Action {
    if i == 0 then Change else if i == 1 then Stop else Intersection
  }

  /** The detection calls for the action of slot i. For a STOP nothing is remembered. */
  ghost predicate CallsFor(cfg: Config, handled: seq<Handled>, d: Detection, i: nat, now: real) {
    InReach(cfg, d) && cfg.classes[d.cls].action == ActionOf(i) && (i == 1 || IsNew(cfg, handled, d, now))
  }

  // ---- candidates ----

  lemma ReachIsRange(cfg: Config, d: Detection)
    ensures InReach(cfg, d) <==> InRange(cfg, d)
  {
  }

  lemma ApartIsNoMatch(h: Handled, d: Detection)
    ensures Apart(h, d) <==> !Matches(h, d)
  {
    assert 1.8 * 1.8 == 3.24;
  }

  lemma {:induction false} RecalledStay(cfg: Config, handled: seq<Handled>, now: real)
    ensures forall h :: h in Expired(cfg, handled, now) <==> h in handled && Recalled(cfg, h, now)
  {
    if handled != [] {
      RecalledStay(cfg, handled[1..], now);
      assert handled == [handled[0]] + handled[1..];
    }
  }

  lemma NewIsUnknown(cfg: Config, handled: seq<Handled>, d: Detection, now: real)
    ensures IsNew(cfg, handled, d, now) <==> !Known(Expired(cfg, handled, now), d)
  {
    hide Matches, Apart, Recalled;
    var kept := Expired(cfg, handled, now);
    RecalledStay(cfg, handled, now);
    forall h ensures Apart(h, d) <==> !Matches(h, d) {
      ApartIsNoMatch(h, d);
    }
    if IsNew(cfg, handled, d, now) {
      forall k | 0 <= k < |kept| ensures !Matches(kept[k], d) {
        assert kept[k] in kept;
      }
    }
    if !Known(kept, d) {
      forall h | h in handled && Recalled(cfg, h, now) ensures Apart(h, d) {
        var k :| 0 <= k < |kept| && kept[k] == h;
      }
    }
  }

  lemma CallsIsEligible(cfg: Config, handled: seq<Handled>, d: Detection, i: nat, now: real)
    requires i < 3
    ensures CallsFor(cfg, handled, d, i, now) <==> Eligible(cfg, Expired(cfg, handled, now), d, i)
  {
    hide InReach, IsNew, Known, Expired;
    ReachIsRange(cfg, d);
    NewIsUnknown(cfg, handled, d, now);
  }

  /** A slot has a candidate exactly when some detection of the list calls for its action, and then the candidate
      is one of them, none of which is nearer. */
  lemma CandidateIff(cfg: Config, s: State, dets: seq<Detection>, now: real, i: nat)
    requires i < 3
    ensures var c := Scanned(cfg, s, dets, now).best[i];
            && (c.Some? <==> exists k :: 0 <= k < |dets| && CallsFor(cfg, s.handled, dets[k], i, now))
            && (c.Some? ==>
                  && c.value in dets && CallsFor(cfg, s.handled, c.value, i, now)
                  && forall k | 0 <= k < |dets| && CallsFor(cfg, s.handled, dets[k], i, now) ::
                       c.value.distance.value <= dets[k].distance.value)
  {
    hide Scanned, CallsFor, Eligible, Expired;
    var c := Scanned(cfg, s, dets, now).best[i];
    CandidateIsNearestEligible(cfg, s, dets, now, i);
    forall d ensures CallsFor(cfg, s.handled, d, i, now) <==> Eligible(cfg, Expired(cfg, s.handled, now), d, i) {
      CallsIsEligible(cfg, s.handled, d, i, now);
    }
    if c.Some? {
      var k :| 0 <= k < |dets| && dets[k] == c.value;
    }
  }

  // ---- runs ----

  function Needed(cfg: Config, i: nat): int {
    if i == 0 then cfg.confirmChange else if i == 1 then cfg.confirmStop else cfg.confirmIntersection
  }

  /** The event is a list with a detection that calls for the action of slot i. */
  ghost predicate Shows(cfg: Config, s: State, e: Event, i: nat) {
    e.List? && exists k :: 0 <= k < |e.dets| && CallsFor(cfg, s.handled, e.dets[k], i, e.now)
  }

  /** The event leaves the counter of slot i alone. */
  predicate Neutral(e: Event, i: nat) {
    e.ForgetSign? || (e.Done? && (i == 1 || e.sent.action != ActionOf(i)))
  }

  /** How many lists at the end of the run have shown such a detection without a break, each given what was
      remembered then. */
  ghost function ShownLately(cfg: Config, evs: seq<Event>, i: nat): nat {
    if evs == [] then 0
    else
      var front, e := evs[..|evs| - 1], evs[|evs| - 1];
      if Shows(cfg, RunAll(cfg, front), e, i) then ShownLately(cfg, front, i) + 1
      else if Neutral(e, i) then ShownLately(cfg, front, i) else 0
  }
}
