/** A handled obstacle that keeps being sighted never becomes a candidate again. */
module HandledMemory {
  import opened Options
  import opened DecisionSpec
  import opened DecisionTraces

  /** The same physical thing as far as the memory can tell. */
  predicate SameKey(d: Detection, e: Detection) {
    d.id == e.id && d.cls == e.cls && d.x == e.x && d.y == e.y
  }

  /** Some entry matches d and was seen at time t or later. */
  ghost predicate Remembered(handled: seq<Handled>, d: Detection, t: real) {
    exists i :: 0 <= i < |handled| && Matches(handled[i], d) && handled[i].lastSeen >= t
  }

  /** The list shows d inside its trigger distance. */
  predicate Sighted(cfg: Config, dets: seq<Detection>, d: Detection) {
    exists k :: 0 <= k < |dets| && SameKey(dets[k], d) && InRange(cfg, dets[k])
  }

  /** Obstacles of this class are remembered when handled. */
  predicate Rememberable(cfg: Config, d: Detection) {
    d.cls in cfg.classes && (cfg.classes[d.cls].action == Change || cfg.classes[d.cls].action == Intersection)
  }

  function MinTtl(cfg: Config): real {
    if cfg.handledTtl < cfg.pseudoTtl then cfg.handledTtl else cfg.pseudoTtl
  }

  lemma {:induction false} ExpiredKeeps(cfg: Config, handled: seq<Handled>, now: real, i: nat)
    requires i < |handled| && now - handled[i].lastSeen <= Ttl(cfg, handled[i])
    ensures handled[i] in Expired(cfg, handled, now)
  {
    if i > 0 {
      ExpiredKeeps(cfg, handled[1..], now, i - 1);
    }
  }

  lemma RememberedSurvives(cfg: Config, handled: seq<Handled>, d: Detection, t: real, now: real)
    requires Remembered(handled, d, t) && now - t <= MinTtl(cfg)
    ensures Remembered(Expired(cfg, handled, now), d, t)
  {
    hide Matches;
    var i :| 0 <= i < |handled| && Matches(handled[i], d) && handled[i].lastSeen >= t;
    ExpiredKeeps(cfg, handled, now, i);
    var kept := Expired(cfg, handled, now);
    var j :| 0 <= j < |kept| && kept[j] == handled[i];
  }

  /** Refreshing an entry touches only when it was seen, and the first match is then seen now. */
  lemma {:induction false} RefreshKeeps(handled: seq<Handled>, e: Detection, now: real, i: nat)
    requires i < |handled|
    ensures var r := Refreshed(handled, e, now);
            |r| == |handled| && (r[i] == handled[i] || r[i] == handled[i].(lastSeen := now))
    ensures Matches(handled[i], e) ==>
              exists j :: 0 <= j < |handled| && Matches(handled[j], e)
                && Refreshed(handled, e, now)[j] == handled[j].(lastSeen := now)
  {
    hide Matches;
    RefreshedSame(handled, e, now);
    if !Matches(handled[0], e) && i > 0 {
      RefreshKeeps(handled[1..], e, now, i - 1);
      if Matches(handled[i], e) {
        var j :| 0 <= j < |handled[1..]| && Matches(handled[1..][j], e)
                 && Refreshed(handled[1..], e, now)[j] == handled[1..][j].(lastSeen := now);
        assert handled[j + 1] == handled[1..][j];
        assert Refreshed(handled, e, now)[j + 1] == handled[j + 1].(lastSeen := now);
      }
    } else if Matches(handled[0], e) {
      assert Refreshed(handled, e, now)[0] == handled[0].(lastSeen := now);
    }
  }

  lemma RefreshRemembers(handled: seq<Handled>, e: Detection, now: real, d: Detection, t: real)
    requires Remembered(handled, d, t) && t <= now
    ensures Remembered(Refreshed(handled, e, now), d, t)
  {
    hide Matches;
    var i :| 0 <= i < |handled| && Matches(handled[i], d) && handled[i].lastSeen >= t;
    RefreshKeeps(handled, e, now, i);
    SameMatch(handled[i], Refreshed(handled, e, now)[i], d);
  }

  lemma RefreshSees(handled: seq<Handled>, e: Detection, now: real, d: Detection)
    requires Known(handled, e) && SameKey(e, d)
    ensures Remembered(Refreshed(handled, e, now), d, now)
  {
    KeyMatches(handled, e, d);
    var i :| 0 <= i < |handled| && Matches(handled[i], e);
    RefreshKeeps(handled, e, now, i);
    var j :| 0 <= j < |handled| && Matches(handled[j], e)
      && Refreshed(handled, e, now)[j] == handled[j].(lastSeen := now);
    RefreshKeeps(handled, e, now, j);
    SameMatch(handled[j], Refreshed(handled, e, now)[j], d);
    assert Matches(Refreshed(handled, e, now)[j], d);
  }

  lemma KeyMatches(handled: seq<Handled>, e: Detection, d: Detection)
    requires SameKey(e, d)
    ensures forall i | 0 <= i < |handled| :: Matches(handled[i], e) <==> Matches(handled[i], d)
  {
  }

  /** No slot holds d as its candidate. */
  ghost predicate NotCandidate(best: seq<Option<Detection>>, d: Detection) {
    forall i | 0 <= i < |best| && best[i].Some? :: !SameKey(best[i].value, d)
  }

  lemma ScanOneRemembers(cfg: Config, s: Scan, e: Detection, now: real, d: Detection, t: real)
    requires ScanOk(s) && Rememberable(cfg, d) && NotCandidate(s.best, d)
    requires Remembered(s.handled, d, t) && t <= now
    ensures var r := ScanOne(cfg, s, e, now);
            && NotCandidate(r.best, d) && Remembered(r.handled, d, t)
            && (SameKey(e, d) && InRange(cfg, e) ==> Remembered(r.handled, d, now))
  {
    hide Matches, Usable, Refreshed;
    KeyKnown(s.handled, e, d, t);
    if Known(s.handled, e) {
      RefreshRemembers(s.handled, e, now, d, t);
      if SameKey(e, d) {
        RefreshSees(s.handled, e, now, d);
      }
    }
    NotUsable(cfg, e);
  }

  lemma NotUsable(cfg: Config, e: Detection)
    ensures Usable(cfg, e) ==> e.cls in cfg.classes && e.distance.Some?
  {
  }

  lemma KeyKnown(handled: seq<Handled>, e: Detection, d: Detection, t: real)
    requires Remembered(handled, d, t)
    ensures SameKey(e, d) ==> Known(handled, e)
  {
    if SameKey(e, d) {
      KeyMatches(handled, e, d);
    }
  }

  lemma {:induction false} ScanRemembers(cfg: Config, s: Scan, dets: seq<Detection>, now: real, d: Detection, t: real)
    requires ScanOk(s) && s.best == [None, None, None] && Rememberable(cfg, d)
    requires Remembered(s.handled, d, t) && t <= now
    ensures var r := ScanAll(cfg, s, dets, now);
            && NotCandidate(r.best, d) && Remembered(r.handled, d, t)
            && (Sighted(cfg, dets, d) ==> Remembered(r.handled, d, now))
  {
    if dets != [] {
      var n := |dets| - 1;
      ScanRemembers(cfg, s, dets[..n], now, d, t);
      ScanStepRemembers(cfg, ScanAll(cfg, s, dets[..n], now), dets, n, now, d, t);
    }
  }

  lemma ScanStepRemembers(cfg: Config, u: Scan, dets: seq<Detection>, n: nat, now: real, d: Detection, t: real)
    requires ScanOk(u) && |dets| == n + 1 && Rememberable(cfg, d) && t <= now
    requires NotCandidate(u.best, d) && Remembered(u.handled, d, t)
    requires Sighted(cfg, dets[..n], d) ==> Remembered(u.handled, d, now)
    ensures var r := ScanOne(cfg, u, dets[n], now);
            && NotCandidate(r.best, d) && Remembered(r.handled, d, t)
            && (Sighted(cfg, dets, d) ==> Remembered(r.handled, d, now))
  {
    hide Remembered, ScanOne, InRange, SameKey, NotCandidate;
    ScanOneRemembers(cfg, u, dets[n], now, d, t);
    if Sighted(cfg, dets, d) {
      var k :| 0 <= k < |dets| && SameKey(dets[k], d) && InRange(cfg, dets[k]);
      if k < n {
        assert dets[..n][k] == dets[k];
        ScanOneRemembers(cfg, u, dets[n], now, d, now);
      }
    }
  }

  /** A list that comes within the memory's time limits cannot make d a candidate, and sees it again. */
  lemma ListRemembers(cfg: Config, s: State, dets: seq<Detection>, now: real, d: Detection, t: real)
    requires StateOk(s) && Rememberable(cfg, d) && Remembered(s.handled, d, t)
    requires t <= now && now - t <= MinTtl(cfg)
    ensures NotCandidate(Scanned(cfg, s, dets, now).best, d)
    ensures Remembered(Updated(cfg, s, dets, now).handled, d, if Sighted(cfg, dets, d) then now else t)
  {
    hide Remembered, ScanAll, Expired, Sighted;
    RememberedSurvives(cfg, s.handled, d, t, now);
    ScanRemembers(cfg, Scan([None, None, None], Expired(cfg, s.handled, now), s.stopSignTime), dets, now, d, t);
  }

  // ---- whole runs ----

  function RunFrom(cfg: Config, s: State, evs: seq<Event>): (r: State)
    requires StateOk(s)
    ensures StateOk(r)
  {
    if evs == [] then s else After(cfg, RunFrom(cfg, s, evs[..|evs| - 1]), evs[|evs| - 1])
  }

  /** When d was last sighted, or t0 if it was not. */
  function LastSighting(cfg: Config, evs: seq<Event>, d: Detection, t0: real): real {
    if evs == [] then t0
    else
      var e := evs[|evs| - 1];
      if e.List? && Sighted(cfg, e.dets, d) then e.now else LastSighting(cfg, evs[..|evs| - 1], d, t0)
  }

  /** Lists come in time order from t0 on, and no sighting comes later than the memory lasts. */
  ghost predicate Steady(cfg: Config, evs: seq<Event>, d: Detection, t0: real) {
    && (forall k | 0 <= k < |evs| && evs[k].List? :: t0 <= evs[k].now)
    && (forall j, k | 0 <= j <= k < |evs| && evs[j].List? && evs[k].List? :: evs[j].now <= evs[k].now)
    && (forall k | 0 <= k < |evs| && evs[k].List? && Sighted(cfg, evs[k].dets, d) ::
          evs[k].now - LastSighting(cfg, evs[..k], d, t0) <= MinTtl(cfg))
  }

  lemma SteadyPrefix(cfg: Config, evs: seq<Event>, d: Detection, t0: real, n: nat)
    requires Steady(cfg, evs, d, t0) && n <= |evs|
    ensures Steady(cfg, evs[..n], d, t0)
  {
    hide Sighted, LastSighting;
    forall k | 0 <= k < n && evs[..n][k].List? && Sighted(cfg, evs[..n][k].dets, d)
      ensures evs[..n][k].now - LastSighting(cfg, evs[..n][..k], d, t0) <= MinTtl(cfg)
    {
      assert evs[..n][..k] == evs[..k] && evs[..n][k] == evs[k];
    }
  }

  lemma {:induction false} SightingBefore(cfg: Config, evs: seq<Event>, d: Detection, t0: real, now: real)
    requires t0 <= now && forall k | 0 <= k < |evs| && evs[k].List? :: evs[k].now <= now
    ensures LastSighting(cfg, evs, d, t0) <= now
  {
    if evs != [] {
      SightingBefore(cfg, evs[..|evs| - 1], d, t0, now);
    }
  }

  lemma AppendRemembers(handled: seq<Handled>, h: Handled, d: Detection, t: real)
    requires Remembered(handled, d, t)
    ensures Remembered(handled + [h], d, t)
  {
    hide Matches;
    var i :| 0 <= i < |handled| && Matches(handled[i], d) && handled[i].lastSeen >= t;
    assert (handled + [h])[i] == handled[i];
  }

  /** As long as the last sighting is recent enough, it is remembered. */
  lemma {:induction false} StillRemembered(cfg: Config, s: State, evs: seq<Event>, d: Detection, t0: real, now: real)
    requires StateOk(s) && Rememberable(cfg, d) && Remembered(s.handled, d, t0) && Steady(cfg, evs, d, t0)
    requires t0 <= now && forall k | 0 <= k < |evs| && evs[k].List? :: evs[k].now <= now
    requires now - LastSighting(cfg, evs, d, t0) <= MinTtl(cfg)
    ensures Remembered(RunFrom(cfg, s, evs).handled, d, LastSighting(cfg, evs, d, t0))
    decreases |evs|, 1
  {
    if evs != [] {
      StillRememberedStep(cfg, s, evs, d, t0, now, |evs| - 1);
    }
  }

  lemma StillRememberedStep(cfg: Config, s: State, evs: seq<Event>, d: Detection, t0: real, now: real, n: nat)
    requires StateOk(s) && Rememberable(cfg, d) && Remembered(s.handled, d, t0) && Steady(cfg, evs, d, t0)
    requires t0 <= now && forall k | 0 <= k < |evs| && evs[k].List? :: evs[k].now <= now
    requires now - LastSighting(cfg, evs, d, t0) <= MinTtl(cfg) && |evs| == n + 1
    ensures Remembered(RunFrom(cfg, s, evs).handled, d, LastSighting(cfg, evs, d, t0))
    decreases |evs|, 0
  {
    hide Remembered, Sighted, Updated, Rememberable;
    var front, e := evs[..n], evs[n];
    SteadyPrefix(cfg, evs, d, t0, n);
    assert forall k | 0 <= k < n :: front[k] == evs[k];
    var m := if e.List? then e.now else now;
    StillRemembered(cfg, s, front, d, t0, m);
    var t := LastSighting(cfg, front, d, t0);
    var u := RunFrom(cfg, s, front);
    match e
    case List(dets, _) =>
      SightingBefore(cfg, front, d, t0, m);
      ListRemembers(cfg, u, dets, m, d, t);
    case Done(sent, at) =>
      AppendRemembers(u.handled, Handled(sent.obstacleId, sent.cls, sent.distance, sent.x, sent.y, at), d, t);
    case ForgetSign =>
  }

  /** While the gaps between its sightings stay within both time limits, a handled obstacle or stop
      line is never a candidate, whichever entries were refreshed and whichever others expired. */
  lemma NeverCandidateAgain(cfg: Config, s: State, evs: seq<Event>, d: Detection, t0: real, k: nat)
    requires StateOk(s) && Rememberable(cfg, d) && Remembered(s.handled, d, t0) && Steady(cfg, evs, d, t0)
    requires k < |evs| && evs[k].List? && Sighted(cfg, evs[k].dets, d)
    ensures NotCandidate(Scanned(cfg, RunFrom(cfg, s, evs[..k]), evs[k].dets, evs[k].now).best, d)
  {
    hide Remembered, Sighted, NotCandidate, Rememberable;
    var now := evs[k].now;
    SteadyPrefix(cfg, evs, d, t0, k);
    assert forall j | 0 <= j < k :: evs[..k][j] == evs[j];
    SightingBefore(cfg, evs[..k], d, t0, now);
    StillRemembered(cfg, s, evs[..k], d, t0, now);
    ListRemembers(cfg, RunFrom(cfg, s, evs[..k]), evs[k].dets, now, d, LastSighting(cfg, evs[..k], d, t0));
  }

  /** Marking the decision made for d as handled remembers d from then on. */
  lemma MarkingRemembers(s: State, a: Action, d: Detection, sent: Decision, now: real)
    requires StateOk(s) && (a == Change || a == Intersection) && sent == Make(a, d).(needsStop := sent.needsStop)
    ensures Remembered(Marked(s, sent, now).handled, d, now)
  {
    var handled := Marked(s, sent, now).handled;
    assert Matches(handled[|s.handled|], d);
  }
}
