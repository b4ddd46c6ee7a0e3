/** What the decider guarantees over whole runs of detection lists and completed actions. */
module DecisionTraces {
  import opened Options
  import opened DecisionSpec
  import S = Slots

  datatype Event = List(dets: seq<Detection>, now: real) | Done(sent: Decision, now: real) | ForgetSign

  function After(cfg: Config, s: State, e: Event): (r: State)
    requires StateOk(s)
    ensures StateOk(r)
  {
    match e
    case List(dets, now) => Updated(cfg, s, dets, now)
    case Done(sent, now) => Marked(s, sent, now)
    case ForgetSign => s.(stopSignTime := NEVER)
  }

  function RunAll(cfg: Config, evs: seq<Event>): (r: State)
    ensures StateOk(r)
  {
    if evs == [] then INITIAL else After(cfg, RunAll(cfg, evs[..|evs| - 1]), evs[|evs| - 1])
  }

  // ---- which detection is a candidate ----

  /** A detection that may be acted upon in slot i, given the handled memory. */
  predicate Eligible(cfg: Config, handled: seq<Handled>, d: Detection, i: nat) {
    && InRange(cfg, d) && cfg.classes[d.cls].action != NoAction && Slot(cfg.classes[d.cls].action) == i
    && (cfg.classes[d.cls].action == Stop || !Known(handled, d))
  }

  /** The same entries up to when they were last seen. */
  ghost predicate SameEntries(a: seq<Handled>, b: seq<Handled>) {
    |a| == |b| && forall i | 0 <= i < |a| :: a[i].(lastSeen := b[i].lastSeen) == b[i]
  }

  lemma {:induction false} RefreshedSame(handled: seq<Handled>, d: Detection, now: real)
    ensures SameEntries(handled, Refreshed(handled, d, now))
  {
    if handled != [] && !Matches(handled[0], d) {
      RefreshedSame(handled[1..], d, now);
    }
  }

  lemma SameMatch(h: Handled, k: Handled, d: Detection)
    requires h.(lastSeen := k.lastSeen) == k
    ensures Matches(h, d) <==> Matches(k, d)
  {
  }

  lemma SameKnown(a: seq<Handled>, b: seq<Handled>, d: Detection)
    requires SameEntries(a, b)
    ensures Known(a, d) <==> Known(b, d)
  {
    hide Matches;
    forall i | 0 <= i < |a| ensures Matches(a[i], d) <==> Matches(b[i], d) {
      SameMatch(a[i], b[i], d);
    }
  }

  lemma {:induction false} ScanKeepsEntries(cfg: Config, s: Scan, dets: seq<Detection>, now: real)
    requires ScanOk(s)
    ensures SameEntries(s.handled, ScanAll(cfg, s, dets, now).handled)
  {
    if dets != [] {
      ScanKeepsEntries(cfg, s, dets[..|dets| - 1], now);
      RefreshedSame(ScanAll(cfg, s, dets[..|dets| - 1], now).handled, dets[|dets| - 1], now);
    }
  }

  /** c is a nearest eligible detection of the list, or there is none. */
  ghost predicate IsBest(cfg: Config, handled: seq<Handled>, dets: seq<Detection>, i: nat, c: Option<Detection>) {
    && (c.Some? ==> c.value in dets && Eligible(cfg, handled, c.value, i))
    && (forall k | 0 <= k < |dets| && Eligible(cfg, handled, dets[k], i) ::
          c.Some? && c.value.distance.Some? && c.value.distance.value <= dets[k].distance.value)
  }

  lemma {:induction false} ScanFindsBest(cfg: Config, s: Scan, dets: seq<Detection>, now: real, i: nat)
    requires ScanOk(s) && s.best == [None, None, None] && i < 3
    ensures IsBest(cfg, s.handled, dets, i, ScanAll(cfg, s, dets, now).best[i])
  {
    if dets != [] {
      var n := |dets| - 1;
      ScanFindsBest(cfg, s, dets[..n], now, i);
      ScanKeepsEntries(cfg, s, dets[..n], now);
      SameKnown(s.handled, ScanAll(cfg, s, dets[..n], now).handled, dets[n]);
      BestGrows(cfg, s, dets, now, i, n);
    }
  }

  lemma BestGrows(cfg: Config, s: Scan, dets: seq<Detection>, now: real, i: nat, n: nat)
    requires ScanOk(s) && i < 3 && |dets| == n + 1
    requires var t := ScanAll(cfg, s, dets[..n], now);
             && IsBest(cfg, s.handled, dets[..n], i, t.best[i])
             && (Known(s.handled, dets[n]) <==> Known(t.handled, dets[n]))
    ensures IsBest(cfg, s.handled, dets, i, ScanAll(cfg, s, dets, now).best[i])
  {
    hide Known, Matches, Refreshed;
    var t := ScanAll(cfg, s, dets[..n], now);
    var d := dets[n];
    var c, c' := t.best[i], ScanOne(cfg, t, d, now).best[i];
    assert c' == if Eligible(cfg, s.handled, d, i) then Nearer(c, d) else c;
    forall k | 0 <= k < |dets| && Eligible(cfg, s.handled, dets[k], i)
      ensures c'.Some? && c'.value.distance.Some? && c'.value.distance.value <= dets[k].distance.value
    {
      assert k < n ==> dets[..n][k] == dets[k];
    }
  }

  /** The candidate of slot i is a nearest detection of the list that is eligible given what is remembered. */
  lemma CandidateIsNearestEligible(cfg: Config, s: State, dets: seq<Detection>, now: real, i: nat)
    requires i < 3
    ensures IsBest(cfg, Expired(cfg, s.handled, now), dets, i, Scanned(cfg, s, dets, now).best[i])
  {
    ScanFindsBest(cfg, Scan([None, None, None], Expired(cfg, s.handled, now), s.stopSignTime), dets, now, i);
  }

  // ---- slots ----

  /** What an event means for slot i, in state s. */
  function TickOf(cfg: Config, s: State, e: Event, i: nat): seq<S.Tick<Detection>>
    requires StateOk(s) && i < 3
  {
    match e
    case List(dets, now) =>
      var c := Scanned(cfg, s, dets, now).best[i];
      [if c.Some? then S.Seen(now, c.value) else S.Missed(now)]
    case Done(sent, _) =>
      if (sent.action == Change || sent.action == Intersection) && Slot(sent.action) == i then [S.Reset] else []
    case ForgetSign => []
  }

  function Ticks(cfg: Config, evs: seq<Event>, i: nat): seq<S.Tick<Detection>>
    requires i < 3
  {
    if evs == [] then []
    else
      var front := evs[..|evs| - 1];
      Ticks(cfg, front, i) + TickOf(cfg, RunAll(cfg, front), evs[|evs| - 1], i)
  }

  lemma StepIsTick(cfg: Config, s: State, e: Event, i: nat, ticks: seq<S.Tick<Detection>>)
    requires StateOk(s) && i < 3
    requires S.Run(Confirm(cfg)[i], Hold(cfg)[i], NO_DETECTION, ticks) == S.Slot(s.hits[i], s.holdUntil[i], s.last[i])
    ensures var r := After(cfg, s, e);
            S.Run(Confirm(cfg)[i], Hold(cfg)[i], NO_DETECTION, ticks + TickOf(cfg, s, e, i))
            == S.Slot(r.hits[i], r.holdUntil[i], r.last[i])
  {
    hide Scanned;
    var more := TickOf(cfg, s, e, i);
    if more == [] {
      assert ticks + more == ticks;
    } else {
      assert (ticks + more)[..|ticks|] == ticks;
    }
  }

  /** Each slot of the decider runs on its ticks alone. */
  lemma {:induction false} SlotRuns(cfg: Config, evs: seq<Event>, i: nat)
    requires i < 3
    ensures var s := RunAll(cfg, evs);
            S.Run(Confirm(cfg)[i], Hold(cfg)[i], NO_DETECTION, Ticks(cfg, evs, i))
            == S.Slot(s.hits[i], s.holdUntil[i], s.last[i])
  {
    if evs != [] {
      var front := evs[..|evs| - 1];
      SlotRuns(cfg, front, i);
      StepIsTick(cfg, RunAll(cfg, front), evs[|evs| - 1], i, Ticks(cfg, front, i));
    }
  }

  /** The lists of a run come in time order, from time 0 on. */
  ghost predicate InOrder(evs: seq<Event>) {
    && (forall k | 0 <= k < |evs| && evs[k].List? :: evs[k].now >= 0.0)
    && (forall j, k | 0 <= j <= k < |evs| && evs[j].List? && evs[k].List? :: evs[j].now <= evs[k].now)
  }

  lemma {:induction false} TicksInOrder(cfg: Config, evs: seq<Event>, i: nat, now: real)
    requires i < 3 && InOrder(evs) && forall k | 0 <= k < |evs| && evs[k].List? :: evs[k].now <= now
    ensures S.Timed(Ticks(cfg, evs, i))
    ensures forall t | t in Ticks(cfg, evs, i) && !t.Reset? :: t.now <= now
  {
    if evs != [] {
      var n := |evs| - 1;
      var front, e := evs[..n], evs[n];
      assert forall k | 0 <= k < n :: front[k] == evs[k];
      var before := Ticks(cfg, front, i);
      var more := TickOf(cfg, RunAll(cfg, front), e, i);
      TicksInOrder(cfg, front, i, if e.List? then e.now else now);
      TimedAppend(before, more, if e.List? then e.now else now);
    }
  }

  lemma TimedAppend(before: seq<S.Tick<Detection>>, more: seq<S.Tick<Detection>>, now: real)
    requires S.Timed(before) && |more| <= 1
    requires forall t | t in before && !t.Reset? :: t.now <= now
    requires |more| == 1 ==> more[0].Reset? || (more[0].now == now && now >= 0.0)
    ensures S.Timed(before + more)
    ensures forall t | t in before + more && !t.Reset? :: t.now <= now
  {
    var all := before + more;
    forall j, k | 0 <= j <= k < |all| && !all[j].Reset? && !all[k].Reset? ensures all[j].now <= all[k].now {
      if j < |before| && k == |before| {
        assert before[j] in before;
      }
    }
  }

  /** A detection list confirmed slot i, no success reset it since, and it is the current list or is held. */
  ghost predicate Confirmed(cfg: Config, evs: seq<Event>, i: nat)
    requires i < 3
  {
    exists j :: S.Holds(Confirm(cfg)[i], Hold(cfg)[i], Ticks(cfg, evs, i), j)
  }

  lemma SlotActiveIffConfirmed(cfg: Config, evs: seq<Event>, dets: seq<Detection>, now: real, i: nat)
    requires i < 3 && InOrder(evs + [List(dets, now)])
    ensures var s := RunAll(cfg, evs);
            SlotActive(cfg, Updated(cfg, s, dets, now), Scanned(cfg, s, dets, now).best, i, now)
            <==> Confirmed(cfg, evs + [List(dets, now)], i)
    ensures var ticks := Ticks(cfg, evs + [List(dets, now)], i);
            SlotActive(cfg, Updated(cfg, RunAll(cfg, evs), dets, now),
           Scanned(cfg, RunAll(cfg, evs), dets, now).best, i, now)
            <==> S.Active(Confirm(cfg)[i], Hold(cfg)[i], NO_DETECTION, ticks)
  {
    hide Scanned, Updated, S.Run;
    var all, e := evs + [List(dets, now)], List(dets, now);
    assert all[..|evs|] == evs;
    forall k | 0 <= k < |all| && all[k].List? ensures all[k].now <= now {
      assert all[|evs|] == e;
    }
    SlotRuns(cfg, all, i);
    TicksInOrder(cfg, all, i, now);
    var s := RunAll(cfg, evs);
    var ticks := Ticks(cfg, all, i);
    assert TickOf(cfg, s, e, i) == [ticks[|ticks| - 1]];
    S.ActiveIffConfirmed(Confirm(cfg)[i], Hold(cfg)[i], NO_DETECTION, ticks);
  }

  /** On every run the reported action is the first of STOP, INTERSECTION, CHANGE whose slot is confirmed. */
  lemma ReportedActionIsConfirmed(cfg: Config, evs: seq<Event>, dets: seq<Detection>, now: real)
    requires InOrder(evs + [List(dets, now)])
    ensures var all := evs + [List(dets, now)];
            Decide(cfg, RunAll(cfg, evs), dets, now).action ==
            if Confirmed(cfg, all, 1) then Stop
            else if Confirmed(cfg, all, 2) then Intersection
            else if Confirmed(cfg, all, 0) then Change
            else NoAction
  {
    hide Scanned, Updated, Confirmed, SlotActive;
    SlotActiveIffConfirmed(cfg, evs, dets, now, 0);
    SlotActiveIffConfirmed(cfg, evs, dets, now, 1);
    SlotActiveIffConfirmed(cfg, evs, dets, now, 2);
  }

  /** The reported obstacle is the candidate of a confirming list. */
  lemma ReportedObstacleWasSeen(cfg: Config, evs: seq<Event>, dets: seq<Detection>, now: real) returns (j: int)
    requires InOrder(evs + [List(dets, now)])
    requires Decide(cfg, RunAll(cfg, evs), dets, now).action != NoAction
    ensures var d := Decide(cfg, RunAll(cfg, evs), dets, now);
            var i := Slot(d.action);
            var ticks := Ticks(cfg, evs + [List(dets, now)], i);
            && S.Holds(Confirm(cfg)[i], Hold(cfg)[i], ticks, j)
            && d.(needsStop := false) == Make(d.action, ticks[j].det)
            && d.obstacleId == ticks[j].det.id && d.distance == ticks[j].det.distance && d.cls == ticks[j].det.cls
            && d.x == ticks[j].det.x && d.y == ticks[j].det.y
  {
    hide Scanned, Updated, SlotActive, S.Run, S.Active, S.Holds;
    var all := evs + [List(dets, now)];
    var d := Decide(cfg, RunAll(cfg, evs), dets, now);
    var i := Slot(d.action);
    SlotActiveIffConfirmed(cfg, evs, dets, now, 0);
    SlotActiveIffConfirmed(cfg, evs, dets, now, 1);
    SlotActiveIffConfirmed(cfg, evs, dets, now, 2);
    assert all[..|evs|] == evs;
    forall k | 0 <= k < |all| && all[k].List? ensures all[k].now <= now {
      assert all[|evs|] == List(dets, now);
    }
    TicksInOrder(cfg, all, i, now);
    SlotRuns(cfg, all, i);
    j := S.CauseOfReport(Confirm(cfg)[i], Hold(cfg)[i], NO_DETECTION, Ticks(cfg, all, i));
  }
}
