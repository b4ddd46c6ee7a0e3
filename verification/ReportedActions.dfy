/** The reported decision of a whole run, told by its detection lists and successes alone. */
module ReportedActions {
  import opened Options
  import opened DecisionSpec
  import opened DecisionTraces
  import opened NewObstacles

  function HoldTime(cfg: Config, i: nat): real {
    if i == 2 then cfg.intersectionHold else cfg.holdTime
  }

  /** Event k is a list that completes as many showing ones in a row as slot i needs. */
  ghost predicate Completes(cfg: Config, evs: seq<Event>, k: int, i: nat) {
    && 0 <= k < |evs| && Shows(cfg, RunAll(cfg, evs[..k]), evs[k], i)
    && ShownLately(cfg, evs[..k + 1], i) >= Needed(cfg, i)
  }

  /** No action of slot i succeeded after event k. A STOP never succeeds. */
  predicate Unfinished(evs: seq<Event>, k: int, i: nat) {
    forall m | 0 <= m < |evs| && k < m && evs[m].Done? :: i == 1 || evs[m].sent.action != ActionOf(i)
  }

  /** The list k calls for the action of slot i, and that is still so at the end of the run: k is its last event,
      or k is less than the hold time ago; no success came in between. */
  ghost predicate StandsBy(cfg: Config, evs: seq<Event>, k: int, i: nat) {
    && Completes(cfg, evs, k, i) && Unfinished(evs, k, i) && evs[|evs| - 1].List?
    && (k == |evs| - 1 || evs[|evs| - 1].now < evs[k].now + HoldTime(cfg, i))
  }

  ghost predicate CalledFor(cfg: Config, evs: seq<Event>, i: nat) {
    exists k :: StandsBy(cfg, evs, k, i)
  }

  lemma IsList(cfg: Config, evs: seq<Event>, k: int, i: nat)
    requires Completes(cfg, evs, k, i)
    ensures 0 <= k < |evs| && evs[k].List?
  {
  }

  lemma OneEvent(cfg: Config, s: State, e: Event, i: nat)
    requires StateOk(s) && i < 3
    ensures After(cfg, s, e).hits[i] == if Shows(cfg, s, e, i) then s.hits[i] + 1
                                        else if Neutral(e, i) then s.hits[i] else 0
    ensures var r, shown := After(cfg, s, e), Shows(cfg, s, e, i) && s.hits[i] + 1 >= Needed(cfg, i);
            && r.holdUntil[i] == (if shown then e.now + HoldTime(cfg, i)
                                  else if e.List? || Neutral(e, i) then s.holdUntil[i] else 0.0)
            && (if shown then Scanned(cfg, s, e.dets, e.now).best[i] == Some(r.last[i]) else r.last[i] == s.last[i])
  {
    hide Scanned, CallsFor;
    if e.List? {
      CandidateIff(cfg, s, e.dets, e.now, i);
    }
  }

  lemma {:induction false} HitsAreShown(cfg: Config, evs: seq<Event>, i: nat)
    requires i < 3
    ensures RunAll(cfg, evs).hits[i] == ShownLately(cfg, evs, i)
  {
    hide Shows, After;
    if evs != [] {
      var n := |evs| - 1;
      HitsAreShown(cfg, evs[..n], i);
      OneEvent(cfg, RunAll(cfg, evs[..n]), evs[n], i);
    }
  }

  lemma LastCompletes(cfg: Config, evs: seq<Event>, i: nat)
    requires i < 3 && evs != []
    ensures var n := |evs| - 1; var s := RunAll(cfg, evs[..n]);
            Completes(cfg, evs, n, i) <==> Shows(cfg, s, evs[n], i) && s.hits[i] + 1 >= Needed(cfg, i)
  {
    hide Shows, Needed;
    var n := |evs| - 1;
    assert evs[..n + 1] == evs;
    HitsAreShown(cfg, evs[..n], i);
  }

  lemma Earlier(cfg: Config, evs: seq<Event>, k: int, i: nat)
    requires evs != [] && 0 <= k < |evs| - 1
    ensures Completes(cfg, evs[..|evs| - 1], k, i) <==> Completes(cfg, evs, k, i)
  {
    hide Shows, Needed, RunAll, ShownLately;
    assert evs[..|evs| - 1][..k] == evs[..k] && evs[..|evs| - 1][..k + 1] == evs[..k + 1];
  }

  /** A hold that is set was set by a list whose slot has seen no success since, and the slot has its candidate. */
  lemma {:induction false} HoldHasCause(cfg: Config, evs: seq<Event>, i: nat) returns (k: int)
    requires i < 3 && RunAll(cfg, evs).holdUntil[i] != 0.0
    ensures Completes(cfg, evs, k, i) && Unfinished(evs, k, i)
    ensures RunAll(cfg, evs).holdUntil[i] == evs[k].now + HoldTime(cfg, i)
    ensures Scanned(cfg, RunAll(cfg, evs[..k]), evs[k].dets, evs[k].now).best[i] == Some(RunAll(cfg, evs).last[i])
  {
    hide Shows, After, Scanned, Needed, HoldTime;
    var n := |evs| - 1;
    LastCompletes(cfg, evs, i);
    OneEvent(cfg, RunAll(cfg, evs[..n]), evs[n], i);
    if Completes(cfg, evs, n, i) {
      k := n;
    } else {
      k := HoldHasCause(cfg, evs[..n], i);
      Earlier(cfg, evs, k, i);
      assert evs[..n][..k] == evs[..k];
      forall m | 0 <= m < |evs| && k < m && evs[m].Done? ensures i == 1 || evs[m].sent.action != ActionOf(i) {
        assert m < n ==> evs[..n][m] == evs[m];
      }
    }
  }

  /** Such a list keeps the hold at least as long as its hold time. */
  lemma {:induction false} HoldLasts(cfg: Config, evs: seq<Event>, k: int, i: nat)
    requires i < 3 && InOrder(evs) && Completes(cfg, evs, k, i) && Unfinished(evs, k, i)
    ensures RunAll(cfg, evs).holdUntil[i] >= evs[k].now + HoldTime(cfg, i)
  {
    hide Shows, After, Needed, HoldTime;
    var n := |evs| - 1;
    IsList(cfg, evs, k, i);
    LastCompletes(cfg, evs, i);
    OneEvent(cfg, RunAll(cfg, evs[..n]), evs[n], i);
    if k < n {
      Earlier(cfg, evs, k, i);
      assert forall m | 0 <= m < n :: evs[..n][m] == evs[m];
      HoldLasts(cfg, evs[..n], k, i);
      if Completes(cfg, evs, n, i) {
        IsList(cfg, evs, n, i);
      }
    }
  }

  lemma NowFromZero(evs: seq<Event>, dets: seq<Detection>, now: real)
    requires InOrder(evs + [List(dets, now)])
    ensures now >= 0.0
  {
    assert (evs + [List(dets, now)])[|evs|].now == now;
  }

  lemma ActiveIsCalledFor(cfg: Config, evs: seq<Event>, dets: seq<Detection>, now: real, i: nat)
    requires i < 3 && InOrder(evs + [List(dets, now)])
    ensures var s := RunAll(cfg, evs);
            SlotActive(cfg, Updated(cfg, s, dets, now), Scanned(cfg, s, dets, now).best, i, now)
            <==> CalledFor(cfg, evs + [List(dets, now)], i)
  {
    hide Scanned, CallsFor, Updated, HoldTime, Completes, InOrder;
    var all, n := evs + [List(dets, now)], |evs|;
    NowFromZero(evs, dets, now);
    var s := RunAll(cfg, evs);
    assert all[..n] == evs && all[n] == List(dets, now);
    LastCompletes(cfg, all, i);
    OneEvent(cfg, s, all[n], i);
    CandidateIff(cfg, s, dets, now, i);
    assert RunAll(cfg, all) == Updated(cfg, s, dets, now);
    if Completes(cfg, all, n, i) {
      assert StandsBy(cfg, all, n, i);
    } else if now < RunAll(cfg, all).holdUntil[i] {
      var k := HoldHasCause(cfg, all, i);
      assert StandsBy(cfg, all, k, i);
    }
    if CalledFor(cfg, all, i) {
      var k :| StandsBy(cfg, all, k, i);
      HoldLasts(cfg, all, k, i);
    }
  }

  /** On every run the reported action is STOP when that is called for, else INTERSECTION, else CHANGE, else
      none. */
  lemma ReportedIsCalledFor(cfg: Config, evs: seq<Event>, dets: seq<Detection>, now: real)
    requires InOrder(evs + [List(dets, now)])
    ensures var all := evs + [List(dets, now)];
            Decide(cfg, RunAll(cfg, evs), dets, now).action ==
            if CalledFor(cfg, all, 1) then Stop
            else if CalledFor(cfg, all, 2) then Intersection
            else if CalledFor(cfg, all, 0) then Change
            else NoAction
  {
    hide Scanned, Updated, CalledFor, SlotActive;
    ActiveIsCalledFor(cfg, evs, dets, now, 0);
    ActiveIsCalledFor(cfg, evs, dets, now, 1);
    ActiveIsCalledFor(cfg, evs, dets, now, 2);
  }

  /** When as many lists in a row as a slot needs have shown something that calls for its action, the action is
      reported, unless one that goes before it is called for. */
  lemma ShownIsReported(cfg: Config, evs: seq<Event>, dets: seq<Detection>, now: real, i: nat)
    requires i < 3 && InOrder(evs + [List(dets, now)]) && Shows(cfg, RunAll(cfg, evs), List(dets, now), i)
    requires ShownLately(cfg, evs, i) + 1 >= Needed(cfg, i)
    ensures var all, a := evs + [List(dets, now)], Decide(cfg, RunAll(cfg, evs), dets, now).action;
            && a != NoAction
            && (i == 1 ==> a == Stop)
            && (i == 2 && !CalledFor(cfg, all, 1) ==> a == Intersection)
            && (i == 0 && !CalledFor(cfg, all, 1) && !CalledFor(cfg, all, 2) ==> a == Change)
  {
    hide Decide, RunAll, Shows, InOrder, HoldTime;
    var all, n := evs + [List(dets, now)], |evs|;
    assert all[..n] == evs && all[..n + 1] == all;
    assert StandsBy(cfg, all, n, i);
    ReportedIsCalledFor(cfg, evs, dets, now);
  }

  /** The reported obstacle is a nearest one of those that call for the action in such a list. */
  lemma ReportedIsNearest(cfg: Config, evs: seq<Event>, dets: seq<Detection>, now: real) returns (k: int, d: Detection)
    requires InOrder(evs + [List(dets, now)]) && Decide(cfg, RunAll(cfg, evs), dets, now).action != NoAction
    ensures var all, r := evs + [List(dets, now)], Decide(cfg, RunAll(cfg, evs), dets, now);
            var i := if r.action == Stop then 1 else if r.action == Intersection then 2 else 0;
            && StandsBy(cfg, all, k, i)
            && d in all[k].dets && CallsFor(cfg, RunAll(cfg, all[..k]).handled, d, i, all[k].now)
            && (forall e | e in all[k].dets && CallsFor(cfg, RunAll(cfg, all[..k]).handled, e, i, all[k].now) ::
                  d.distance.value <= e.distance.value)
            && r.obstacleId == d.id && r.cls == d.cls && r.distance == d.distance && r.x == d.x && r.y == d.y
  {
    hide Scanned, CallsFor, Updated, HoldTime, Completes, InOrder;
    var all, n := evs + [List(dets, now)], |evs|;
    NowFromZero(evs, dets, now);
    var s, r := RunAll(cfg, evs), Decide(cfg, RunAll(cfg, evs), dets, now);
    var i := if r.action == Stop then 1 else if r.action == Intersection then 2 else 0;
    assert all[..n] == evs && all[n] == List(dets, now);
    assert RunAll(cfg, all) == Updated(cfg, s, dets, now);
    LastCompletes(cfg, all, i);
    OneEvent(cfg, s, all[n], i);
    CandidateIff(cfg, s, dets, now, i);
    if Completes(cfg, all, n, i) {
      k := n;
    } else {
      k := HoldHasCause(cfg, all, i);
    }
    IsList(cfg, all, k, i);
    d := RunAll(cfg, all).last[i];
    CandidateIff(cfg, RunAll(cfg, all[..k]), all[k].dets, all[k].now, i);
  }
}
