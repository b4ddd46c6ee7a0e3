/** decision.hpp: the decider object. Its methods are proved against the functions on values. */
module DeciderObject {
  import opened Arithmetic
  import opened Options
  import opened DecisionSpec

  lemma {:induction false} FirstMatch(handled: seq<Handled>, d: Detection, now: real, i: nat)
    requires i < |handled| && Matches(handled[i], d)
    requires forall j | 0 <= j < i :: !Matches(handled[j], d)
    ensures Refreshed(handled, d, now) == handled[i := handled[i].(lastSeen := now)]
  {
    if i > 0 {
      FirstMatch(handled[1..], d, now, i - 1);
      assert handled == [handled[0]] + handled[1..];
    }
  }

  class Decider {
    const cfg: Config
    var hits: seq<int>
    var holdUntil: seq<real>
    var last: seq<Detection>
    var handled: seq<Handled>
    var stopSignTime: real

    ghost function Value(): State
      reads this
    {
      State(hits, holdUntil, last, handled, stopSignTime)
    }

    ghost predicate Valid()
      reads this
    {
      StateOk(Value())
    }

    constructor (cfg: Config)
      ensures Valid() && Value() == INITIAL && this.cfg == cfg
    {
      this.cfg := cfg;
      hits, holdUntil := [0, 0, 0], [0.0, 0.0, 0.0];
      last := [NO_DETECTION, NO_DETECTION, NO_DETECTION];
      handled, stopSignTime := [], NEVER;
    }

    /** Forgets handled obstacles that have not been seen for too long. */
    method Expire(now: real)
      modifies this`handled
      ensures handled == Expired(cfg, old(handled), now)
    {
      var kept := [];
      var i := 0;
      while i < |handled|
        invariant 0 <= i <= |handled| && handled == old(handled)
        invariant kept + Expired(cfg, handled[i..], now) == Expired(cfg, handled, now)
      {
        assert handled[i..][1..] == handled[i + 1..];
        if now - handled[i].lastSeen > (if handled[i].id >= 0 then cfg.handledTtl else cfg.pseudoTtl) {
        } else {
          kept := kept + [handled[i]];
        }
        i := i + 1;
      }
      handled := kept;
    }

    /** Whether the detection was already dealt with; the first entry it matches is refreshed. */
    method IsHandled(d: Detection, now: real) returns (found: bool)
      modifies this`handled
      ensures found <==> Known(old(handled), d)
      ensures handled == if found then Refreshed(old(handled), d, now) else old(handled)
    {
      var i := 0;
      while i < |handled|
        invariant 0 <= i <= |handled| && handled == old(handled)
        invariant forall j | 0 <= j < i :: !Matches(handled[j], d)
      {
        var h := handled[i];
        if d.id >= 0 && h.id >= 0 && h.id == d.id {
          FirstMatch(handled, d, now, i);
          handled := handled[i := h.(lastSeen := now)];
          return true;
        }
        var dx, dy := d.x - h.x, d.y - h.y;
        if h.cls == d.cls && dx * dx + dy * dy <= 3.24 {
          FirstMatch(handled, d, now, i);
          handled := handled[i := h.(lastSeen := now)];
          return true;
        }
        i := i + 1;
      }
      return false;
    }

    /** One detection of a list: it may set the stop sign time, be dealt with already, or be a candidate. */
    method Consider(d: Detection, now: real, best: seq<Option<Detection>>) returns (best': seq<Option<Detection>>)
      requires ScanOk(Scan(best, handled, stopSignTime))
      modifies this`handled, this`stopSignTime
      ensures Scan(best', handled, stopSignTime) == ScanOne(cfg, Scan(best, old(handled), old(stopSignTime)), d, now)
    {
      best' := best;
      if !d.valid || d.score < cfg.minScore || d.nPts < cfg.minPoints {
        return;
      }
      if d.cls !in cfg.classes {
        return;
      }
      var r := cfg.classes[d.cls];
      var minDistance := if r.action == Intersection || r.markStopSign then 0.0 else cfg.minDistance;
      if d.distance.None? || d.distance.value < minDistance {
        return;
      }
      if RAbs(d.localY) > cfg.maxLateralOffset {
        return;
      }
      if r.markStopSign && d.distance.value <= r.triggerDistance {
        stopSignTime := if d.observedAt.Some? then d.observedAt.value else now;
      }
      if r.action == NoAction {
        return;
      }
      if d.distance.value > r.triggerDistance {
        return;
      }
      if r.action == Change || r.action == Intersection {
        var found := IsHandled(d, now);
        if found {
          return;
        }
      }
      var c := best[Slot(r.action)];
      if c.None? || d.distance.value < c.value.distance.value {
        best' := best[Slot(r.action) := Some(d)];
      }
    }

    method Candidates(dets: seq<Detection>, now: real) returns (best: seq<Option<Detection>>)
      modifies this`handled, this`stopSignTime
      ensures Scan(best, handled, stopSignTime)
           == ScanAll(cfg, Scan([None, None, None], old(handled), old(stopSignTime)), dets, now)
    {
      best := [None, None, None];
      ghost var start := Scan(best, handled, stopSignTime);
      for k := 0 to |dets|
        invariant Scan(best, handled, stopSignTime) == ScanAll(cfg, start, dets[..k], now)
      {
        assert dets[..k + 1][..k] == dets[..k];
        best := Consider(dets[k], now, best);
      }
      assert dets[..|dets|] == dets;
    }

    /** Every slot counts its candidate; a confirmed slot renews its hold and its detection. */
    method CountSlots(best: seq<Option<Detection>>, now: real) returns (active: seq<bool>)
      requires Valid() && |best| == 3
      modifies this`hits, this`holdUntil, this`last
      ensures Valid() && |active| == 3
      ensures forall i | 0 <= i < 3 ::
                var confirmed := best[i].Some? && hits[i] >= Confirm(cfg)[i];
                && hits[i] == Hits(best[i], old(hits)[i])
                && holdUntil[i] == (if confirmed then now + Hold(cfg)[i] else old(holdUntil)[i])
                && last[i] == (if confirmed then best[i].value else old(last)[i])
                && active[i] == (confirmed || now < holdUntil[i])
    {
      active := [false, false, false];
      for i := 0 to 3
        invariant |hits| == |holdUntil| == |last| == |active| == 3
        invariant forall j | 0 <= j < i ::
                    var confirmed := best[j].Some? && hits[j] >= Confirm(cfg)[j];
                    && hits[j] == Hits(best[j], old(hits)[j])
                    && holdUntil[j] == (if confirmed then now + Hold(cfg)[j] else old(holdUntil)[j])
                    && last[j] == (if confirmed then best[j].value else old(last)[j])
                    && active[j] == (confirmed || now < holdUntil[j])
        invariant forall j | i <= j < 3 ::
                    hits[j] == old(hits)[j] && holdUntil[j] == old(holdUntil)[j] && last[j] == old(last)[j]
      {
        hits := hits[i := if best[i].Some? then hits[i] + 1 else 0];
        if best[i].Some? && hits[i] >= Confirm(cfg)[i] {
          holdUntil := holdUntil[i := now + Hold(cfg)[i]];
          last := last[i := best[i].value];
        }
        active := active[i := (best[i].Some? && hits[i] >= Confirm(cfg)[i]) || now < holdUntil[i]];
      }
    }

    /** Decides from one detection list. */
    method Update(dets: seq<Detection>, now: real) returns (out: Decision)
      requires Valid()
      modifies this
      ensures Valid() && Value() == Updated(cfg, old(Value()), dets, now)
      ensures out == Decide(cfg, old(Value()), dets, now)
    {
      hide ScanAll, Expired;
      ghost var s := Value();
      Expire(now);
      var best := Candidates(dets, now);
      assert Scan(best, handled, stopSignTime) == Scanned(cfg, s, dets, now);
      var active := CountSlots(best, now);
      assert Value() == Updated(cfg, s, dets, now);
      out := NO_DECISION;
      if active[1] {
        out := Make(Stop, last[1]);
      } else if active[2] {
        out := Make(Intersection, last[2]);
        out := out.(needsStop := now - stopSignTime < cfg.stopSignTtl);
      } else if active[0] {
        out := Make(Change, last[0]);
      }
    }

    method ClearStopSign()
      requires Valid()
      modifies this`stopSignTime
      ensures Valid() && Value() == old(Value()).(stopSignTime := NEVER)
    {
      stopSignTime := NEVER;
    }

    /** The action for exactly this decision has succeeded. */
    method MarkHandled(d: Decision, now: real)
      requires Valid()
      modifies this
      ensures Valid() && Value() == Marked(old(Value()), d, now)
    {
      if d.action != Change && d.action != Intersection {
        return;
      }
      handled := handled + [Handled(d.obstacleId, d.cls, d.distance, d.x, d.y, now)];
      var i := Slot(d.action);
      holdUntil := holdUntil[i := 0.0];
      hits := hits[i := 0];
      if d.action == Intersection {
        stopSignTime := NEVER;
      }
    }
  }
}
