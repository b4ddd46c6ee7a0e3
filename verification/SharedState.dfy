/** shared_state.hpp and nodes.hpp: the objects, proved against the functions on values.
    Every `now` parameter is one reading of the clock. */
module SharedStateObject {
  import opened Arithmetic
  import opened Options
  import opened DecisionSpec
  import opened DeciderObject
  import opened SharedSpec

  class SharedState {
    const cfg: Config
    const stale: real
    const obstacles: Decider
    const intersections: Decider
    var obstacle: Decision
    var intersection: Decision
    var active: Decision
    var obstacleTime: real
    var intersectionTime: real
    var lastCompleted: real
    var turns: seq<int>

    ghost predicate Valid()
      reads this, obstacles, intersections
    {
      && obstacles != intersections && obstacles.Valid() && intersections.Valid()
      && obstacles.cfg == RulesFor(cfg, false) && intersections.cfg == RulesFor(cfg, true)
    }

    ghost function Value(): Shared
      reads this, obstacles, intersections
    {
      Shared(obstacles.Value(), intersections.Value(), obstacle, intersection, active,
             obstacleTime, intersectionTime, lastCompleted, turns)
    }

    constructor (cfg: Config, stale: real)
      ensures Valid() && fresh(obstacles) && fresh(intersections)
      ensures Value() == START && this.cfg == cfg && this.stale == stale
    {
      this.cfg, this.stale := cfg, stale;
      obstacles := new Decider(RulesFor(cfg, false));
      intersections := new Decider(RulesFor(cfg, true));
      obstacle, intersection, active := NO_DECISION, NO_DECISION, NO_DECISION;
      obstacleTime, intersectionTime, lastCompleted := NEVER, NEVER, NEVER;
      turns := [];
    }

    method OnDetections(dets: seq<Detection>, now: real)
      requires Valid()
      modifies this, obstacles
      ensures Valid() && Value() == SharedSpec.OnDetections(cfg, old(Value()), dets, now)
    {
      obstacleTime := now;
      obstacle := obstacles.Update(dets, obstacleTime);
    }

    method OnIntersectionDetections(dets: seq<Detection>, resetStopSign: bool, now: real)
      requires Valid()
      modifies this, intersections
      ensures Valid() && Value() == SharedSpec.OnIntersectionDetections(cfg, old(Value()), dets, resetStopSign, now)
    {
      if resetStopSign {
        intersections.ClearStopSign();
      }
      intersectionTime := now;
      intersection := intersections.Update(dets, intersectionTime);
    }

    method Current(now: real) returns (d: Decision)
      requires Valid()
      ensures d == SharedSpec.Current(stale, Value(), now)
    {
      var freshObstacle := now - obstacleTime <= stale;
      if freshObstacle && obstacle.action == Stop {
        return obstacle;
      }
      if active.action == Intersection {
        return active;
      }
      if now - intersectionTime <= stale && intersection.action == Intersection {
        return intersection;
      }
      return if freshObstacle then obstacle else NO_DECISION;
    }

    method BeginIntersection(now: real) returns (d: Decision)
      requires Valid()
      modifies this`active
      ensures Valid() && Value() == Begin(stale, old(Value()), now) && d == active
    {
      if active.action != Intersection {
        var c := Current(now);
        if c.action == Intersection {
          active := c;
        }
      }
      return active;
    }

    method MarkIntersectionStopped()
      requires Valid()
      modifies this`active
      ensures Valid() && Value() == MarkStopped(old(Value()))
    {
      active := active.(needsStop := false);
    }

    method CompleteIntersection(sent: Decision, markTime: real, doneTime: real)
      requires Valid()
      modifies this, intersections
      ensures Valid() && Value() == Complete(old(Value()), sent, markTime, doneTime)
    {
      intersections.MarkHandled(sent, markTime);
      lastCompleted := doneTime;
      active, intersection := NO_DECISION, NO_DECISION;
      if turns != [] {
        turns := turns[1..];
      }
    }

    method MarkHandled(d: Decision, now: real)
      requires Valid()
      modifies this, obstacles
      ensures Valid() && Value() == ObstacleHandled(old(Value()), d, now)
    {
      obstacles.MarkHandled(d, now);
      if obstacle.action == d.action && obstacle.obstacleId == d.obstacleId {
        obstacle := NO_DECISION;
      }
    }

    method SetTurns(ts: seq<int>)
      requires Valid()
      modifies this`turns
      ensures Valid() && Value() == old(Value()).(turns := ts)
    {
      turns := ts;
    }

    method PeekTurn() returns (turn: Option<int>)
      requires Valid()
      ensures turn == if turns == [] then None else Some(turns[0])
    {
      turn := if turns == [] then None else Some(turns[0]);
    }
  }

  /** The executor configures the turns before the first message: the start of every run. */
  method Configured(cfg: Config, stale: real, turns: seq<int>) returns (state: SharedState)
    ensures state.Valid() && fresh(state) && fresh(state.obstacles) && fresh(state.intersections)
    ensures state.cfg == cfg && state.stale == stale && state.Value() == StartWith(turns)
  {
    state := new SharedState(cfg, stale);
    state.SetTurns(turns);
  }

  /** intersection_input.hpp: turns sign messages and stop-line clouds into detection lists. */
  class IntersectionInput {
    const ic: InputConfig
    const state: SharedState
    var realSignStamp: real
    var signInputStamp: real

    ghost predicate Valid()
      reads this, state, state.obstacles, state.intersections
    {
      state.Valid()
    }

    ghost function Value(): Input
      reads this
    {
      Input(realSignStamp, signInputStamp)
    }

    constructor (ic: InputConfig, state: SharedState)
      requires state.Valid()
      ensures Valid() && Value() == Input(NEVER, NEVER) && this.ic == ic && this.state == state
    {
      this.ic, this.state := ic, state;
      realSignStamp, signInputStamp := NEVER, NEVER;
    }

    method AddRealSign(dets: seq<Detection>, now: real) returns (r: seq<Detection>)
      ensures r == if dets == [] then []
                   else if now - realSignStamp <= ic.signTtl && realSignStamp > state.lastCompleted
                   then dets + [dets[0].(cls := "sign", observedAt := Some(realSignStamp))] else dets
    {
      r := dets;
      if dets != [] && now - realSignStamp <= ic.signTtl && realSignStamp > state.lastCompleted {
        var sign := dets[0];
        sign := sign.(cls := "sign", observedAt := Some(realSignStamp));
        r := dets + [sign];
      }
    }

    method FindNearest(msg: seq<SignDet>) returns (nearest: Option<SignDet>, sawSign: bool)
      ensures nearest == NearestSign(ic, msg) && sawSign == SawSign(ic, msg)
      ensures nearest.Some? ==> HasDepth(ic, nearest.value)
    {
      nearest, sawSign := None, false;
      for k := 0 to |msg|
        invariant nearest == NearestSign(ic, msg[..k])
        invariant sawSign == exists j :: 0 <= j < k && IsSign(ic, msg[j])
      {
        assert msg[..k + 1][..k] == msg[..k];
        var d := msg[k];
        if !(d.className != ic.signClass && !d.isStopSign) && d.score.Some? && d.score.value >= ic.minScore {
          sawSign := true;
          if d.depthValid && d.distance.Some? && d.distance.value >= 0.0
             && d.nPts >= (if ic.minPoints > 1 then ic.minPoints else 1)
          {
            if nearest.None? || d.distance.value < nearest.value.distance.value {
              nearest := Some(d);
            }
          }
        }
      }
      assert msg[..|msg|] == msg;
    }

    /** A sign message; `anchor` is the transformed line position, None when the transform fails. */
    method OnSigns(stamp: real, msg: seq<SignDet>, anchor: Option<(real, real)>, now: real)
      requires Valid()
      modifies this, state, state.intersections
      ensures Valid()
      ensures !SignsCount(ic, stamp, msg, now) ==>
                Value() == old(Value()) && state.Value() == old(state.Value())
      ensures SignsCount(ic, stamp, msg, now) ==>
                && Value() == SignStamps(ic, old(Value()), stamp, msg)
                && state.Value() == OnIntersectionDetections(state.cfg, old(state.Value()),
                     SignDetections(ic, Value(), old(state.lastCompleted), msg, anchor, now),
                     NearestSign(ic, msg).Some?, now)
    {
      hide SharedSpec.OnIntersectionDetections, NearestSign, IsNearestSign, SawSign, LineDetection;
      if !(-0.05 <= now - stamp <= ic.maxAge) {
        return;
      }
      var nearest, sawSign := FindNearest(msg);
      if !sawSign {
        return;
      }
      signInputStamp := stamp;
      var dets := [];
      if nearest.Some? {
        realSignStamp := NEVER;
        var d := nearest.value;
        if d.isStopSign && d.realProb.Some? && d.realProb.value >= ic.realThreshold && d.realProb.value <= 1.0 {
          realSignStamp := stamp;
        }
        if anchor.Some? {
          dets := [LineDetection(d.distance.value, d.nPts, anchor.value)];
          dets := AddRealSign(dets, now);
        }
      }
      assert dets == SignDetections(ic, Value(), state.lastCompleted, msg, anchor, now);
      state.OnIntersectionDetections(dets, nearest.Some?, now);
    }

    method CollectAhead(cloud: seq<(real, real)>) returns (forward: seq<real>)
      ensures forward == Ahead(ic, cloud)
    {
      forward := [];
      for k := 0 to |cloud|
        invariant forward == Ahead(ic, cloud[..k])
      {
        assert cloud[..k + 1][..k] == cloud[..k];
        var p := cloud[k];
        if p.0 >= 0.0 && RAbs(p.1) <= ic.halfWidth {
          forward := forward + [p.0];
        }
      }
      assert cloud[..|cloud|] == cloud;
    }

    /** A stop-line cloud, in the base frame; it only counts when no sign was seen recently. */
    method OnLine(stamp: real, cloud: Option<seq<(real, real)>>, anchor: Option<(real, real)>, now: real)
      requires Valid()
      modifies state, state.intersections
      ensures Valid()
      ensures !LineCounts(ic, Value(), stamp, now) ==>
                state.Value() == old(state.Value())
      ensures LineCounts(ic, Value(), stamp, now) ==>
                state.Value() == OnIntersectionDetections(state.cfg, old(state.Value()),
                  LineDetections(ic, Value(), old(state.lastCompleted), cloud, anchor, now), false, now)
    {
      hide SharedSpec.OnIntersectionDetections, Ahead, LineEdge, LineDetection;
      var dets := [];
      if !(-0.05 <= now - stamp <= ic.maxAge) || (-0.05 <= now - signInputStamp <= ic.maxAge) {
        return;
      }
      if cloud.Some? && anchor.Some? {
        var forward := CollectAhead(cloud.value);
        if |forward| >= (if ic.minPoints > 1 then ic.minPoints else 1) {
          var edge := LineEdge(forward);
          dets := [LineDetection(edge, |forward|, anchor.value)];
          dets := AddRealSign(dets, now);
        }
      }
      assert dets == LineDetections(ic, Value(), state.lastCompleted, cloud, anchor, now);
      state.OnIntersectionDetections(dets, false, now);
    }
  }

  /** BeginIntersection: succeeds when an intersection is latched. */
  method BeginIntersectionTick(state: SharedState, now: real) returns (success: bool, needsStop: bool)
    requires state.Valid()
    modifies state`active
    ensures state.Valid() && state.Value() == Begin(state.stale, old(state.Value()), now)
    ensures success == (state.active.action == Intersection) && needsStop == state.active.needsStop
  {
    var d := state.BeginIntersection(now);
    return d.action == Intersection, d.needsStop;
  }

  /** IntersectionTurn: sends the next turn for the latched intersection and completes it on success. */
  class IntersectionTurn {
    const state: SharedState
    const minRetry: real
    var lastFail: real
    var sent: Decision

    ghost function Value(): Turner
      reads this
    {
      Turner(sent, lastFail)
    }

    constructor (state: SharedState, minRetry: real)
      ensures this.state == state && this.minRetry == minRetry && Value() == Turner(NO_DECISION, NEVER)
    {
      this.state, this.minRetry := state, minRetry;
      lastFail, sent := NEVER, NO_DECISION;
    }

    /** The goal to send, if one may be sent now. */
    method SetGoal(now: real, failTime: real) returns (goal: Option<int>)
      requires state.Valid()
      modifies this
      ensures state.Valid() && state.Value() == old(state.Value())
      ensures goal == GoalFor(minRetry, old(Value()), state.Value(), now)
      ensures Value() == TurnStarted(minRetry, old(Value()), state.Value(), now, failTime)
    {
      if now - lastFail < minRetry {
        return None;
      }
      var d := state.active;
      if d.action != Intersection || d.needsStop {
        return None;
      }
      var turn := state.PeekTurn();
      if turn.None? {
        lastFail := failTime;
        return None;
      }
      sent := d;
      return turn;
    }

    method OnResultReceived(succeeded: bool, t1: real, t2: real) returns (success: bool)
      requires state.Valid()
      modifies this, state, state.intersections
      ensures state.Valid() && success == succeeded
      ensures succeeded ==> Value() == old(Value()) && state.Value() == Complete(old(state.Value()), sent, t1, t2)
      ensures !succeeded ==> Value() == old(Value()).(lastFail := t1) && state.Value() == old(state.Value())
    {
      if succeeded {
        state.CompleteIntersection(sent, t1, t2);
        return true;
      }
      lastFail := t1;
      return false;
    }

    method OnFailure(invalidGoal: bool, now: real)
      modifies this
      ensures Value() == if invalidGoal then old(Value()) else old(Value()).(lastFail := now)
    {
      if !invalidGoal {
        lastFail := now;
      }
    }
  }
}
