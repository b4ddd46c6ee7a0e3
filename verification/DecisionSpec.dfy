/** decision.hpp on values: what one detection list, and the success of an action, do to the decider. */
module DecisionSpec {
  import opened Arithmetic
  import opened Options

  datatype Action = NoAction | Change | Stop | Intersection

  /** `distance` and `observedAt` are None when the source's double is not finite. */
  datatype Detection = Detection(cls: string, score: real, nPts: int, valid: bool, distance: Option<real>,
                                 id: int, x: real, y: real, observedAt: Option<real>, localY: real)

  datatype ClassRule = ClassRule(action: Action, triggerDistance: real, markStopSign: bool)

  datatype Config = Config(classes: map<string, ClassRule>, minScore: real, minPoints: int, minDistance: real,
                           maxLateralOffset: real, confirmChange: int, confirmStop: int, confirmIntersection: int,
                           holdTime: real, handledTtl: real, pseudoTtl: real, intersectionHold: real, stopSignTtl: real)

  datatype Decision = Decision(action: Action, obstacleId: int, distance: Option<real>, cls: string,
                               x: real, y: real, needsStop: bool)

  /** A handled obstacle or stop line. */
  datatype Handled = Handled(id: int, cls: string, distance: Option<real>, x: real, y: real, lastSeen: real)

  const NEVER: real := -1000000000.0

  const NO_DECISION := Decision(NoAction, -1, None, "", 0.0, 0.0, false)
  const NO_DETECTION := Detection("", 0.0, 0, false, Some(0.0), -1, 0.0, 0.0, None, 0.0)

  function Slot(a: Action): (i: nat)
    ensures i < 3
  {
    if a == Stop then 1 else if a == Intersection then 2 else 0
  }

  // ---- filtering ----

  function MinDistance(cfg: Config, r: ClassRule): real {
    if r.action == Intersection || r.markStopSign then 0.0 else cfg.minDistance
  }

  /** The detection is trusted and lies in the lane corridor. */
  predicate Usable(cfg: Config, d: Detection) {
    && d.valid && d.score >= cfg.minScore && d.nPts >= cfg.minPoints
    && d.cls in cfg.classes
    && d.distance.Some? && d.distance.value >= MinDistance(cfg, cfg.classes[d.cls])
    && RAbs(d.localY) <= cfg.maxLateralOffset
  }

  /** ... and it is inside the trigger distance of its class. */
  predicate InRange(cfg: Config, d: Detection) {
    Usable(cfg, d) && d.distance.value <= cfg.classes[d.cls].triggerDistance
  }

  // ---- the memory of handled obstacles ----

  /** Same real id, or same class within 1.8 m in the world. */
  predicate Matches(h: Handled, d: Detection) {
    || (d.id >= 0 && h.id >= 0 && h.id == d.id)
    || (h.cls == d.cls && (d.x - h.x) * (d.x - h.x) + (d.y - h.y) * (d.y - h.y) <= 3.24)
  }

  predicate Known(handled: seq<Handled>, d: Detection) {
    exists i :: 0 <= i < |handled| && Matches(handled[i], d)
  }

  /** The first matching entry is seen again. */
  function Refreshed(handled: seq<Handled>, d: Detection, now: real): seq<Handled> {
    if handled == [] then []
    else if Matches(handled[0], d) then [handled[0].(lastSeen := now)] + handled[1..]
    else [handled[0]] + Refreshed(handled[1..], d, now)
  }

  function Ttl(cfg: Config, h: Handled): real {
    if h.id >= 0 then cfg.handledTtl else cfg.pseudoTtl
  }

  function Expired(cfg: Config, handled: seq<Handled>, now: real): seq<Handled> {
    if handled == [] then []
    else if now - handled[0].lastSeen > Ttl(cfg, handled[0]) then Expired(cfg, handled[1..], now)
    else [handled[0]] + Expired(cfg, handled[1..], now)
  }

  // ---- one detection list ----

  /** Nearest candidates of the three slots so far, the handled memory and the stop sign time. */
  datatype Scan = Scan(best: seq<Option<Detection>>, handled: seq<Handled>, stopSignTime: real)

  /** Of two candidates the nearer one, the earlier one at equal distance. */
  function Nearer(c: Option<Detection>, d: Detection): Option<Detection>
    requires d.distance.Some? && (c.Some? ==> c.value.distance.Some?)
  {
    if c.None? || d.distance.value < c.value.distance.value then Some(d) else c
  }

  ghost predicate ScanOk(s: Scan) {
    |s.best| == 3 && forall i | 0 <= i < 3 && s.best[i].Some? :: s.best[i].value.distance.Some?
  }

  function SignTime(cfg: Config, s: real, d: Detection, now: real): real {
    if InRange(cfg, d) && cfg.classes[d.cls].markStopSign
    then (if d.observedAt.Some? then d.observedAt.value else now) else s
  }

  function ScanOne(cfg: Config, s: Scan, d: Detection, now: real): (r: Scan)
    requires ScanOk(s)
    ensures ScanOk(r)
  {
    var t := s.(stopSignTime := SignTime(cfg, s.stopSignTime, d, now));
    if !InRange(cfg, d) || cfg.classes[d.cls].action == NoAction then t
    else
      var a := cfg.classes[d.cls].action;
      if (a == Change || a == Intersection) && Known(s.handled, d)
      then t.(handled := Refreshed(s.handled, d, now))
      else t.(best := s.best[Slot(a) := Nearer(s.best[Slot(a)], d)])
  }

  function ScanAll(cfg: Config, s: Scan, dets: seq<Detection>, now: real): (r: Scan)
    requires ScanOk(s)
    ensures ScanOk(r)
  {
    if dets == [] then s
    else ScanOne(cfg, ScanAll(cfg, s, dets[..|dets| - 1], now), dets[|dets| - 1], now)
  }

  // ---- the decider ----

  datatype State = State(hits: seq<int>, holdUntil: seq<real>, last: seq<Detection>,
                         handled: seq<Handled>, stopSignTime: real)

  const INITIAL := State([0, 0, 0], [0.0, 0.0, 0.0], [NO_DETECTION, NO_DETECTION, NO_DETECTION], [], NEVER)

  ghost predicate StateOk(s: State) {
    |s.hits| == |s.holdUntil| == |s.last| == 3
  }

  function Confirm(cfg: Config): (r: seq<int>)
    ensures |r| == 3
  {
    [cfg.confirmChange, cfg.confirmStop, cfg.confirmIntersection]
  }

  function Hold(cfg: Config): (r: seq<real>)
    ensures |r| == 3
  {
    [cfg.holdTime, cfg.holdTime, cfg.intersectionHold]
  }

  /** The candidates of a list, after forgetting what has not been seen for too long. */
  function Scanned(cfg: Config, s: State, dets: seq<Detection>, now: real): (r: Scan)
    ensures ScanOk(r)
  {
    ScanAll(cfg, Scan([None, None, None], Expired(cfg, s.handled, now), s.stopSignTime), dets, now)
  }

  function Hits(best: Option<Detection>, hits: int): int {
    if best.Some? then hits + 1 else 0
  }

  /** The state after a list: every slot counts, and a confirmed slot renews its hold and its detection. */
  function Updated(cfg: Config, s: State, dets: seq<Detection>, now: real): (r: State)
    requires StateOk(s)
    ensures StateOk(r)
  {
    var sc := Scanned(cfg, s, dets, now);
    var hits := seq(3, i requires 0 <= i < 3 => Hits(sc.best[i], s.hits[i]));
    State(hits,
          seq(3, i requires 0 <= i < 3 =>
            if sc.best[i].Some? && hits[i] >= Confirm(cfg)[i] then now + Hold(cfg)[i] else s.holdUntil[i]),
          seq(3, i requires 0 <= i < 3 =>
            if sc.best[i].Some? && hits[i] >= Confirm(cfg)[i] then sc.best[i].value else s.last[i]),
          sc.handled, sc.stopSignTime)
  }

  /** Whether slot i is active right after a list with these candidates. */
  predicate SlotActive(cfg: Config, s: State, best: seq<Option<Detection>>, i: nat, now: real)
    requires StateOk(s) && |best| == 3 && i < 3
  {
    (best[i].Some? && s.hits[i] >= Confirm(cfg)[i]) || now < s.holdUntil[i]
  }

  function Make(a: Action, d: Detection): Decision {
    Decision(a, d.id, d.distance, d.cls, d.x, d.y, false)
  }

  function Reported(cfg: Config, s: State, best: seq<Option<Detection>>, now: real): Decision
    requires StateOk(s) && |best| == 3
  {
    if SlotActive(cfg, s, best, 1, now) then Make(Stop, s.last[1])
    else if SlotActive(cfg, s, best, 2, now) then
      Make(Intersection, s.last[2]).(needsStop := now - s.stopSignTime < cfg.stopSignTtl)
    else if SlotActive(cfg, s, best, 0, now) then Make(Change, s.last[0])
    else NO_DECISION
  }

  function Decide(cfg: Config, s: State, dets: seq<Detection>, now: real): Decision
    requires StateOk(s)
  {
    Reported(cfg, Updated(cfg, s, dets, now), Scanned(cfg, s, dets, now).best, now)
  }

  /** The state after the action for `d` has succeeded. */
  function Marked(s: State, d: Decision, now: real): (r: State)
    requires StateOk(s)
    ensures StateOk(r)
  {
    if d.action != Change && d.action != Intersection then s
    else
      State(s.hits[Slot(d.action) := 0], s.holdUntil[Slot(d.action) := 0.0], s.last,
            s.handled + [Handled(d.obstacleId, d.cls, d.distance, d.x, d.y, now)],
            if d.action == Intersection then NEVER else s.stopSignTime)
  }
}
