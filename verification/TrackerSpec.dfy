/** obstacle_memory.cpp on values: matching, smoothing, confirmation and expiry of tracks. */
module TrackerSpec {
  import opened Options

  datatype Vec = Vec(x: real, y: real, z: real)

  /** `dist` is the distance between two points. */
  datatype Config = Config(gateBase: real, gateRange: real, passMargin: real, confirmHits: int, confirmWindow: int,
                           maxOutOfLane: int, maxVisibleMisses: int, dist: (Vec, Vec) -> real)

  datatype Track = Track(id: int, classId: int, className: string, pos: Vec, hits: int, age: int, misses: int,
                         outOfLane: int, confirmed: bool, matched: bool)

  /** A detection; `at` is its position in the odometry frame. */
  datatype Detection = Detection(isStopSign: bool, depthValid: bool, inLane: bool, classId: int, className: string,
                                 at: Vec, distance: real)

  datatype Memory = Memory(tracks: seq<Track>, nextId: int)

  const ID_LIMIT: int := 0x1_0000_0000

  // ---- one frame of detections ----

  function Aged(ts: seq<Track>): (r: seq<Track>)
    ensures |r| == |ts| && forall i | 0 <= i < |ts| :: r[i] == ts[i].(matched := false, age := ts[i].age + 1)
  {
    seq(|ts|, i requires 0 <= i < |ts| => ts[i].(matched := false, age := ts[i].age + 1))
  }

  function Gate(cfg: Config, d: Detection): real {
    cfg.gateBase + cfg.gateRange * d.distance
  }

  predicate Matchable(t: Track, d: Detection) {
    !t.matched && t.classId == d.classId
  }

  /** The index found so far, or -1, and its distance, or the gate. */
  datatype Search = Search(index: int, distance: real)

  function Nearest(cfg: Config, ts: seq<Track>, d: Detection): (s: Search)
    ensures -1 <= s.index < |ts|
  {
    if ts == [] then Search(-1, Gate(cfg, d))
    else
      var n := |ts| - 1;
      var s := Nearest(cfg, ts[..n], d);
      if Matchable(ts[n], d) && cfg.dist(ts[n].pos, d.at) < s.distance
      then Search(n, cfg.dist(ts[n].pos, d.at)) else s
  }

  /** i is a nearest track d may be matched with, within the gate; or there is none. */
  ghost predicate IsNearest(cfg: Config, ts: seq<Track>, d: Detection, i: int) {
    && (i >= 0 ==> i < |ts| && Matchable(ts[i], d) && cfg.dist(ts[i].pos, d.at) < Gate(cfg, d))
    && (forall j | 0 <= j < |ts| && Matchable(ts[j], d) && cfg.dist(ts[j].pos, d.at) < Gate(cfg, d) ::
          0 <= i < |ts| && cfg.dist(ts[i].pos, d.at) <= cfg.dist(ts[j].pos, d.at))
  }

  lemma {:induction false} NearestIs(cfg: Config, ts: seq<Track>, d: Detection)
    ensures IsNearest(cfg, ts, d, Nearest(cfg, ts, d).index)
    ensures var s := Nearest(cfg, ts, d);
            s.distance == if s.index >= 0 then cfg.dist(ts[s.index].pos, d.at) else Gate(cfg, d)
  {
    hide Gate;
    if ts != [] {
      NearestIs(cfg, ts[..|ts| - 1], d);
    }
  }

  function Gain(hits: int): real
    requires hits >= 1
  {
    if 1.0 / (hits as real + 1.0) < 0.2 then 0.2 else 1.0 / (hits as real + 1.0)
  }

  function Toward(a: real, b: real, g: real): real {
    a + g * (b - a)
  }

  function Smoothed(p: Vec, m: Vec, g: real): Vec {
    Vec(Toward(p.x, m.x, g), Toward(p.y, m.y, g), Toward(p.z, m.z, g))
  }

  /** A track after its detection, before it is confirmed. */
  function Hit(t: Track, d: Detection): Track
    requires t.hits >= 1
  {
    t.(pos := Smoothed(t.pos, d.at, Gain(t.hits)), hits := t.hits + 1, misses := 0, matched := true,
       outOfLane := if d.inLane then 0 else t.outOfLane + 1)
  }

  predicate Confirms(cfg: Config, t: Track) {
    !t.confirmed && t.hits >= cfg.confirmHits && t.age <= cfg.confirmWindow
  }

  function Fresh(d: Detection): Track {
    Track(0, d.classId, d.className, d.at, 1, 1, 0, 0, false, true)
  }

  predicate Usable(d: Detection) {
    !d.isStopSign && d.depthValid
  }

  ghost predicate MemoryOk(m: Memory) {
    forall i | 0 <= i < |m.tracks| :: m.tracks[i].hits >= 1
  }

  function Matched(cfg: Config, m: Memory, i: int, d: Detection): (r: Memory)
    requires MemoryOk(m) && 0 <= i < |m.tracks|
    ensures MemoryOk(r)
  {
    var t := Hit(m.tracks[i], d);
    if Confirms(cfg, t) then
      Memory(m.tracks[i := t.(confirmed := true, id := m.nextId)], (m.nextId + 1) % ID_LIMIT)
    else m.(tracks := m.tracks[i := t])
  }

  function Seen(cfg: Config, m: Memory, d: Detection): (r: Memory)
    requires MemoryOk(m)
    ensures MemoryOk(r)
  {
    if !Usable(d) then m
    else
      var i := Nearest(cfg, m.tracks, d).index;
      if i >= 0 then Matched(cfg, m, i, d)
      else if d.inLane then m.(tracks := m.tracks + [Fresh(d)]) else m
  }

  function SeenAll(cfg: Config, m: Memory, ds: seq<Detection>): (r: Memory)
    requires MemoryOk(m)
    ensures MemoryOk(r)
  {
    if ds == [] then m else Seen(cfg, SeenAll(cfg, m, ds[..|ds| - 1]), ds[|ds| - 1])
  }

  predicate AnyInvalid(ds: seq<Detection>) {
    exists k :: 0 <= k < |ds| && !ds[k].isStopSign && !ds[k].depthValid
  }

  function Missed(ts: seq<Track>, visible: Vec -> bool): (r: seq<Track>)
    ensures |r| == |ts|
    ensures forall i | 0 <= i < |ts| ::
              r[i] == if !ts[i].matched && visible(ts[i].pos) then ts[i].(misses := ts[i].misses + 1) else ts[i]
  {
    seq(|ts|, i requires 0 <= i < |ts| =>
      if !ts[i].matched && visible(ts[i].pos) then ts[i].(misses := ts[i].misses + 1) else ts[i])
  }

  /** A frame. `visible` tells what the camera sees; None when that is not known. */
  function Framed(cfg: Config, m: Memory, ds: seq<Detection>, visible: Option<Vec -> bool>): (r: Memory)
    requires MemoryOk(m)
    ensures MemoryOk(r)
  {
    var s := SeenAll(cfg, m.(tracks := Aged(m.tracks)), ds);
    if !AnyInvalid(ds) && visible.Some? then s.(tracks := Missed(s.tracks, visible.value)) else s
  }

  // ---- expiry ----

  predicate Expired(cfg: Config, t: Track, inBase: Vec) {
    || inBase.x < -cfg.passMargin || t.outOfLane >= cfg.maxOutOfLane || t.misses >= cfg.maxVisibleMisses
    || (!t.confirmed && t.age > cfg.confirmWindow)
  }

  function Kept(cfg: Config, ts: seq<Track>, toBase: Vec -> Vec): seq<Track> {
    if ts == [] then []
    else
      var n := |ts| - 1;
      Kept(cfg, ts[..n], toBase) + if Expired(cfg, ts[n], toBase(ts[n].pos)) then [] else [ts[n]]
  }

  /** The confirmed tracks, in order. */
  function Published(ts: seq<Track>): seq<Track> {
    if ts == [] then []
    else Published(ts[..|ts| - 1]) + if ts[|ts| - 1].confirmed then [ts[|ts| - 1]] else []
  }

  /** k is the first of the nearest obstacles ahead, or there is none and the id is 0. */
  ghost predicate NearestAhead(ts: seq<Track>, toBase: Vec -> Vec, limit: real, k: int, id: int) {
    && (k >= 0 ==> k < |ts| && 0.0 < toBase(ts[k].pos).x < limit && id == ts[k].id)
    && (k < 0 ==> id == 0)
    && forall j | 0 <= j < |ts| && 0.0 < toBase(ts[j].pos).x < limit ::
         0 <= k < |ts| && toBase(ts[k].pos).x <= toBase(ts[j].pos).x
          && (j < k ==> toBase(ts[k].pos).x < toBase(ts[j].pos).x)
  }
}
