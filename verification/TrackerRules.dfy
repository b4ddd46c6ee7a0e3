/** obstacle_memory.cpp in the fields of tracks and detections: when a detection joins a track, starts one or
    confirms one, what a frame counts, and when a track is dropped. */
module TrackerRules {
  import opened Options
  import opened TrackerSpec

  /** The detection counts: no stop sign, and its depth is known. */
  predicate Counts(d: Detection) {
    !d.isStopSign && d.depthValid
  }

  /** Track i has the detection's class, no detection of this frame yet, and lies within the gate, which widens with
      the distance. */
  predicate InGate(cfg: Config, m: Memory, d: Detection, i: int) {
    && 0 <= i < |m.tracks| && !m.tracks[i].matched && m.tracks[i].classId == d.classId
    && cfg.dist(m.tracks[i].pos, d.at) < cfg.gateBase + cfg.gateRange * d.distance
  }

  /** A detection joins the first of the nearest tracks in its gate. */
  ghost predicate Joins(cfg: Config, m: Memory, d: Detection, i: int) {
    && Counts(d) && InGate(cfg, m, d, i)
    && forall j | InGate(cfg, m, d, j) && j != i ::
         && cfg.dist(m.tracks[i].pos, d.at) <= cfg.dist(m.tracks[j].pos, d.at)
         && (j < i ==> cfg.dist(m.tracks[i].pos, d.at) < cfg.dist(m.tracks[j].pos, d.at))
  }

  lemma {:induction false} FirstNearest(cfg: Config, m: Memory, d: Detection, n: nat)
    requires n <= |m.tracks|
    ensures var s := Nearest(cfg, m.tracks[..n], d);
            && (s.index < 0 ==> s.distance == Gate(cfg, d) && forall j | j < n :: !InGate(cfg, m, d, j))
            && (s.index >= 0 ==>
                  && s.index < n && InGate(cfg, m, d, s.index) && s.distance == cfg.dist(m.tracks[s.index].pos, d.at)
                  && forall j | InGate(cfg, m, d, j) && j < n && j != s.index ::
                       && s.distance <= cfg.dist(m.tracks[j].pos, d.at)
                       && (j < s.index ==> s.distance < cfg.dist(m.tracks[j].pos, d.at)))
  {
    if n > 0 {
      assert m.tracks[..n][..n - 1] == m.tracks[..n - 1];
      FirstNearest(cfg, m, d, n - 1);
    }
  }

  lemma JoinsNearest(cfg: Config, m: Memory, d: Detection, i: int)
    ensures Joins(cfg, m, d, i) <==> Counts(d) && i >= 0 && Nearest(cfg, m.tracks, d).index == i
  {
    hide InGate, Counts;
    FirstNearest(cfg, m, d, |m.tracks|);
    assert m.tracks[..|m.tracks|] == m.tracks;
    GateInRange(cfg, m, d);
  }

  lemma GateInRange(cfg: Config, m: Memory, d: Detection)
    ensures forall j | InGate(cfg, m, d, j) :: 0 <= j < |m.tracks|
  {
  }

  /** p is r of the way from a to b. */
  predicate OnTheWay(a: real, b: real, r: real, p: real) {
    p - a == r * (b - a)
  }

  /** How far a track moves towards its next measurement: to the mean while there are few, a fifth later on. */
  function Pull(hits: int): real
    requires hits >= 1
  {
    if hits <= 4 then 1.0 / (hits as real + 1.0) else 0.2
  }

  lemma PullIsGain(hits: int)
    requires hits >= 1
    ensures Pull(hits) == Gain(hits)
  {
    var k := hits as real + 1.0;
    assert 1.0 / k * k == 1.0;
    if hits >= 5 {
      AtMostFifth(1.0 / k, k);
    }
  }

  lemma AtMostFifth(g: real, k: real)
    requires g * k == 1.0 && k >= 6.0
    ensures g < 0.2
  {
    assert (0.2 - g) * k == 0.2 * k - 1.0;
    PositiveFactor(0.2 - g, k, (0.2 - g) * k);
  }

  lemma PositiveFactor(x: real, k: real, p: real)
    requires k > 0.0 && p == x * k && p > 0.0
    ensures x > 0.0
  {
  }

  /** The joined track moves towards the measurement, gains a hit, loses its misses, counts how long it has been out
      of the lane, and is confirmed, with the next id, by enough hits at an early enough age. */
  ghost predicate Joined(cfg: Config, t: Track, d: Detection, nextId: int, r: Track)
    requires t.hits >= 1
  {
    && OnTheWay(t.pos.x, d.at.x, Pull(t.hits), r.pos.x) && OnTheWay(t.pos.y, d.at.y, Pull(t.hits), r.pos.y)
    && OnTheWay(t.pos.z, d.at.z, Pull(t.hits), r.pos.z)
    && r.hits == t.hits + 1 && r.age == t.age && r.misses == 0 && r.matched
    && r.classId == t.classId && r.className == t.className
    && (d.inLane ==> r.outOfLane == 0) && (!d.inLane ==> r.outOfLane == t.outOfLane + 1)
    && (r.confirmed <==> t.confirmed || (t.hits + 1 >= cfg.confirmHits && t.age <= cfg.confirmWindow))
    && r.id == if r.confirmed && !t.confirmed then nextId else t.id
  }

  /** The track that a detection in the lane starts when it joins none. */
  predicate Started(d: Detection, r: Track) {
    && r.pos == d.at && r.classId == d.classId && r.className == d.className && r.hits == 1 && r.age == 1
    && r.misses == 0 && r.outOfLane == 0 && !r.confirmed && r.id == 0 && r.matched
  }

  /** One detection changes the track it joins and no other, or starts a track, or does nothing. */
  lemma DetectionTaken(cfg: Config, m: Memory, d: Detection)
    requires MemoryOk(m)
    ensures var r := Seen(cfg, m, d);
            && (forall i | Joins(cfg, m, d, i) ::
                  && |r.tracks| == |m.tracks| && Joined(cfg, m.tracks[i], d, m.nextId, r.tracks[i])
                  && forall j | 0 <= j < |m.tracks| && j != i :: r.tracks[j] == m.tracks[j])
            && ((forall i :: !Joins(cfg, m, d, i)) ==>
                  if Counts(d) && d.inLane
                  then |r.tracks| == |m.tracks| + 1 && r.tracks[..|m.tracks|] == m.tracks
                       && Started(d, r.tracks[|m.tracks|]) && r.nextId == m.nextId
                  else r == m)
  {
    hide Joins, Joined, Gain, Smoothed, Nearest;
    var i := Nearest(cfg, m.tracks, d).index;
    JoinsNearest(cfg, m, d, i);
    forall j | Joins(cfg, m, d, j) ensures j == i {
      JoinsNearest(cfg, m, d, j);
    }
    if Joins(cfg, m, d, i) {
      JoinedIs(cfg, m, d, i);
    }
  }

  lemma JoinedIs(cfg: Config, m: Memory, d: Detection, i: int)
    requires MemoryOk(m) && 0 <= i < |m.tracks|
    ensures var r := Matched(cfg, m, i, d);
            && |r.tracks| == |m.tracks| && Joined(cfg, m.tracks[i], d, m.nextId, r.tracks[i])
            && forall j | 0 <= j < |m.tracks| && j != i :: r.tracks[j] == m.tracks[j]
  {
    hide Gain, Pull, OnTheWay, Toward;
    var t := m.tracks[i];
    PullIsGain(t.hits);
    TowardIs(t.pos.x, d.at.x, Gain(t.hits));
    TowardIs(t.pos.y, d.at.y, Gain(t.hits));
    TowardIs(t.pos.z, d.at.z, Gain(t.hits));
  }

  lemma TowardIs(a: real, b: real, g: real)
    ensures OnTheWay(a, b, g, Toward(a, b, g))
  {
  }

  // ---- frames ----

  /** A track that no detection of the frame joins only grows older, and counts a miss when it should have been
      seen: the camera sees its place, and every detection but stop signs has its depth. */
  ghost predicate PassedOver(ds: seq<Detection>, visible: Option<Vec -> bool>, t: Track, r: Track) {
    && r.(misses := t.misses, age := t.age, matched := t.matched) == t && !r.matched && r.age == t.age + 1
    && (if (forall k | 0 <= k < |ds| :: ds[k].isStopSign || ds[k].depthValid) && visible.Some? && visible.value(t.pos)
        then r.misses == t.misses + 1 else r.misses == t.misses)
  }

  lemma {:induction false} UnmatchedStays(cfg: Config, m: Memory, ds: seq<Detection>, i: int)
    requires MemoryOk(m) && 0 <= i < |m.tracks| && !m.tracks[i].matched
    ensures var r := SeenAll(cfg, m, ds);
            i < |r.tracks| && (!r.tracks[i].matched ==> r.tracks[i] == m.tracks[i])
            && (r.tracks[i].matched ==> r.tracks[i].misses == 0)
  {
    hide Seen;
    if ds != [] {
      var n := |ds| - 1;
      UnmatchedStays(cfg, m, ds[..n], i);
      OneMoreSeen(cfg, SeenAll(cfg, m, ds[..n]), ds[n], i);
    }
  }

  lemma OneMoreSeen(cfg: Config, m: Memory, d: Detection, i: int)
    requires MemoryOk(m) && 0 <= i < |m.tracks|
    ensures var r := Seen(cfg, m, d);
            && i < |r.tracks| && (!r.tracks[i].matched ==> r.tracks[i] == m.tracks[i])
            && (r.tracks[i].matched ==> r.tracks[i].misses == 0 || r.tracks[i] == m.tracks[i])
  {
    hide Gain, Smoothed, Gate;
  }

  /** After a frame every track of before is still at its place: joined in this frame, with no misses, or passed
      over. */
  lemma FrameTaken(cfg: Config, m: Memory, ds: seq<Detection>, visible: Option<Vec -> bool>, i: int)
    requires MemoryOk(m) && 0 <= i < |m.tracks|
    ensures var r := Framed(cfg, m, ds, visible);
            && i < |r.tracks|
            && (r.tracks[i].matched ==> r.tracks[i].misses == 0)
            && (!r.tracks[i].matched ==> PassedOver(ds, visible, m.tracks[i], r.tracks[i]))
  {
    hide SeenAll;
    var a := m.(tracks := Aged(m.tracks));
    UnmatchedStays(cfg, a, ds, i);
  }

  // ---- expiry ----

  /** The track is behind the robot, out of the lane or unseen for too long, or too old to be confirmed any more. */
  predicate IsOver(cfg: Config, t: Track, inBase: Vec) {
    || inBase.x + cfg.passMargin < 0.0
    || cfg.maxOutOfLane <= t.outOfLane
    || cfg.maxVisibleMisses <= t.misses
    || (cfg.confirmWindow < t.age && !t.confirmed)
  }

  /** A tick drops exactly the tracks that are over, and publishes the confirmed ones that are left. */
  lemma {:induction false} TickKeeps(cfg: Config, ts: seq<Track>, toBase: Vec -> Vec)
    ensures forall t :: t in Kept(cfg, ts, toBase) <==> t in ts && !IsOver(cfg, t, toBase(t.pos))
    ensures forall t :: t in Published(Kept(cfg, ts, toBase)) <==>
                        t in ts && !IsOver(cfg, t, toBase(t.pos)) && t.confirmed
  {
    KeptAre(cfg, ts, toBase);
    PublishedAre(Kept(cfg, ts, toBase));
  }

  lemma {:induction false} KeptAre(cfg: Config, ts: seq<Track>, toBase: Vec -> Vec)
    ensures forall t :: t in Kept(cfg, ts, toBase) <==> t in ts && !IsOver(cfg, t, toBase(t.pos))
  {
    if ts != [] {
      KeptAre(cfg, ts[..|ts| - 1], toBase);
      assert ts == ts[..|ts| - 1] + [ts[|ts| - 1]];
    }
  }

  lemma {:induction false} PublishedAre(ts: seq<Track>)
    ensures forall t :: t in Published(ts) <==> t in ts && t.confirmed
  {
    if ts != [] {
      PublishedAre(ts[..|ts| - 1]);
      assert ts == ts[..|ts| - 1] + [ts[|ts| - 1]];
    }
  }
}
