/** What the tracker guarantees over whole runs of frames and timer ticks. */
module TrackerRuns {
  import opened Arithmetic
  import opened Options
  import opened TrackerSpec

  /** The measurements a track was made of, and the number of its confirmation, or 0. */
  datatype Record = Record(seen: seq<Vec>, number: nat)

  /** The memory, the records of its tracks, and how many tracks were confirmed. */
  datatype World = World(mem: Memory, hist: seq<Record>, issued: nat)

  datatype Event = Frame(ds: seq<Detection>, visible: Option<Vec -> bool>) | Tick(toBase: Vec -> Vec)

  const START := World(Memory([], 1), [], 0)

  // ---- one track ----

  function Sum(h: seq<Vec>): Vec {
    if h == [] then Vec(0.0, 0.0, 0.0)
    else
      var s, v := Sum(h[..|h| - 1]), h[|h| - 1];
      Vec(s.x + v.x, s.y + v.y, s.z + v.z)
  }

  predicate Times(n: int, p: real, s: real) {
    n as real * p == s
  }

  /** The position is the mean of the measurements. */
  predicate IsMean(p: Vec, h: seq<Vec>) {
    Times(|h|, p.x, Sum(h).x) && Times(|h|, p.y, Sum(h).y) && Times(|h|, p.z, Sum(h).z)
  }

  function Coordinate(v: Vec, axis: int): real {
    if axis == 0 then v.x else if axis == 1 then v.y else v.z
  }

  ghost predicate Between(h: seq<Vec>, axis: int, lo: real, hi: real) {
    forall k | 0 <= k < |h| :: lo <= Coordinate(h[k], axis) <= hi
  }

  /** In each coordinate the position lies between any bounds of the measurements. */
  ghost predicate InHull(p: Vec, h: seq<Vec>) {
    forall axis, lo, hi | Between(h, axis, lo, hi) :: lo <= Coordinate(p, axis) <= hi
  }

  ghost predicate TrackOk(t: Track, h: seq<Vec>) {
    && 1 <= t.hits == |h| <= t.age && (!t.confirmed ==> t.id == 0)
    && (t.hits <= 5 ==> IsMean(t.pos, h)) && InHull(t.pos, h)
  }

  lemma MeanStep(n: int, x: real, s: real, m: real)
    requires n >= 1 && Times(n, x, s)
    ensures Times(n + 1, Toward(x, m, 1.0 / (n as real + 1.0)), s + m)
  {
    var k := n as real + 1.0;
    var g := 1.0 / k;
    assert k * g == 1.0;
    assert k * (g * (m - x)) == k * g * (m - x) == m - x;
  }

  lemma GainIs(n: int)
    requires n >= 1
    ensures 0.0 < Gain(n) <= 1.0 && (n <= 4 ==> Gain(n) == 1.0 / (n as real + 1.0))
  {
    var k := n as real + 1.0;
    assert 1.0 / k * k == 1.0;
  }

  lemma HullStep(lo: real, hi: real, a: real, b: real, g: real)
    requires lo <= a <= hi && lo <= b <= hi && 0.0 <= g <= 1.0
    ensures lo <= Toward(a, b, g) <= hi
  {
    ProductNonNegative(1.0 - g, a - lo);
    ProductNonNegative(g, b - lo);
    ProductNonNegative(1.0 - g, hi - a);
    ProductNonNegative(g, hi - b);
    assert Toward(a, b, g) - lo == (1.0 - g) * (a - lo) + g * (b - lo);
    assert hi - Toward(a, b, g) == (1.0 - g) * (hi - a) + g * (hi - b);
  }

  lemma SmoothedInHull(p: Vec, h: seq<Vec>, m: Vec, g: real)
    requires InHull(p, h) && 0.0 < g <= 1.0
    ensures InHull(Smoothed(p, m, g), h + [m])
  {
    hide Toward;
    forall axis, lo, hi | Between(h + [m], axis, lo, hi) ensures lo <= Coordinate(Smoothed(p, m, g), axis) <= hi {
      assert (h + [m])[|h|] == m;
      forall k | 0 <= k < |h| ensures lo <= Coordinate(h[k], axis) <= hi {
        assert (h + [m])[k] == h[k];
      }
      assert Between(h, axis, lo, hi);
      HullStep(lo, hi, Coordinate(p, axis), Coordinate(m, axis), g);
    }
  }

  lemma SmoothedIsMean(p: Vec, h: seq<Vec>, m: Vec)
    requires 1 <= |h| <= 4 && IsMean(p, h)
    ensures IsMean(Smoothed(p, m, Gain(|h|)), h + [m])
  {
    hide Times, Toward, Gain;
    assert (h + [m])[..|h|] == h;
    GainIs(|h|);
    MeanStep(|h|, p.x, Sum(h).x, m.x);
    MeanStep(|h|, p.y, Sum(h).y, m.y);
    MeanStep(|h|, p.z, Sum(h).z, m.z);
  }

  /** A matched track stays the mean of up to five measurements, and in their hull after that. */
  lemma HitKeepsTrack(t: Track, h: seq<Vec>, d: Detection)
    requires TrackOk(t, h) && t.hits < t.age
    ensures TrackOk(Hit(t, d), h + [d.at])
  {
    hide InHull, IsMean, Gain, Smoothed;
    GainIs(t.hits);
    SmoothedInHull(t.pos, h, d.at, Gain(t.hits));
    if t.hits <= 4 {
      SmoothedIsMean(t.pos, h, d.at);
    }
  }

  lemma FreshIsOk(d: Detection)
    ensures TrackOk(Fresh(d), [d.at])
  {
    assert [d.at][..0] == [];
    forall axis, lo, hi | Between([d.at], axis, lo, hi) ensures lo <= Coordinate(d.at, axis) <= hi {
      assert [d.at][0] == d.at;
    }
  }

  // ---- ids ----

  /** Every confirmation has its own number, and its track that number as id, wrapped around. */
  ghost predicate IdsOk(m: Memory, hist: seq<Record>, issued: nat) {
    && |hist| == |m.tracks| && m.nextId == (issued + 1) % ID_LIMIT
    && (forall i | 0 <= i < |m.tracks| && m.tracks[i].confirmed ::
          1 <= hist[i].number <= issued && m.tracks[i].id == hist[i].number % ID_LIMIT)
    && (forall i, j | 0 <= i < j < |m.tracks| && m.tracks[i].confirmed && m.tracks[j].confirmed ::
          hist[i].number != hist[j].number)
  }

  // ---- detections ----

  function Issues(cfg: Config, m: Memory, d: Detection): nat
    requires MemoryOk(m)
  {
    var i := Nearest(cfg, m.tracks, d).index;
    if Usable(d) && i >= 0 && Confirms(cfg, Hit(m.tracks[i], d)) then 1 else 0
  }

  function Recorded(cfg: Config, w: World, d: Detection): seq<Record>
    requires MemoryOk(w.mem)
  {
    var i := Nearest(cfg, w.mem.tracks, d).index;
    if !Usable(d) then w.hist
    else if 0 <= i < |w.hist| then
      w.hist[i := Record(w.hist[i].seen + [d.at],
                         if Issues(cfg, w.mem, d) == 1 then w.issued + 1 else w.hist[i].number)]
    else if d.inLane then w.hist + [Record([d.at], 0)] else w.hist
  }

  function WorldSeen(cfg: Config, w: World, d: Detection): (r: World)
    requires MemoryOk(w.mem)
    ensures MemoryOk(r.mem) && r.mem == Seen(cfg, w.mem, d)
  {
    World(Seen(cfg, w.mem, d), Recorded(cfg, w, d), w.issued + Issues(cfg, w.mem, d))
  }

  function WorldSeenAll(cfg: Config, w: World, ds: seq<Detection>): (r: World)
    requires MemoryOk(w.mem)
    ensures MemoryOk(r.mem) && r.mem == SeenAll(cfg, w.mem, ds)
  {
    if ds == [] then w else WorldSeen(cfg, WorldSeenAll(cfg, w, ds[..|ds| - 1]), ds[|ds| - 1])
  }

  function WorldFramed(cfg: Config, w: World, ds: seq<Detection>, visible: Option<Vec -> bool>): (r: World)
    requires MemoryOk(w.mem)
    ensures MemoryOk(r.mem) && r.mem == Framed(cfg, w.mem, ds, visible)
  {
    var s := WorldSeenAll(cfg, w.(mem := w.mem.(tracks := Aged(w.mem.tracks))), ds);
    s.(mem := Framed(cfg, w.mem, ds, visible))
  }

  /** The records of the tracks that a tick keeps. */
  function KeptHist(cfg: Config, ts: seq<Track>, hist: seq<Record>, toBase: Vec -> Vec): (r: seq<Record>)
    requires |hist| == |ts|
    ensures |r| == |Kept(cfg, ts, toBase)|
  {
    if ts == [] then []
    else
      var n := |ts| - 1;
      KeptHist(cfg, ts[..n], hist[..n], toBase) + if Expired(cfg, ts[n], toBase(ts[n].pos)) then [] else [hist[n]]
  }

  ghost predicate WorldOk(w: World) {
    && MemoryOk(w.mem) && |w.hist| == |w.mem.tracks| && IdsOk(w.mem, w.hist, w.issued)
    && forall i | 0 <= i < |w.hist| :: TrackOk(w.mem.tracks[i], w.hist[i].seen)
  }

  /** Within a frame an unmatched track still has a hit to gain. */
  ghost predicate RoomOk(ts: seq<Track>) {
    forall i | 0 <= i < |ts| && !ts[i].matched :: ts[i].hits < ts[i].age
  }

  lemma ConfirmKeepsIds(m: Memory, hist: seq<Record>, issued: nat, i: int, t: Track, seen: seq<Vec>)
    requires IdsOk(m, hist, issued) && 0 <= i < |m.tracks|
    ensures IdsOk(Memory(m.tracks[i := t.(confirmed := true, id := m.nextId)], (m.nextId + 1) % ID_LIMIT),
                  hist[i := Record(seen, issued + 1)], issued + 1)
  {
  }

  lemma UpdateKeepsIds(m: Memory, hist: seq<Record>, issued: nat, i: int, t: Track, seen: seq<Vec>)
    requires IdsOk(m, hist, issued) && 0 <= i < |m.tracks|
    requires t.confirmed == m.tracks[i].confirmed && t.id == m.tracks[i].id
    ensures IdsOk(m.(tracks := m.tracks[i := t]), hist[i := Record(seen, hist[i].number)], issued)
  {
  }

  lemma FreshKeepsIds(m: Memory, hist: seq<Record>, issued: nat, d: Detection)
    requires IdsOk(m, hist, issued)
    ensures IdsOk(m.(tracks := m.tracks + [Fresh(d)]), hist + [Record([d.at], 0)], issued)
  {
  }

  lemma SeenKeepsIds(cfg: Config, w: World, d: Detection)
    requires WorldOk(w)
    ensures IdsOk(Seen(cfg, w.mem, d), Recorded(cfg, w, d), w.issued + Issues(cfg, w.mem, d))
  {
    hide IdsOk, TrackOk, Gain, Smoothed, Gate;
    var i := Nearest(cfg, w.mem.tracks, d).index;
    if Usable(d) && i >= 0 {
      var t, seen := Hit(w.mem.tracks[i], d), w.hist[i].seen + [d.at];
      if Confirms(cfg, t) {
        ConfirmKeepsIds(w.mem, w.hist, w.issued, i, t, seen);
      } else {
        UpdateKeepsIds(w.mem, w.hist, w.issued, i, t, seen);
      }
    } else if Usable(d) && d.inLane {
      FreshKeepsIds(w.mem, w.hist, w.issued, d);
    }
  }

  lemma SeenKeepsWorld(cfg: Config, w: World, d: Detection)
    requires WorldOk(w) && RoomOk(w.mem.tracks)
    ensures WorldOk(WorldSeen(cfg, w, d)) && RoomOk(WorldSeen(cfg, w, d).mem.tracks)
  {
    hide IdsOk, InHull, IsMean, Gain, Smoothed, Gate;
    SeenKeepsIds(cfg, w, d);
    NearestIs(cfg, w.mem.tracks, d);
    var i := Nearest(cfg, w.mem.tracks, d).index;
    if Usable(d) && i >= 0 {
      HitKeepsTrack(w.mem.tracks[i], w.hist[i].seen, d);
    }
    FreshIsOk(d);
  }

  lemma {:induction false} SeenAllKeepsWorld(cfg: Config, w: World, ds: seq<Detection>)
    requires WorldOk(w) && RoomOk(w.mem.tracks)
    ensures WorldOk(WorldSeenAll(cfg, w, ds)) && RoomOk(WorldSeenAll(cfg, w, ds).mem.tracks)
  {
    hide WorldOk, RoomOk, WorldSeen;
    MemoryIsOk(w);
    if ds != [] {
      SeenAllKeepsWorld(cfg, w, ds[..|ds| - 1]);
      SeenKeepsWorld(cfg, WorldSeenAll(cfg, w, ds[..|ds| - 1]), ds[|ds| - 1]);
    }
  }

  lemma AgedIsOk(w: World)
    requires WorldOk(w)
    ensures var a := w.(mem := w.mem.(tracks := Aged(w.mem.tracks))); WorldOk(a) && RoomOk(a.mem.tracks)
  {
    hide InHull, IsMean;
  }

  lemma MissesKeepWorld(w: World, visible: Vec -> bool)
    requires WorldOk(w)
    ensures WorldOk(w.(mem := w.mem.(tracks := Missed(w.mem.tracks, visible))))
  {
    hide InHull, IsMean;
  }

  lemma FrameKeepsWorld(cfg: Config, w: World, ds: seq<Detection>, visible: Option<Vec -> bool>)
    requires WorldOk(w)
    ensures WorldOk(WorldFramed(cfg, w, ds, visible))
  {
    hide WorldOk, RoomOk, SeenAll, Aged, MemoryOk;
    AgedIsOk(w);
    MemoryIsOk(w);
    var a := w.(mem := w.mem.(tracks := Aged(w.mem.tracks)));
    MemoryIsOk(a);
    SeenAllKeepsWorld(cfg, a, ds);
    var s := WorldSeenAll(cfg, a, ds);
    if visible.Some? {
      MissesKeepWorld(s, visible.value);
    }
  }

  lemma MemoryIsOk(w: World)
    requires WorldOk(w)
    ensures MemoryOk(w.mem)
  {
  }

  // ---- ticks ----

  /** Each kept track is one of the old ones, with its measurements; the order stays. */
  lemma {:induction false} KeptFrom(cfg: Config, ts: seq<Track>, hist: seq<Record>, toBase: Vec -> Vec)
    returns (from: seq<int>)
    requires |hist| == |ts|
    ensures |from| == |Kept(cfg, ts, toBase)|
    ensures forall k | 0 <= k < |from| ::
              0 <= from[k] < |ts| && Kept(cfg, ts, toBase)[k] == ts[from[k]] &&
              KeptHist(cfg, ts, hist, toBase)[k] == hist[from[k]]
    ensures forall j, k | 0 <= j < k < |from| :: from[j] < from[k]
    ensures forall i | 0 <= i < |ts| :: i in from <==> !Expired(cfg, ts[i], toBase(ts[i].pos))
  {
    hide Expired;
    from := [];
    if ts != [] {
      var n := |ts| - 1;
      from := KeptFrom(cfg, ts[..n], hist[..n], toBase);
      if !Expired(cfg, ts[n], toBase(ts[n].pos)) {
        from := from + [n];
      }
    }
  }

  lemma TickKeepsWorld(cfg: Config, w: World, toBase: Vec -> Vec)
    requires WorldOk(w)
    ensures WorldOk(World(w.mem.(tracks := Kept(cfg, w.mem.tracks, toBase)),
                          KeptHist(cfg, w.mem.tracks, w.hist, toBase), w.issued))
  {
    hide TrackOk, Kept, KeptHist, Expired;
    var from := KeptFrom(cfg, w.mem.tracks, w.hist, toBase);
  }

  // ---- whole runs ----

  function Apply(cfg: Config, w: World, e: Event): (r: World)
    requires MemoryOk(w.mem) && |w.hist| == |w.mem.tracks|
  {
    match e
    case Frame(ds, visible) => WorldFramed(cfg, w, ds, visible)
    case Tick(toBase) =>
      World(w.mem.(tracks := Kept(cfg, w.mem.tracks, toBase)), KeptHist(cfg, w.mem.tracks, w.hist, toBase), w.issued)
  }

  lemma StepOk(cfg: Config, w: World, e: Event)
    requires WorldOk(w)
    ensures WorldOk(Apply(cfg, w, e))
  {
    hide WorldFramed, IdsOk, TrackOk;
    match e
    case Frame(ds, visible) => FrameKeepsWorld(cfg, w, ds, visible);
    case Tick(toBase) => TickKeepsWorld(cfg, w, toBase);
  }

  /** In every run hits never exceed age, tentative tracks have id 0, confirmed ones their own numbers, every
      position is the mean of up to five measurements, and in the hull of its measurements after that. */
  function RunAll(cfg: Config, es: seq<Event>): (w: World)
    ensures WorldOk(w)
  {
    if es == [] then START
    else
      var w := RunAll(cfg, es[..|es| - 1]);
      StepOk(cfg, w, es[|es| - 1]);
      Apply(cfg, w, es[|es| - 1])
  }

  // ---- matching ----

  /** The track detection k of a frame went to, if any; m is the memory before the frame's detections. */
  function AssignedTo(cfg: Config, m: Memory, ds: seq<Detection>, k: int): Option<int>
    requires MemoryOk(m) && 0 <= k < |ds|
  {
    var s := SeenAll(cfg, m, ds[..k]);
    var i := Nearest(cfg, s.tracks, ds[k]).index;
    if !Usable(ds[k]) then None
    else if i >= 0 then Some(i)
    else if ds[k].inLane then Some(|s.tracks|) else None
  }

  lemma SeenMarks(cfg: Config, m: Memory, d: Detection, i: int)
    requires MemoryOk(m) && 0 <= i
    requires i < |m.tracks| && m.tracks[i].matched
    ensures i < |Seen(cfg, m, d).tracks| && Seen(cfg, m, d).tracks[i].matched
  {
    hide Gain, Smoothed, Gate;
    NearestIs(cfg, m.tracks, d);
  }

  lemma {:induction false} StaysMarked(cfg: Config, m: Memory, ds: seq<Detection>, j: int)
    requires MemoryOk(m) && 0 <= j < |ds| && AssignedTo(cfg, m, ds, j).Some?
    ensures var s := SeenAll(cfg, m, ds); var i := AssignedTo(cfg, m, ds, j).value;
            0 <= i < |s.tracks| && s.tracks[i].matched
  {
    hide Seen, Usable;
    var n := |ds| - 1;
    if j < n {
      assert ds[..n][..j] == ds[..j];
      StaysMarked(cfg, m, ds[..n], j);
      SeenMarks(cfg, SeenAll(cfg, m, ds[..n]), ds[n], AssignedTo(cfg, m, ds, j).value);
    } else {
      NowMarked(cfg, SeenAll(cfg, m, ds[..n]), ds[n]);
    }
  }

  lemma NowMarked(cfg: Config, m: Memory, d: Detection)
    requires MemoryOk(m) && Usable(d)
    ensures var i := Nearest(cfg, m.tracks, d).index;
            && (i >= 0 ==> i < |Seen(cfg, m, d).tracks| && Seen(cfg, m, d).tracks[i].matched)
            && (i < 0 && d.inLane ==>
                  |Seen(cfg, m, d).tracks| == |m.tracks| + 1 && Seen(cfg, m, d).tracks[|m.tracks|].matched)
  {
    hide Gain, Smoothed, Gate;
  }

  /** Within a frame no two detections go to the same track. */
  lemma MatchingIsInjective(cfg: Config, m: Memory, ds: seq<Detection>, j: int, k: int)
    requires MemoryOk(m) && 0 <= j < k < |ds|
    requires AssignedTo(cfg, m, ds, j).Some? && AssignedTo(cfg, m, ds, k).Some?
    ensures AssignedTo(cfg, m, ds, j) != AssignedTo(cfg, m, ds, k)
  {
    hide SeenAll, Gate;
    assert ds[..k][..j] == ds[..j];
    assert AssignedTo(cfg, m, ds[..k], j) == AssignedTo(cfg, m, ds, j);
    StaysMarked(cfg, m, ds[..k], j);
    NearestIs(cfg, SeenAll(cfg, m, ds[..k]).tracks, ds[k]);
  }

  // ---- identity ----

  /** t' is the later state of t: once confirmed, always confirmed, with the same id. */
  predicate SameIdentity(t: Track, t': Track) {
    t.classId == t'.classId && t.className == t'.className && (t.confirmed ==> t'.confirmed && t'.id == t.id)
  }

  ghost predicate Continues(a: seq<Track>, b: seq<Track>) {
    |a| <= |b| && forall i | 0 <= i < |a| :: SameIdentity(a[i], b[i])
  }

  lemma SeenContinues(cfg: Config, m: Memory, d: Detection)
    requires MemoryOk(m)
    ensures Continues(m.tracks, Seen(cfg, m, d).tracks)
  {
    hide Gain, Smoothed, Gate;
  }

  lemma {:induction false} SeenAllContinues(cfg: Config, m: Memory, ds: seq<Detection>)
    requires MemoryOk(m)
    ensures Continues(m.tracks, SeenAll(cfg, m, ds).tracks)
  {
    hide Seen;
    if ds != [] {
      SeenAllContinues(cfg, m, ds[..|ds| - 1]);
      SeenContinues(cfg, SeenAll(cfg, m, ds[..|ds| - 1]), ds[|ds| - 1]);
    }
  }

  /** A frame keeps every track at its place, and every confirmed track its id. Ticks only drop tracks. */
  lemma FrameKeepsIdentity(cfg: Config, m: Memory, ds: seq<Detection>, visible: Option<Vec -> bool>)
    requires MemoryOk(m)
    ensures Continues(m.tracks, Framed(cfg, m, ds, visible).tracks)
  {
    hide SeenAll;
    SeenAllContinues(cfg, m.(tracks := Aged(m.tracks)), ds);
  }
}
