/** obstacle_memory.cpp: the node's callbacks. */
module ObstacleMemoryObject {
  import opened Options
  import opened TrackerSpec

  class ObstacleMemory {
    const cfg: Config
    var tracks: seq<Track>
    var nextId: int

    ghost function Value(): Memory
      reads this
    {
      Memory(tracks, nextId)
    }

    ghost predicate Valid()
      reads this
    {
      MemoryOk(Value())
    }

    constructor (cfg: Config)
      ensures Valid() && Value() == Memory([], 1) && this.cfg == cfg
    {
      this.cfg, tracks, nextId := cfg, [], 1;
    }

    /** The nearest unmatched track of the detection's class, within the gate. */
    method FindNearest(d: Detection) returns (best: int)
      ensures best == Nearest(cfg, tracks, d).index
    {
      best := -1;
      var bestDistance := Gate(cfg, d);
      for i := 0 to |tracks|
        invariant Search(best, bestDistance) == Nearest(cfg, tracks[..i], d)
      {
        assert tracks[..i + 1][..i] == tracks[..i];
        var candidate := tracks[i];
        if candidate.matched || candidate.classId != d.classId {
          continue;
        }
        var distance := cfg.dist(candidate.pos, d.at);
        if distance < bestDistance {
          best, bestDistance := i, distance;
        }
      }
      assert tracks[..|tracks|] == tracks;
    }

    method UpdateTrack(i: int, d: Detection)
      requires Valid() && 0 <= i < |tracks|
      modifies this
      ensures Valid() && Value() == Matched(cfg, old(Value()), i, d)
    {
      hide Smoothed;
      var t := tracks[i];
      var gain := if 1.0 / (t.hits as real + 1.0) < 0.2 then 0.2 else 1.0 / (t.hits as real + 1.0);
      t := t.(pos := Smoothed(t.pos, d.at, gain));
      t := t.(hits := t.hits + 1, misses := 0, matched := true,
              outOfLane := if d.inLane then 0 else t.outOfLane + 1);
      if !t.confirmed && t.hits >= cfg.confirmHits && t.age <= cfg.confirmWindow {
        t := t.(confirmed := true, id := nextId);
        nextId := (nextId + 1) % ID_LIMIT;
      }
      tracks := tracks[i := t];
    }

    method See(d: Detection)
      requires Valid() && Usable(d)
      modifies this
      ensures Valid() && Value() == Seen(cfg, old(Value()), d)
    {
      hide Matched;
      var best := FindNearest(d);
      if best >= 0 {
        UpdateTrack(best, d);
      } else if d.inLane {
        tracks := tracks + [Fresh(d)];
      }
    }

    method AgeTracks()
      requires Valid()
      modifies this`tracks
      ensures Valid() && tracks == Aged(old(tracks))
    {
      ghost var before := tracks;
      for i := 0 to |tracks|
        invariant |tracks| == |before|
        invariant forall j | 0 <= j < |before| :: tracks[j] == if j < i then Aged(before)[j] else before[j]
      {
        tracks := tracks[i := tracks[i].(matched := false, age := tracks[i].age + 1)];
      }
    }

    method CountMisses(visible: Vec -> bool)
      requires Valid()
      modifies this`tracks
      ensures Valid() && tracks == Missed(old(tracks), visible)
    {
      ghost var before := tracks;
      for i := 0 to |tracks|
        invariant |tracks| == |before|
        invariant forall j | 0 <= j < |before| :: tracks[j] == if j < i then Missed(before, visible)[j] else before[j]
      {
        if !tracks[i].matched && visible(tracks[i].pos) {
          tracks := tracks[i := tracks[i].(misses := tracks[i].misses + 1)];
        }
      }
    }

    /** A frame of detections, already in the odometry frame. */
    method DetectionCallback(ds: seq<Detection>, visible: Option<Vec -> bool>)
      requires Valid()
      modifies this
      ensures Valid() && Value() == Framed(cfg, old(Value()), ds, visible)
    {
      hide Seen, Aged, Missed, MemoryOk;
      AgeTracks();
      ghost var start := Value();
      var anyInvalid := false;
      for k := 0 to |ds|
        invariant Valid() && Value() == SeenAll(cfg, start, ds[..k])
        invariant anyInvalid <==> AnyInvalid(ds[..k])
      {
        assert ds[..k + 1][..k] == ds[..k];
        InvalidGrows(ds, k);
        var d := ds[k];
        if d.isStopSign {
          Unusable(cfg, Value(), d);
          continue;
        }
        if !d.depthValid {
          Unusable(cfg, Value(), d);
          anyInvalid := true;
          continue;
        }
        See(d);
      }
      assert ds[..|ds|] == ds;
      if !anyInvalid && visible.Some? {
        CountMisses(visible.value);
      }
    }

    /** Adds a confirmed track to the output, and notes whether it is the nearest one ahead. */
    method Publish(soFar: Output, ghost k: int, t: Track, toBase: Vec -> Vec, limit: real)
    returns (r: Output, ghost k': int)
      requires Leads(soFar, toBase, limit, k)
      ensures Leads(r, toBase, limit, k') && r.obstacles == soFar.obstacles + if t.confirmed then [t] else []
    {
      r, k' := soFar, k;
      if t.confirmed {
        AheadGrows(soFar.obstacles, toBase, limit, k, soFar.nearestId, t);
        var inBase := toBase(t.pos);
        r := r.(obstacles := r.obstacles + [t]);
        if inBase.x > 0.0 && inBase.x < soFar.nearestForward {
          r := r.(nearestForward := inBase.x, nearestId := t.id);
          k' := |soFar.obstacles|;
        }
      }
    }

    /** Drops expired tracks, and publishes the confirmed ones and the id of the nearest one ahead. */
    method TimerCallback(toBase: Vec -> Vec, limit: real) returns (output: Output, ghost nearest: int)
      requires Valid()
      modifies this`tracks
      ensures Valid() && tracks == Kept(cfg, old(tracks), toBase)
      ensures output.obstacles == Published(tracks)
                && NearestAhead(output.obstacles, toBase, limit, nearest, output.nearestId)
    {
      hide Expired, Leads, NearestAhead, Kept, Published;
      output, nearest := Output([], 0, limit), -1;
      NothingYet(cfg, toBase, limit);
      var kept := [];
      for i := 0 to |tracks|
        invariant tracks == old(tracks) && kept == Kept(cfg, tracks[..i], toBase)
        invariant forall j | 0 <= j < |kept| :: kept[j].hits >= 1
        invariant output.obstacles == Published(kept) && Leads(output, toBase, limit, nearest)
      {
        var t := tracks[i];
        KeptNext(cfg, tracks, i, toBase);
        if Expired(cfg, t, toBase(t.pos)) {
          continue;
        }
        PublishedNext(kept, t);
        kept := kept + [t];
        output, nearest := Publish(output, nearest, t, toBase, limit);
      }
      assert tracks[..|tracks|] == tracks;
      LeadsAhead(output, toBase, limit, nearest);
      tracks := kept;
    }
  }

  datatype Output = Output(obstacles: seq<Track>, nearestId: int, nearestForward: real)

  /** Obstacle k of the output, if any, is the nearest one ahead so far. */
  ghost predicate Leads(out: Output, toBase: Vec -> Vec, limit: real, k: int) {
    && NearestAhead(out.obstacles, toBase, limit, k, out.nearestId) && -1 <= k < |out.obstacles|
    && out.nearestForward == if k >= 0 then toBase(out.obstacles[k].pos).x else limit
  }

  lemma NothingYet(cfg: Config, toBase: Vec -> Vec, limit: real)
    ensures Leads(Output([], 0, limit), toBase, limit, -1) && Kept(cfg, [], toBase) == [] && Published([]) == []
  {
  }

  lemma LeadsAhead(out: Output, toBase: Vec -> Vec, limit: real, k: int)
    requires Leads(out, toBase, limit, k)
    ensures NearestAhead(out.obstacles, toBase, limit, k, out.nearestId)
  {
  }

  lemma KeptNext(cfg: Config, ts: seq<Track>, i: int, toBase: Vec -> Vec)
    requires 0 <= i < |ts|
    ensures Kept(cfg, ts[..i + 1], toBase)
         == Kept(cfg, ts[..i], toBase) + if Expired(cfg, ts[i], toBase(ts[i].pos)) then [] else [ts[i]]
  {
    assert ts[..i + 1][..i] == ts[..i];
  }

  lemma PublishedNext(ts: seq<Track>, t: Track)
    ensures Published(ts + [t]) == Published(ts) + if t.confirmed then [t] else []
  {
    assert (ts + [t])[..|ts|] == ts;
  }

  lemma InvalidGrows(ds: seq<Detection>, k: int)
    requires 0 <= k < |ds|
    ensures AnyInvalid(ds[..k + 1]) <==> AnyInvalid(ds[..k]) || (!ds[k].isStopSign && !ds[k].depthValid)
  {
    if AnyInvalid(ds[..k]) {
      var j :| 0 <= j < |ds[..k]| && !ds[..k][j].isStopSign && !ds[..k][j].depthValid;
      assert ds[..k + 1][j] == ds[..k][j];
    }
    if !ds[k].isStopSign && !ds[k].depthValid {
      assert ds[..k + 1][k] == ds[k];
    }
  }

  lemma Unusable(cfg: Config, m: Memory, d: Detection)
    requires MemoryOk(m) && !Usable(d)
    ensures Seen(cfg, m, d) == m
  {
  }

  lemma AheadGrows(ts: seq<Track>, toBase: Vec -> Vec, limit: real, k: int, id: int, t: Track)
    requires NearestAhead(ts, toBase, limit, k, id)
    ensures var x := toBase(t.pos).x;
            var best := if k >= 0 then toBase(ts[k].pos).x else limit;
            if 0.0 < x < best then NearestAhead(ts + [t], toBase, limit, |ts|, t.id)
            else NearestAhead(ts + [t], toBase, limit, k, id)
  {
  }
}
