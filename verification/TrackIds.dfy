/** The ids of obstacle_memory.cpp wrap around: which tracks share an id, which confirmation gets the id 0, and
    a run that reaches it. */
module TrackIds {
  import opened Options
  import opened TrackerRuns
  import opened TrackerSpec

  /** A confirmed track gets the id 0, which means no obstacle, exactly when ID_LIMIT divides the number
      of confirmations it completes. */
  lemma ConfirmedAsZeroIff(cfg: Config, w: World, d: Detection, i: int)
    requires WorldOk(w) && Usable(d) && i == Nearest(cfg, w.mem.tracks, d).index >= 0
    requires Confirms(cfg, Hit(w.mem.tracks[i], d))
    ensures var r := WorldSeen(cfg, w, d);
            && i < |r.mem.tracks| && r.mem.tracks[i].confirmed && r.issued == w.issued + 1
            && (r.mem.tracks[i].id == 0 <==> r.issued % ID_LIMIT == 0)
  {
    hide TrackOk, Gate;
  }

  /** In every run, two confirmed tracks share an id exactly when the numbers of their confirmations, which
      differ, differ by a multiple of ID_LIMIT. */
  lemma SharedIdIff(cfg: Config, es: seq<Event>, i: int, j: int)
    requires var ts := RunAll(cfg, es).mem.tracks;
             0 <= i < |ts| && 0 <= j < |ts| && i != j && ts[i].confirmed && ts[j].confirmed
    ensures var w := RunAll(cfg, es);
            && |w.hist| == |w.mem.tracks| && w.hist[i].number != w.hist[j].number
            && (w.mem.tracks[i].id == w.mem.tracks[j].id <==> (w.hist[i].number - w.hist[j].number) % ID_LIMIT == 0)
  {
    hide RunAll, TrackOk;
    var w := RunAll(cfg, es);
    assert WorldOk(w);
    SameRemainder(w.hist[i].number, w.hist[j].number);
    if i < j {
      assert w.hist[i].number != w.hist[j].number;
    }
  }

  lemma SameRemainder(a: int, b: int)
    ensures a % ID_LIMIT == b % ID_LIMIT <==> (a - b) % ID_LIMIT == 0
  {
  }

  /** Up to ID_LIMIT - 1 confirmations all ids are different and at least 1. */
  lemma FirstIdsDiffer(cfg: Config, es: seq<Event>, i: int)
    requires RunAll(cfg, es).issued < ID_LIMIT
    requires 0 <= i < |RunAll(cfg, es).mem.tracks| && RunAll(cfg, es).mem.tracks[i].confirmed
    ensures var w := RunAll(cfg, es);
            && 1 <= w.mem.tracks[i].id <= w.issued
            && forall j | 0 <= j < |w.mem.tracks| && j != i && w.mem.tracks[j].confirmed ::
                 w.mem.tracks[j].id != w.mem.tracks[i].id
  {
    hide RunAll, TrackOk;
    var w := RunAll(cfg, es);
    assert WorldOk(w);
    forall j | 0 <= j < |w.mem.tracks| && j != i && w.mem.tracks[j].confirmed
      ensures w.mem.tracks[j].id != w.mem.tracks[i].id
    {
      SharedIdIff(cfg, es, i, j);
    }
  }

  // ---- a run with the declared parameters ----

  function Declared(dist: (Vec, Vec) -> real): Config {
    Config(0.5, 0.05, 0.5, 3, 10, 4, 10, dist)
  }

  const HERE := Vec(0.0, 0.0, 0.0)
  const SIGHTING := Detection(false, true, true, 0, "cone", HERE, 2.0)
  const SEEN := Frame([SIGHTING], None)
  const PASSED := Tick((p: Vec) => Vec(-1.0, 0.0, 0.0))

  /** An obstacle seen in three frames, and passed. */
  const ENCOUNTER: seq<Event> := [SEEN, SEEN, SEEN, PASSED]

  function Encounters(n: nat): seq<Event> {
    if n == 0 then [] else Encounters(n - 1) + ENCOUNTER
  }

  /** The only track after k frames of an encounter. */
  function Sighted(k: int, id: int): Track {
    Track(id, 0, "cone", HERE, k, k, 0, 0, k == 3, true)
  }

  ghost predicate Only(w: World, t: Track, issued: nat) {
    w.mem.tracks == [t] && w.issued == issued
  }

  lemma OneSighting(cfg: Config, w: World)
    requires MemoryOk(w.mem)
    ensures WorldFramed(cfg, w, [SIGHTING], None) ==
            WorldSeen(cfg, w.(mem := w.mem.(tracks := Aged(w.mem.tracks))), SIGHTING)
  {
    hide Seen, Nearest;
    var a := w.(mem := w.mem.(tracks := Aged(w.mem.tracks)));
    assert [SIGHTING][..0] == [];
    assert WorldSeenAll(cfg, a, []) == a && SeenAll(cfg, a.mem, []) == a.mem;
  }

  lemma FirstSighting(cfg: Config, w: World)
    requires WorldOk(w) && w.mem.tracks == []
    ensures Only(Apply(cfg, w, SEEN), Sighted(1, 0), w.issued)
  {
    OneSighting(cfg, w);
    assert Aged(w.mem.tracks) == [];
  }

  lemma NearestOfOne(cfg: Config, t: Track, d: Detection)
    requires Matchable(t, d) && cfg.dist(t.pos, d.at) < Gate(cfg, d)
    ensures Nearest(cfg, [t], d).index == 0
  {
    assert [t][..0] == [];
    assert Nearest(cfg, [], d) == Search(-1, Gate(cfg, d));
  }

  lemma NextSighting(dist: (Vec, Vec) -> real, w: World, k: int)
    requires WorldOk(w) && 1 <= k <= 2 && Only(w, Sighted(k, 0), w.issued) && dist(HERE, HERE) == 0.0
    ensures var id := if k == 2 then w.mem.nextId else 0;
            Only(Apply(Declared(dist), w, SEEN), Sighted(k + 1, id), w.issued + (if k == 2 then 1 else 0))
  {
    var cfg := Declared(dist);
    OneSighting(cfg, w);
    var t := Sighted(k, 0).(matched := false, age := k + 1);
    assert Aged(w.mem.tracks) == [t];
    NearestOfOne(cfg, t, SIGHTING);
    assert Smoothed(HERE, HERE, Gain(k)) == HERE;
  }

  lemma Passing(cfg: Config, w: World, t: Track)
    requires WorldOk(w) && w.mem.tracks == [t] && cfg.passMargin == 0.5
    ensures Apply(cfg, w, PASSED).mem.tracks == [] && Apply(cfg, w, PASSED).issued == w.issued
  {
    assert [t][..0] == [];
    assert Kept(cfg, [], PASSED.toBase) == [];
  }

  /** One event more. */
  lemma OneMore(cfg: Config, es: seq<Event>, e: Event)
    ensures WorldOk(RunAll(cfg, es)) && RunAll(cfg, es + [e]) == Apply(cfg, RunAll(cfg, es), e)
  {
    hide Apply, WorldOk;
    assert (es + [e])[..|es|] == es;
  }

  lemma NextIdIs(w: World)
    requires WorldOk(w)
    ensures w.mem.nextId == (w.issued + 1) % ID_LIMIT
  {
  }

  lemma ThreeFrames(dist: (Vec, Vec) -> real, es: seq<Event>)
    requires dist(HERE, HERE) == 0.0 && RunAll(Declared(dist), es).mem.tracks == []
    ensures var w := RunAll(Declared(dist), es);
            Only(RunAll(Declared(dist), es + [SEEN] + [SEEN] + [SEEN]),
                 Sighted(3, (w.issued + 1) % ID_LIMIT), w.issued + 1)
  {
    hide RunAll, Apply, WorldOk, Sighted, Declared;
    var cfg := Declared(dist);
    var w0, w1, w2 := RunAll(cfg, es), RunAll(cfg, es + [SEEN]), RunAll(cfg, es + [SEEN] + [SEEN]);
    OneMore(cfg, es, SEEN);
    OneMore(cfg, es + [SEEN], SEEN);
    OneMore(cfg, es + [SEEN] + [SEEN], SEEN);
    FirstSighting(cfg, w0);
    NextSighting(dist, w1, 1);
    NextSighting(dist, w2, 2);
    NextIdIs(w2);
  }

  /** After n encounters no track is left, and n were confirmed. */
  lemma {:induction false} AfterEncounters(dist: (Vec, Vec) -> real, n: nat)
    requires dist(HERE, HERE) == 0.0
    ensures RunAll(Declared(dist), Encounters(n)).mem.tracks == []
    ensures RunAll(Declared(dist), Encounters(n)).issued == n
  {
    hide Apply, WorldOk, Sighted;
    if n > 0 {
      var es := Encounters(n - 1);
      var seen := es + [SEEN] + [SEEN] + [SEEN];
      AfterEncounters(dist, n - 1);
      ThreeFrames(dist, es);
      OneMore(Declared(dist), seen, PASSED);
      Passing(Declared(dist), RunAll(Declared(dist), seen), Sighted(3, n % ID_LIMIT));
      assert Encounters(n) == seen + [PASSED];
    }
  }

  /** With the declared parameters the last of 2^32 encounters leaves a confirmed track with id 0. */
  lemma IdsRunOut(dist: (Vec, Vec) -> real)
    requires dist(HERE, HERE) == 0.0
    ensures RunAll(Declared(dist), Encounters(ID_LIMIT - 1) + [SEEN] + [SEEN] + [SEEN]).mem.tracks == [Sighted(3, 0)]
  {
    hide RunAll, Encounters;
    AfterEncounters(dist, ID_LIMIT - 1);
    ThreeFrames(dist, Encounters(ID_LIMIT - 1));
    OneMore(Declared(dist), Encounters(ID_LIMIT - 1), SEEN);
  }
}
