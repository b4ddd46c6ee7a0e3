/** The stamped open-addressing table of thinning.cpp: what its slots mean, and why
    probing it ends. A slot counts only when it carries the current stamp. */
module StampedTable {

  const SLOTS: nat := 32768
  const STAMPS: nat := 0x1_0000_0000

  datatype Slot = Slot(stamp: nat, lab: int, idx: int)

  /** (uint32(label) * 2654435761) >> 17, in 32-bit wrap-around arithmetic. */
  function Hash(lab: int): (h: nat)
    ensures h < SLOTS
  {
    var x := ((lab % STAMPS) * 2654435761) % STAMPS;
    x / 131072
  }

  /** The slot looked at after `k` steps of linear probing. */
  function At(lab: int, k: nat): (p: nat)
    ensures p < SLOTS
  {
    (Hash(lab) + k) % SLOTS
  }

  /** The current slots hold exactly labels[c] -> c, each reachable by probing past current slots only.
      `probes[c]` is the number of probes that lead to labels[c]. */
  ghost predicate Holds(t: seq<Slot>, stamp: nat, labels: seq<int>, probes: seq<nat>) {
    && |t| == SLOTS
    && |probes| == |labels|
    && (forall c | 0 <= c < |labels| :: probes[c] < SLOTS)
    && (forall c | 0 <= c < |labels| :: t[At(labels[c], probes[c])] == Slot(stamp, labels[c], c))
    && (forall c, k: nat | 0 <= c < |labels| && k <= probes[c] :: t[At(labels[c], k)].stamp == stamp)
    && (forall p | 0 <= p < SLOTS && t[p].stamp == stamp :: SlotOwned(t, labels, probes, p))
  }

  ghost predicate SlotOwned(t: seq<Slot>, labels: seq<int>, probes: seq<nat>, p: nat)
    requires p < |t| && |probes| == |labels|
  {
    0 <= t[p].idx < |labels| && At(labels[t[p].idx], probes[t[p].idx]) == p
  }

  /** Slots 0..k of the probe sequence of `lab` are current and hold other labels. */
  ghost predicate Missed(t: seq<Slot>, stamp: nat, lab: int, k: nat)
    requires |t| == SLOTS
  {
    forall j: nat | j < k :: t[At(lab, j)].stamp == stamp && t[At(lab, j)].lab != lab
  }

  /** A table without current slots is empty, whatever older stamps it carries. */
  lemma EmptyHolds(t: seq<Slot>, stamp: nat)
    requires |t| == SLOTS && forall p | 0 <= p < SLOTS :: t[p].stamp != stamp
    ensures Holds(t, stamp, [], [])
  {
  }

  /** A slot that is not current ends the probe sequence of absent labels only. */
  lemma FreeMeansAbsent(t: seq<Slot>, stamp: nat, labels: seq<int>, probes: seq<nat>, lab: int, k: nat)
    requires Holds(t, stamp, labels, probes) && Missed(t, stamp, lab, k)
    requires t[At(lab, k)].stamp != stamp
    ensures lab !in labels
  {
    forall c | 0 <= c < |labels| ensures labels[c] != lab {
      assert probes[c] < k || t[At(labels[c], k)].stamp == stamp;
      assert t[At(labels[c], probes[c])].lab == labels[c];
    }
  }

  lemma ProbeStarts(t: seq<Slot>, stamp: nat, lab: int)
    requires |t| == SLOTS
    ensures At(lab, 0) == Hash(lab) && Missed(t, stamp, lab, 0)
  {
  }

  lemma ProbeMoves(t: seq<Slot>, stamp: nat, lab: int, k: nat)
    requires |t| == SLOTS && Missed(t, stamp, lab, k)
    requires t[At(lab, k)].stamp == stamp && t[At(lab, k)].lab != lab
    ensures At(lab, k + 1) == (At(lab, k) + 1) % SLOTS && Missed(t, stamp, lab, k + 1)
  {
    hide Hash;
  }

  lemma {:induction false} Covers(at: seq<int>, n: nat)
    requires forall p | 0 <= p < n :: p in at
    ensures n <= |at|
  {
    if n > 0 {
      assert n - 1 in at;
      var i :| 0 <= i < |at| && at[i] == n - 1;
      var rest := at[..i] + at[i + 1..];
      forall p | 0 <= p < n - 1 ensures p in rest {
        assert p in at;
        var j :| 0 <= j < |at| && at[j] == p;
        assert rest[if j < i then j else j - 1] == p;
      }
      Covers(rest, n - 1);
    }
  }

  lemma ProbeReaches(lab: int, p: nat)
    requires p < SLOTS
    ensures exists k: nat :: k < SLOTS && At(lab, k) == p
  {
    var h := Hash(lab);
    var k := if p >= h then p - h else p + SLOTS - h;
    assert At(lab, k) == p;
  }

  /** The probe loop ends: with room for `lab`, not every slot can hold another current label. */
  lemma ProbeEnds(t: seq<Slot>, stamp: nat, labels: seq<int>, probes: seq<nat>, lab: int)
    requires Holds(t, stamp, labels, probes)
    requires lab in labels || |labels| < SLOTS
    ensures !Missed(t, stamp, lab, SLOTS)
  {
    if Missed(t, stamp, lab, SLOTS) {
      if lab !in labels {
        var at: seq<int> := seq(|labels|, c requires 0 <= c < |labels| => At(labels[c], probes[c]));
        forall p | 0 <= p < SLOTS ensures p in at {
          ProbeReaches(lab, p);
          var k: nat :| k < SLOTS && At(lab, k) == p;
          assert t[p].stamp == stamp;
          assert SlotOwned(t, labels, probes, p);
          assert at[t[p].idx] == p;
        }
        Covers(at, SLOTS);
      }
    }
  }

  /** Claiming the first free slot of the probe sequence adds exactly lab -> |labels|. */
  lemma ClaimHolds(t: seq<Slot>, stamp: nat, labels: seq<int>, probes: seq<nat>, lab: int, k: nat)
    requires Holds(t, stamp, labels, probes) && Missed(t, stamp, lab, k) && k < SLOTS
    requires t[At(lab, k)].stamp != stamp
    ensures Holds(t[At(lab, k) := Slot(stamp, lab, |labels|)], stamp, labels + [lab], probes + [k])
  {
    var t', labels', probes' := t[At(lab, k) := Slot(stamp, lab, |labels|)], labels + [lab], probes + [k];
    forall c | 0 <= c < |labels'| ensures t'[At(labels'[c], probes'[c])] == Slot(stamp, labels'[c], c) {
      if c < |labels| {
        assert t[At(labels[c], probes[c])].stamp == stamp;
      }
    }
    forall p | 0 <= p < SLOTS && t'[p].stamp == stamp ensures SlotOwned(t', labels', probes', p) {
      if p != At(lab, k) {
        assert SlotOwned(t, labels, probes, p);
      }
    }
  }

  /** A current slot with the label looked for answers with the label's dense id. */
  lemma HitIsId(t: seq<Slot>, stamp: nat, labels: seq<int>, probes: seq<nat>, p: nat)
    requires Holds(t, stamp, labels, probes) && p < SLOTS && t[p].stamp == stamp
    ensures 0 <= t[p].idx < |labels| && labels[t[p].idx] == t[p].lab
  {
    assert SlotOwned(t, labels, probes, p);
  }
}
