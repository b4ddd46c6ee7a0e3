/** One action slot of decision.hpp: consecutive hits confirm it, a hold keeps it, a reset clears it. */
module Slots {

  /** What one detection list, or the success of an action, means for a slot. */
  datatype Tick<D> = Seen(now: real, det: D) | Missed(now: real) | Reset

  datatype Slot<D> = Slot(hits: int, holdUntil: real, last: D)

  function Step<D>(confirm: int, hold: real, s: Slot<D>, t: Tick<D>): Slot<D> {
    match t
    case Seen(now, det) =>
      if s.hits + 1 >= confirm then Slot(s.hits + 1, now + hold, det) else s.(hits := s.hits + 1)
    case Missed(_) => s.(hits := 0)
    case Reset => s.(hits := 0, holdUntil := 0.0)
  }

  function Run<D>(confirm: int, hold: real, start: D, ticks: seq<Tick<D>>): Slot<D> {
    if ticks == [] then Slot(0, 0.0, start)
    else Step(confirm, hold, Run(confirm, hold, start, ticks[..|ticks| - 1]), ticks[|ticks| - 1])
  }

  /** Whether the slot reports its action after a detection list. */
  predicate Reports<D>(confirm: int, s: Slot<D>, t: Tick<D>) {
    (t.Seen? && s.hits >= confirm) || (!t.Reset? && t.now < s.holdUntil)
  }

  predicate Active<D>(confirm: int, hold: real, start: D, ticks: seq<Tick<D>>) {
    ticks != [] && Reports(confirm, Run(confirm, hold, start, ticks), ticks[|ticks| - 1])
  }

  // ---- the meaning, told by the ticks alone ----

  /** All ticks from a to j carry a candidate. */
  predicate AllSeen<D>(ticks: seq<Tick<D>>, a: int, j: int) {
    0 <= a <= j < |ticks| && forall m | a <= m <= j :: ticks[m].Seen?
  }

  /** Tick j completes at least `confirm` consecutive candidates. */
  ghost predicate ConfirmedAt<D>(confirm: int, ticks: seq<Tick<D>>, j: int) {
    exists a :: AllSeen(ticks, a, j) && j + 1 - a >= confirm
  }

  predicate NoResetAfter<D>(ticks: seq<Tick<D>>, j: int) {
    forall m | 0 <= m < |ticks| && j < m :: !ticks[m].Reset?
  }

  /** Tick j confirmed the slot, nothing reset it since, and j is the last tick or less than `hold` ago. */
  ghost predicate Holds<D>(confirm: int, hold: real, ticks: seq<Tick<D>>, j: int) {
    && 0 <= j < |ticks| && ConfirmedAt(confirm, ticks, j) && NoResetAfter(ticks, j)
    && ticks[j].Seen? && !ticks[|ticks| - 1].Reset?
    && (j == |ticks| - 1 || ticks[|ticks| - 1].now < ticks[j].now + hold)
  }

  /** Time starts at 0 and never runs backwards. */
  ghost predicate Timed<D>(ticks: seq<Tick<D>>) {
    && (forall i | 0 <= i < |ticks| && !ticks[i].Reset? :: ticks[i].now >= 0.0)
    && (forall i, j | 0 <= i <= j < |ticks| && !ticks[i].Reset? && !ticks[j].Reset? :: ticks[i].now <= ticks[j].now)
  }

  /** The counter is the number of candidates at the end of the ticks. */
  lemma {:induction false} HitsAreTrailing<D>(confirm: int, hold: real, start: D, ticks: seq<Tick<D>>)
    ensures var h := Run(confirm, hold, start, ticks).hits;
            && 0 <= h <= |ticks|
            && (forall m | |ticks| - h <= m < |ticks| :: ticks[m].Seen?)
            && (h < |ticks| ==> !ticks[|ticks| - h - 1].Seen?)
  {
    if ticks != [] {
      HitsAreTrailing(confirm, hold, start, ticks[..|ticks| - 1]);
    }
  }

  lemma LastConfirmed<D>(confirm: int, hold: real, start: D, ticks: seq<Tick<D>>)
    requires ticks != []
    ensures var n := |ticks| - 1;
            ConfirmedAt(confirm, ticks, n) <==> ticks[n].Seen? && Run(confirm, hold, start, ticks).hits >= confirm
  {
    HitsAreTrailing(confirm, hold, start, ticks);
    var n, h := |ticks| - 1, Run(confirm, hold, start, ticks).hits;
    if ticks[n].Seen? && h >= confirm {
      assert AllSeen(ticks, |ticks| - h, n);
    }
    if ConfirmedAt(confirm, ticks, n) {
      var a :| AllSeen(ticks, a, n) && n + 1 - a >= confirm;
      assert ticks[n].Seen?;
      assert |ticks| - h <= a;
    }
  }

  lemma ConfirmedPrefix<D>(confirm: int, ticks: seq<Tick<D>>, n: nat, j: int)
    requires n <= |ticks| && j < n
    ensures ConfirmedAt(confirm, ticks[..n], j) <==> ConfirmedAt(confirm, ticks, j)
  {
    if ConfirmedAt(confirm, ticks[..n], j) {
      var a :| AllSeen(ticks[..n], a, j) && j + 1 - a >= confirm;
      assert AllSeen(ticks, a, j);
    }
    if ConfirmedAt(confirm, ticks, j) {
      var a :| AllSeen(ticks, a, j) && j + 1 - a >= confirm;
      assert AllSeen(ticks[..n], a, j);
    }
  }

  /** A pending hold was set by a confirmed tick that no reset has followed. */
  lemma {:induction false} HoldHasCause<D>(confirm: int, hold: real, start: D, ticks: seq<Tick<D>>) returns (j: int)
    requires Run(confirm, hold, start, ticks).holdUntil != 0.0
    ensures 0 <= j < |ticks| && ConfirmedAt(confirm, ticks, j) && NoResetAfter(ticks, j) && ticks[j].Seen?
    ensures var s := Run(confirm, hold, start, ticks); s.holdUntil == ticks[j].now + hold && s.last == ticks[j].det
  {
    var n := |ticks| - 1;
    LastConfirmed(confirm, hold, start, ticks);
    if ticks[n].Seen? && Run(confirm, hold, start, ticks).hits >= confirm {
      j := n;
    } else {
      j := HoldHasCause(confirm, hold, start, ticks[..n]);
      ConfirmedPrefix(confirm, ticks, n, j);
      assert ticks[..n][j] == ticks[j];
      forall m | 0 <= m < |ticks| && j < m ensures !ticks[m].Reset? {
        assert m == n || ticks[m] == ticks[..n][m];
      }
    }
  }

  /** A confirmed tick that no reset has followed keeps the hold at least as long as it asked for. */
  lemma {:induction false} HoldLasts<D>(confirm: int, hold: real, start: D, ticks: seq<Tick<D>>, j: int)
    requires Timed(ticks) && 0 <= j < |ticks| && ticks[j].Seen?
      && ConfirmedAt(confirm, ticks, j) && NoResetAfter(ticks, j)
    ensures Run(confirm, hold, start, ticks).holdUntil >= ticks[j].now + hold
  {
    var n := |ticks| - 1;
    if j == n {
      LastConfirmed(confirm, hold, start, ticks);
    } else {
      ConfirmedPrefix(confirm, ticks, n, j);
      assert ticks[..n][j] == ticks[j];
      assert !ticks[n].Reset?;
      HoldLasts(confirm, hold, start, ticks[..n], j);
    }
  }

  /** A slot reports exactly when enough consecutive candidates confirmed it, since its last reset,
      at this list or less than `hold` ago. */
  lemma ActiveIffConfirmed<D>(confirm: int, hold: real, start: D, ticks: seq<Tick<D>>)
    requires Timed(ticks) && ticks != []
    ensures Active(confirm, hold, start, ticks) <==> exists j :: Holds(confirm, hold, ticks, j)
  {
    var n := |ticks| - 1;
    LastConfirmed(confirm, hold, start, ticks);
    if Active(confirm, hold, start, ticks) {
      var j := CauseOfReport(confirm, hold, start, ticks);
    }
    if exists j :: Holds(confirm, hold, ticks, j) {
      var j :| Holds(confirm, hold, ticks, j);
      if j != n {
        HoldLasts(confirm, hold, start, ticks, j);
      }
    }
  }

  /** The reported detection is the candidate of such a confirming list. */
  lemma CauseOfReport<D>(confirm: int, hold: real, start: D, ticks: seq<Tick<D>>) returns (j: int)
    requires Timed(ticks) && Active(confirm, hold, start, ticks)
    ensures Holds(confirm, hold, ticks, j) && Run(confirm, hold, start, ticks).last == ticks[j].det
  {
    var n := |ticks| - 1;
    LastConfirmed(confirm, hold, start, ticks);
    if ticks[n].Seen? && Run(confirm, hold, start, ticks).hits >= confirm {
      j := n;
    } else {
      j := HoldHasCause(confirm, hold, start, ticks);
    }
  }

  /** After a reset, a report needs a full run of candidates of its own. */
  lemma FreshRunNeeded<D>(confirm: int, hold: real, start: D, before: seq<Tick<D>>, after: seq<Tick<D>>)
    returns (j: int)
    requires Timed(before + [Reset] + after) && after != [] && confirm >= 1
    requires Active(confirm, hold, start, before + [Reset] + after)
    ensures Holds(confirm, hold, after, j) && Run(confirm, hold, start, before + [Reset] + after).last == after[j].det
  {
    var ticks, k := before + [Reset] + after, |before| + 1;
    var i := CauseOfReport(confirm, hold, start, ticks);
    assert ticks[k - 1] == Reset;
    j := i - k;
    assert i >= k;
    var a :| AllSeen(ticks, a, i) && i + 1 - a >= confirm;
    assert !(a <= k - 1 <= i);
    forall m | a - k <= m <= j ensures after[m].Seen? {
      assert after[m] == ticks[m + k];
    }
    assert AllSeen(after, a - k, j);
    forall m | 0 <= m < |after| && j < m ensures !after[m].Reset? {
      assert after[m] == ticks[m + k];
    }
  }
}
