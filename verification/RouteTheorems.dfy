/** What every planned tour satisfies, for all stops, fixed times and drive times. */
module RouteTheorems {
  import opened Prelude
  import opened RouteModel

  /** The tour that visits just the anchors of `order`, in the same order. */
  function AnchorsOnly(t: Tour, order: seq<nat>): (r: seq<nat>)
    ensures AllStops(t, order) ==> AllStops(t, r)
  {
    if order == [] then []
    else if IsAnchor(t, Last(order)) then AnchorsOnly(t, Front(order)) + [Last(order)]
    else AnchorsOnly(t, Front(order))
  }

  /** An anchor is visited only as the next one in time, and only when nothing more fits before it. */
  lemma AnchorIsNext(t: Tour, start: Clock, order: seq<nat>, k: nat)
    requires Greedy(t, start, order) && k < |order| && IsAnchor(t, order[k])
    ensures NextAnchor(t, order[..k], order[k])
    ensures forall j: nat :: !Candidate(t, order[..k], Run(t, start, order[..k]), Some(order[k]), j)
  {
    assert Chosen(t, start, order[..k], order[k]);
    assert order[k] !in order[..k];
    var a := NextAnchorExists(t, order[..k]);
  }

  lemma ChosenFits(t: Tour, start: Clock, prefix: seq<nat>, i: nat, a: nat)
    requires AllStops(t, prefix) && Chosen(t, start, prefix, i)
    requires NextAnchor(t, prefix, a) && IsFlexible(t, i)
    ensures Fits(t, Run(t, start, prefix), i, a)
  {
  }

  lemma FlexibleThenAnchor(t: Tour, start: Clock, prefix: seq<nat>, i: nat, a: nat)
    requires AllStops(t, prefix) && Chosen(t, start, prefix, i) && IsFlexible(t, i)
    requires IsAnchor(t, a) && NextAnchor(t, prefix + [i], a)
    ensures ArriveMs(t, Run(t, start, prefix + [i]), a) <= FixedMs(t, a) + GRACE_MS
  {
    assert NextAnchor(t, prefix, a);
    assert Front(prefix + [i]) == prefix;
    ChosenFits(t, start, prefix, i, a);
  }

  /** A flexible stop directly before an anchor was admitted because it fits. */
  lemma GapStopFits(t: Tour, start: Clock, order: seq<nat>, k: nat)
    requires Greedy(t, start, order) && k + 1 < |order|
    requires IsFlexible(t, order[k]) && IsAnchor(t, order[k + 1])
    ensures ArriveMs(t, Run(t, start, order[..k + 1]), order[k + 1]) <= FixedMs(t, order[k + 1]) + GRACE_MS
  {
    hide Chosen, NextAnchor, Candidate, Run, NoDuplicates, ArriveMs, FixedMs;
    AnchorIsNext(t, start, order, k + 1);
    assert order[..k + 1] == order[..k] + [order[k]];
    assert Chosen(t, start, order[..k], order[k]);
    FlexibleThenAnchor(t, start, order[..k], order[k], order[k + 1]);
  }

  /** Filling gaps costs any anchor at most the grace time, however many stops are inserted. */
  lemma {:induction false} DelayBound(t: Tour, start: Clock, order: seq<nat>, k: nat)
    requires Greedy(t, start, order) && k < |order| && IsAnchor(t, order[k])
    ensures var full, bare := order[..k + 1], AnchorsOnly(t, order[..k + 1]);
      && Run(t, start, bare).row == Run(t, start, full).row
      && Run(t, start, full).ms <= Run(t, start, bare).ms + GRACE_MS
  {
    var p := order[..k];
    assert Front(order[..k + 1]) == p;
    var bare := AnchorsOnly(t, p);
    assert Front(bare + [order[k]]) == bare;
    if k == 0 {
    } else if IsAnchor(t, order[k - 1]) {
      DelayBound(t, start, order, k - 1);
    } else {
      GapStopFits(t, start, order, k - 1);
    }
  }

  /** The warnings name exactly the anchors whose final scheduled time is beyond the grace time. */
  lemma {:induction false} LateAnchorsExact(t: Tour, start: Clock, order: seq<nat>, k: nat)
    requires AllStops(t, order) && NoDuplicates(order) && k < |order|
    ensures order[k] in LateAnchors(t, start, order) <==>
      IsAnchor(t, order[k]) && ScheduledMs(t, start, order, k) > FixedMs(t, order[k]) + GRACE_MS
    ensures forall x :: x in LateAnchors(t, start, order) ==> x in order
  {
    var front := Front(order);
    if k == |order| - 1 {
      if front != [] {
        LateAnchorsExact(t, start, front, |front| - 1);
      }
      assert order[k] !in front;
    } else {
      LateAnchorsExact(t, start, front, k);
      assert front[..k] == order[..k];
    }
  }

  /** An anchor behind a flexible stop is on time, but for the grace time. */
  lemma OnTimeBehindFlexible(t: Tour, start: Clock, order: seq<nat>, k: nat)
    requires Greedy(t, start, order) && 0 < k < |order|
    requires IsAnchor(t, order[k]) && !IsAnchor(t, order[k - 1])
    ensures ScheduledMs(t, start, order, k) <= FixedMs(t, order[k]) + GRACE_MS
  {
    assert IsFlexible(t, order[k - 1]);
    hide Greedy, GreedySoFar, Run;
    GapStopFits(t, start, order, k - 1);
  }

  /** A warned anchor has no flexible stop in the gap before it. */
  lemma LateGapIsEmpty(t: Tour, start: Clock, order: seq<nat>, k: nat)
    requires Greedy(t, start, order) && k < |order|
    requires order[k] in LateAnchors(t, start, order)
    ensures k == 0 || IsAnchor(t, order[k - 1])
  {
    hide LateAnchors, NoDuplicates, ScheduledMs, Chosen;
    LateAnchorsExact(t, start, order, k);
    if k > 0 && !IsAnchor(t, order[k - 1]) {
      OnTimeBehindFlexible(t, start, order, k);
    }
  }

  /** If the anchors alone can all be reached on time, the filled tour raises no warning. */
  lemma NoWarningWhenAnchorsFit(t: Tour, start: Clock, order: seq<nat>)
    requires Greedy(t, start, order)
    requires forall k :: 0 <= k < |order| && IsAnchor(t, order[k]) ==>
      Run(t, start, AnchorsOnly(t, order[..k + 1])).ms <= FixedMs(t, order[k]) + DurationMs(t, order[k])
    ensures LateAnchors(t, start, order) == []
  {
    hide LateAnchors, Chosen;
    var late := LateAnchors(t, start, order);
    if late != [] {
      assert late[0] in late && |order| > 0;
      LateAnchorsExact(t, start, order, 0);
      var k :| 0 <= k < |order| && order[k] == late[0];
      assert Front(order[..k + 1]) == order[..k];
      LateAnchorsExact(t, start, order, k);
      DelayBound(t, start, order, k);
      assert false;
    }
  }

  /** Gap filling is maximal: when an anchor is visited, every flexible stop that comes later
      would have made it late had it been inserted there. */
  lemma GapIsFull(t: Tour, start: Clock, order: seq<nat>, k: nat, j: nat)
    requires Greedy(t, start, order) && k < j < |order|
    requires IsAnchor(t, order[k]) && IsFlexible(t, order[j])
    ensures !Fits(t, Run(t, start, order[..k]), order[j], order[k])
  {
    AnchorIsNext(t, start, order, k);
    assert order[j] !in order[..k];
    assert !Candidate(t, order[..k], Run(t, start, order[..k]), Some(order[k]), order[j]);
  }

  /** Anchors are visited in time order and never start before their slot. */
  lemma AnchorsInOrder(t: Tour, start: Clock, order: seq<nat>, j: nat, k: nat)
    requires Greedy(t, start, order) && j < k < |order|
    requires IsAnchor(t, order[j]) && IsAnchor(t, order[k])
    ensures Before(t, order[j], order[k])
    ensures ScheduledMs(t, start, order, j) >= FixedMs(t, order[j])
  {
    AnchorIsNext(t, start, order, j);
    assert order[k] !in order[..j];
  }

  lemma IsPermutation(t: Tour, start: Clock, order: seq<nat>, i: nat)
    requires Greedy(t, start, order) && IsStop(t, i)
    ensures exists k :: 0 <= k < |order| && order[k] == i && forall j :: 0 <= j < |order| && order[j] == i ==> j == k
  {
    Pigeonhole(order, |t.stops|);
    assert i in order;
    var k :| 0 <= k < |order| && order[k] == i;
  }

  lemma OneChoice(t: Tour, start: Clock, prefix: seq<nat>, i: nat, j: nat)
    requires AllStops(t, prefix) && Chosen(t, start, prefix, i) && Chosen(t, start, prefix, j)
    ensures i == j
  {
    if !NoAnchorLeft(t, prefix) {
      var a := NextAnchorExists(t, prefix);
    }
  }

  lemma FrontIsGreedy(t: Tour, start: Clock, order: seq<nat>)
    requires GreedySoFar(t, start, order) && order != []
    ensures AllStops(t, Front(order)) && GreedySoFar(t, start, Front(order))
    ensures Chosen(t, start, Front(order), Last(order))
  {
    var front := Front(order);
    forall k | 0 <= k < |front| ensures Chosen(t, start, front[..k], front[k]) {
      assert front[..k] == order[..k];
    }
  }

  /** The description leaves no freedom: every input has one greedy order. */
  lemma {:induction false} GreedyIsUnique(t: Tour, start: Clock, a: seq<nat>, b: seq<nat>)
    requires GreedySoFar(t, start, a) && GreedySoFar(t, start, b) && |a| == |b|
    ensures a == b
  {
    hide GreedySoFar, Chosen;
    if a != [] {
      FrontIsGreedy(t, start, a);
      FrontIsGreedy(t, start, b);
      GreedyIsUnique(t, start, Front(a), Front(b));
      OneChoice(t, start, Front(a), Last(a), Last(b));
    }
  }

  // ---- Accounting ----

  function RowAfter(order: seq<nat>): nat {
    if order == [] then 0 else Last(order) + 1
  }

  function TotalDriveSecs(t: Tour, order: seq<nat>): int {
    if order == [] then 0
    else TotalDriveSecs(t, Front(order)) + Cell(t, RowAfter(Front(order)), Last(order)).driveSecs
  }

  function TotalMeters(t: Tour, order: seq<nat>): int {
    if order == [] then 0
    else TotalMeters(t, Front(order)) + Cell(t, RowAfter(Front(order)), Last(order)).distanceMeters
  }

  function TotalStayMs(t: Tour, order: seq<nat>): int
    requires AllStops(t, order)
  {
    if order == [] then 0 else TotalStayMs(t, Front(order)) + DurationMs(t, Last(order))
  }

  /** The time spent waiting for slots. */
  function TotalWaitMs(t: Tour, start: Clock, order: seq<nat>): (wait: int)
    requires AllStops(t, order)
    ensures wait >= 0
    ensures (forall k :: 0 <= k < |order| ==> !IsAnchor(t, order[k])) ==> wait == 0
  {
    if order == [] then 0
    else
      var c := Run(t, start, Front(order));
      TotalWaitMs(t, start, Front(order)) + StartMs(t, c, Last(order)) - ArriveMs(t, c, Last(order))
  }

  /** End minus start is driving plus stays plus waiting: no minute is lost or counted twice. */
  lemma {:induction false} TimeIsConserved(t: Tour, startMs: int, order: seq<nat>)
    requires AllStops(t, order)
    ensures var end := Run(t, Clock(startMs, 0), order);
      && end.row == RowAfter(order)
      && end.ms - startMs == TotalDriveSecs(t, order) * 1000 + TotalStayMs(t, order) + TotalWaitMs(t, Clock(startMs, 0), order)
  {
    if order != [] {
      TimeIsConserved(t, startMs, Front(order));
    }
  }

  /** Consecutive stops never overlap: the next start leaves room for the stay and the drive. */
  lemma NoOverlap(t: Tour, startMs: int, order: seq<nat>, k: nat)
    requires AllStops(t, order) && k + 1 < |order|
    ensures ScheduledMs(t, Clock(startMs, 0), order, k + 1) >=
      ScheduledMs(t, Clock(startMs, 0), order, k) + DurationMs(t, order[k]) + DriveMs(t, order[k] + 1, order[k + 1])
  {
    assert Front(order[..k + 1]) == order[..k];
  }
}
