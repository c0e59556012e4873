/** The planner's loops: anchors in time order, gaps filled by the nearest stop that fits,
    a nearest-neighbour tail, and the second pass that recomputes every time. */
module RoutePlanner {
  import opened Prelude
  import opened RouteModel

  /** The planned order is right so far, and the planning clock agrees with the simulation. */
  ghost predicate PlanState(t: Tour, start: Clock, ordered: seq<nat>, now: Clock) {
    GreedySoFar(t, start, ordered) && now == Run(t, start, ordered)
  }

  lemma EmptyPlan(t: Tour, start: Clock)
    ensures PlanState(t, start, [], start)
    ensures LateAnchors(t, start, []) == []
  {
  }

  lemma Extend(t: Tour, start: Clock, ordered: seq<nat>, now: Clock, i: nat)
    requires PlanState(t, start, ordered, now) && IsStop(t, i) && i !in ordered
    requires AllStops(t, ordered) && Chosen(t, start, ordered, i)
    ensures PlanState(t, start, ordered + [i], Visit(t, now, i))
    ensures |ordered| < |t.stops|
  {
    var longer := ordered + [i];
    assert Front(longer) == ordered;
    forall k | 0 <= k < |longer| ensures Chosen(t, start, longer[..k], longer[k]) {
      if k < |ordered| {
        assert longer[..k] == ordered[..k];
      } else {
        assert longer[..k] == ordered;
      }
    }
    Pigeonhole(longer, |t.stops|);
  }

  lemma ExtendWarnings(t: Tour, start: Clock, ordered: seq<nat>, now: Clock, i: nat)
    requires PlanState(t, start, ordered, now) && AllStops(t, ordered) && IsStop(t, i)
    ensures LateAnchors(t, start, ordered + [i]) == LateAnchors(t, start, ordered) +
      if IsAnchor(t, i) && ArriveMs(t, now, i) > FixedMs(t, i) + GRACE_MS then [i] else []
  {
    var longer := ordered + [i];
    assert Front(longer) == ordered == longer[..|ordered|];
  }

  /** A flexible stop before the next anchor. */
  lemma ExtendInGap(t: Tour, start: Clock, ordered: seq<nat>, now: Clock, anchor: nat, i: nat)
    requires PlanState(t, start, ordered, now) && AllStops(t, ordered)
    requires NextAnchor(t, ordered, anchor) && Nearest(t, ordered, now, Some(anchor), i)
    ensures AllStops(t, ordered + [i]) && PlanState(t, start, ordered + [i], Visit(t, now, i))
    ensures LateAnchors(t, start, ordered + [i]) == LateAnchors(t, start, ordered)
    ensures NextAnchor(t, ordered + [i], anchor)
    ensures |ordered| < |t.stops|
  {
    Extend(t, start, ordered, now, i);
    ExtendWarnings(t, start, ordered, now, i);
  }

  /** The next anchor, once nothing more fits before it. */
  lemma ExtendByAnchor(t: Tour, start: Clock, ordered: seq<nat>, now: Clock, anchor: nat)
    requires PlanState(t, start, ordered, now) && AllStops(t, ordered)
    requires NextAnchor(t, ordered, anchor) && forall j: nat :: !Candidate(t, ordered, now, Some(anchor), j)
    ensures AllStops(t, ordered + [anchor]) && PlanState(t, start, ordered + [anchor], Visit(t, now, anchor))
  {
    Extend(t, start, ordered, now, anchor);
  }

  /** A flexible stop after the last anchor. */
  lemma ExtendTail(t: Tour, start: Clock, ordered: seq<nat>, now: Clock, i: nat)
    requires PlanState(t, start, ordered, now) && AllStops(t, ordered)
    requires NoAnchorLeft(t, ordered) && Nearest(t, ordered, now, None, i)
    ensures AllStops(t, ordered + [i]) && PlanState(t, start, ordered + [i], Visit(t, now, i))
    ensures LateAnchors(t, start, ordered + [i]) == LateAnchors(t, start, ordered)
    ensures NoAnchorLeft(t, ordered + [i])
  {
    Extend(t, start, ordered, now, i);
    ExtendWarnings(t, start, ordered, now, i);
  }

  /** Closer, or as close with a smaller index. */
  predicate NoFarther(t: Tour, c: Clock, i: nat, j: nat) {
    DriveMs(t, c.row, i) < DriveMs(t, c.row, j) || (DriveMs(t, c.row, i) == DriveMs(t, c.row, j) && i <= j)
  }

  /** The best of the first q flexible stops, if any of them fits. */
  ghost predicate BestOf(t: Tour, prefix: seq<nat>, c: Clock, anchor: nat, flexIdxs: seq<nat>, q: nat, best: Option<nat>)
    requires IsAnchor(t, anchor) && q <= |flexIdxs|
  {
    && (best.Some? ==>
         && Candidate(t, prefix, c, Some(anchor), best.value)
         && forall r :: q <= r < |flexIdxs| ==> best.value < flexIdxs[r])
    && forall r :: 0 <= r < q && Candidate(t, prefix, c, Some(anchor), flexIdxs[r]) ==>
         best.Some? && NoFarther(t, c, best.value, flexIdxs[r])
  }

  lemma OneMoreScanned(t: Tour, prefix: seq<nat>, c: Clock, anchor: nat, flexIdxs: seq<nat>, q: nat, best: Option<nat>)
    requires IsAnchor(t, anchor) && q < |flexIdxs| && BestOf(t, prefix, c, anchor, flexIdxs, q, best)
    requires forall j, k :: 0 <= j < k < |flexIdxs| ==> flexIdxs[j] < flexIdxs[k]
    ensures var i := flexIdxs[q];
      BestOf(t, prefix, c, anchor, flexIdxs, q + 1,
        if Candidate(t, prefix, c, Some(anchor), i) && (best.None? || DriveMs(t, c.row, i) < DriveMs(t, c.row, best.value))
        then Some(i) else best)
  {
    hide Candidate, DriveMs;
  }

  lemma AllScanned(t: Tour, prefix: seq<nat>, c: Clock, anchor: nat, flexIdxs: seq<nat>, best: Option<nat>)
    requires IsAnchor(t, anchor) && flexIdxs == FlexibleIndices(t, |t.stops|)
    requires BestOf(t, prefix, c, anchor, flexIdxs, |flexIdxs|, best)
    ensures best.Some? ==> Nearest(t, prefix, c, Some(anchor), best.value)
    ensures best.None? ==> forall j: nat :: !Candidate(t, prefix, c, Some(anchor), j)
  {
    forall j: nat | Candidate(t, prefix, c, Some(anchor), j)
      ensures best.Some? && NoFarther(t, c, best.value, j)
    {
      assert j in flexIdxs;
      var r :| 0 <= r < |flexIdxs| && flexIdxs[r] == j;
    }
  }

  /** The scan for the closest flexible stop that still reaches the anchor in time. */
  method NearestFitting(t: Tour, flexIdxs: seq<nat>, visited: array<bool>, ghost prefix: seq<nat>, c: Clock, anchor: nat)
    returns (bestFlex: Option<nat>)
    requires IsAnchor(t, anchor)
    requires flexIdxs == FlexibleIndices(t, |t.stops|)
    requires visited.Length == |t.stops| && forall i :: 0 <= i < |t.stops| ==> (visited[i] <==> i in prefix)
    ensures bestFlex.Some? ==> Nearest(t, prefix, c, Some(anchor), bestFlex.value)
    ensures bestFlex.None? ==> forall j: nat :: !Candidate(t, prefix, c, Some(anchor), j)
  {
    bestFlex := None;
    var bestDrive := 0;
    assert BestOf(t, prefix, c, anchor, flexIdxs, 0, bestFlex);
    hide BestOf;
    for q := 0 to |flexIdxs|
      invariant BestOf(t, prefix, c, anchor, flexIdxs, q, bestFlex)
      invariant bestFlex.Some? ==> bestDrive == DriveMs(t, c.row, bestFlex.value)
    {
      OneMoreScanned(t, prefix, c, anchor, flexIdxs, q, bestFlex);
      var flexIdx := flexIdxs[q];
      assert flexIdx in flexIdxs;
      if !visited[flexIdx] {
        var driveToFlex := DriveMs(t, c.row, flexIdx);
        var departFlex := c.ms + driveToFlex + DurationMs(t, flexIdx);
        var arriveAtFixed := departFlex + DriveMs(t, flexIdx + 1, anchor);
        if arriveAtFixed <= FixedMs(t, anchor) + GRACE_MS && (bestFlex.None? || driveToFlex < bestDrive) {
          bestDrive := driveToFlex;
          bestFlex := Some(flexIdx);
        }
      }
    }
    AllScanned(t, prefix, c, anchor, flexIdxs, bestFlex);
  }

  /** The scan of the tail: the closest of the stops still in the ordered set `unvisited`. */
  method NearestRemaining(t: Tour, unvisited: seq<nat>, ghost prefix: seq<nat>, c: Clock) returns (bestFlex: nat)
    requires |unvisited| > 0
    requires forall i: nat :: i in unvisited <==> IsFlexible(t, i) && i !in prefix
    requires forall j, k :: 0 <= j < k < |unvisited| ==> unvisited[j] < unvisited[k]
    ensures Nearest(t, prefix, c, None, bestFlex)
  {
    bestFlex := unvisited[0];
    for q := 1 to |unvisited|
      invariant bestFlex in unvisited[..q]
      invariant forall r :: 0 <= r < q ==>
        || DriveMs(t, c.row, bestFlex) < DriveMs(t, c.row, unvisited[r])
        || (DriveMs(t, c.row, bestFlex) == DriveMs(t, c.row, unvisited[r]) && bestFlex <= unvisited[r])
    {
      if DriveMs(t, c.row, unvisited[q]) < DriveMs(t, c.row, bestFlex) {
        bestFlex := unvisited[q];
      }
    }
    assert bestFlex in unvisited;
  }

  /** The planner's mutable state describes a correct plan so far. */
  ghost predicate Planning(t: Tour, start: Clock, ordered: seq<nat>, visited: array<bool>, now: Clock)
    reads visited
  {
    && AllStops(t, ordered)
    && PlanState(t, start, ordered, now)
    && visited.Length == |t.stops|
    && forall i :: 0 <= i < |t.stops| ==> (visited[i] <==> i in ordered)
  }

  /** Greedily insert flexible stops before an anchor until none fits. */
  method FillGap(t: Tour, ghost start: Clock, flexIdxs: seq<nat>, visited: array<bool>,
                 soFar: seq<nat>, nowSoFar: Clock, anchor: nat)
    returns (ordered: seq<nat>, now: Clock)
    requires Planning(t, start, soFar, visited, nowSoFar)
    requires flexIdxs == FlexibleIndices(t, |t.stops|)
    requires NextAnchor(t, soFar, anchor)
    modifies visited
    ensures Planning(t, start, ordered, visited, now)
    ensures forall i: nat :: IsAnchor(t, i) ==> (i in ordered <==> i in soFar)
    ensures LateAnchors(t, start, ordered) == LateAnchors(t, start, soFar)
    ensures forall j: nat :: !Candidate(t, ordered, now, Some(anchor), j)
  {
    hide PlanState, LateAnchors;
    ordered := soFar;
    var currentMs, currentRowIdx := nowSoFar.ms, nowSoFar.row;
    var inserted := true;
    while inserted
      invariant Planning(t, start, ordered, visited, Clock(currentMs, currentRowIdx))
      invariant NextAnchor(t, ordered, anchor)
      invariant forall i: nat :: IsAnchor(t, i) ==> (i in ordered <==> i in soFar)
      invariant LateAnchors(t, start, ordered) == LateAnchors(t, start, soFar)
      invariant !inserted ==> forall j: nat :: !Candidate(t, ordered, Clock(currentMs, currentRowIdx), Some(anchor), j)
      decreases |t.stops| - |ordered|, inserted
    {
      var bestFlex := NearestFitting(t, flexIdxs, visited, ordered, Clock(currentMs, currentRowIdx), anchor);
      inserted := bestFlex.Some?;
      if bestFlex.Some? {
        var i := bestFlex.value;
        ExtendInGap(t, start, ordered, Clock(currentMs, currentRowIdx), anchor, i);
        ordered := ordered + [i];
        visited[i] := true;
        currentMs := currentMs + DriveMs(t, currentRowIdx, i) + DurationMs(t, i);
        currentRowIdx := i + 1;
      }
    }
    now := Clock(currentMs, currentRowIdx);
  }

  /** The flexible stops that fitted nowhere, in index order. */
  function Unvisited(flexIdxs: seq<nat>, visited: seq<bool>): (r: seq<nat>)
    requires forall k :: 0 <= k < |flexIdxs| ==> flexIdxs[k] < |visited|
    requires forall j, k :: 0 <= j < k < |flexIdxs| ==> flexIdxs[j] < flexIdxs[k]
    ensures forall i :: i in r <==> i in flexIdxs && !visited[i]
    ensures forall j, k :: 0 <= j < k < |r| ==> r[j] < r[k]
  {
    if flexIdxs == [] then []
    else
      var rest := Unvisited(Front(flexIdxs), visited);
      assert forall k :: 0 <= k < |rest| ==> rest[k] in rest;
      if visited[Last(flexIdxs)] then rest else rest + [Last(flexIdxs)]
  }

  lemma InRange(t: Tour, flexIdxs: seq<nat>)
    requires flexIdxs == FlexibleIndices(t, |t.stops|)
    ensures forall k :: 0 <= k < |flexIdxs| ==> flexIdxs[k] < |t.stops|
  {
    assert forall k :: 0 <= k < |flexIdxs| ==> flexIdxs[k] in flexIdxs;
  }

  lemma Remaining(t: Tour, flexIdxs: seq<nat>, visited: seq<bool>, ordered: seq<nat>)
    requires flexIdxs == FlexibleIndices(t, |t.stops|)
    requires |visited| == |t.stops| && forall i :: 0 <= i < |t.stops| ==> (visited[i] <==> i in ordered)
    requires forall k :: 0 <= k < |flexIdxs| ==> flexIdxs[k] < |visited|
    ensures forall i: nat :: i in Unvisited(flexIdxs, visited) <==> IsFlexible(t, i) && i !in ordered
  {
  }

  /** Append the flexible stops that fitted nowhere, always the nearest one first. */
  method AppendTail(t: Tour, ghost start: Clock, flexIdxs: seq<nat>, visited: array<bool>,
                    soFar: seq<nat>, now: Clock)
    returns (ordered: seq<nat>)
    requires Planning(t, start, soFar, visited, now)
    requires flexIdxs == FlexibleIndices(t, |t.stops|)
    requires NoAnchorLeft(t, soFar)
    modifies visited
    ensures Greedy(t, start, ordered)
    ensures LateAnchors(t, start, ordered) == LateAnchors(t, start, soFar)
  {
    hide PlanState, LateAnchors, FlexibleIndices, Unvisited;
    ordered := soFar;
    var currentMs, currentRowIdx := now.ms, now.row;
    InRange(t, flexIdxs);
    var unvisited := Unvisited(flexIdxs, visited[..]);
    Remaining(t, flexIdxs, visited[..], soFar);

    while |unvisited| > 0
      invariant Planning(t, start, ordered, visited, Clock(currentMs, currentRowIdx))
      invariant NoAnchorLeft(t, ordered)
      invariant LateAnchors(t, start, ordered) == LateAnchors(t, start, soFar)
      invariant forall i: nat :: i in unvisited <==> IsFlexible(t, i) && i !in ordered
      invariant forall j, k :: 0 <= j < k < |unvisited| ==> unvisited[j] < unvisited[k]
      decreases |unvisited|
    {
      var i := NearestRemaining(t, unvisited, ordered, Clock(currentMs, currentRowIdx));
      ExtendTail(t, start, ordered, Clock(currentMs, currentRowIdx), i);
      var k :| 0 <= k < |unvisited| && unvisited[k] == i;
      unvisited := Delete(unvisited, k);
      ordered := ordered + [i];
      visited[i] := true;
      currentMs := currentMs + DriveMs(t, currentRowIdx, i) + DurationMs(t, i);
      currentRowIdx := i + 1;
    }
    AllVisited(t, start, ordered, Clock(currentMs, currentRowIdx));
  }

  /** Set.delete on an insertion-ordered set. */
  function Delete(s: seq<nat>, k: nat): (r: seq<nat>)
    requires k < |s| && forall i, j :: 0 <= i < j < |s| ==> s[i] < s[j]
    ensures |r| == |s| - 1
    ensures forall x :: x in r <==> x in s && x != s[k]
    ensures forall i, j :: 0 <= i < j < |r| ==> r[i] < r[j]
  {
    s[..k] + s[k + 1..]
  }

  lemma AllVisited(t: Tour, start: Clock, ordered: seq<nat>, now: Clock)
    requires PlanState(t, start, ordered, now)
    requires forall i: nat :: i < |t.stops| ==> i in ordered
    ensures Greedy(t, start, ordered)
  {
    Pigeonhole(ordered, |t.stops|);
    Surjective(ordered, |t.stops|);
  }

  lemma {:induction false} Surjective(s: seq<nat>, n: nat)
    requires forall i: nat :: i < n ==> i in s
    ensures |s| >= n
  {
    if n > 0 {
      assert n - 1 in s;
      var k :| 0 <= k < |s| && s[k] == n - 1;
      var rest := s[..k] + s[k + 1..];
      forall i: nat | i < n - 1 ensures i in rest {
        assert i in s;
      }
      Surjective(rest, n - 1);
    }
  }

  method BuildOrderedIndices(t: Tour, startMs: int) returns (ordered: seq<nat>, warnings: seq<nat>)
    ensures Greedy(t, Clock(startMs, 0), ordered)
    ensures warnings == LateAnchors(t, Clock(startMs, 0), ordered)
  {
    hide PlanState, LateAnchors, NextAnchor, Candidate, Run, Greedy, SortedAnchors;
    var N := |t.stops|;
    var start := Clock(startMs, 0);
    var visited := new bool[N](_ => false);
    var fixedIdxs := AnchorsByTime(t, N);
    var flexIdxs := FlexibleIndices(t, N);
    ordered, warnings := [], [];
    var now := start;
    AreAnchors(t, fixedIdxs);
    EmptyPlan(t, start);

    for m := 0 to |fixedIdxs|
      invariant forall j :: 0 <= j < |fixedIdxs| ==> IsAnchor(t, fixedIdxs[j])
      invariant Planning(t, start, ordered, visited, now)
      invariant warnings == LateAnchors(t, start, ordered)
      invariant forall j :: 0 <= j < |fixedIdxs| ==> (fixedIdxs[j] in ordered <==> j < m)
    {
      var fixedIdx := fixedIdxs[m];
      NextInLine(t, fixedIdxs, m, ordered);
      ordered, now := FillGap(t, start, flexIdxs, visited, ordered, now, fixedIdx);
      NextInLine(t, fixedIdxs, m, ordered);
      ExtendByAnchor(t, start, ordered, now, fixedIdx);
      ExtendWarnings(t, start, ordered, now, fixedIdx);
      var arriveAtFixed := now.ms + DriveMs(t, now.row, fixedIdx);
      if arriveAtFixed > FixedMs(t, fixedIdx) + GRACE_MS {
        warnings := warnings + [fixedIdx];
      }
      ordered := ordered + [fixedIdx];
      visited[fixedIdx] := true;
      now := Clock(Max(arriveAtFixed, FixedMs(t, fixedIdx)) + DurationMs(t, fixedIdx), fixedIdx + 1);
    }

    AllInLine(t, fixedIdxs, ordered);
    ordered := AppendTail(t, start, flexIdxs, visited, ordered, now);
  }

  lemma AreAnchors(t: Tour, fixedIdxs: seq<nat>)
    requires SortedAnchors(t, fixedIdxs, |t.stops|)
    ensures forall j :: 0 <= j < |fixedIdxs| ==> IsAnchor(t, fixedIdxs[j])
    ensures forall j, k :: 0 <= j < k < |fixedIdxs| ==> fixedIdxs[j] != fixedIdxs[k]
  {
    assert forall j :: 0 <= j < |fixedIdxs| ==> fixedIdxs[j] in fixedIdxs;
  }

  lemma AllInLine(t: Tour, fixedIdxs: seq<nat>, prefix: seq<nat>)
    requires SortedAnchors(t, fixedIdxs, |t.stops|)
    requires forall j :: 0 <= j < |fixedIdxs| ==> fixedIdxs[j] in prefix
    ensures NoAnchorLeft(t, prefix)
  {
    forall b: nat | IsAnchor(t, b) ensures b in prefix {
      assert b in fixedIdxs;
    }
  }

  /** With the first m anchors visited, anchor m is next. */
  lemma NextInLine(t: Tour, fixedIdxs: seq<nat>, m: nat, prefix: seq<nat>)
    requires m < |fixedIdxs| && SortedAnchors(t, fixedIdxs, |t.stops|)
    requires forall j :: 0 <= j < |fixedIdxs| ==> (fixedIdxs[j] in prefix <==> j < m)
    ensures NextAnchor(t, prefix, fixedIdxs[m])
  {
    assert fixedIdxs[m] in fixedIdxs;
    forall b: nat | IsAnchor(t, b) && b !in prefix && b != fixedIdxs[m] ensures Before(t, fixedIdxs[m], b) {
      assert b in fixedIdxs;
      var j :| 0 <= j < |fixedIdxs| && fixedIdxs[j] == b;
    }
  }
}
