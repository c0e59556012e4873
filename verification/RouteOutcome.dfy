/** What a served request contains, said of the matrix, the stops and the answer alone: which cell gives which
    drive, when each entry starts, which stop is taken next, and what is summed and warned about. */
module RouteOutcome {
  import opened Prelude
  import opened RouteModel
  import opened RouteTheorems
  import opened RouteOptimizer

  // ---- When each entry starts ----

  /** The first entry is reached by the drive from the origin, each later one by the drive from the stop before it,
      which is left when its stay is over; a stop with a slot does not start before it. */
  lemma EntryStarts(t: Tour, startMs: int, order: seq<nat>, out: seq<OrderedStop>, k: nat)
    requires AllStops(t, order) && TimedHead(t, startMs, order, out) && k < |order|
    requires var from := if k == 0 then 0 else order[k - 1] + 1; from < |t.rows| && order[k] < |t.rows[from]|
    ensures var from := if k == 0 then 0 else order[k - 1] + 1;
      var left := if k == 0 then startMs else out[k - 1].scheduledMs + out[k - 1].durationMinutes * 60_000;
      var arrive := left + t.rows[from][order[k]].driveSecs * 1000;
      var s := t.stops[order[k]];
      var start := if s.fixedTime.Some? && s.fixedTime.value > arrive then s.fixedTime.value else arrive;
      out[k] == OrderedStop(s.id, s.address, k, start, s.durationMinutes, s.fixedTime)
  {
    LeftAt(t, startMs, order, out, k);
    hide Run;
  }

  /** A cell that is missing is no drive. */
  lemma EntryStartsUndriven(t: Tour, startMs: int, order: seq<nat>, out: seq<OrderedStop>, k: nat)
    requires AllStops(t, order) && TimedHead(t, startMs, order, out) && k < |order|
    requires var from := if k == 0 then 0 else order[k - 1] + 1; from >= |t.rows| || order[k] >= |t.rows[from]|
    ensures var left := if k == 0 then startMs else out[k - 1].scheduledMs + out[k - 1].durationMinutes * 60_000;
      var s := t.stops[order[k]];
      out[k].scheduledMs == if s.fixedTime.Some? && s.fixedTime.value > left then s.fixedTime.value else left
  {
    LeftAt(t, startMs, order, out, k);
    hide Run;
  }

  /** Where the simulation stands before entry k. */
  lemma LeftAt(t: Tour, startMs: int, order: seq<nat>, out: seq<OrderedStop>, k: nat)
    requires AllStops(t, order) && TimedHead(t, startMs, order, out) && k < |order|
    ensures var c := Run(t, Clock(startMs, 0), order[..k]);
      && c.row == (if k == 0 then 0 else order[k - 1] + 1)
      && c.ms == (if k == 0 then startMs else out[k - 1].scheduledMs + out[k - 1].durationMinutes * 60_000)
    ensures out[k].scheduledMs == StartMs(t, Run(t, Clock(startMs, 0), order[..k]), order[k])
  {
    if k > 0 {
      ScheduledThen(t, Clock(startMs, 0), order, k - 1);
      hide Run;
    }
  }

  // ---- Which stop is taken next ----

  /** The matrix has a row for the origin and one for each stop, and every row a cell for each stop. */
  ghost predicate Full(t: Tour) {
    |t.rows| == |t.stops| + 1 && forall r :: 0 <= r < |t.rows| ==> |t.rows[r]| == |t.stops|
  }

  lemma NextAnchorBefore(t: Tour, start: Clock, order: seq<nat>, k: nat, a: nat)
    requires Greedy(t, start, order) && k <= a < |order| && IsAnchor(t, order[a])
    requires forall j :: k <= j < a ==> !IsAnchor(t, order[j])
    ensures NextAnchor(t, order[..k], order[a])
  {
    AnchorIsNext(t, start, order, a);
    assert order[..a] == order[..k] + order[k..a];
    assert forall b :: b in order[k..a] ==> !IsAnchor(t, b);
  }

  /** Driving from stop i on to anchor a, after leaving for i at the given place and time, is at most five minutes late. */
  lemma FitsInWords(t: Tour, c: Clock, i: nat, a: nat)
    requires Full(t) && c.row < |t.rows| && IsStop(t, i) && IsAnchor(t, a) && !IsAnchor(t, i)
    ensures Fits(t, c, i, a) <==>
      c.ms + t.rows[c.row][i].driveSecs * 1000 + t.stops[i].durationMinutes * 60_000 + t.rows[i + 1][a].driveSecs * 1000
        <= t.stops[a].fixedTime.value + 300_000
  {
  }

  lemma OrderIsComplete(t: Tour, start: Clock, order: seq<nat>, i: nat) returns (k: nat)
    requires Greedy(t, start, order) && i < |t.stops|
    ensures k < |order| && order[k] == i
  {
    IsPermutation(t, start, order, i);
    k :| 0 <= k < |order| && order[k] == i;
  }

  lemma NotYet(order: seq<nat>, k: nat, j: nat)
    requires NoDuplicates(order) && k <= j < |order|
    ensures order[j] !in order[..k]
  {
  }

  lemma TakenInGap(t: Tour, start: Clock, order: seq<nat>, k: nat, a: nat)
    requires Greedy(t, start, order) && k < a < |order| && IsAnchor(t, order[a])
    requires forall i :: k <= i < a ==> !IsAnchor(t, order[i])
    ensures Nearest(t, order[..k], Run(t, start, order[..k]), Some(order[a]), order[k])
  {
    hide Run, Nearest;
    NextAnchorBefore(t, start, order, k, a);
    assert Chosen(t, start, order[..k], order[k]);
    hide Greedy, GreedySoFar, NextAnchor;
  }

  lemma NearestInWords(t: Tour, prefix: seq<nat>, c: Clock, i: nat, j: nat, a: nat)
    requires Full(t) && c.row < |t.rows| && IsAnchor(t, a) && Nearest(t, prefix, c, Some(a), i)
    requires IsStop(t, j) && !IsAnchor(t, j) && j !in prefix
    ensures IsStop(t, i)
    ensures var row, slot := t.rows[c.row], t.stops[a].fixedTime.value;
      && c.ms + row[i].driveSecs * 1000 + t.stops[i].durationMinutes * 60_000 + t.rows[i + 1][a].driveSecs * 1000
           <= slot + 300_000
      && (c.ms + row[j].driveSecs * 1000 + t.stops[j].durationMinutes * 60_000 + t.rows[j + 1][a].driveSecs * 1000
           <= slot + 300_000 ==>
            row[i].driveSecs < row[j].driveSecs || (row[i].driveSecs == row[j].driveSecs && i <= j))
  {
    FitsInWords(t, c, i, a);
    FitsInWords(t, c, j, a);
    hide Fits;
  }

  /** In the gap before an anchor: the stop taken leaves the anchor at most five minutes late, and of all the later
      stops that would, it is the one with the shortest drive, the first in the input among equally short ones. */
  lemma GapChoice(t: Tour, startMs: int, order: seq<nat>, out: seq<OrderedStop>, k: nat, a: nat, j: nat)
    requires Greedy(t, Clock(startMs, 0), order) && TimedHead(t, startMs, order, out)
    requires |t.rows| == |t.stops| + 1 && forall r :: 0 <= r < |t.rows| ==> |t.rows[r]| == |t.stops|
    requires k < a < |order| && t.stops[order[a]].fixedTime.Some?
    requires forall i :: k <= i < a ==> t.stops[order[i]].fixedTime.None?
    requires k <= j < |order| && t.stops[order[j]].fixedTime.None?
    ensures var row := t.rows[if k == 0 then 0 else order[k - 1] + 1];
      var left := if k == 0 then startMs else out[k - 1].scheduledMs + out[k - 1].durationMinutes * 60_000;
      var slot := t.stops[order[a]].fixedTime.value;
      && left + row[order[k]].driveSecs * 1000 + t.stops[order[k]].durationMinutes * 60_000
           + t.rows[order[k] + 1][order[a]].driveSecs * 1000 <= slot + 300_000
      && (left + row[order[j]].driveSecs * 1000 + t.stops[order[j]].durationMinutes * 60_000
           + t.rows[order[j] + 1][order[a]].driveSecs * 1000 <= slot + 300_000 ==>
            || row[order[k]].driveSecs < row[order[j]].driveSecs
            || (row[order[k]].driveSecs == row[order[j]].driveSecs && order[k] <= order[j]))
  {
    hide Run, TimedHead, Nearest;
    LeftAt(t, startMs, order, out, k);
    TakenInGap(t, Clock(startMs, 0), order, k, a);
    NotYet(order, k, j);
    hide Greedy, StartMs;
    NearestInWords(t, order[..k], Run(t, Clock(startMs, 0), order[..k]), order[k], order[j], order[a]);
  }

  /** An anchor is taken when it is the earliest left, the first in the input among equally early ones, and every stop
      without a slot that is left would make it more than five minutes late. */
  lemma AnchorChoice(t: Tour, startMs: int, order: seq<nat>, out: seq<OrderedStop>, k: nat, j: nat)
    requires Greedy(t, Clock(startMs, 0), order) && TimedHead(t, startMs, order, out)
    requires |t.rows| == |t.stops| + 1 && forall r :: 0 <= r < |t.rows| ==> |t.rows[r]| == |t.stops|
    requires k < j < |order| && t.stops[order[k]].fixedTime.Some?
    ensures var row := t.rows[if k == 0 then 0 else order[k - 1] + 1];
      var left := if k == 0 then startMs else out[k - 1].scheduledMs + out[k - 1].durationMinutes * 60_000;
      var slot, later := t.stops[order[k]].fixedTime.value, t.stops[order[j]];
      if later.fixedTime.Some? then slot < later.fixedTime.value || (slot == later.fixedTime.value && order[k] < order[j])
      else left + row[order[j]].driveSecs * 1000 + later.durationMinutes * 60_000
             + t.rows[order[j] + 1][order[k]].driveSecs * 1000 > slot + 300_000
  {
    LeftAt(t, startMs, order, out, k);
    if t.stops[order[j]].fixedTime.Some? {
      AnchorsInOrder(t, Clock(startMs, 0), order, k, j);
    } else {
      GapIsFull(t, Clock(startMs, 0), order, k, j);
      FitsInWords(t, Run(t, Clock(startMs, 0), order[..k]), order[j], order[k]);
    }
  }

  /** Behind the last anchor the shortest drive is taken, the first in the input among equally short ones. */
  lemma TailChoice(t: Tour, startMs: int, order: seq<nat>, k: nat, j: nat)
    requires Greedy(t, Clock(startMs, 0), order)
    requires |t.rows| == |t.stops| + 1 && forall r :: 0 <= r < |t.rows| ==> |t.rows[r]| == |t.stops|
    requires k < j < |order| && forall i :: k <= i < |order| ==> t.stops[order[i]].fixedTime.None?
    ensures var row := t.rows[if k == 0 then 0 else order[k - 1] + 1];
      || row[order[k]].driveSecs < row[order[j]].driveSecs
      || (row[order[k]].driveSecs == row[order[j]].driveSecs && order[k] < order[j])
  {
    var prefix := order[..k];
    var c := Run(t, Clock(startMs, 0), prefix);
    assert c.row == (if k == 0 then 0 else order[k - 1] + 1);
    assert Chosen(t, Clock(startMs, 0), prefix, order[k]);
    NotYet(order, k, j);
    assert order[j] != order[k];
    forall b: nat | IsAnchor(t, b) ensures b in prefix {
      var i := OrderIsComplete(t, Clock(startMs, 0), order, b);
      assert prefix[i] == b;
    }
    assert NoAnchorLeft(t, prefix);
    hide Run, Greedy, GreedySoFar;
    assert Candidate(t, prefix, c, None, order[j]);
  }

  // ---- What is warned about ----

  predicate TooLate(t: Tour, i: nat, o: OrderedStop)
    requires i < |t.stops|
  {
    t.stops[i].fixedTime.Some? && o.scheduledMs > t.stops[i].fixedTime.value + 300_000
  }

  lemma LateStep(t: Tour, startMs: int, order: seq<nat>, out: seq<OrderedStop>, n: nat)
    requires AllStops(t, order) && TimedHead(t, startMs, order, out) && n < |order|
    ensures LateAnchors(t, Clock(startMs, 0), order[..n + 1]) == LateAnchors(t, Clock(startMs, 0), order[..n]) +
      if TooLate(t, order[n], out[n]) then [order[n]] else []
  {
    assert Front(order[..n + 1]) == order[..n] && order[..n + 1][..n] == order[..n];
    hide Run, Describes;
  }

  /** The entries among the first n that start too late. */
  function LateBelow(t: Tour, order: seq<nat>, out: seq<OrderedStop>, n: nat): (r: seq<nat>)
    requires AllStops(t, order) && n <= |order| == |out|
    ensures forall k: nat :: k in r <==> k < n && TooLate(t, order[k], out[k])
    ensures forall i, j :: 0 <= i < j < |r| ==> r[i] < r[j]
  {
    if n == 0 then []
    else
      var rest := LateBelow(t, order, out, n - 1);
      assert forall j :: 0 <= j < |rest| ==> rest[j] in rest;
      if TooLate(t, order[n - 1], out[n - 1]) then rest + [n - 1] else rest
  }

  /** The listed stops are those at the given places of the order. */
  ghost predicate Picks(order: seq<nat>, at: seq<nat>, picked: seq<nat>) {
    |picked| == |at| && forall i :: 0 <= i < |at| ==> at[i] < |order| && picked[i] == order[at[i]]
  }

  lemma PicksMore(order: seq<nat>, at: seq<nat>, picked: seq<nat>, n: nat)
    requires Picks(order, at, picked) && n < |order|
    ensures Picks(order, at + [n], picked + [order[n]]) && Picks(order, at, picked + [])
  {
    assert picked + [] == picked;
  }

  lemma {:induction false} LateInOrder(t: Tour, startMs: int, order: seq<nat>, out: seq<OrderedStop>, n: nat)
    requires AllStops(t, order) && TimedHead(t, startMs, order, out) && n <= |order|
    ensures Picks(order, LateBelow(t, order, out, n), LateAnchors(t, Clock(startMs, 0), order[..n]))
  {
    if n > 0 {
      LateInOrder(t, startMs, order, out, n - 1);
      LateStep(t, startMs, order, out, n - 1);
      hide LateAnchors, TooLate, TimedHead, Picks;
      PicksMore(order, LateBelow(t, order, out, n - 1), LateAnchors(t, Clock(startMs, 0), order[..n - 1]), n - 1);
    }
  }

  /** The planned entries of an answer. */
  lemma HeadOfAnswer(stops: seq<Stop>, geocoded: seq<bool>, rows: seq<seq<Leg>>, startMs: int, order: seq<nat>,
                     out: seq<OrderedStop>)
    requires |stops| == |geocoded|
    requires PlannedStops(stops, geocoded, GeocodedTour(stops, geocoded, rows), startMs, order, out)
    ensures var t := GeocodedTour(stops, geocoded, rows);
      && t.rows == rows && AllStops(t, order) && |order| == |t.stops| <= |out|
      && TimedHead(t, startMs, order, out[..|order|])
  {
    var t := GeocodedTour(stops, geocoded, rows);
    assert AllStops(t, order) && |Placement(geocoded, order)| == |out|;
    hide Greedy, ScheduledMs, Placement, GeocodedTour;
    forall k | 0 <= k < |order| ensures Describes(out[k], t.stops[order[k]], k) {
      PlacedHead(stops, geocoded, t, order, k);
    }
  }

  /** One warning for each of these entries, naming its address and slot, behind the warnings of the geocoding. */
  lemma WarnedExactly(t: Tour, warnings: seq<Warning>, startMs: int, order: seq<nat>, route: Route) returns (at: seq<nat>)
    requires AllStops(t, order) && |order| <= |route.orderedStops|
    requires TimedHead(t, startMs, order, route.orderedStops[..|order|])
    requires PlannedTotals(t, warnings, startMs, order, route)
    ensures forall k: nat :: k in at <==>
      && k < |order| && t.stops[order[k]].fixedTime.Some?
      && route.orderedStops[k].scheduledMs > t.stops[order[k]].fixedTime.value + 300_000
    ensures forall i, j :: 0 <= i < j < |at| ==> at[i] < at[j]
    ensures |route.warnings| == |warnings| + |at| && route.warnings[..|warnings|] == warnings
    ensures forall i :: 0 <= i < |at| ==>
      && at[i] < |order|
      && route.warnings[|warnings| + i] == CannotReach(t.stops[order[at[i]]].address, t.stops[order[at[i]]].fixedTime)
  {
    var head := route.orderedStops[..|order|];
    at := LateBelow(t, order, head, |order|);
    LateInOrder(t, startMs, order, head, |order|);
    assert order[..|order|] == order;
    assert forall i :: 0 <= i < |at| ==> at[i] in at;
    hide LateAnchors, TimedHead, TotalDriveSecs, TotalMeters, LateBelow;
    var late := LateAnchors(t, Clock(startMs, 0), order);
    assert route.warnings == warnings + ReachWarnings(t, late);
  }

  // ---- What is summed ----

  /** The k-th drive and distance are those of the cell from the stop before to stop k, or nothing if it is missing. */
  predicate CellAt(t: Tour, order: seq<nat>, drives: seq<int>, meters: seq<int>, k: nat)
    requires k < |order| == |drives| == |meters|
  {
    var from := if k == 0 then 0 else order[k - 1] + 1;
    if from < |t.rows| && order[k] < |t.rows[from]| then
      drives[k] == t.rows[from][order[k]].driveSecs && meters[k] == t.rows[from][order[k]].distanceMeters
    else drives[k] == 0 && meters[k] == 0
  }

  ghost predicate Cells(t: Tour, order: seq<nat>, drives: seq<int>, meters: seq<int>) {
    |drives| == |meters| == |order| && forall k :: 0 <= k < |order| ==> CellAt(t, order, drives, meters, k)
  }

  lemma CellsFront(t: Tour, order: seq<nat>, drives: seq<int>, meters: seq<int>)
    requires Cells(t, order, drives, meters) && order != []
    ensures drives != [] && meters != [] && Cells(t, Front(order), Front(drives), Front(meters))
    ensures TotalDriveSecs(t, order) == TotalDriveSecs(t, Front(order)) + Last(drives)
    ensures TotalMeters(t, order) == TotalMeters(t, Front(order)) + Last(meters)
  {
    var n := |order| - 1;
    assert CellAt(t, order, drives, meters, n);
    assert RowAfter(Front(order)) == if n == 0 then 0 else order[n - 1] + 1;
    forall k | 0 <= k < n ensures CellAt(t, Front(order), Front(drives), Front(meters), k) {
      assert CellAt(t, order, drives, meters, k);
    }
  }

  lemma {:induction false} TotalsAreSums(t: Tour, order: seq<nat>, drives: seq<int>, meters: seq<int>)
    requires Cells(t, order, drives, meters)
    ensures TotalDriveSecs(t, order) == Sum(drives) && TotalMeters(t, order) == Sum(meters)
  {
    if order == [] {
      assert drives == [] && meters == [];
    } else {
      CellsFront(t, order, drives, meters);
      hide Cells, TotalDriveSecs, TotalMeters;
      TotalsAreSums(t, Front(order), Front(drives), Front(meters));
    }
  }

  lemma {:induction false} MinutesAreSum(out: seq<OrderedStop>, minutes: seq<int>)
    requires |minutes| == |out| && forall k :: 0 <= k < |out| ==> minutes[k] == out[k].durationMinutes
    ensures TotalMinutes(out) == Sum(minutes)
  {
    if out != [] {
      MinutesAreSum(Front(out), Front(minutes));
    }
  }

  lemma CellsInWords(t: Tour, order: seq<nat>, drives: seq<int>, meters: seq<int>)
    requires |drives| == |meters| == |order|
    requires forall k :: 0 <= k < |order| ==> var from := if k == 0 then 0 else order[k - 1] + 1;
      if from < |t.rows| && order[k] < |t.rows[from]| then
        drives[k] == t.rows[from][order[k]].driveSecs && meters[k] == t.rows[from][order[k]].distanceMeters
      else drives[k] == 0 && meters[k] == 0
    ensures Cells(t, order, drives, meters)
  {
    forall k | 0 <= k < |order| ensures CellAt(t, order, drives, meters, k) {
    }
  }

  /** The reported minutes are the stays plus the drives to the nearest minute, the reported tenths of a mile are those
      of the meters of the same cells (a mile is 1609.34 m); halves are rounded up. */
  lemma ReportedTotals(t: Tour, warnings: seq<Warning>, startMs: int, order: seq<nat>, route: Route,
                       drives: seq<int>, meters: seq<int>, stays: seq<int>)
    requires AllStops(t, order) && PlannedTotals(t, warnings, startMs, order, route)
    requires |drives| == |meters| == |order|
    requires forall k :: 0 <= k < |order| ==> var from := if k == 0 then 0 else order[k - 1] + 1;
      if from < |t.rows| && order[k] < |t.rows[from]| then
        drives[k] == t.rows[from][order[k]].driveSecs && meters[k] == t.rows[from][order[k]].distanceMeters
      else drives[k] == 0 && meters[k] == 0
    requires |stays| == |route.orderedStops|
    requires forall k :: 0 <= k < |stays| ==> stays[k] == route.orderedStops[k].durationMinutes
    ensures -30 <= Sum(drives) + 60 * Sum(stays) - 60 * route.totalDurationMinutes < 30
    ensures -160_934 <= 2_000 * Sum(meters) - 321_868 * route.totalTenthMiles < 160_934
  {
    hide TotalDriveSecs, TotalMeters, TotalMinutes, LateAnchors, EndMs, Sum, ReachWarnings;
    CellsInWords(t, order, drives, meters);
    hide Cells, AllStops;
    TotalsAreSums(t, order, drives, meters);
    MinutesAreSum(route.orderedStops, stays);
  }

  // ---- Which stops are served ----

  lemma TailEntry(stops: seq<Stop>, geocoded: seq<bool>, t: Tour, startMs: int, order: seq<nat>, out: seq<OrderedStop>, n: nat)
    requires PlannedStops(stops, geocoded, t, startMs, order, out)
    requires n < |Positions(geocoded, false)| && |order| + n > 0
    ensures |out| == |order| + |Positions(geocoded, false)| && Positions(geocoded, false)[n] < |stops|
    ensures var k := |order| + n; var s, before := stops[Positions(geocoded, false)[n]], out[k - 1];
      out[k] == OrderedStop(s.id, s.address, k, before.scheduledMs + before.durationMinutes * 60_000, s.durationMinutes, s.fixedTime)
  {
    var k := |order| + n;
    PlacedRest(geocoded, order, k);
    assert Last(out[..k]) == out[k - 1];
    hide Greedy, ScheduledMs, IsRearrangement, Placement, Positions;
  }

  lemma InputPositions(stops: seq<Stop>, geocoded: seq<bool>, rows: seq<seq<Leg>>) returns (at: seq<nat>, rest: seq<nat>)
    requires |stops| == |geocoded|
    ensures at == Positions(geocoded, true) && rest == Positions(geocoded, false)
    ensures forall i: nat :: i in at <==> i < |geocoded| && geocoded[i]
    ensures forall i: nat :: i in rest <==> i < |geocoded| && !geocoded[i]
    ensures forall i :: 0 <= i < |at| ==> at[i] < |stops| && GeocodedTour(stops, geocoded, rows).stops[i] == stops[at[i]]
    ensures forall i :: 0 <= i < |rest| ==> rest[i] < |stops|
  {
    at, rest := Positions(geocoded, true), Positions(geocoded, false);
    assert forall i :: 0 <= i < |at| ==> at[i] in at;
    assert forall i :: 0 <= i < |rest| ==> rest[i] in rest;
  }

  /** The stops with coordinates come first, in planned order; the others follow in input order, back to back. */
  lemma ServedStops(stops: seq<Stop>, geocoded: seq<bool>, rows: seq<seq<Leg>>, startMs: int, order: seq<nat>,
                    out: seq<OrderedStop>) returns (at: seq<nat>, rest: seq<nat>)
    requires |stops| == |geocoded|
    requires PlannedStops(stops, geocoded, GeocodedTour(stops, geocoded, rows), startMs, order, out)
    ensures forall i: nat :: i in at <==> i < |geocoded| && geocoded[i]
    ensures forall i: nat :: i in rest <==> i < |geocoded| && !geocoded[i]
    ensures forall i, j :: 0 <= i < j < |at| ==> at[i] < at[j]
    ensures forall i, j :: 0 <= i < j < |rest| ==> rest[i] < rest[j]
    ensures |order| == |GeocodedTour(stops, geocoded, rows).stops| == |at| && |out| == |at| + |rest|
    ensures forall i :: 0 <= i < |at| ==> at[i] < |stops| && GeocodedTour(stops, geocoded, rows).stops[i] == stops[at[i]]
    ensures forall n :: 0 <= n < |rest| && |at| + n > 0 ==>
      && rest[n] < |stops|
      && var k := |at| + n; var s, before := stops[rest[n]], out[k - 1];
         out[k] == OrderedStop(s.id, s.address, k, before.scheduledMs + before.durationMinutes * 60_000, s.durationMinutes, s.fixedTime)
  {
    at, rest := InputPositions(stops, geocoded, rows);
    var t := GeocodedTour(stops, geocoded, rows);
    assert |t.stops| == |at| == |order| && |Placement(geocoded, order)| == |out|;
    hide Positions, GeocodedTour, PlannedStops;
    forall n | 0 <= n < |rest| && |at| + n > 0
      ensures var k := |at| + n; var s, before := stops[rest[n]], out[k - 1];
        out[k] == OrderedStop(s.id, s.address, k, before.scheduledMs + before.durationMinutes * 60_000, s.durationMinutes, s.fixedTime)
    {
      TailEntry(stops, geocoded, t, startMs, order, out, n);
    }
  }

  /** The warning about the stops without coordinates counts them. */
  lemma CountsUngeocoded(geocoded: seq<bool>, rest: set<nat>)
    requires forall i: nat :: i in rest <==> i < |geocoded| && !geocoded[i]
    ensures EndWarning(geocoded) == if rest == {} then [] else [PlacedAtEnd(|rest|)]
  {
    var s := Positions(geocoded, false);
    assert forall i: nat :: i in s <==> i in rest;
    SetOf(s, rest);
  }

  lemma {:induction false} SetOf(s: seq<nat>, elements: set<nat>)
    requires forall j, k :: 0 <= j < k < |s| ==> s[j] < s[k]
    requires forall i: nat :: i in s <==> i in elements
    ensures |s| == |elements|
  {
    if s == [] {
      assert elements == {};
    } else {
      assert s == Front(s) + [Last(s)];
      SetOf(Front(s), elements - {Last(s)});
    }
  }

  // ---- Input order ----

  /** Without a plan each stop starts when the stay before it is over, or at its slot. */
  lemma SequentialEntry(stops: seq<Stop>, startMs: int, out: seq<OrderedStop>, k: nat)
    requires SequentialStops(stops, startMs, out) && k < |stops|
    ensures var left := if k == 0 then startMs else out[k - 1].scheduledMs + out[k - 1].durationMinutes * 60_000;
      var s := stops[k];
      var start := if s.fixedTime.Some? && s.fixedTime.value > left then s.fixedTime.value else left;
      out[k] == OrderedStop(s.id, s.address, k, start, s.durationMinutes, s.fixedTime)
  {
    var t, order := Tour(stops, []), Identity(|stops|);
    assert order[k] == k && (k > 0 ==> order[k - 1] == k - 1);
    assert TimedHead(t, startMs, order, out) by {
      hide ScheduledMs;
    }
    EntryStartsUndriven(t, startMs, order, out, k);
  }
}
