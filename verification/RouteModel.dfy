/** The tour scheduler's data, the simulation of a visiting order, and the declarative
    description of the order the planner must choose. */
module RouteModel {
  import opened Prelude

  const MINUTE_MS := 60_000
  /** How late an anchor may be reached after filling the gap before it. */
  const GRACE_MS := 5 * MINUTE_MS

  /** Times are integer milliseconds; `fixedTime` locks a stop to a slot and makes it an anchor. */
  datatype Stop = Stop(id: string, address: string, fixedTime: Option<int>, durationMinutes: int)

  datatype Leg = Leg(driveSecs: int, distanceMeters: int)

  /** The geocoded stops and the drive-time matrix: row 0 leaves the origin, row i + 1 leaves stop i. */
  datatype Tour = Tour(stops: seq<Stop>, rows: seq<seq<Leg>>)

  /** Where the tour stands: the time, and the matrix row of the current place. */
  datatype Clock = Clock(ms: int, row: nat)

  predicate IsStop(t: Tour, i: nat) {
    i < |t.stops|
  }

  predicate IsAnchor(t: Tour, i: nat) {
    IsStop(t, i) && t.stops[i].fixedTime.Some?
  }

  predicate IsFlexible(t: Tour, i: nat) {
    IsStop(t, i) && t.stops[i].fixedTime.None?
  }

  function FixedMs(t: Tour, i: nat): int
    requires IsAnchor(t, i)
  {
    t.stops[i].fixedTime.value
  }

  /** A matrix cell; a missing one counts as no drive and no distance. */
  function Cell(t: Tour, row: nat, i: nat): Leg {
    if row < |t.rows| && i < |t.rows[row]| then t.rows[row][i] else Leg(0, 0)
  }

  function DriveMs(t: Tour, row: nat, i: nat): int {
    Cell(t, row, i).driveSecs * 1000
  }

  function DurationMs(t: Tour, i: nat): int
    requires IsStop(t, i)
  {
    t.stops[i].durationMinutes * MINUTE_MS
  }

  /** Simulating an order: drive, wait for the slot if there is one, stay. */
  function ArriveMs(t: Tour, c: Clock, i: nat): int {
    c.ms + DriveMs(t, c.row, i)
  }

  function StartMs(t: Tour, c: Clock, i: nat): int
    requires IsStop(t, i)
  {
    if IsAnchor(t, i) then Max(ArriveMs(t, c, i), FixedMs(t, i)) else ArriveMs(t, c, i)
  }

  function Visit(t: Tour, c: Clock, i: nat): Clock
    requires IsStop(t, i)
  {
    Clock(StartMs(t, c, i) + DurationMs(t, i), i + 1)
  }

  predicate AllStops(t: Tour, order: seq<nat>) {
    forall k :: 0 <= k < |order| ==> IsStop(t, order[k])
  }

  function Run(t: Tour, c: Clock, order: seq<nat>): Clock
    requires AllStops(t, order)
  {
    if order == [] then c else Visit(t, Run(t, c, Front(order)), Last(order))
  }

  /** The scheduled start of the k-th stop of an order. */
  function ScheduledMs(t: Tour, c: Clock, order: seq<nat>, k: nat): int
    requires AllStops(t, order) && k < |order|
  {
    StartMs(t, Run(t, c, order[..k]), order[k])
  }

  lemma ScheduledThen(t: Tour, c: Clock, order: seq<nat>, k: nat)
    requires AllStops(t, order) && k < |order|
    ensures ScheduledMs(t, c, order, k) == StartMs(t, Run(t, c, order[..k]), order[k])
    ensures Run(t, c, order[..k + 1]) == Visit(t, Run(t, c, order[..k]), order[k])
  {
    assert Front(order[..k + 1]) == order[..k];
  }

  // ---- What the planner must choose ----

  /** Anchors are taken by time; equal times keep the input order. */
  predicate Before(t: Tour, a: nat, b: nat) {
    && IsAnchor(t, a) && IsAnchor(t, b)
    && (FixedMs(t, a) < FixedMs(t, b) || (FixedMs(t, a) == FixedMs(t, b) && a < b))
  }

  /** Visiting flexible stop i now and driving on reaches anchor a within the grace time. */
  predicate Fits(t: Tour, c: Clock, i: nat, a: nat)
    requires IsStop(t, i) && IsAnchor(t, a)
  {
    ArriveMs(t, Visit(t, c, i), a) <= FixedMs(t, a) + GRACE_MS
  }

  /** An unvisited flexible stop that may be visited now, given the anchor to be reached next, if any. */
  predicate Candidate(t: Tour, prefix: seq<nat>, c: Clock, next: Option<nat>, i: nat)
    requires next.Some? ==> IsAnchor(t, next.value)
  {
    IsFlexible(t, i) && i !in prefix && (next.Some? ==> Fits(t, c, i, next.value))
  }

  /** Candidate i is closest; among equally close ones it has the smallest index. */
  ghost predicate Nearest(t: Tour, prefix: seq<nat>, c: Clock, next: Option<nat>, i: nat)
    requires next.Some? ==> IsAnchor(t, next.value)
  {
    && Candidate(t, prefix, c, next, i)
    && forall j: nat :: Candidate(t, prefix, c, next, j) ==>
        DriveMs(t, c.row, i) < DriveMs(t, c.row, j) || (DriveMs(t, c.row, i) == DriveMs(t, c.row, j) && i <= j)
  }

  ghost predicate NextAnchor(t: Tour, prefix: seq<nat>, a: nat) {
    && IsAnchor(t, a) && a !in prefix
    && forall b: nat :: IsAnchor(t, b) && b !in prefix && b != a ==> Before(t, a, b)
  }

  ghost predicate NoAnchorLeft(t: Tour, prefix: seq<nat>) {
    forall b: nat :: IsAnchor(t, b) ==> b in prefix
  }

  /** Stop i is the right one to visit after `prefix`. */
  ghost predicate Chosen(t: Tour, start: Clock, prefix: seq<nat>, i: nat)
    requires AllStops(t, prefix)
  {
    var c := Run(t, start, prefix);
    && (forall a: nat :: NextAnchor(t, prefix, a) ==>
          || Nearest(t, prefix, c, Some(a), i)
          || (i == a && forall j: nat :: !Candidate(t, prefix, c, Some(a), j)))
    && (NoAnchorLeft(t, prefix) ==> Nearest(t, prefix, c, None, i))
  }

  ghost predicate GreedySoFar(t: Tour, start: Clock, order: seq<nat>) {
    && AllStops(t, order)
    && NoDuplicates(order)
    && forall k :: 0 <= k < |order| ==> Chosen(t, start, order[..k], order[k])
  }

  ghost predicate Greedy(t: Tour, start: Clock, order: seq<nat>) {
    GreedySoFar(t, start, order) && |order| == |t.stops|
  }

  /** The anchors that are reached later than the grace time allows, in visiting order. */
  function LateAnchors(t: Tour, start: Clock, order: seq<nat>): (late: seq<nat>)
    requires AllStops(t, order)
    ensures AllStops(t, late)
  {
    if order == [] then []
    else
      LateAnchors(t, start, Front(order)) +
      if IsAnchor(t, Last(order)) &&
         ScheduledMs(t, start, order, |order| - 1) > FixedMs(t, Last(order)) + GRACE_MS
      then [Last(order)] else []
  }

  // ---- The anchors in time order ----

  function InsertByTime(t: Tour, sorted: seq<nat>, i: nat): seq<nat>
    requires IsAnchor(t, i) && forall x :: x in sorted ==> IsAnchor(t, x)
  {
    if sorted == [] || FixedMs(t, Last(sorted)) <= FixedMs(t, i) then sorted + [i]
    else InsertByTime(t, Front(sorted), i) + [Last(sorted)]
  }

  ghost predicate SortedAnchors(t: Tour, s: seq<nat>, n: nat) {
    && (forall i: nat :: i in s <==> IsAnchor(t, i) && i < n)
    && (forall j, k :: 0 <= j < k < |s| ==> Before(t, s[j], s[k]))
  }

  lemma {:induction false} InsertKeepsSorted(t: Tour, s: seq<nat>, i: nat)
    requires IsAnchor(t, i) && forall x :: x in s ==> IsAnchor(t, x) && x < i
    requires forall j, k :: 0 <= j < k < |s| ==> Before(t, s[j], s[k])
    ensures var r := InsertByTime(t, s, i);
      && (forall x :: x in r <==> x in s || x == i)
      && (forall j, k :: 0 <= j < k < |r| ==> Before(t, r[j], r[k]))
  {
    if s == [] || FixedMs(t, Last(s)) <= FixedMs(t, i) {
    } else {
      InsertKeepsSorted(t, Front(s), i);
      assert s == Front(s) + [Last(s)];
      var r := InsertByTime(t, Front(s), i);
      forall x | x in r ensures Before(t, x, Last(s)) {
        if x != i {
          var k :| 0 <= k < |s| - 1 && s[k] == x;
        }
      }
    }
  }

  /** The stable sort by fixed time of the anchors among the first n stops. */
  function AnchorsByTime(t: Tour, n: nat): (s: seq<nat>)
    requires n <= |t.stops|
    ensures SortedAnchors(t, s, n)
  {
    if n == 0 then []
    else
      var s := AnchorsByTime(t, n - 1);
      if IsAnchor(t, n - 1) then
        InsertKeepsSorted(t, s, n - 1);
        InsertByTime(t, s, n - 1)
      else s
  }

  function FlexibleIndices(t: Tour, n: nat): (s: seq<nat>)
    requires n <= |t.stops|
    ensures forall i: nat :: i in s <==> IsFlexible(t, i) && i < n
    ensures forall j, k :: 0 <= j < k < |s| ==> s[j] < s[k]
  {
    if n == 0 then []
    else
      var s := FlexibleIndices(t, n - 1);
      assert forall k :: 0 <= k < |s| ==> s[k] in s;
      if IsFlexible(t, n - 1) then s + [n - 1] else s
  }

  /** While an anchor is unvisited there is exactly one next anchor. */
  lemma NextAnchorExists(t: Tour, prefix: seq<nat>) returns (a: nat)
    requires !NoAnchorLeft(t, prefix)
    ensures NextAnchor(t, prefix, a)
  {
    var s := AnchorsByTime(t, |t.stops|);
    var b: nat :| IsAnchor(t, b) && b !in prefix;
    assert b in s;
    var k := 0;
    while s[k] in prefix
      invariant 0 <= k < |s| && b in s[k..]
      invariant forall j :: 0 <= j < k ==> s[j] in prefix
      decreases |s| - k
    {
      k := k + 1;
    }
    a := s[k];
    assert a in s;
    forall c: nat | IsAnchor(t, c) && c !in prefix && c != a ensures Before(t, a, c) {
      assert c in s;
    }
  }
}
