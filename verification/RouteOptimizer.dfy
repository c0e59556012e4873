/** The second pass, the accounting pass, the fallback and the assembly of the answer.
    Geocoding and the drive-time matrix are answers from outside: any answer is allowed. */
module RouteOptimizer {
  import opened Prelude
  import opened RouteModel
  import opened RouteTheorems
  import RoutePlanner

  datatype OrderedStop = OrderedStop(id: string, address: string, sequenceOrder: nat, scheduledMs: int,
                                     durationMinutes: int, fixedTime: Option<int>)

  datatype Warning =
    | NoStops
    | CouldNotGeocode(address: string)
    | PlacedAtEnd(count: nat)
    | OriginNotFound
    | MatrixFailed
    | CannotReach(address: string, fixedTime: Option<int>)

  datatype Route = Route(orderedStops: seq<OrderedStop>, totalTenthMiles: int, totalDurationMinutes: int, warnings: seq<Warning>)

  /** Entry k of the answer is the stop s. */
  predicate Describes(o: OrderedStop, s: Stop, k: nat) {
    o.id == s.id && o.address == s.address && o.sequenceOrder == k &&
    o.durationMinutes == s.durationMinutes && o.fixedTime == s.fixedTime
  }

  /** The stops timed so far are the first ones of the order, with the simulated times. */
  ghost predicate TimedPart(t: Tour, startMs: int, order: seq<nat>, out: seq<OrderedStop>)
    requires AllStops(t, order)
  {
    && |out| <= |order|
    && forall k :: 0 <= k < |out| ==>
      && Describes(out[k], t.stops[order[k]], k)
      && out[k].scheduledMs == ScheduledMs(t, Clock(startMs, 0), order, k)
  }

  ghost predicate TimedHead(t: Tour, startMs: int, order: seq<nat>, out: seq<OrderedStop>)
    requires AllStops(t, order)
  {
    |out| == |order| && TimedPart(t, startMs, order, out)
  }

  lemma TimedMore(t: Tour, startMs: int, order: seq<nat>, out: seq<OrderedStop>, o: OrderedStop)
    requires AllStops(t, order) && |out| < |order| && TimedPart(t, startMs, order, out)
    requires Describes(o, t.stops[order[|out|]], |out|) && o.scheduledMs == ScheduledMs(t, Clock(startMs, 0), order, |out|)
    ensures TimedPart(t, startMs, order, out + [o])
  {
    hide Run, ScheduledMs, Describes;
  }

  /** The simulated clock after the first k stops. */
  ghost function ClockAt(t: Tour, startMs: int, order: seq<nat>, k: nat): Clock
    requires AllStops(t, order) && k <= |order|
  {
    Run(t, Clock(startMs, 0), order[..k])
  }

  lemma ClockThen(t: Tour, startMs: int, order: seq<nat>, k: nat)
    requires AllStops(t, order) && k < |order|
    ensures ScheduledMs(t, Clock(startMs, 0), order, k) == StartMs(t, ClockAt(t, startMs, order, k), order[k])
    ensures ClockAt(t, startMs, order, k + 1) == Visit(t, ClockAt(t, startMs, order, k), order[k])
  {
    ScheduledThen(t, Clock(startMs, 0), order, k);
  }

  /** The second pass: its times are those of the simulation, hence of the planning clock. */
  method BuildOrderedStops(t: Tour, order: seq<nat>, startMs: int) returns (out: seq<OrderedStop>)
    requires AllStops(t, order)
    ensures TimedHead(t, startMs, order, out)
  {
    out := [];
    assert TimedPart(t, startMs, order, out) && ClockAt(t, startMs, order, 0) == Clock(startMs, 0);
    hide ClockAt, ScheduledMs, TimedPart;
    var etaMs: int, prevStopIdx: int := startMs, -1;
    for k := 0 to |order|
      invariant |out| == k && prevStopIdx >= -1 && TimedPart(t, startMs, order, out)
      invariant Clock(etaMs, prevStopIdx + 1) == ClockAt(t, startMs, order, k)
    {
      var stop := t.stops[order[k]];
      etaMs := etaMs + Cell(t, prevStopIdx + 1, order[k]).driveSecs * 1000;
      var scheduledMs := if stop.fixedTime.Some? then Max(etaMs, stop.fixedTime.value) else etaMs;
      ClockThen(t, startMs, order, k);
      etaMs := scheduledMs + stop.durationMinutes * MINUTE_MS;
      prevStopIdx := order[k];
      var entry := OrderedStop(stop.id, stop.address, k, scheduledMs, stop.durationMinutes, stop.fixedTime);
      TimedMore(t, startMs, order, out, entry);
      out := out + [entry];
    }
  }

  method SumMatrix(t: Tour, order: seq<nat>) returns (driveSecs: int, meters: int)
    ensures driveSecs == TotalDriveSecs(t, order) && meters == TotalMeters(t, order)
  {
    driveSecs, meters := 0, 0;
    for i := 0 to |order|
      invariant driveSecs == TotalDriveSecs(t, order[..i]) && meters == TotalMeters(t, order[..i])
    {
      assert Front(order[..i + 1]) == order[..i];
      var el := Cell(t, if i == 0 then 0 else order[i - 1] + 1, order[i]);
      driveSecs := driveSecs + el.driveSecs;
      meters := meters + el.distanceMeters;
    }
    assert order[..|order|] == order;
  }

  function TotalMinutes(stops: seq<OrderedStop>): int {
    if stops == [] then 0 else TotalMinutes(Front(stops)) + Last(stops).durationMinutes
  }

  /** Math.round(secs / 60). */
  function RoundToMinutes(secs: int): int {
    (secs + 30) / 60
  }

  /** Math.round((meters / 1609.34) * 10), the tenths of a mile nearest to the distance, halves rounded up. */
  function TenthsOfMiles(meters: int): (r: int)
    ensures -160_934 <= 2_000 * meters - 321_868 * r < 160_934
  {
    (2_000 * meters + 160_934) / 321_868
  }

  method StayMinutes(stops: seq<OrderedStop>) returns (minutes: int)
    ensures minutes == TotalMinutes(stops)
  {
    minutes := 0;
    for k := 0 to |stops|
      invariant minutes == TotalMinutes(stops[..k])
    {
      assert Front(stops[..k + 1]) == stops[..k];
      minutes := minutes + stops[k].durationMinutes;
    }
    assert stops[..|stops|] == stops;
  }

  function Identity(n: nat): (r: seq<nat>)
    ensures |r| == n && forall k :: 0 <= k < n ==> r[k] == k
  {
    seq(n, k => k)
  }

  /** The stops served so far are the first ones of the input, with the simulated times of a tour without a matrix. */
  ghost predicate SequentialHead(stops: seq<Stop>, startMs: int, out: seq<OrderedStop>) {
    && |out| <= |stops|
    && forall k :: 0 <= k < |out| ==>
      && Describes(out[k], stops[k], k)
      && out[k].scheduledMs == ScheduledMs(Tour(stops, []), Clock(startMs, 0), Identity(|stops|), k)
  }

  ghost predicate SequentialStops(stops: seq<Stop>, startMs: int, out: seq<OrderedStop>) {
    |out| == |stops| && SequentialHead(stops, startMs, out)
  }

  /** When the simulation is through with the first k stops. */
  ghost function SequentialMs(stops: seq<Stop>, startMs: int, k: nat): int
    requires k <= |stops|
  {
    Run(Tour(stops, []), Clock(startMs, 0), Identity(|stops|)[..k]).ms
  }

  /** Without drive times a stop starts at once, or at its slot. */
  lemma UndrivenTimes(t: Tour, c: Clock, order: seq<nat>, k: nat)
    requires t.rows == [] && AllStops(t, order) && k < |order|
    ensures var stop, before := t.stops[order[k]], Run(t, c, order[..k]).ms;
      var scheduledMs := if stop.fixedTime.Some? then Max(before, stop.fixedTime.value) else before;
      && scheduledMs == ScheduledMs(t, c, order, k)
      && scheduledMs + stop.durationMinutes * MINUTE_MS == Run(t, c, order[..k + 1]).ms
  {
    ScheduledThen(t, c, order, k);
    hide Run, ScheduledMs;
  }

  lemma SequentialMore(stops: seq<Stop>, startMs: int, out: seq<OrderedStop>, o: OrderedStop)
    requires |out| < |stops| && SequentialHead(stops, startMs, out) && Describes(o, stops[|out|], |out|)
    requires o.scheduledMs == ScheduledMs(Tour(stops, []), Clock(startMs, 0), Identity(|stops|), |out|)
    ensures SequentialHead(stops, startMs, out + [o])
  {
    hide Run, ScheduledMs, Identity, Describes;
  }

  /** One round of the fallback takes the simulation one stop further. */
  lemma SequentialStep(stops: seq<Stop>, startMs: int, out: seq<OrderedStop>, scheduledMs: int)
    requires |out| < |stops| && SequentialHead(stops, startMs, out)
    requires var stop, before := stops[|out|], SequentialMs(stops, startMs, |out|);
      scheduledMs == if stop.fixedTime.Some? then Max(before, stop.fixedTime.value) else before
    ensures var k := |out|; var stop := stops[k];
      && SequentialHead(stops, startMs,
           out + [OrderedStop(stop.id, stop.address, k, scheduledMs, stop.durationMinutes, stop.fixedTime)])
      && scheduledMs + stop.durationMinutes * MINUTE_MS == SequentialMs(stops, startMs, k + 1)
  {
    hide Run, ScheduledMs, SequentialHead;
    var k, stop := |out|, stops[|out|];
    assert Identity(|stops|)[k] == k;
    UndrivenTimes(Tour(stops, []), Clock(startMs, 0), Identity(|stops|), k);
    hide Identity;
    SequentialMore(stops, startMs, out,
                   OrderedStop(stop.id, stop.address, k, scheduledMs, stop.durationMinutes, stop.fixedTime));
  }

  /** Input order, no driving: every time is that of the simulation without a matrix. */
  method FallbackSequential(stops: seq<Stop>, startMs: int, warnings: seq<Warning>) returns (route: Route)
    ensures SequentialStops(stops, startMs, route.orderedStops)
    ensures route.totalDurationMinutes == TotalMinutes(route.orderedStops)
    ensures route.totalTenthMiles == 0 && route.warnings == warnings
  {
    var currentMs := startMs;
    var out := [];
    assert SequentialHead(stops, startMs, out) && SequentialMs(stops, startMs, 0) == startMs;
    hide SequentialHead, SequentialMs;
    for k := 0 to |stops|
      invariant |out| == k && SequentialHead(stops, startMs, out)
      invariant currentMs == SequentialMs(stops, startMs, k)
    {
      var stop := stops[k];
      var scheduledMs := if stop.fixedTime.Some? then Max(currentMs, stop.fixedTime.value) else currentMs;
      SequentialStep(stops, startMs, out, scheduledMs);
      currentMs := scheduledMs + stop.durationMinutes * MINUTE_MS;
      out := out + [OrderedStop(stop.id, stop.address, k, scheduledMs, stop.durationMinutes, stop.fixedTime)];
    }
    var minutes := StayMinutes(out);
    route := Route(out, 0, minutes, warnings);
  }

  function PositionsBelow(geocoded: seq<bool>, flag: bool, n: nat): (r: seq<nat>)
    requires n <= |geocoded|
    ensures |r| <= n
    ensures forall i: nat :: i in r <==> i < n && geocoded[i] == flag
    ensures forall j, k :: 0 <= j < k < |r| ==> r[j] < r[k]
  {
    if n == 0 then []
    else
      var rest := PositionsBelow(geocoded, flag, n - 1);
      assert forall j :: 0 <= j < |rest| ==> rest[j] in rest;
      if geocoded[n - 1] == flag then rest + [n - 1] else rest
  }

  /** The input positions whose stop has (or has not) coordinates, in input order. */
  function Positions(geocoded: seq<bool>, flag: bool): (r: seq<nat>)
    ensures |r| <= |geocoded|
    ensures forall i: nat :: i in r <==> i < |geocoded| && geocoded[i] == flag
    ensures forall j, k :: 0 <= j < k < |r| ==> r[j] < r[k]
  {
    PositionsBelow(geocoded, flag, |geocoded|)
  }

  function StopsAt(stops: seq<Stop>, at: seq<nat>): (r: seq<Stop>)
    requires forall k :: 0 <= k < |at| ==> at[k] < |stops|
    ensures |r| == |at| && forall k :: 0 <= k < |r| ==> r[k] == stops[at[k]]
  {
    seq(|at|, k requires 0 <= k < |at| => stops[at[k]])
  }

  /** The geocoded part of a tour. */
  function GeocodedTour(stops: seq<Stop>, geocoded: seq<bool>, rows: seq<seq<Leg>>): Tour
    requires |stops| == |geocoded|
  {
    var at := Positions(geocoded, true);
    assert forall k :: 0 <= k < |at| ==> at[k] in at;
    Tour(StopsAt(stops, at), rows)
  }

  /** Where each planned stop comes from in the input: the plan, then the stops without coordinates. */
  function Placement(geocoded: seq<bool>, order: seq<nat>): (r: seq<nat>)
    ensures |r| == |order| + |Positions(geocoded, false)|
  {
    var at := Positions(geocoded, true);
    seq(|order|, k requires 0 <= k < |order| => if order[k] < |at| then at[order[k]] else 0) + Positions(geocoded, false)
  }

  lemma HeadLength(t: Tour, startMs: int, order: seq<nat>, head: seq<OrderedStop>)
    requires AllStops(t, order) && TimedHead(t, startMs, order, head)
    ensures |head| == |order|
  {
  }

  lemma SomethingPlanned(stops: seq<Stop>, geocoded: seq<bool>, rows: seq<seq<Leg>>, startMs: int, order: seq<nat>)
    requires |stops| == |geocoded| && true in geocoded
    requires Greedy(GeocodedTour(stops, geocoded, rows), Clock(startMs, 0), order)
    ensures |order| > 0 && AllStops(GeocodedTour(stops, geocoded, rows), order)
    ensures GeocodedTour(stops, geocoded, rows).rows == rows
    ensures forall k :: 0 <= k < |Positions(geocoded, false)| ==> Positions(geocoded, false)[k] < |stops|
  {
    var i :| 0 <= i < |geocoded| && geocoded[i];
    assert i in Positions(geocoded, true);
    var rest := Positions(geocoded, false);
    assert forall k :: 0 <= k < |rest| ==> rest[k] in rest;
  }

  lemma PlacementFlags(geocoded: seq<bool>, order: seq<nat>, k: nat)
    requires k < |Placement(geocoded, order)|
    requires forall j :: 0 <= j < |order| ==> order[j] < |Positions(geocoded, true)|
    ensures var i := Placement(geocoded, order)[k]; i < |geocoded| && geocoded[i] == (k < |order|)
  {
    if k < |order| {
      assert Positions(geocoded, true)[order[k]] in Positions(geocoded, true);
    } else {
      assert Positions(geocoded, false)[k - |order|] in Positions(geocoded, false);
    }
  }

  lemma PlacementDistinct(geocoded: seq<bool>, order: seq<nat>, j: nat, k: nat)
    requires j < k < |Placement(geocoded, order)| && NoDuplicates(order)
    requires forall i :: 0 <= i < |order| ==> order[i] < |Positions(geocoded, true)|
    ensures Placement(geocoded, order)[j] != Placement(geocoded, order)[k]
  {
    PlacementFlags(geocoded, order, j);
    PlacementFlags(geocoded, order, k);
    if k < |order| {
      assert order[j] != order[k];
    }
  }

  lemma PlacementCovers(t: Tour, start: Clock, geocoded: seq<bool>, order: seq<nat>, i: nat)
    requires Greedy(t, start, order) && |t.stops| == |Positions(geocoded, true)| && i < |geocoded|
    ensures i in Placement(geocoded, order)
  {
    hide GreedySoFar;
    var at, rest, r := Positions(geocoded, true), Positions(geocoded, false), Placement(geocoded, order);
    if geocoded[i] {
      assert i in at;
      var p :| 0 <= p < |at| && at[p] == i;
      IsPermutation(t, start, order, p);
      var k :| 0 <= k < |order| && order[k] == p;
      assert r[k] == i;
    } else {
      assert i in rest;
      var p :| 0 <= p < |rest| && rest[p] == i;
      assert r[|order| + p] == i;
    }
  }

  /** The placement of a greedy order is a permutation of the input. */
  lemma PlacementIsPermutation(t: Tour, start: Clock, geocoded: seq<bool>, order: seq<nat>)
    requires Greedy(t, start, order) && |t.stops| == |Positions(geocoded, true)|
    ensures NoDuplicates(Placement(geocoded, order))
    ensures forall i: nat :: i < |geocoded| <==> i in Placement(geocoded, order)
  {
    var r := Placement(geocoded, order);
    assert AllStops(t, order) && NoDuplicates(order);
    hide Greedy, Placement;
    forall i: nat | i < |geocoded| ensures i in r {
      PlacementCovers(t, start, geocoded, order, i);
    }
    forall k | 0 <= k < |r| ensures r[k] < |geocoded| {
      PlacementFlags(geocoded, order, k);
    }
    forall j, k | 0 <= j < k < |r| ensures r[j] != r[k] {
      PlacementDistinct(geocoded, order, j, k);
    }
  }

  function EndMs(stops: seq<OrderedStop>): int
    requires |stops| > 0
  {
    Last(stops).scheduledMs + Last(stops).durationMinutes * MINUTE_MS
  }

  /** Entry k of the tail is the matching stop without coordinates and starts when entry k - 1 ends. */
  ghost predicate TailStop(stops: seq<Stop>, rest: seq<nat>, h: nat, all: seq<OrderedStop>, k: nat)
    requires 0 < h <= k < |all| <= h + |rest|
  {
    && rest[k - h] < |stops|
    && Describes(all[k], stops[rest[k - h]], k)
    && all[k].scheduledMs == EndMs(all[..k])
  }

  ghost predicate BackToBack(stops: seq<Stop>, rest: seq<nat>, head: seq<OrderedStop>, all: seq<OrderedStop>) {
    && 0 < |head| <= |all| <= |head| + |rest| && all[..|head|] == head
    && forall k :: |head| <= k < |all| ==> TailStop(stops, rest, |head|, all, k)
  }

  /** The stops without coordinates follow back to back; their slots are not consulted. */
  method AppendUngeocoded(stops: seq<Stop>, rest: seq<nat>, head: seq<OrderedStop>) returns (all: seq<OrderedStop>)
    requires |head| > 0
    requires forall k :: 0 <= k < |rest| ==> rest[k] < |stops|
    ensures BackToBack(stops, rest, head, all) && |all| == |head| + |rest|
    ensures EndMs(all) - EndMs(head) == (TotalMinutes(all) - TotalMinutes(head)) * MINUTE_MS
  {
    all := head;
    var tailMs := EndMs(head);
    for j := 0 to |rest|
      invariant BackToBack(stops, rest, head, all) && |all| == |head| + j
      invariant tailMs == EndMs(all)
      invariant EndMs(all) - EndMs(head) == (TotalMinutes(all) - TotalMinutes(head)) * MINUTE_MS
    {
      var stop := stops[rest[j]];
      var next := OrderedStop(stop.id, stop.address, |all|, tailMs, stop.durationMinutes, stop.fixedTime);
      OneMore(stops, rest, head, all, j, next);
      assert Front(all + [next]) == all;
      all := all + [next];
      tailMs := tailMs + stop.durationMinutes * MINUTE_MS;
    }
  }

  lemma OneMore(stops: seq<Stop>, rest: seq<nat>, head: seq<OrderedStop>, all: seq<OrderedStop>, j: nat, next: OrderedStop)
    requires BackToBack(stops, rest, head, all) && |all| == |head| + j && j < |rest| && rest[j] < |stops|
    requires Describes(next, stops[rest[j]], |all|) && next.scheduledMs == EndMs(all)
    ensures BackToBack(stops, rest, head, all + [next])
  {
    var longer := all + [next];
    assert longer[..|head|] == all[..|head|];
    forall k | |head| <= k < |longer| ensures TailStop(stops, rest, |head|, longer, k) {
      if k < |all| {
        assert TailStop(stops, rest, |head|, all, k);
        assert longer[..k] == all[..k];
      } else {
        assert longer[..k] == all;
      }
    }
  }

  function ReachWarnings(t: Tour, late: seq<nat>): seq<Warning>
    requires AllStops(t, late)
  {
    seq(|late|, k requires 0 <= k < |late| => CannotReach(t.stops[late[k]].address, t.stops[late[k]].fixedTime))
  }

  /** Every input position occurs exactly once. */
  ghost predicate IsRearrangement(from: seq<nat>, n: nat) {
    NoDuplicates(from) && forall i: nat :: i < n <==> i in from
  }

  /** Entry k is the input stop at position from[k], numbered k. */
  ghost predicate Rearranged(stops: seq<Stop>, from: seq<nat>, out: seq<OrderedStop>) {
    |out| == |from| && forall k :: 0 <= k < |out| ==> from[k] < |stops| && Describes(out[k], stops[from[k]], k)
  }

  /** The planned stops have the times of the simulation, every later one starts when the one before it ends. */
  ghost predicate Timed(t: Tour, startMs: int, order: seq<nat>, out: seq<OrderedStop>)
    requires AllStops(t, order)
  {
    && |order| <= |out|
    && (forall k :: 0 <= k < |order| ==> out[k].scheduledMs == ScheduledMs(t, Clock(startMs, 0), order, k))
    && (forall k :: |order| <= k < |out| && k > 0 ==> out[k].scheduledMs == EndMs(out[..k]))
  }

  /** The stops and times of a fully served request: a greedy plan, then the stops without coordinates. */
  ghost predicate PlannedStops(stops: seq<Stop>, geocoded: seq<bool>, t: Tour, startMs: int, order: seq<nat>, out: seq<OrderedStop>) {
    var from := Placement(geocoded, order);
    && Greedy(t, Clock(startMs, 0), order)
    && IsRearrangement(from, |stops|)
    && Rearranged(stops, from, out)
    && Timed(t, startMs, order, out)
  }

  ghost predicate PlannedTotals(t: Tour, warnings: seq<Warning>, startMs: int, order: seq<nat>, route: Route)
  {
    && AllStops(t, order) && |route.orderedStops| > 0
    && route.totalDurationMinutes == RoundToMinutes(TotalDriveSecs(t, order)) + TotalMinutes(route.orderedStops)
    && route.totalTenthMiles == TenthsOfMiles(TotalMeters(t, order))
    && route.warnings == warnings + ReachWarnings(t, LateAnchors(t, Clock(startMs, 0), order))
    && ((forall i: nat :: !IsAnchor(t, i)) ==>
          -30_000 <= route.totalDurationMinutes * MINUTE_MS - (EndMs(route.orderedStops) - startMs) <= 30_000)
  }

  /** Input order without driving. */
  lemma {:induction false} StayOfPlan(t: Tour, order: seq<nat>, out: seq<OrderedStop>)
    requires AllStops(t, order) && |out| == |order|
    requires forall k :: 0 <= k < |out| ==> Describes(out[k], t.stops[order[k]], k)
    ensures TotalMinutes(out) * MINUTE_MS == TotalStayMs(t, order)
  {
    if order != [] {
      StayOfPlan(t, Front(order), Front(out));
    }
  }

  /** Without anchors the reported minutes are within half a minute of the elapsed time. */
  lemma ReportedMinutesAreClose(t: Tour, startMs: int, order: seq<nat>, head: seq<OrderedStop>, all: seq<OrderedStop>)
    requires Greedy(t, Clock(startMs, 0), order) && |order| > 0 && TimedHead(t, startMs, order, head)
    requires forall i: nat :: !IsAnchor(t, i)
    requires |all| > 0 && EndMs(all) - EndMs(head) == (TotalMinutes(all) - TotalMinutes(head)) * MINUTE_MS
    ensures var reported := RoundToMinutes(TotalDriveSecs(t, order)) + TotalMinutes(all);
      -30_000 <= reported * MINUTE_MS - (EndMs(all) - startMs) <= 30_000
  {
    TimeIsConserved(t, startMs, order);
    StayOfPlan(t, order, head);
    assert order[..|order| - 1] == Front(order);
    assert EndMs(head) == Run(t, Clock(startMs, 0), order).ms;
  }

  function EndWarning(geocoded: seq<bool>): seq<Warning> {
    var rest := Positions(geocoded, false);
    if rest != [] then [PlacedAtEnd(|rest|)] else []
  }

  lemma PlacedHead(stops: seq<Stop>, geocoded: seq<bool>, t: Tour, order: seq<nat>, k: nat)
    requires |stops| == |geocoded| && t == GeocodedTour(stops, geocoded, t.rows) && AllStops(t, order) && k < |order|
    ensures Placement(geocoded, order)[k] < |stops| && t.stops[order[k]] == stops[Placement(geocoded, order)[k]]
  {
    assert Positions(geocoded, true)[order[k]] in Positions(geocoded, true);
  }

  lemma PlacedRest(geocoded: seq<bool>, order: seq<nat>, k: nat)
    requires |order| <= k < |Placement(geocoded, order)|
    ensures Placement(geocoded, order)[k] == Positions(geocoded, false)[k - |order|]
  {
  }

  ghost predicate Assembly(stops: seq<Stop>, geocoded: seq<bool>, t: Tour, startMs: int, order: seq<nat>,
                           head: seq<OrderedStop>, all: seq<OrderedStop>)
  {
    && |stops| == |geocoded| && t == GeocodedTour(stops, geocoded, t.rows)
    && Greedy(t, Clock(startMs, 0), order) && |order| > 0 && AllStops(t, order)
    && TimedHead(t, startMs, order, head)
    && BackToBack(stops, Positions(geocoded, false), head, all) && |all| == |head| + |Positions(geocoded, false)|
  }

  lemma AssembledIsRearranged(stops: seq<Stop>, geocoded: seq<bool>, t: Tour, startMs: int, order: seq<nat>,
                              head: seq<OrderedStop>, all: seq<OrderedStop>)
    requires Assembly(stops, geocoded, t, startMs, order, head, all)
    ensures Rearranged(stops, Placement(geocoded, order), all)
  {
    hide Greedy, ScheduledMs, Placement, Positions, GeocodedTour;
    forall k | 0 <= k < |all|
      ensures Placement(geocoded, order)[k] < |stops| && Describes(all[k], stops[Placement(geocoded, order)[k]], k)
    {
      if k < |order| {
        PlacedHead(stops, geocoded, t, order, k);
        assert all[k] == all[..|head|][k];
      } else {
        PlacedRest(geocoded, order, k);
        assert TailStop(stops, Positions(geocoded, false), |head|, all, k);
      }
    }
  }

  lemma AssembledIsTimed(stops: seq<Stop>, geocoded: seq<bool>, t: Tour, startMs: int, order: seq<nat>,
                         head: seq<OrderedStop>, all: seq<OrderedStop>)
    requires Assembly(stops, geocoded, t, startMs, order, head, all)
    ensures Timed(t, startMs, order, all)
  {
    hide Greedy, ScheduledMs, Positions, GeocodedTour;
    forall k | 0 <= k < |order| ensures all[k].scheduledMs == ScheduledMs(t, Clock(startMs, 0), order, k) {
      assert all[k] == all[..|head|][k] == head[k];
    }
    forall k | |order| <= k < |all| ensures all[k].scheduledMs == EndMs(all[..k]) {
      assert TailStop(stops, Positions(geocoded, false), |head|, all, k);
    }
  }

  /** The two halves of the answer's list make up a planned route. */
  lemma AssembledStops(stops: seq<Stop>, geocoded: seq<bool>, t: Tour, startMs: int, order: seq<nat>,
                       head: seq<OrderedStop>, all: seq<OrderedStop>)
    requires Assembly(stops, geocoded, t, startMs, order, head, all)
    ensures PlannedStops(stops, geocoded, t, startMs, order, all)
  {
    hide Greedy, Placement, Positions, Rearranged, Timed;
    PlacementIsPermutation(t, Clock(startMs, 0), geocoded, order);
    AssembledIsRearranged(stops, geocoded, t, startMs, order, head, all);
    AssembledIsTimed(stops, geocoded, t, startMs, order, head, all);
  }

  /** The path on which all answers arrived. */
  method PlanRoute(stops: seq<Stop>, geocoded: seq<bool>, warnings: seq<Warning>, rows: seq<seq<Leg>>, startMs: int)
    returns (route: Route, ghost order: seq<nat>)
    requires |stops| == |geocoded| && true in geocoded
    ensures PlannedStops(stops, geocoded, GeocodedTour(stops, geocoded, rows), startMs, order, route.orderedStops)
    ensures PlannedTotals(GeocodedTour(stops, geocoded, rows), warnings, startMs, order, route)
  {
    hide GeocodedTour, Positions, Greedy, LateAnchors, TimedHead, BackToBack, PlannedStops, TotalMinutes, EndMs, Run;
    var t, rest := GeocodedTour(stops, geocoded, rows), Positions(geocoded, false);
    var indices, late := RoutePlanner.BuildOrderedIndices(t, startMs);
    order := indices;
    SomethingPlanned(stops, geocoded, rows, startMs, order);
    var head := BuildOrderedStops(t, indices, startMs);
    HeadLength(t, startMs, order, head);
    var all := AppendUngeocoded(stops, rest, head);
    var driveSecs, meters := SumMatrix(t, indices);
    var minutes := StayMinutes(all);
    route := Route(all, TenthsOfMiles(meters), RoundToMinutes(driveSecs) + minutes, warnings + ReachWarnings(t, late));
    AssembledStops(stops, geocoded, t, startMs, order, head, all);
    if forall i: nat :: !IsAnchor(t, i) {
      ReportedMinutesAreClose(t, startMs, indices, head, all);
    }
  }

  /** The whole request. `geocodeWarnings` are those of the geocoding answers. */
  method OptimizeRoute(stops: seq<Stop>, geocoded: seq<bool>, geocodeWarnings: seq<Warning>, originFound: bool,
                       matrix: Option<seq<seq<Leg>>>, startMs: int)
    returns (route: Route, ghost order: seq<nat>)
    requires |stops| == |geocoded|
    ensures stops == [] ==> route == Route([], 0, 0, [NoStops])
    ensures stops != [] && (!originFound || matrix.None? || true !in geocoded) ==>
      && SequentialStops(stops, startMs, route.orderedStops)
      && route.totalDurationMinutes == TotalMinutes(route.orderedStops) && route.totalTenthMiles == 0
      && route.warnings == geocodeWarnings + EndWarning(geocoded) +
           if true !in geocoded then [] else if !originFound then [OriginNotFound] else [MatrixFailed]
    ensures true in geocoded && originFound && matrix.Some? ==>
      var t := GeocodedTour(stops, geocoded, matrix.value);
      && PlannedStops(stops, geocoded, t, startMs, order, route.orderedStops)
      && PlannedTotals(t, geocodeWarnings + EndWarning(geocoded), startMs, order, route)
  {
    order := [];
    if stops == [] {
      route := Route([], 0, 0, [NoStops]);
      return;
    }
    hide PlannedStops, PlannedTotals, SequentialStops, GeocodedTour;
    var warnings := geocodeWarnings + EndWarning(geocoded);
    if true !in geocoded {
      route := FallbackSequential(stops, startMs, warnings);
      assert warnings + [] == warnings;
    } else if !originFound {
      route := FallbackSequential(stops, startMs, warnings + [OriginNotFound]);
    } else if matrix.None? {
      route := FallbackSequential(stops, startMs, warnings + [MatrixFailed]);
    } else {
      route, order := PlanRoute(stops, geocoded, warnings, matrix.value, startMs);
    }
  }
}
