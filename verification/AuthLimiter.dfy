/** The sign-in limiter by address: 20 attempts in 15 minutes, with a cleanup of the store. */
module AuthLimiter {
  import opened Prelude
  import opened SlidingWindow

  const WINDOW_MS := 900_000
  const MAX_ATTEMPTS := 20
  const CLEANUP_SIZE := 10_000

  type Store = map<string, seq<int>>

  function Attempts(store: Store, ip: string): seq<int> {
    if ip in store then store[ip] else []
  }

  predicate AllExpired(ts: seq<int>, now: int) {
    forall k :: 0 <= k < |ts| ==> now - ts[k] >= WINDOW_MS
  }

  /** The store without the addresses all of whose attempts are out of the window. */
  function Cleaned(store: Store, now: int): Store {
    map ip | ip in store && !AllExpired(store[ip], now) :: store[ip]
  }

  /** One check with and without the cleanup. */
  function Attempt(store: Store, ip: string, now: int): (Store, bool) {
    var recent := Active(Attempts(store, ip), now, WINDOW_MS);
    if |recent| >= MAX_ATTEMPTS then (store, false) else (store[ip := recent + [now]], true)
  }

  function AttemptAndClean(store: Store, ip: string, now: int): (Store, bool) {
    var (next, allowed) := Attempt(store, ip, now);
    (if allowed && |next| > CLEANUP_SIZE then Cleaned(next, now) else next, allowed)
  }

  class AuthAttempts {
    var store: Store

    constructor ()
      ensures store == map[]
    {
      store := map[];
    }

    method CheckAuthRateLimit(ip: string, now: int) returns (allowed: bool)
      modifies this
      ensures (store, allowed) == AttemptAndClean(old(store), ip, now)
    {
      var recent := Active(Attempts(store, ip), now, WINDOW_MS);
      if |recent| >= MAX_ATTEMPTS {
        return false;
      }
      store := store[ip := recent + [now]];
      if |store| > CLEANUP_SIZE {
        Cleanup(now);
      }
      allowed := true;
    }

    /** Entries are deleted while the map is iterated. */
    method Cleanup(now: int)
      modifies this
      ensures store == Cleaned(old(store), now)
    {
      ghost var before := store;
      var todo := store.Keys;
      while todo != {}
        invariant todo <= store.Keys <= before.Keys
        invariant forall ip :: ip in store ==> store[ip] == before[ip]
        invariant forall ip :: ip in before && ip !in todo ==> (ip in store <==> !AllExpired(before[ip], now))
        decreases todo
      {
        var ip :| ip in todo;
        todo := todo - {ip};
        if AllExpired(store[ip], now) {
          store := store - {ip};
        }
      }
      assert store.Keys == Cleaned(before, now).Keys;
    }
  }

  // ---- Runs ----

  datatype Timed = Timed(ip: string, now: int)

  ghost predicate ClockIsSane(calls: seq<Timed>) {
    forall j, k :: 0 <= j <= k < |calls| ==> calls[j].now <= calls[k].now
  }

  function Run(calls: seq<Timed>, clean: bool): Store {
    if calls == [] then map[]
    else
      var before, last := Run(Front(calls), clean), Last(calls);
      if clean then AttemptAndClean(before, last.ip, last.now).0 else Attempt(before, last.ip, last.now).0
  }

  /** The decision on the last call of a run. */
  function Decision(calls: seq<Timed>, clean: bool): bool
    requires calls != []
  {
    Attempt(Run(Front(calls), clean), Last(calls).ip, Last(calls).now).1
  }

  ghost predicate SameCounts(a: Store, b: Store, now: int) {
    forall ip, at :: at >= now ==> Active(Attempts(a, ip), at, WINDOW_MS) == Active(Attempts(b, ip), at, WINDOW_MS)
  }

  lemma {:induction false} ExpiredCountsNothing(ts: seq<int>, now: int, at: int)
    requires AllExpired(ts, now) && now <= at
    ensures Active(ts, at, WINDOW_MS) == []
  {
    if ts != [] {
      ExpiredCountsNothing(Front(ts), now, at);
    }
  }

  lemma CleaningKeepsCounts(store: Store, now: int)
    ensures SameCounts(store, Cleaned(store, now), now)
  {
    forall ip, at | at >= now
      ensures Active(Attempts(store, ip), at, WINDOW_MS) == Active(Attempts(Cleaned(store, now), ip), at, WINDOW_MS)
    {
      if ip in store && AllExpired(store[ip], now) {
        ExpiredCountsNothing(store[ip], now, at);
      }
    }
  }

  lemma AttemptKeepsSame(a: Store, b: Store, ip: string, now: int)
    requires SameCounts(a, b, now)
    ensures Attempt(a, ip, now).1 == Attempt(b, ip, now).1
    ensures SameCounts(Attempt(a, ip, now).0, Attempt(b, ip, now).0, now)
  {
    assert Active(Attempts(a, ip), now, WINDOW_MS) == Active(Attempts(b, ip), now, WINDOW_MS);
    var a', b' := Attempt(a, ip, now).0, Attempt(b, ip, now).0;
    forall other, at | at >= now
      ensures Active(Attempts(a', other), at, WINDOW_MS) == Active(Attempts(b', other), at, WINDOW_MS)
    {
      assert Active(Attempts(a, other), at, WINDOW_MS) == Active(Attempts(b, other), at, WINDOW_MS);
    }
  }

  lemma AttemptsAfter(store: Store, ip: string, now: int, key: string)
    ensures var (next, allowed) := Attempt(store, ip, now);
      Attempts(next, key) ==
        if key == ip && allowed then Active(Attempts(store, key), now, WINDOW_MS) + [now] else Attempts(store, key)
  {
  }

  lemma {:induction false} CleanupInvisible(calls: seq<Timed>, now: int)
    requires ClockIsSane(calls) && (calls != [] ==> Last(calls).now <= now)
    ensures SameCounts(Run(calls, false), Run(calls, true), now)
  {
    if calls != [] {
      var front, last := Front(calls), Last(calls);
      assert front != [] ==> Last(front).now <= last.now;
      CleanupInvisible(front, last.now);
      AttemptKeepsSame(Run(front, false), Run(front, true), last.ip, last.now);
      var next := Attempt(Run(front, true), last.ip, last.now).0;
      CleaningKeepsCounts(next, last.now);
      hide Active, Attempt, Cleaned;
    }
  }

  /** The cleanup never changes a decision, now or later. */
  lemma CleanupChangesNoDecision(calls: seq<Timed>)
    requires calls != [] && ClockIsSane(calls)
    ensures Decision(calls, true) == Decision(calls, false)
  {
    var front, last := Front(calls), Last(calls);
    assert front != [] ==> Last(front).now <= last.now;
    CleanupInvisible(front, last.now);
    AttemptKeepsSame(Run(front, false), Run(front, true), last.ip, last.now);
  }

  function AllowedTimes(calls: seq<Timed>, ip: string): seq<int> {
    if calls == [] then []
    else AllowedTimes(Front(calls), ip) + if Last(calls).ip == ip && Decision(calls, true) then [Last(calls).now] else []
  }

  lemma {:induction false} StoreTracksHistory(calls: seq<Timed>, ip: string, now: int)
    requires ClockIsSane(calls) && (calls != [] ==> Last(calls).now <= now)
    ensures Active(Attempts(Run(calls, false), ip), now, WINDOW_MS) == Active(AllowedTimes(calls, ip), now, WINDOW_MS)
  {
    if calls != [] {
      var front, last := Front(calls), Last(calls);
      assert front != [] ==> Last(front).now <= last.now;
      StoreTracksHistory(front, ip, now);
      CleanupChangesNoDecision(calls);
      AttemptsAfter(Run(front, false), last.ip, last.now, ip);
      assert AllowedTimes(front, ip) + [] == AllowedTimes(front, ip);
      hide Attempt, AttemptAndClean, Active, Attempts;
      if last.ip == ip && Decision(calls, true) {
        StoreTracksHistory(front, ip, last.now);
        TrackOne(Attempts(Run(front, false), ip), AllowedTimes(front, ip), last.now, true, now, WINDOW_MS);
      }
    }
  }

  /** An attempt is refused exactly when the last 15 minutes already hold 20 allowed ones. */
  lemma RefusedExactlyWhenFull(calls: seq<Timed>)
    requires calls != [] && ClockIsSane(calls)
    ensures Decision(calls, true) <==> |Active(AllowedTimes(Front(calls), Last(calls).ip), Last(calls).now, 900_000)| < 20
  {
    assert Front(calls) != [] ==> Last(Front(calls)).now <= Last(calls).now;
    CleanupChangesNoDecision(calls);
    StoreTracksHistory(Front(calls), Last(calls).ip, Last(calls).now);
  }

  lemma {:induction false} AllowedInPast(calls: seq<Timed>, ip: string, now: int)
    requires forall k :: 0 <= k < |calls| ==> calls[k].now <= now
    ensures forall t :: t in AllowedTimes(calls, ip) ==> t <= now
  {
    hide Decision;
    if calls != [] {
      AllowedInPast(Front(calls), ip, now);
    }
  }

  lemma {:induction false} HistoryIsAdmitted(calls: seq<Timed>, ip: string)
    requires ClockIsSane(calls)
    ensures Admitted(AllowedTimes(calls, ip), MAX_ATTEMPTS, WINDOW_MS)
  {
    assert Admitted([], MAX_ATTEMPTS, WINDOW_MS);
    hide Decision, Admitted, Active;
    if calls != [] {
      var front, last := Front(calls), Last(calls);
      HistoryIsAdmitted(front, ip);
      if last.ip == ip && Decision(calls, true) {
        RefusedExactlyWhenFull(calls);
        AllowedInPast(front, ip, last.now);
        AdmitOne(AllowedTimes(front, ip), last.now, MAX_ATTEMPTS, WINDOW_MS);
      } else {
        assert AllowedTimes(front, ip) + [] == AllowedTimes(front, ip);
      }
    }
  }

  /** Every half-open quarter of an hour holds at most 20 allowed attempts per address. */
  lemma AtMostTwentyPerWindow(calls: seq<Timed>, ip: string, from: int)
    requires ClockIsSane(calls)
    ensures Count(AllowedTimes(calls, ip), from, from + 900_000) <= 20
  {
    HistoryIsAdmitted(calls, ip);
    WindowBound(AllowedTimes(calls, ip), MAX_ATTEMPTS, WINDOW_MS, from);
  }

  /** One check, in numbers: it is allowed when fewer than twenty attempts of the address are less than a quarter of an hour
      old; other addresses are dropped only by an allowed check that leaves more than ten thousand of them, and then
      exactly those without such an attempt. */
  lemma CheckInNumbers(store: Store, ip: string, now: int, other: string)
    ensures var (next, allowed) := AttemptAndClean(store, ip, now);
      && (allowed <==> |Active(Attempts(store, ip), now, 900_000)| < 20)
      && (!allowed ==> next == store)
      && (allowed ==> ip in next && next[ip] == Active(Attempts(store, ip), now, 900_000) + [now])
      && (other != ip && other in next ==> other in store && next[other] == store[other])
      && (other != ip && other in store && other !in next ==>
            |store.Keys + {ip}| > 10_000 && forall k :: 0 <= k < |store[other]| ==> now - store[other][k] >= 900_000)
      && (allowed && |store.Keys + {ip}| > 10_000 && other != ip && other in next ==>
            exists k :: 0 <= k < |store[other]| && now - store[other][k] < 900_000)
  {
    var recent := Active(Attempts(store, ip), now, 900_000);
    var next := store[ip := recent + [now]];
    assert next.Keys == store.Keys + {ip};
    assert |next| == |next.Keys|;
    assert next[ip][|recent|] == now;
  }

  /** The runs are those of the limiter: it starts empty and each call makes one check, with the cleanup or without. */
  lemma RunsAreChecks(calls: seq<Timed>, t: Timed)
    ensures Run([], true) == map[] == Run([], false)
    ensures (Run(calls + [t], true), Decision(calls + [t], true)) == AttemptAndClean(Run(calls, true), t.ip, t.now)
    ensures (Run(calls + [t], false), Decision(calls + [t], false)) == Attempt(Run(calls, false), t.ip, t.now)
  {
    assert Front(calls + [t]) == calls;
  }
}
