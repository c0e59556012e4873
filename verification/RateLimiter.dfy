/** The per-minute limiters of integrations: the in-memory lists and the server-side sorted sets. */
module RateLimiter {
  import opened Prelude
  import opened SlidingWindow

  const WINDOW_MS := 60_000
  /** EXPIRE key 120. */
  const KEY_TTL_MS := 120_000
  const DEFAULT_LIMIT := 60

  datatype Entry = Entry(timestamps: seq<int>, warningLogged: bool)

  datatype RateLimitCheck = RateLimitCheck(allowed: bool, remaining: int, resetsAt: int)

  function Key(tenantId: string, integrationId: string): string {
    tenantId + ":" + integrationId
  }

  lemma NoColonAfter(tenantId: string, integrationId: string)
    requires ':' !in integrationId
    ensures forall n :: |tenantId| < n < |Key(tenantId, integrationId)| ==> Key(tenantId, integrationId)[n] != ':'
  {
  }

  /** Keys do not collide: integration names hold no colon. */
  lemma KeyIsInjective(t1: string, i1: string, t2: string, i2: string)
    requires Key(t1, i1) == Key(t2, i2) && ':' !in i1 && ':' !in i2
    ensures t1 == t2 && i1 == i2
  {
    var s := Key(t1, i1);
    NoColonAfter(t1, i1);
    NoColonAfter(t2, i2);
    assert s[|t1|] == ':' && s[|t2|] == ':';
    assert s[..|t1|] == t1 && s[..|t2|] == t2 && s[|t1| + 1..] == i1 && s[|t2| + 1..] == i2;
  }

  // ---- The two implementations as functions of their state ----

  datatype Call =
    | Check(key: string, integration: string, limit: Option<int>)
    | Remaining(key: string, limit: Option<int>)
    | Reset(key: string)
    | SetLimit(integration: string, newLimit: int)

  datatype Answer = Checked(allowed: bool, remaining: int) | Left(remaining: int) | Done

  datatype Memory = Memory(windows: map<string, Entry>, overrides: map<string, int>)

  function LimitOf(overrides: map<string, int>, integration: string, limit: Option<int>): int {
    if integration in overrides then overrides[integration] else limit.GetOr(DEFAULT_LIMIT)
  }

  function Times(m: Memory, key: string): seq<int> {
    if key in m.windows then m.windows[key].timestamps else []
  }

  /** Math.ceil(limit * 0.2). */
  function WarnAt(limit: int): int {
    -((-limit) / 5)
  }

  function CheckMemory(m: Memory, key: string, limit: int, now: int): (Memory, Answer) {
    var warned := key in m.windows && m.windows[key].warningLogged;
    var active := Active(Times(m, key), now, WINDOW_MS);
    var remaining := limit - |active|;
    if remaining <= 0 then (m.(windows := m.windows[key := Entry(active, warned)]), Checked(false, 0))
    else (m.(windows := m.windows[key := Entry(active + [now], remaining <= WarnAt(limit))]), Checked(true, remaining - 1))
  }

  function MemoryStep(m: Memory, call: Call, now: int): (Memory, Answer) {
    match call
    case Check(key, integration, limit) => CheckMemory(m, key, LimitOf(m.overrides, integration, limit), now)
    case Remaining(key, limit) =>
      var l := limit.GetOr(DEFAULT_LIMIT);
      (m, Left(if key in m.windows then Max(0, l - |Active(Times(m, key), now, WINDOW_MS)|) else l))
    case Reset(key) => (m.(windows := m.windows - {key}), Done)
    case SetLimit(integration, newLimit) => (m.(overrides := m.overrides[integration := newLimit]), Done)
  }

  /** A sorted set: its scores in order, and when the server drops the key. */
  datatype ZSet = ZSet(scores: seq<int>, expireAt: int)

  datatype Server = Server(sets: map<string, ZSet>, overrides: map<string, int>)

  /** What a command sees; from its expiry on a key may be gone at any moment. */
  function Seen(s: Server, key: string, now: int, dropped: bool): seq<int> {
    if key in s.sets && !(dropped && now >= s.sets[key].expireAt) then s.sets[key].scores else []
  }

  /** ZREMRANGEBYSCORE key 0 max. */
  function RemoveUpTo(scores: seq<int>, max: int): (r: seq<int>)
    ensures |r| <= |scores| && forall t :: t in r <==> t in scores && !(0 <= t <= max)
  {
    if scores == [] then []
    else if 0 <= Last(scores) <= max then RemoveUpTo(Front(scores), max)
    else RemoveUpTo(Front(scores), max) + [Last(scores)]
  }

  /** Storing what is left; an empty set is no key, and the expiry stands unless it is renewed. */
  function Store(s: Server, key: string, scores: seq<int>, expireAt: int): Server {
    s.(sets := if scores == [] then s.sets - {key} else s.sets[key := ZSet(scores, expireAt)])
  }

  function ExpireAt(s: Server, key: string): int {
    if key in s.sets then s.sets[key].expireAt else 0
  }

  function ServerStep(s: Server, call: Call, now: int, dropped: bool): (Server, Answer) {
    match call
    case Check(key, integration, limit) =>
      var l := LimitOf(s.overrides, integration, limit);
      var kept := RemoveUpTo(Seen(s, key, now, dropped), now - WINDOW_MS);
      if |kept| >= l then (Store(s, key, kept, ExpireAt(s, key)), Checked(false, Max(0, l - |kept|)))
      else (Store(s, key, kept + [now], now + KEY_TTL_MS), Checked(true, Max(0, l - (|kept| + 1))))
    case Remaining(key, limit) =>
      var kept := RemoveUpTo(Seen(s, key, now, dropped), now - WINDOW_MS);
      (Store(s, key, kept, ExpireAt(s, key)), Left(Max(0, limit.GetOr(DEFAULT_LIMIT) - |kept|)))
    case Reset(key) => (s.(sets := s.sets - {key}), Done)
    case SetLimit(integration, newLimit) => (s.(overrides := s.overrides[integration := newLimit]), Done)
  }

  // ---- The classes ----

  class InMemoryRateLimiter {
    var windows: map<string, Entry>
    var limitOverrides: map<string, int>

    ghost function State(): Memory
      reads this
    {
      Memory(windows, limitOverrides)
    }

    constructor ()
      ensures State() == Memory(map[], map[])
    {
      windows, limitOverrides := map[], map[];
    }

    method CheckLimit(tenantId: string, integrationId: string, limitPerMinute: Option<int>, now: int)
      returns (r: RateLimitCheck)
      modifies this
      ensures (State(), Checked(r.allowed, r.remaining))
        == MemoryStep(old(State()), Check(Key(tenantId, integrationId), integrationId, limitPerMinute), now)
      ensures var active := Active(Times(old(State()), Key(tenantId, integrationId)), now, WINDOW_MS);
        r.resetsAt == (if active != [] && active[0] != 0 then active[0] else now) + WINDOW_MS
    {
      var limit := LimitOf(limitOverrides, integrationId, limitPerMinute);
      var key := Key(tenantId, integrationId);
      var entry := if key in windows then windows[key] else Entry([], false);
      var timestamps := Active(entry.timestamps, now, WINDOW_MS);
      entry := entry.(timestamps := timestamps);
      windows := windows[key := entry];
      var remaining := limit - |timestamps|;
      var resetsAt := if timestamps != [] && timestamps[0] != 0 then timestamps[0] + WINDOW_MS else now + WINDOW_MS;
      if remaining <= 0 {
        assert timestamps == Active(Times(old(State()), key), now, WINDOW_MS);
        return RateLimitCheck(false, 0, resetsAt);
      }
      if !entry.warningLogged && remaining <= WarnAt(limit) {
        entry := entry.(warningLogged := true);
      } else if remaining > WarnAt(limit) {
        entry := entry.(warningLogged := false);
      }
      windows := windows[key := entry.(timestamps := timestamps + [now])];
      assert windows == old(windows)[key := Entry(timestamps + [now], remaining <= WarnAt(limit))];
      r := RateLimitCheck(true, remaining - 1, resetsAt);
    }

    method SetLimit(integrationId: string, limitPerMinute: int)
      modifies this
      ensures State() == MemoryStep(old(State()), Call.SetLimit(integrationId, limitPerMinute), 0).0
    {
      limitOverrides := limitOverrides[integrationId := limitPerMinute];
    }

    method GetRemainingCalls(tenantId: string, integrationId: string, limitPerMinute: Option<int>, now: int) returns (left: int)
      ensures (State(), Left(left)) == MemoryStep(State(), Remaining(Key(tenantId, integrationId), limitPerMinute), now)
    {
      var key := Key(tenantId, integrationId);
      if key !in windows {
        return limitPerMinute.GetOr(DEFAULT_LIMIT);
      }
      var active := Active(windows[key].timestamps, now, WINDOW_MS);
      left := Max(0, limitPerMinute.GetOr(DEFAULT_LIMIT) - |active|);
    }

    method Reset(tenantId: string, integrationId: string)
      modifies this
      ensures State() == MemoryStep(old(State()), Call.Reset(Key(tenantId, integrationId)), 0).0
    {
      windows := windows - {Key(tenantId, integrationId)};
    }
  }

  /** The limiter whose lists live on the server; `dropped` is what the server has done to a due key. */
  class RedisRateLimiter {
    var sets: map<string, ZSet>
    var limitOverrides: map<string, int>

    ghost function State(): Server
      reads this
    {
      Server(sets, limitOverrides)
    }

    constructor ()
      ensures State() == Server(map[], map[])
    {
      sets, limitOverrides := map[], map[];
    }

    /** The script runs as one step. */
    method CheckLimit(tenantId: string, integrationId: string, limitPerMinute: Option<int>, now: int, dropped: bool)
      returns (r: RateLimitCheck)
      modifies this
      ensures (State(), Checked(r.allowed, r.remaining))
        == ServerStep(old(State()), Check(Key(tenantId, integrationId), integrationId, limitPerMinute), now, dropped)
      ensures r.resetsAt == now + WINDOW_MS
    {
      var limit := LimitOf(limitOverrides, integrationId, limitPerMinute);
      var key := Key(tenantId, integrationId);
      var expiry := if key in sets then sets[key].expireAt else 0;
      var scores := if key in sets && !(dropped && now >= expiry) then sets[key].scores else [];
      scores := RemoveUpTo(scores, now - WINDOW_MS);
      var count := |scores|;
      var allowed := count < limit;
      if allowed {
        scores := scores + [now];
        expiry := now + KEY_TTL_MS;
        count := count + 1;
      }
      sets := if scores == [] then sets - {key} else sets[key := ZSet(scores, expiry)];
      r := RateLimitCheck(allowed, Max(0, limit - count), now + WINDOW_MS);
    }

    method GetRemainingCalls(tenantId: string, integrationId: string, limitPerMinute: Option<int>, now: int, dropped: bool)
      returns (left: int)
      modifies this
      ensures (State(), Left(left))
        == ServerStep(old(State()), Remaining(Key(tenantId, integrationId), limitPerMinute), now, dropped)
    {
      var key := Key(tenantId, integrationId);
      var expiry := if key in sets then sets[key].expireAt else 0;
      var scores := if key in sets && !(dropped && now >= expiry) then sets[key].scores else [];
      scores := RemoveUpTo(scores, now - WINDOW_MS);
      sets := if scores == [] then sets - {key} else sets[key := ZSet(scores, expiry)];
      left := Max(0, limitPerMinute.GetOr(DEFAULT_LIMIT) - |scores|);
    }

    method Reset(tenantId: string, integrationId: string)
      modifies this
      ensures State() == ServerStep(old(State()), Call.Reset(Key(tenantId, integrationId)), 0, false).0
    {
      sets := sets - {Key(tenantId, integrationId)};
    }

    method SetLimit(integrationId: string, limit: int)
      modifies this
      ensures State() == ServerStep(old(State()), Call.SetLimit(integrationId, limit), 0, false).0
    {
      limitOverrides := limitOverrides[integrationId := limit];
    }
  }

  // ---- Runs ----

  /** A call, when it is made, and whether the server has by then dropped a key that is due. */
  datatype Timed = Timed(call: Call, now: int, dropped: bool)

  ghost predicate ClockIsSane(calls: seq<Timed>) {
    && (forall k :: 0 <= k < |calls| ==> 0 <= calls[k].now)
    && (forall j, k :: 0 <= j <= k < |calls| ==> calls[j].now <= calls[k].now)
  }

  function MemoryRun(calls: seq<Timed>): Memory {
    if calls == [] then Memory(map[], map[])
    else MemoryStep(MemoryRun(Front(calls)), Last(calls).call, Last(calls).now).0
  }

  function MemoryAnswer(calls: seq<Timed>): Answer
    requires calls != []
  {
    MemoryStep(MemoryRun(Front(calls)), Last(calls).call, Last(calls).now).1
  }

  function ServerRun(calls: seq<Timed>): Server {
    if calls == [] then Server(map[], map[])
    else ServerStep(ServerRun(Front(calls)), Last(calls).call, Last(calls).now, Last(calls).dropped).0
  }

  function ServerAnswer(calls: seq<Timed>): Answer
    requires calls != []
  {
    ServerStep(ServerRun(Front(calls)), Last(calls).call, Last(calls).now, Last(calls).dropped).1
  }

  /** The times of the allowed calls for a key. */
  function AllowedTimes(calls: seq<Timed>, key: string): seq<int> {
    if calls == [] then []
    else
      AllowedTimes(Front(calls), key) +
      if Last(calls).call.Check? && Last(calls).call.key == key && MemoryAnswer(calls).allowed then [Last(calls).now] else []
  }

  /** What one call does to the list of a key. */
  lemma TimesAfter(m: Memory, call: Call, now: int, key: string)
    ensures var (m', a) := MemoryStep(m, call, now); var active := Active(Times(m, key), now, WINDOW_MS);
      Times(m', key) ==
        if call == Call.Reset(key) then []
        else if call.Check? && call.key == key then active + (if a.allowed then [now] else [])
        else Times(m, key)
    ensures var a := MemoryStep(m, call, now).1;
      call.Check? ==> a.Checked? && (a.allowed <==> |Active(Times(m, call.key), now, WINDOW_MS)| < LimitOf(m.overrides, call.integration, call.limit))
  {
  }

  // ---- The bound ----

  ghost predicate NeverReset(calls: seq<Timed>, key: string) {
    forall k :: 0 <= k < |calls| ==> calls[k].call != Call.Reset(key)
  }

  /** The key's checks all see the same limit. */
  ghost predicate FixedLimit(calls: seq<Timed>, key: string, limit: int) {
    forall k :: 0 <= k < |calls| && calls[k].call.Check? && calls[k].call.key == key ==>
      LimitOf(MemoryRun(calls[..k]).overrides, calls[k].call.integration, calls[k].call.limit) == limit
  }

  lemma {:induction false} AllowedInPast(calls: seq<Timed>, key: string, now: int)
    requires forall k :: 0 <= k < |calls| ==> calls[k].now <= now
    ensures forall t :: t in AllowedTimes(calls, key) ==> t <= now
  {
    if calls != [] {
      AllowedInPast(Front(calls), key, now);
    }
  }

  /** What the list holds for a key counts exactly the allowed calls of the last minute. */
  lemma {:induction false} ListTracksHistory(calls: seq<Timed>, key: string, now: int)
    requires ClockIsSane(calls) && NeverReset(calls, key)
    requires calls != [] ==> Last(calls).now <= now
    ensures Active(Times(MemoryRun(calls), key), now, WINDOW_MS) == Active(AllowedTimes(calls, key), now, WINDOW_MS)
  {
    if calls != [] {
      var front, last := Front(calls), Last(calls);
      assert front != [] ==> Last(front).now <= last.now;
      ListTracksHistory(front, key, now);
      TimesAfter(MemoryRun(front), last.call, last.now, key);
      assert last.call != Call.Reset(key);
      assert AllowedTimes(front, key) + [] == AllowedTimes(front, key);
      hide MemoryStep, Active, NeverReset, Times;
      if last.call.Check? && last.call.key == key {
        ListTracksHistory(front, key, last.now);
        TrackOne(Times(MemoryRun(front), key), AllowedTimes(front, key), last.now, MemoryAnswer(calls).allowed, now, WINDOW_MS);
      }
    }
  }

  /** A call is refused exactly when the last minute already holds `limit` allowed calls. */
  lemma RefusedExactlyWhenFull(calls: seq<Timed>, key: string, limit: int)
    requires calls != [] && ClockIsSane(calls) && NeverReset(calls, key) && FixedLimit(calls, key, limit)
    requires Last(calls).call.Check? && Last(calls).call.key == key
    ensures MemoryAnswer(calls).allowed <==> |Active(AllowedTimes(Front(calls), key), Last(calls).now, WINDOW_MS)| < limit
  {
    assert calls[..|calls| - 1] == Front(calls);
    ListTracksHistory(Front(calls), key, Last(calls).now);
    TimesAfter(MemoryRun(Front(calls)), Last(calls).call, Last(calls).now, key);
    hide MemoryStep;
  }

  lemma {:induction false} HistoryIsAdmitted(calls: seq<Timed>, key: string, limit: int)
    requires ClockIsSane(calls) && NeverReset(calls, key) && FixedLimit(calls, key, limit)
    ensures Admitted(AllowedTimes(calls, key), limit, WINDOW_MS)
  {
    if calls != [] {
      var front := Front(calls);
      assert forall k :: 0 <= k < |front| ==> front[..k] == calls[..k];
      HistoryIsAdmitted(front, key, limit);
      hide MemoryStep, Admitted, Active, FixedLimit, NeverReset;
      var ts := AllowedTimes(front, key);
      assert ts + [] == ts;
      if Last(calls).call.Check? && Last(calls).call.key == key && MemoryAnswer(calls).allowed {
        RefusedExactlyWhenFull(calls, key, limit);
        AllowedInPast(front, key, Last(calls).now);
        AdmitOne(ts, Last(calls).now, limit, WINDOW_MS);
      }
    }
  }

  /** Over any run with a fixed limit, every half-open minute holds at most `limit` allowed calls. */
  lemma AtMostLimitPerMinute(calls: seq<Timed>, key: string, limit: nat, from: int)
    requires ClockIsSane(calls) && NeverReset(calls, key) && FixedLimit(calls, key, limit)
    ensures Count(AllowedTimes(calls, key), from, from + WINDOW_MS) <= limit
  {
    HistoryIsAdmitted(calls, key, limit);
    WindowBound(AllowedTimes(calls, key), limit, WINDOW_MS, from);
  }

  // ---- The server-side limiter refines the in-memory one ----

  /** Scores are past times, and the key outlives each of them by its whole time to live. */
  ghost predicate ScoresCovered(z: ZSet, now: int) {
    forall t :: t in z.scores ==> 0 <= t <= now && t <= z.expireAt - KEY_TTL_MS
  }

  ghost predicate Related(m: Memory, s: Server, now: int) {
    && m.overrides == s.overrides
    && (forall key :: key in s.sets ==> ScoresCovered(s.sets[key], now))
    && (forall key, at :: at >= now ==>
         Active(Times(m, key), at, WINDOW_MS) == Active(Scores(s, key), at, WINDOW_MS))
  }

  lemma {:induction false} RemoveIsActive(scores: seq<int>, now: int)
    requires forall t :: t in scores ==> t >= 0
    ensures RemoveUpTo(scores, now - WINDOW_MS) == Active(scores, now, WINDOW_MS)
  {
    if scores != [] {
      assert Last(scores) in scores;
      assert forall t :: t in Front(scores) ==> t in scores;
      RemoveIsActive(Front(scores), now);
    }
  }

  lemma {:induction false} NothingActive(scores: seq<int>, now: int)
    requires forall t :: t in scores ==> now - t >= WINDOW_MS
    ensures Active(scores, now, WINDOW_MS) == []
  {
    if scores != [] {
      assert Last(scores) in scores;
      assert forall t :: t in Front(scores) ==> t in scores;
      NothingActive(Front(scores), now);
    }
  }

  /** The expiry never takes an entry that still counts. */
  lemma SeenIsActive(m: Memory, s: Server, now: int, key: string, dropped: bool)
    requires Related(m, s, now)
    ensures RemoveUpTo(Seen(s, key, now, dropped), now - WINDOW_MS) == Active(Times(m, key), now, WINDOW_MS)
  {
    if key in s.sets {
      var z := s.sets[key];
      assert ScoresCovered(z, now);
      RemoveIsActive(z.scores, now);
      if now >= z.expireAt {
        NothingActive(z.scores, now);
      }
    }
  }

  function Scores(s: Server, key: string): seq<int> {
    if key in s.sets then s.sets[key].scores else []
  }

  /** What one call does to the sorted set of a key. */
  lemma ScoresAfter(m: Memory, s: Server, t: Timed, key: string)
    requires Related(m, s, t.now)
    ensures var (s', a) := ServerStep(s, t.call, t.now, t.dropped); var active := Active(Times(m, key), t.now, WINDOW_MS);
      Scores(s', key) ==
        if t.call == Call.Reset(key) then []
        else if t.call.Check? && t.call.key == key then
          active + (if |active| < LimitOf(s.overrides, t.call.integration, t.call.limit) then [t.now] else [])
        else if t.call.Remaining? && t.call.key == key then active
        else Scores(s, key)
  {
    if t.call.Check? || t.call.Remaining? {
      SeenIsActive(m, s, t.now, t.call.key, t.dropped);
    }
  }

  lemma ExpiriesStand(m: Memory, s: Server, t: Timed, key: string)
    requires Related(m, s, t.now) && t.now >= 0
    requires key in ServerStep(s, t.call, t.now, t.dropped).0.sets
    ensures ScoresCovered(ServerStep(s, t.call, t.now, t.dropped).0.sets[key], t.now)
  {
    hide Active;
    if key in s.sets {
      assert ScoresCovered(s.sets[key], t.now);
    }
  }

  lemma StepKeepsRelated(m: Memory, s: Server, t: Timed)
    requires Related(m, s, t.now) && t.now >= 0
    ensures Related(MemoryStep(m, t.call, t.now).0, ServerStep(s, t.call, t.now, t.dropped).0, t.now)
  {
    var m', s' := MemoryStep(m, t.call, t.now).0, ServerStep(s, t.call, t.now, t.dropped).0;
    assert m'.overrides == s'.overrides;
    hide MemoryStep, ServerStep;
    forall key, at | at >= t.now
      ensures Active(Times(m', key), at, WINDOW_MS) == Active(Scores(s', key), at, WINDOW_MS)
    {
      TimesAfter(m, t.call, t.now, key);
      ScoresAfter(m, s, t, key);
      ActiveTwice(Times(m, key), t.now, at, WINDOW_MS);
    }
    forall key | key in s'.sets ensures ScoresCovered(s'.sets[key], t.now) {
      ExpiriesStand(m, s, t, key);
    }
  }

  lemma {:induction false} RunsAreRelated(calls: seq<Timed>, now: int)
    requires ClockIsSane(calls) && (calls != [] ==> Last(calls).now <= now)
    ensures Related(MemoryRun(calls), ServerRun(calls), now)
  {
    if calls != [] {
      assert Front(calls) != [] ==> Last(Front(calls)).now <= Last(calls).now;
      RunsAreRelated(Front(calls), Last(calls).now);
      StepKeepsRelated(MemoryRun(Front(calls)), ServerRun(Front(calls)), Last(calls));
    }
  }

  lemma SameAnswer(m: Memory, s: Server, t: Timed)
    requires Related(m, s, t.now)
    ensures ServerStep(s, t.call, t.now, t.dropped).1 == MemoryStep(m, t.call, t.now).1 <==>
      !(t.call.Remaining? && t.call.key !in m.windows && t.call.limit.GetOr(DEFAULT_LIMIT) < 0)
  {
    if t.call.Check? || t.call.Remaining? {
      SeenIsActive(m, s, t.now, t.call.key, t.dropped);
      assert t.call.key !in m.windows ==> Active(Times(m, t.call.key), t.now, WINDOW_MS) == [];
    }
    assert m.overrides == s.overrides;
    hide Active, RemoveUpTo, Seen, Related, Store;
  }

  /** On the same calls and clock, whenever the server drops its due keys, both limiters answer alike;
      the one exception is asking an unused key what is left of a negative limit. */
  lemma SameAnswersExactly(calls: seq<Timed>)
    requires calls != [] && ClockIsSane(calls)
    ensures var last := Last(calls).call;
      ServerAnswer(calls) == MemoryAnswer(calls) <==>
        !(last.Remaining? && last.key !in MemoryRun(Front(calls)).windows && last.limit.GetOr(DEFAULT_LIMIT) < 0)
  {
    assert Front(calls) != [] ==> Last(Front(calls)).now <= Last(calls).now;
    RunsAreRelated(Front(calls), Last(calls).now);
    hide MemoryRun, ServerRun, MemoryStep, ServerStep;
    SameAnswer(MemoryRun(Front(calls)), ServerRun(Front(calls)), Last(calls));
  }

  /** The times of the calls the server-side limiter allows for a key. */
  function ServerAllowedTimes(calls: seq<Timed>, key: string): seq<int> {
    if calls == [] then []
    else
      ServerAllowedTimes(Front(calls), key) +
      if Last(calls).call.Check? && Last(calls).call.key == key && ServerAnswer(calls).Checked? && ServerAnswer(calls).allowed
      then [Last(calls).now] else []
  }

  lemma {:induction false} ServerAllowsTheSame(calls: seq<Timed>, key: string)
    requires ClockIsSane(calls)
    ensures ServerAllowedTimes(calls, key) == AllowedTimes(calls, key)
  {
    if calls != [] {
      ServerAllowsTheSame(Front(calls), key);
      SameAnswersExactly(calls);
      TimesAfter(MemoryRun(Front(calls)), Last(calls).call, Last(calls).now, key);
      hide MemoryRun, ServerRun, MemoryStep, ServerStep;
    }
  }

  /** So the bound holds for the server-side limiter too, although it forgets keys after two minutes. */
  lemma ServerAtMostLimitPerMinute(calls: seq<Timed>, key: string, limit: nat, from: int)
    requires ClockIsSane(calls) && NeverReset(calls, key) && FixedLimit(calls, key, limit)
    ensures Count(ServerAllowedTimes(calls, key), from, from + WINDOW_MS) <= limit
  {
    ServerAllowsTheSame(calls, key);
    AtMostLimitPerMinute(calls, key, limit, from);
  }

  // ---- Asking what is left takes two commands ----

  lemma {:induction false} RemovingShrinks(scores: seq<int>, max: int, at: int)
    ensures |Active(RemoveUpTo(scores, max), at, WINDOW_MS)| <= |Active(scores, at, WINDOW_MS)|
  {
    if scores != [] {
      RemovingShrinks(Front(scores), max, at);
      ActiveAppend(RemoveUpTo(Front(scores), max), Last(scores), at, WINDOW_MS);
    }
  }

  lemma ScoresStep(s: Server, t: Timed, key: string)
    ensures var (s', a) := ServerStep(s, t.call, t.now, t.dropped);
      var kept := RemoveUpTo(Seen(s, key, t.now, t.dropped), t.now - WINDOW_MS);
      Scores(s', key) ==
        if t.call == Call.Reset(key) then []
        else if t.call.Check? && t.call.key == key then kept + (if a.Checked? && a.allowed then [t.now] else [])
        else if t.call.Remaining? && t.call.key == key then kept
        else Scores(s, key)
  {
  }

  lemma SeenShrinks(s: Server, t: Timed, key: string, at: int)
    ensures |Active(RemoveUpTo(Seen(s, key, t.now, t.dropped), t.now - WINDOW_MS), at, WINDOW_MS)|
         <= |Active(Scores(s, key), at, WINDOW_MS)|
  {
    RemovingShrinks(Seen(s, key, t.now, t.dropped), t.now - WINDOW_MS, at);
  }

  /** The sorted set holds no more recent times than there were allowed calls. */
  lemma {:induction false} ScoresWereAllowed(calls: seq<Timed>, key: string, at: int)
    ensures |Active(Scores(ServerRun(calls), key), at, WINDOW_MS)| <= |Active(ServerAllowedTimes(calls, key), at, WINDOW_MS)|
  {
    if calls != [] {
      ScoresWereAllowed(Front(calls), key, at);
      var s, last, ts := ServerRun(Front(calls)), Last(calls), ServerAllowedTimes(Front(calls), key);
      SeenShrinks(s, last, key, at);
      ScoresStep(s, last, key);
      var kept := RemoveUpTo(Seen(s, key, last.now, last.dropped), last.now - WINDOW_MS);
      assert kept + [] == kept;
      hide RemoveUpTo, Seen, ServerStep, Active;
      ActiveAppend(kept, last.now, at, WINDOW_MS);
      ActiveAppend(ts, last.now, at, WINDOW_MS);
      assert ts + [] == ts;
    }
  }

  /** From the pruning on, the key's sorted set only holds times of less than a minute before it. */
  lemma {:induction false} PrunedStaysPruned(calls: seq<Timed>, k: nat, key: string)
    requires ClockIsSane(calls) && k < |calls| && calls[k].call.Remaining? && calls[k].call.key == key
    ensures forall t :: t in Scores(ServerRun(calls), key) ==> calls[k].now - t < WINDOW_MS
  {
    var front, last := Front(calls), Last(calls);
    assert front != [] ==> Last(front).now <= last.now;
    ScoresStep(ServerRun(front), last, key);
    RunsAreRelated(front, last.now);
    assert key in ServerRun(front).sets ==> ScoresCovered(ServerRun(front).sets[key], last.now);
    hide ServerStep;
    if k < |front| {
      PrunedStaysPruned(front, k, key);
    }
  }

  /** The pruning is calls[k], any calls of other clients follow, the counting comes last. What is counted lies
      between the calls that still count by then and those allowed since a minute before the pruning. */
  lemma SplitCountIsBracketed(calls: seq<Timed>, k: nat, key: string, now: int, dropped: bool)
    requires ClockIsSane(calls) && k < |calls| && calls[k].call.Remaining? && calls[k].call.key == key
    requires Last(calls).now <= now
    ensures |Active(Times(MemoryRun(calls), key), now, WINDOW_MS)| <= |Seen(ServerRun(calls), key, now, dropped)|
    ensures |Seen(ServerRun(calls), key, now, dropped)| <= |Active(AllowedTimes(calls, key), calls[k].now, WINDOW_MS)|
  {
    RunsAreRelated(calls, now);
    SeenIsActive(MemoryRun(calls), ServerRun(calls), now, key, dropped);
    PrunedStaysPruned(calls, k, key);
    AllActive(Scores(ServerRun(calls), key), calls[k].now);
    ScoresWereAllowed(calls, key, calls[k].now);
    ServerAllowsTheSame(calls, key);
  }

  lemma {:induction false} AllActive(scores: seq<int>, at: int)
    requires forall t :: t in scores ==> at - t < WINDOW_MS
    ensures Active(scores, at, WINDOW_MS) == scores
  {
    if scores != [] {
      assert Last(scores) in scores && forall t :: t in Front(scores) ==> t in scores;
      AllActive(Front(scores), at);
    }
  }

  // ---- Which limit counts ----

  /** The call sets the limit of the integration. */
  predicate Sets(call: Call, integration: string) {
    call.SetLimit? && call.integration == integration
  }

  lemma {:induction false} NeverSet(calls: seq<Timed>, integration: string)
    requires forall k :: 0 <= k < |calls| ==> !Sets(calls[k].call, integration)
    ensures integration !in MemoryRun(calls).overrides
  {
    if calls != [] {
      NeverSet(Front(calls), integration);
      assert !Sets(calls[|calls| - 1].call, integration);
    }
  }

  lemma {:induction false} LastSet(calls: seq<Timed>, integration: string, n: int, p: nat)
    requires p < |calls| && calls[p].call == Call.SetLimit(integration, n)
    requires forall k :: p < k < |calls| ==> !Sets(calls[k].call, integration)
    ensures integration in MemoryRun(calls).overrides && MemoryRun(calls).overrides[integration] == n
  {
    if p < |calls| - 1 {
      LastSet(Front(calls), integration, n, p);
      assert !Sets(calls[|calls| - 1].call, integration);
    }
  }

  /** The limit a check works with: the one set last for its integration, else the one it passes, else 60. */
  ghost predicate Effective(before: seq<Timed>, call: Call, n: int) {
    call.Check? &&
      if exists k :: 0 <= k < |before| && Sets(before[k].call, call.integration) then
        exists p :: (
          && 0 <= p < |before| && before[p].call == Call.SetLimit(call.integration, n)
          && forall k :: p < k < |before| ==> !Sets(before[k].call, call.integration))
      else call.limit == Some(n) || (call.limit == None && n == 60)
  }

  lemma EffectiveIsLimit(before: seq<Timed>, call: Call, n: int)
    requires Effective(before, call, n)
    ensures LimitOf(MemoryRun(before).overrides, call.integration, call.limit) == n
  {
    hide MemoryRun;
    if exists k :: 0 <= k < |before| && Sets(before[k].call, call.integration) {
      var p :| 0 <= p < |before| && before[p].call == Call.SetLimit(call.integration, n)
        && forall k :: p < k < |before| ==> !Sets(before[k].call, call.integration);
      LastSet(before, call.integration, n, p);
    } else {
      NeverSet(before, call.integration);
    }
  }

  /** The answer to a check, of both limiters: allowed exactly when the last minute holds fewer allowed calls than the
      effective limit, and then what is left after this one. */
  lemma AnswerInWords(calls: seq<Timed>, key: string, n: int)
    requires calls != [] && ClockIsSane(calls) && NeverReset(calls, key) && Last(calls).call.Check? && Last(calls).call.key == key
    requires Effective(Front(calls), Last(calls).call, n)
    ensures var used := |Active(AllowedTimes(Front(calls), key), Last(calls).now, 60_000)|;
      && MemoryAnswer(calls) == (if used < n then Checked(true, n - used - 1) else Checked(false, 0))
      && ServerAnswer(calls) == MemoryAnswer(calls)
  {
    assert Front(calls) != [] ==> Last(Front(calls)).now <= Last(calls).now;
    EffectiveIsLimit(Front(calls), Last(calls).call, n);
    ListTracksHistory(Front(calls), key, Last(calls).now);
    SameAnswersExactly(calls);
    hide MemoryRun, ServerRun, Effective, NeverReset, Active;
  }

  /** Nothing set and a limit passed: that limit decides. */
  lemma PassedLimitDecides(calls: seq<Timed>, key: string, integration: string, n: int)
    requires calls != [] && ClockIsSane(calls) && NeverReset(calls, key)
    requires Last(calls).call == Check(key, integration, Some(n))
    requires forall k :: 0 <= k < |calls| ==> !(calls[k].call.SetLimit? && calls[k].call.integration == integration)
    ensures MemoryAnswer(calls).Checked? && ServerAnswer(calls).Checked?
    ensures MemoryAnswer(calls).allowed <==> |Active(AllowedTimes(Front(calls), key), Last(calls).now, 60_000)| < n
    ensures ServerAnswer(calls).allowed <==> |Active(AllowedTimes(Front(calls), key), Last(calls).now, 60_000)| < n
  {
    AnswerInWords(calls, key, n);
  }

  /** Nothing set and nothing passed: sixty calls a minute. */
  lemma SixtyByDefault(calls: seq<Timed>, key: string, integration: string)
    requires calls != [] && ClockIsSane(calls) && NeverReset(calls, key)
    requires Last(calls).call == Check(key, integration, None)
    requires forall k :: 0 <= k < |calls| ==> !(calls[k].call.SetLimit? && calls[k].call.integration == integration)
    ensures MemoryAnswer(calls).Checked? && ServerAnswer(calls).Checked?
    ensures MemoryAnswer(calls).allowed <==> |Active(AllowedTimes(Front(calls), key), Last(calls).now, 60_000)| < 60
    ensures ServerAnswer(calls).allowed <==> |Active(AllowedTimes(Front(calls), key), Last(calls).now, 60_000)| < 60
  {
    AnswerInWords(calls, key, 60);
  }

  /** A limit set decides for every later check of the integration, whatever limit that passes. */
  lemma SetLimitDecides(calls: seq<Timed>, key: string, integration: string, limit: Option<int>, n: int, p: nat)
    requires calls != [] && ClockIsSane(calls) && NeverReset(calls, key)
    requires Last(calls).call == Check(key, integration, limit)
    requires p < |calls| && calls[p].call == Call.SetLimit(integration, n)
    requires forall k :: p < k < |calls| ==> !(calls[k].call.SetLimit? && calls[k].call.integration == integration)
    ensures MemoryAnswer(calls).Checked? && ServerAnswer(calls).Checked?
    ensures MemoryAnswer(calls).allowed <==> |Active(AllowedTimes(Front(calls), key), Last(calls).now, 60_000)| < n
    ensures ServerAnswer(calls).allowed <==> |Active(AllowedTimes(Front(calls), key), Last(calls).now, 60_000)| < n
  {
    assert Front(calls)[p].call == Call.SetLimit(integration, n) && Sets(Front(calls)[p].call, integration);
    AnswerInWords(calls, key, n);
  }

  // ---- The bound over calls ----

  /** The call at this place is a check of the key that both limiters allow. */
  ghost predicate AllowedAt(calls: seq<Timed>, key: string, k: nat)
    requires k < |calls|
  {
    && calls[k].call.Check? && calls[k].call.key == key
    && MemoryAnswer(calls[..k + 1]).Checked? && MemoryAnswer(calls[..k + 1]).allowed
  }

  lemma LastAllowed(calls: seq<Timed>, key: string)
    requires calls != []
    ensures AllowedTimes(calls, key) == AllowedTimes(Front(calls), key) +
      if AllowedAt(calls, key, |calls| - 1) then [Last(calls).now] else []
  {
    assert calls[..|calls| - 1 + 1] == calls;
    TimesAfter(MemoryRun(Front(calls)), Last(calls).call, Last(calls).now, key);
    hide MemoryRun, MemoryStep;
  }

  ghost predicate AllowedIn(calls: seq<Timed>, key: string, k: nat, from: int, to: int) {
    k < |calls| && AllowedAt(calls, key, k) && from <= calls[k].now < to
  }

  /** Places of allowed calls within an interval, in order. */
  ghost predicate Listed(calls: seq<Timed>, key: string, at: seq<nat>, from: int, to: int) {
    Increasing(at) && forall i :: 0 <= i < |at| ==> AllowedIn(calls, key, at[i], from, to)
  }

  lemma AllowedBefore(calls: seq<Timed>, key: string, k: nat, from: int, to: int)
    requires k < |calls| - 1 && AllowedIn(calls, key, k, from, to)
    ensures AllowedIn(Front(calls), key, k, from, to)
  {
    assert Front(calls)[..k + 1] == calls[..k + 1];
    hide MemoryAnswer;
  }

  ghost predicate Increasing(at: seq<nat>) {
    forall i, j :: 0 <= i < j < |at| ==> at[i] < at[j]
  }

  /** An increasing list of places below n + 1, without n. */
  function Below(at: seq<nat>, n: nat): seq<nat> {
    if at != [] && Last(at) == n then Front(at) else at
  }

  lemma BelowIsBelow(at: seq<nat>, n: nat)
    requires Increasing(at) && forall i :: 0 <= i < |at| ==> at[i] <= n
    ensures Increasing(Below(at, n)) && |Below(at, n)| <= |at|
    ensures forall i :: 0 <= i < |Below(at, n)| ==> Below(at, n)[i] == at[i] < n
  {
    forall i | 0 <= i < |Below(at, n)| ensures at[i] < n {
      assert i < |at| - 1 ==> at[i] < at[|at| - 1];
    }
  }

  lemma IsPlace(calls: seq<Timed>, key: string, k: nat, from: int, to: int)
    requires AllowedIn(calls, key, k, from, to)
    ensures k < |calls|
  {
    hide AllowedAt;
  }

  lemma AllBefore(calls: seq<Timed>, key: string, at: seq<nat>, rest: seq<nat>, from: int, to: int)
    requires |rest| <= |at| && calls != [] && forall i :: 0 <= i < |at| ==> AllowedIn(calls, key, at[i], from, to)
    requires forall i :: 0 <= i < |rest| ==> rest[i] == at[i] < |calls| - 1
    ensures forall i :: 0 <= i < |rest| ==> AllowedIn(Front(calls), key, rest[i], from, to)
  {
    hide AllowedIn, Front;
    forall i | 0 <= i < |rest| ensures AllowedIn(Front(calls), key, rest[i], from, to) {
      AllowedBefore(calls, key, rest[i], from, to);
    }
  }

  lemma ListedBefore(calls: seq<Timed>, key: string, at: seq<nat>, from: int, to: int)
    requires Listed(calls, key, at, from, to) && at != []
    ensures calls != [] && Listed(Front(calls), key, Below(at, |calls| - 1), from, to)
    ensures Last(at) == |calls| - 1 ==> AllowedIn(calls, key, |calls| - 1, from, to)
  {
    hide AllowedIn, Increasing, Below, Front;
    assert AllowedIn(calls, key, Last(at), from, to);
    var n := |calls| - 1;
    forall i | 0 <= i < |at| ensures at[i] <= n {
      IsPlace(calls, key, at[i], from, to);
    }
    IsPlace(calls, key, Last(at), from, to);
    BelowIsBelow(at, n);
    AllBefore(calls, key, at, Below(at, n), from, to);
  }

  /** Allowed calls within an interval are counted. */
  lemma {:induction false} AllowedAreCounted(calls: seq<Timed>, key: string, at: seq<nat>, from: int, to: int)
    requires Listed(calls, key, at, from, to)
    ensures |at| <= Count(AllowedTimes(calls, key), from, to)
  {
    if at != [] {
      hide Listed, AllowedTimes, AllowedAt;
      var n := |calls| - 1;
      ListedBefore(calls, key, at, from, to);
      LastAllowed(calls, key);
      AllowedAreCounted(Front(calls), key, Below(at, n), from, to);
      CountOneMore(AllowedTimes(Front(calls), key), calls[n].now, from, to);
    }
  }

  lemma CountOneMore(ts: seq<int>, t: int, from: int, to: int)
    ensures Count(ts + [t], from, to) == Count(ts, from, to) + if from <= t < to then 1 else 0
    ensures Count(ts + [], from, to) == Count(ts, from, to)
  {
    assert Front(ts + [t]) == ts && ts + [] == ts;
  }

  lemma FixedByEffective(calls: seq<Timed>, key: string, n: int)
    requires forall k :: 0 <= k < |calls| && calls[k].call.Check? && calls[k].call.key == key ==>
      Effective(calls[..k], calls[k].call, n)
    ensures FixedLimit(calls, key, n)
  {
    hide Effective, LimitOf;
    forall k | 0 <= k < |calls| && calls[k].call.Check? && calls[k].call.key == key
      ensures LimitOf(MemoryRun(calls[..k]).overrides, calls[k].call.integration, calls[k].call.limit) == n
    {
      EffectiveIsLimit(calls[..k], calls[k].call, n);
    }
  }

  /** Of more than n checks of a key that are allowed, the last comes at least a minute after the first, when n is the
      effective limit of each check of the key. */
  lemma AtMostInWords(calls: seq<Timed>, key: string, n: nat, at: seq<nat>)
    requires ClockIsSane(calls) && NeverReset(calls, key)
    requires forall k :: 0 <= k < |calls| && calls[k].call.Check? && calls[k].call.key == key ==>
      Effective(calls[..k], calls[k].call, n)
    requires |at| > n && Increasing(at)
    requires forall i :: 0 <= i < |at| ==> at[i] < |calls| && AllowedAt(calls, key, at[i])
    ensures calls[at[|at| - 1]].now >= calls[at[0]].now + 60_000
  {
    hide Effective, NeverReset, AllowedAt, ClockIsSane, FixedLimit, Increasing;
    FixedByEffective(calls, key, n);
    hide *;
    var from := calls[at[0]].now;
    AtMostLimitPerMinute(calls, key, n, from);
    if calls[at[|at| - 1]].now < from + 60_000 {
      ListedFrom(calls, key, at);
      AllowedAreCounted(calls, key, at, from, from + 60_000);
    }
  }

  lemma ListedFrom(calls: seq<Timed>, key: string, at: seq<nat>)
    requires ClockIsSane(calls) && Increasing(at) && at != []
    requires forall i :: 0 <= i < |at| ==> at[i] < |calls| && AllowedAt(calls, key, at[i])
    requires calls[at[|at| - 1]].now < calls[at[0]].now + 60_000
    ensures Listed(calls, key, at, calls[at[0]].now, calls[at[0]].now + 60_000)
  {
    hide ClockIsSane, AllowedAt, Increasing;
    var from := calls[at[0]].now;
    forall i | 0 <= i < |at| ensures AllowedIn(calls, key, at[i], from, from + 60_000) {
      InBetween(calls, at, i);
    }
  }

  lemma InBetween(calls: seq<Timed>, at: seq<nat>, i: nat)
    requires ClockIsSane(calls) && i < |at|
    requires Increasing(at) && forall i :: 0 <= i < |at| ==> at[i] < |calls|
    ensures calls[at[0]].now <= calls[at[i]].now <= calls[at[|at| - 1]].now
  {
    assert at[0] <= at[i] <= at[|at| - 1];
  }

  /** The same of the server-side limiter. */
  lemma ServerAtMostInWords(calls: seq<Timed>, key: string, n: nat, at: seq<nat>)
    requires ClockIsSane(calls) && NeverReset(calls, key)
    requires forall k :: 0 <= k < |calls| && calls[k].call.Check? && calls[k].call.key == key ==>
      Effective(calls[..k], calls[k].call, n)
    requires |at| > n && Increasing(at)
    requires forall i :: 0 <= i < |at| ==>
      && at[i] < |calls| && calls[at[i]].call.Check? && calls[at[i]].call.key == key
      && ServerAnswer(calls[..at[i] + 1]).Checked? && ServerAnswer(calls[..at[i] + 1]).allowed
    ensures calls[at[|at| - 1]].now >= calls[at[0]].now + 60_000
  {
    forall i | 0 <= i < |at| ensures AllowedAt(calls, key, at[i]) {
      SameAnswersExactly(calls[..at[i] + 1]);
      hide MemoryAnswer, ServerAnswer, MemoryRun;
    }
    hide MemoryAnswer, ServerAnswer, Effective, NeverReset, AllowedAt;
    AtMostInWords(calls, key, n, at);
  }

  // ---- Asking what is left, expiry, warnings ----

  lemma LeftOf(m: Memory, s: Server, key: string, limit: Option<int>, now: int, dropped: bool)
    requires Related(m, s, now)
    ensures var n := if limit.Some? then limit.value else 60;
      var used := |Active(Times(m, key), now, 60_000)|;
      ServerStep(s, Remaining(key, limit), now, dropped).1 == Left(if used < n then n - used else 0)
  {
    SeenIsActive(m, s, now, key, dropped);
    hide Related, Active, RemoveUpTo, Seen, Store;
  }

  /** Asked what is left, both limiters take the limit passed, or 60, whatever has been set. */
  lemma LeftInWords(calls: seq<Timed>, key: string, limit: Option<int>)
    requires calls != [] && ClockIsSane(calls) && NeverReset(calls, key) && Last(calls).call == Remaining(key, limit)
    ensures var n := if limit.Some? then limit.value else 60;
      var used := |Active(AllowedTimes(Front(calls), key), Last(calls).now, 60_000)|;
      && ServerAnswer(calls) == Left(if used < n then n - used else 0)
      && (n >= 0 ==> MemoryAnswer(calls) == ServerAnswer(calls))
  {
    var front, now := Front(calls), Last(calls).now;
    assert ClockIsSane(front) && NeverReset(front, key) && (front != [] ==> Last(front).now <= now);
    hide MemoryRun, ServerRun, NeverReset, ClockIsSane, Active, Related, AllowedTimes, MemoryStep, ServerStep, Times;
    ListTracksHistory(front, key, now);
    SameAnswersExactly(calls);
    RunsAreRelated(front, now);
    LeftOf(MemoryRun(front), ServerRun(front), key, limit, now, Last(calls).dropped);
  }

  /** An allowed call lets the server keep the key for two minutes and no longer. */
  lemma KeyLivesTwoMinutes(s: Server, call: Call, now: int, dropped: bool, ms: nat)
    requires call.Check? && ServerStep(s, call, now, dropped).1 == Checked(true, ServerStep(s, call, now, dropped).1.remaining)
    ensures now in Seen(ServerStep(s, call, now, dropped).0, call.key, now + ms, true) <==> ms < 120_000
  {
  }

  /** The warning of a key: set by an allowed check that found no more than a fifth of the limit left, rounded up, and
      taken back by one that found more; a refused check leaves it. */
  lemma WarnsFromAFifth(m: Memory, key: string, integration: string, limit: Option<int>, now: int)
    ensures var (next, answer) := MemoryStep(m, Check(key, integration, limit), now);
      var effective := if integration in m.overrides then m.overrides[integration] else if limit.Some? then limit.value else 60;
      && answer.Checked? && key in next.windows
      && (answer.allowed ==> (next.windows[key].warningLogged <==> 5 * answer.remaining < effective))
      && (!answer.allowed ==> (next.windows[key].warningLogged <==> key in m.windows && m.windows[key].warningLogged))
  {
  }
}
