/** Token locks with a time to live: the two implementations, and their safety over every run of
    acquires, releases, clock steps and server-side expiry by any number of clients. */
module DistributedLock {
  import opened Prelude

  /** Random tokens are modelled as fresh numbers. */
  type Token = nat

  datatype Held = Held(token: Token, expiresAt: int)

  type Locks = map<string, Held>

  predicate Taken(locks: Locks, key: string, now: int) {
    key in locks && locks[key].expiresAt > now
  }

  function AcquireAt(locks: Locks, key: string, ttlMs: int, now: int, token: Token): (Locks, Option<Token>) {
    if Taken(locks, key, now) then (locks, None) else (locks[key := Held(token, now + ttlMs)], Some(token))
  }

  function ReleaseAt(locks: Locks, key: string, token: Token): Locks {
    if key in locks && locks[key].token == token then locks - {key} else locks
  }

  class InMemoryDistributedLock {
    var locks: Locks

    constructor ()
      ensures locks == map[]
    {
      locks := map[];
    }

    method Acquire(key: string, ttlMs: int, now: int, token: Token) returns (r: Option<Token>)
      modifies this
      ensures (locks, r) == AcquireAt(old(locks), key, ttlMs, now, token)
    {
      if key in locks && locks[key].expiresAt > now {
        return None;
      }
      locks := locks[key := Held(token, now + ttlMs)];
      r := Some(token);
    }

    method Release(key: string, token: Token)
      modifies this
      ensures locks == ReleaseAt(old(locks), key, token)
    {
      if key in locks && locks[key].token == token {
        locks := map k | k in locks && k != key :: locks[k];
      }
    }
  }

  /** Math.max(1, Math.ceil(ttlMs / 1000)). */
  function TtlSeconds(ttlMs: int): (secs: int)
    ensures secs >= 1 && secs * 1000 >= ttlMs
    ensures ttlMs > 0 ==> secs * 1000 < ttlMs + 1000
  {
    Max(1, -((-ttlMs) / 1000))
  }

  /** The server's keys: a key past its time is never seen again, whether or not it is still stored. */
  class RedisDistributedLock {
    var keys: Locks

    constructor ()
      ensures keys == map[]
    {
      keys := map[];
    }

    /** SET key token EX ttl NX. */
    method Acquire(key: string, ttlMs: int, now: int, token: Token) returns (r: Option<Token>)
      modifies this
      ensures (keys, r) == AcquireAt(old(keys), key, TtlSeconds(ttlMs) * 1000, now, token)
    {
      var ttlSec := TtlSeconds(ttlMs);
      if key in keys && now < keys[key].expiresAt {
        r := None;
      } else {
        keys := keys[key := Held(token, now + 1000 * ttlSec)];
        r := Some(token);
      }
    }

    /** The compare-and-delete script, one atomic step on the server. */
    method Release(key: string, token: Token)
      modifies this
      ensures keys == ReleaseAt(old(keys), key, token)
    {
      if key in keys && keys[key].token == token {
        keys := keys - {key};
      }
    }
  }

  // ---- Runs ----

  datatype Event =
    | Tick(ms: nat)
    | Acquire(key: string, ttlMs: int)
    | Release(key: string, token: Token)   // by anyone, with any token, as often as they like
    | Purge(key: string)                   // the server drops a key that is past its time

  /** What was handed out. */
  datatype Grant = Grant(key: string, token: Token, expiresAt: int)

  datatype State = State(now: int, locks: Locks, nextToken: Token, grants: set<Grant>, released: set<(string, Token)>)

  function Start(now: int): State {
    State(now, map[], 0, {}, {})
  }

  function Step(s: State, e: Event): State {
    match e
    case Tick(ms) => s.(now := s.now + ms)
    case Acquire(key, ttlMs) =>
      var (locks, r) := AcquireAt(s.locks, key, ttlMs, s.now, s.nextToken);
      if r.None? then s
      else s.(locks := locks, nextToken := s.nextToken + 1, grants := s.grants + {Grant(key, r.value, s.now + ttlMs)})
    case Release(key, token) =>
      s.(locks := ReleaseAt(s.locks, key, token),
         released := if token < s.nextToken then s.released + {(key, token)} else s.released)
    case Purge(key) =>
      if Taken(s.locks, key, s.now) then s else s.(locks := s.locks - {key})
  }

  function Exec(s: State, events: seq<Event>): State {
    if events == [] then s else Step(Exec(s, Front(events)), Last(events))
  }

  /** A grant still protects its key: not released and not past its time. */
  predicate Live(s: State, g: Grant) {
    g in s.grants && (g.key, g.token) !in s.released && s.now < g.expiresAt
  }

  ghost predicate Inv(s: State) {
    && (forall g :: Live(s, g) ==> g.key in s.locks && s.locks[g.key] == Held(g.token, g.expiresAt))
    && (forall g :: g in s.grants ==> g.token < s.nextToken)
    && (forall p :: p in s.released ==> p.1 < s.nextToken)
    && (forall g, h :: g in s.grants && h in s.grants && g.token == h.token ==> g == h)
    && (forall k :: Taken(s.locks, k, s.now) ==> Live(s, Grant(k, s.locks[k].token, s.locks[k].expiresAt)))
  }

  lemma StepKeepsInv(s: State, e: Event)
    requires Inv(s)
    ensures Inv(Step(s, e))
  {
    var s' := Step(s, e);
    forall g | Live(s', g) ensures g.key in s'.locks && s'.locks[g.key] == Held(g.token, g.expiresAt) {
      if Live(s, g) {
      } else {
        assert e.Acquire?;
      }
    }
    forall k | Taken(s'.locks, k, s'.now) ensures Live(s', Grant(k, s'.locks[k].token, s'.locks[k].expiresAt)) {
      if k in s.locks && s.locks[k] == s'.locks[k] {
        assert Taken(s.locks, k, s.now);
      }
    }
  }

  lemma {:induction false} ReachableInv(now: int, events: seq<Event>)
    ensures Inv(Exec(Start(now), events))
  {
    if events != [] {
      ReachableInv(now, Front(events));
      StepKeepsInv(Exec(Start(now), Front(events)), Last(events));
    }
  }

  /** Over every run at most one grant per key is live. */
  lemma MutualExclusion(now: int, events: seq<Event>, g: Grant, h: Grant)
    requires var s := Exec(Start(now), events); Live(s, g) && Live(s, h) && g.key == h.key
    ensures g == h
  {
    ReachableInv(now, events);
  }

  /** In every reachable state an acquire succeeds exactly when no grant for the key is live. */
  lemma AcquireSucceedsExactly(now: int, events: seq<Event>, key: string, ttlMs: int)
    ensures var s := Exec(Start(now), events);
      AcquireAt(s.locks, key, ttlMs, s.now, s.nextToken).1.Some? <==> forall g :: Live(s, g) ==> g.key != key
  {
    ReachableInv(now, events);
    var s := Exec(Start(now), events);
    if Taken(s.locks, key, s.now) {
      assert Live(s, Grant(key, s.locks[key].token, s.locks[key].expiresAt));
    }
  }

  /** Only its own release or the clock ends a live grant: acquires, purges and releases with stale
      or foreign tokens leave it, and the lock that backs it, alone. */
  lemma LiveUntilReleasedOrExpired(now: int, events: seq<Event>, e: Event, g: Grant)
    requires Live(Exec(Start(now), events), g)
    requires e != Release(g.key, g.token)
    ensures var s := Step(Exec(Start(now), events), e);
      s.now < g.expiresAt ==> Live(s, g) && g.key in s.locks && s.locks[g.key] == Held(g.token, g.expiresAt)
  {
    ReachableInv(now, events);
    StepKeepsInv(Exec(Start(now), events), e);
  }

  lemma OneMoreEvent(s: State, events: seq<Event>, e: Event)
    ensures Exec(s, events + [e]) == Step(Exec(s, events), e) && Exec(s, []) == s
  {
    assert Front(events + [e]) == events;
  }

  /** From grant to release: after an acquire that finds no live grant the key is taken for exactly its time to live, and the
      release with its token frees it at once; a purge drops a key exactly when it is not taken. */
  lemma GrantRunsOut(now: int, events: seq<Event>, key: string, ttlMs: int, ms: nat)
    requires forall g :: Live(Exec(Start(now), events), g) ==> g.key != key
    ensures var s := Exec(Start(now), events);
      var acquired := events + [Acquire(key, ttlMs)];
      var later := Exec(Start(now), acquired + [Tick(ms)]);
      && s.now + ms == later.now
      && (key in later.locks && later.locks[key].expiresAt > later.now <==> ms < ttlMs)
      && (Live(later, Grant(key, s.nextToken, s.now + ttlMs)) <==> ms < ttlMs)
      && key !in Exec(Start(now), acquired + [Tick(ms)] + [Release(key, s.nextToken)]).locks
      && (key in Exec(Start(now), acquired + [Tick(ms)] + [Purge(key)]).locks <==> ms < ttlMs)
  {
    AcquireSucceedsExactly(now, events, key, ttlMs);
    var s := Exec(Start(now), events);
    var acquired := events + [Acquire(key, ttlMs)];
    OneMoreEvent(Start(now), events, Acquire(key, ttlMs));
    OneMoreEvent(Start(now), acquired, Tick(ms));
    OneMoreEvent(Start(now), acquired + [Tick(ms)], Release(key, s.nextToken));
    OneMoreEvent(Start(now), acquired + [Tick(ms)], Purge(key));
    hide Exec;
    ReachableInv(now, events);
  }
}
