/** The offline message queue of the app and the drain that submits it. The order that matters is the
    stable order by creation time: a drain works on its first twenty messages. */
module OfflineQueue {
  import opened Prelude

  const MAX_RETRY := 3
  const BATCH := 20

  type Id = string

  datatype Message = Message(id: Id, text: string, createdAt: int, retries: nat)

  function Bump(m: Message): Message {
    m.(retries := m.retries + 1)
  }

  /** The position of the first message with the id, or the length of the queue. */
  function IndexOf(q: seq<Message>, id: Id): (i: nat)
    ensures i <= |q|
    ensures i < |q| ==> q[i].id == id
    ensures forall k :: 0 <= k < i ==> q[k].id != id
  {
    if q == [] then 0
    else
      var i := IndexOf(Front(q), id);
      if i < |q| - 1 then i else if Last(q).id == id then |q| - 1 else |q|
  }

  function Lookup(q: seq<Message>, id: Id): Option<Message> {
    var i := IndexOf(q, id);
    if i < |q| then Some(q[i]) else None
  }

  ghost predicate Distinct(q: seq<Message>) {
    forall i, j :: 0 <= i < j < |q| ==> q[i].id != q[j].id
  }

  function Without(q: seq<Message>, id: Id): seq<Message> {
    if q == [] then []
    else Without(Front(q), id) + if Last(q).id == id then [] else [Last(q)]
  }

  function Bumped(q: seq<Message>, id: Id): seq<Message> {
    if q == [] then []
    else Bumped(Front(q), id) + [if Last(q).id == id then Bump(Last(q)) else Last(q)]
  }

  /** Insertion behind every message that is not newer. */
  function Insert(s: seq<Message>, m: Message): seq<Message> {
    if s == [] || Last(s).createdAt <= m.createdAt then s + [m]
    else Insert(Front(s), m) + [Last(s)]
  }

  function ByTime(q: seq<Message>): seq<Message> {
    if q == [] then [] else Insert(ByTime(Front(q)), Last(q))
  }

  function Batch(q: seq<Message>): seq<Message> {
    var s := ByTime(q);
    s[..if |s| < BATCH then |s| else BATCH]
  }

  // ---- One drain ----

  /** The message is dropped after three failures, or its POST is accepted. */
  predicate Leaves(m: Message, accepted: set<Id>) {
    m.retries >= MAX_RETRY || m.id in accepted
  }

  function Settle(q: seq<Message>, m: Message, accepted: set<Id>): seq<Message> {
    if Leaves(m, accepted) then Without(q, m.id) else Bumped(q, m.id)
  }

  function SettleAll(q: seq<Message>, batch: seq<Message>, accepted: set<Id>): seq<Message> {
    if batch == [] then q else Settle(SettleAll(q, Front(batch), accepted), Last(batch), accepted)
  }

  function Drained(q: seq<Message>, accepted: set<Id>): seq<Message> {
    SettleAll(q, Batch(q), accepted)
  }

  datatype Post = Post(id: Id, ok: bool)

  function Posts(batch: seq<Message>, accepted: set<Id>): seq<Post> {
    if batch == [] then []
    else
      Posts(Front(batch), accepted)
      + if Last(batch).retries >= MAX_RETRY then [] else [Post(Last(batch).id, Last(batch).id in accepted)]
  }

  class Queue {
    var messages: seq<Message>

    ghost predicate Valid()
      reads this
    {
      Distinct(messages)
    }

    constructor ()
      ensures Valid() && messages == []
    {
      messages := [];
    }

    /** Replaces the message with the same correlation id, or appends. */
    method Enqueue(m: Message)
      requires Valid()
      modifies this
      ensures Valid()
      ensures messages == Enqueued(old(messages), m)
    {
      EnqueueKeeps(messages, m);
      var i := IndexOf(messages, m.id);
      if i < |messages| {
        messages := messages[i := m];
      } else {
        messages := messages + [m];
      }
    }

    method RemoveFromQueue(id: Id)
      requires Valid()
      modifies this
      ensures Valid() && messages == Without(old(messages), id)
    {
      WithoutLooks(messages, id, id);
      messages := Without(messages, id);
    }

    method IncrementRetry(id: Id)
      requires Valid()
      modifies this
      ensures Valid() && messages == Bumped(old(messages), id)
    {
      BumpedIsUpdate(messages, id);
      var i := IndexOf(messages, id);
      if i < |messages| {
        messages := messages[i := Bump(messages[i])];
      }
    }

    /** `accepted` names the messages whose POST is answered with success in this drain. */
    method Drain(connected: bool, accepted: set<Id>) returns (posts: seq<Post>)
      requires Valid()
      modifies this
      ensures Valid()
      ensures messages == if connected then Drained(old(messages), accepted) else old(messages)
      ensures posts == if connected then Posts(Batch(old(messages)), accepted) else []
    {
      hide Without, Bumped, ByTime, IndexOf, Distinct;
      posts := [];
      if !connected {
        return;
      }
      var items := Batch(messages);
      var k := 0;
      while k < |items|
        invariant k <= |items|
        invariant Valid()
        invariant messages == SettleAll(old(messages), items[..k], accepted)
        invariant posts == Posts(items[..k], accepted)
      {
        var item := items[k];
        assert Front(items[..k + 1]) == items[..k] && Last(items[..k + 1]) == item;
        if item.retries >= MAX_RETRY {
          RemoveFromQueue(item.id);
        } else {
          var ok := item.id in accepted;
          posts := posts + [Post(item.id, ok)];
          if ok {
            RemoveFromQueue(item.id);
          } else {
            IncrementRetry(item.id);
          }
        }
        k := k + 1;
      }
      assert items[..k] == items;
    }
  }

  function Enqueued(q: seq<Message>, m: Message): seq<Message> {
    var i := IndexOf(q, m.id);
    if i < |q| then q[i := m] else q + [m]
  }

  // ---- What the queue operations do to one message ----

  lemma LookupOf(q: seq<Message>, i: nat)
    requires Distinct(q) && i < |q|
    ensures Lookup(q, q[i].id) == Some(q[i])
  {
  }

  lemma EnqueueKeeps(q: seq<Message>, m: Message)
    requires Distinct(q)
    ensures Distinct(Enqueued(q, m))
  {
  }

  lemma FirstAt(q: seq<Message>, id: Id, i: nat)
    requires i < |q| && q[i].id == id && forall k :: 0 <= k < i ==> q[k].id != id
    ensures IndexOf(q, id) == i && Lookup(q, id) == Some(q[i])
  {
    hide IndexOf;
  }

  lemma EnqueueLooks(q: seq<Message>, m: Message, id: Id)
    ensures Lookup(Enqueued(q, m), id) == if id == m.id then Some(m) else Lookup(q, id)
  {
    hide IndexOf;
    var q', at, i := Enqueued(q, m), IndexOf(q, m.id), IndexOf(q, id);
    if id == m.id {
      FirstAt(q', id, at);
    } else if i < |q| {
      assert q[i].id == id;
      FirstAt(q', id, i);
    } else {
      assert forall k :: 0 <= k < |q'| ==> q'[k].id != id;
    }
  }

  lemma WithoutSnoc(q: seq<Message>, m: Message, id: Id)
    ensures Without(q + [m], id) == if m.id == id then Without(q, id) else Without(q, id) + [m]
  {
    assert Front(q + [m]) == q;
  }

  lemma BumpedSnoc(q: seq<Message>, m: Message, id: Id)
    ensures Bumped(q + [m], id) == Bumped(q, id) + [if m.id == id then Bump(m) else m]
  {
    assert Front(q + [m]) == q;
  }

  lemma LookupSnoc(q: seq<Message>, m: Message, id: Id)
    ensures Lookup(q + [m], id) == if Lookup(q, id).Some? then Lookup(q, id) else if m.id == id then Some(m) else None
  {
    assert Front(q + [m]) == q;
  }

  lemma {:induction false} WithoutIsPart(q: seq<Message>, id: Id)
    requires Distinct(q)
    ensures Distinct(Without(q, id))
    ensures forall k :: 0 <= k < |Without(q, id)| ==> Without(q, id)[k] in q
  {
    if q != [] {
      WithoutIsPart(Front(q), id);
      hide Without;
      assert Front(q) + [Last(q)] == q;
      WithoutSnoc(Front(q), Last(q), id);
    }
  }

  lemma {:induction false} WithoutLookup(q: seq<Message>, id: Id, other: Id)
    ensures Lookup(Without(q, id), other) == if other == id then None else Lookup(q, other)
  {
    if q != [] {
      hide Without, Lookup;
      WithoutLookup(Front(q), id, other);
      assert Front(q) + [Last(q)] == q;
      WithoutSnoc(Front(q), Last(q), id);
      LookupSnoc(Front(q), Last(q), other);
      LookupSnoc(Without(Front(q), id), Last(q), other);
    }
  }

  lemma WithoutLooks(q: seq<Message>, id: Id, other: Id)
    requires Distinct(q)
    ensures Distinct(Without(q, id))
    ensures forall k :: 0 <= k < |Without(q, id)| ==> Without(q, id)[k] in q
    ensures Lookup(Without(q, id), other) == if other == id then None else Lookup(q, other)
  {
    WithoutIsPart(q, id);
    WithoutLookup(q, id, other);
  }

  lemma {:induction false} BumpedLooks(q: seq<Message>, id: Id)
    ensures |Bumped(q, id)| == |q|
    ensures forall k :: 0 <= k < |q| ==> Bumped(q, id)[k] == if q[k].id == id then Bump(q[k]) else q[k]
  {
    if q != [] {
      BumpedLooks(Front(q), id);
    }
  }

  lemma BumpedIsUpdate(q: seq<Message>, id: Id)
    requires Distinct(q)
    ensures Distinct(Bumped(q, id))
    ensures Bumped(q, id) == if IndexOf(q, id) < |q| then q[IndexOf(q, id) := Bump(q[IndexOf(q, id)])] else q
  {
    BumpedLooks(q, id);
  }

  // ---- The time order commutes with removal and increment ----

  ghost predicate Sorted(s: seq<Message>) {
    forall i, j :: 0 <= i < j < |s| ==> s[i].createdAt <= s[j].createdAt
  }

  lemma {:induction false} InsertSorts(s: seq<Message>, m: Message)
    requires Sorted(s)
    ensures Sorted(Insert(s, m))
    ensures forall x :: x in Insert(s, m) <==> x in s || x == m
  {
    if s != [] && Last(s).createdAt > m.createdAt {
      InsertSorts(Front(s), m);
      assert s == Front(s) + [Last(s)];
      var more := Insert(Front(s), m);
      assert forall k :: 0 <= k < |more| ==> more[k] in more;
      assert forall x :: x in Front(s) ==> x.createdAt <= Last(s).createdAt;
    }
  }

  lemma {:induction false} ByTimeSorts(q: seq<Message>)
    ensures Sorted(ByTime(q))
  {
    if q != [] {
      ByTimeSorts(Front(q));
      InsertSorts(ByTime(Front(q)), Last(q));
    }
  }

  /** The messages of one creation time, in order. */
  function AtTime(q: seq<Message>, at: int): seq<Message> {
    if q == [] then [] else AtTime(Front(q), at) + if Last(q).createdAt == at then [Last(q)] else []
  }

  lemma AtTimeSnoc(q: seq<Message>, m: Message, at: int)
    ensures AtTime(q + [m], at) == AtTime(q, at) + if m.createdAt == at then [m] else []
  {
    assert Front(q + [m]) == q;
  }

  lemma {:induction false} InsertIsStable(s: seq<Message>, m: Message, at: int)
    ensures AtTime(Insert(s, m), at) == AtTime(s + [m], at)
  {
    if s != [] && m.createdAt < Last(s).createdAt {
      hide AtTime;
      var front, x := Front(s), Last(s);
      assert s == front + [x];
      InsertIsStable(front, m, at);
      AtTimeSnoc(Insert(front, m), x, at);
      AtTimeSnoc(front, x, at);
      AtTimeSnoc(front, m, at);
      AtTimeSnoc(s, m, at);
    }
  }

  /** The time order is the stable one: sorted, and messages of one creation time stay in queue order. */
  lemma {:induction false} TimeOrderIsStable(q: seq<Message>, at: int)
    ensures Sorted(ByTime(q))
    ensures AtTime(ByTime(q), at) == AtTime(q, at)
  {
    ByTimeSorts(q);
    if q != [] {
      hide AtTime;
      TimeOrderIsStable(Front(q), at);
      assert q == Front(q) + [Last(q)];
      InsertIsStable(ByTime(Front(q)), Last(q), at);
      AtTimeSnoc(ByTime(Front(q)), Last(q), at);
      AtTimeSnoc(Front(q), Last(q), at);
    }
  }

  lemma {:induction false} InsertAtEnd(s: seq<Message>, m: Message)
    requires forall k :: 0 <= k < |s| ==> s[k].createdAt <= m.createdAt
    ensures Insert(s, m) == s + [m]
  {
  }

  lemma {:induction false} WithoutIsSubset(s: seq<Message>, id: Id, at: int)
    requires forall k :: 0 <= k < |s| ==> s[k].createdAt <= at
    ensures forall k :: 0 <= k < |Without(s, id)| ==> Without(s, id)[k].createdAt <= at
  {
    if s != [] {
      WithoutIsSubset(Front(s), id, at);
    }
  }

  lemma InsertSnoc(s: seq<Message>, x: Message, m: Message)
    ensures Insert(s + [x], m) == if x.createdAt <= m.createdAt then s + [x] + [m] else Insert(s, m) + [x]
  {
    assert Front(s + [x]) == s;
  }

  lemma {:induction false} WithoutInsert(s: seq<Message>, m: Message, id: Id)
    requires Sorted(s)
    ensures Without(Insert(s, m), id) == if m.id == id then Without(s, id) else Insert(Without(s, id), m)
  {
    if s == [] || Last(s).createdAt <= m.createdAt {
      hide Without;
      WithoutSnoc(s, m, id);
      WithoutIsSubset(s, id, m.createdAt);
      InsertAtEnd(Without(s, id), m);
    } else {
      hide Without, Insert;
      var rest, x := Front(s), Last(s);
      assert s == rest + [x];
      WithoutInsert(rest, m, id);
      InsertSnoc(rest, x, m);
      WithoutSnoc(Insert(rest, m), x, id);
      WithoutSnoc(rest, x, id);
      InsertSnoc(Without(rest, id), x, m);
    }
  }

  lemma {:induction false} BumpedInsert(s: seq<Message>, m: Message, id: Id)
    ensures Bumped(Insert(s, m), id) == Insert(Bumped(s, id), if m.id == id then Bump(m) else m)
  {
    if s == [] {
      assert Front([m]) == [];
    } else {
      hide Bumped, Insert;
      var rest, x := Front(s), Last(s);
      assert s == rest + [x];
      BumpedInsert(rest, m, id);
      InsertSnoc(rest, x, m);
      BumpedSnoc(Insert(rest, m), x, id);
      BumpedSnoc(rest, x, id);
      BumpedSnoc(rest + [x], m, id);
      InsertSnoc(Bumped(rest, id), if x.id == id then Bump(x) else x, if m.id == id then Bump(m) else m);
    }
  }

  lemma ByTimeSnoc(q: seq<Message>, m: Message)
    ensures ByTime(q + [m]) == Insert(ByTime(q), m)
  {
    assert Front(q + [m]) == q;
  }

  lemma {:induction false} WithoutByTime(q: seq<Message>, id: Id)
    ensures ByTime(Without(q, id)) == Without(ByTime(q), id)
  {
    if q != [] {
      hide Without, ByTime, Insert;
      var rest, m := Front(q), Last(q);
      assert q == rest + [m];
      WithoutByTime(rest, id);
      WithoutSnoc(rest, m, id);
      ByTimeSnoc(rest, m);
      ByTimeSorts(rest);
      WithoutInsert(ByTime(rest), m, id);
      ByTimeSnoc(Without(rest, id), m);
    }
  }

  lemma {:induction false} BumpedByTime(q: seq<Message>, id: Id)
    ensures ByTime(Bumped(q, id)) == Bumped(ByTime(q), id)
  {
    if q != [] {
      hide Bumped, ByTime, Insert;
      var rest, m := Front(q), Last(q);
      assert q == rest + [m];
      BumpedByTime(rest, id);
      BumpedSnoc(rest, m, id);
      ByTimeSnoc(rest, m);
      BumpedInsert(ByTime(rest), m, id);
      ByTimeSnoc(Bumped(rest, id), if m.id == id then Bump(m) else m);
    }
  }

  lemma {:induction false} SettleByTime(q: seq<Message>, batch: seq<Message>, accepted: set<Id>)
    ensures ByTime(SettleAll(q, batch, accepted)) == SettleAll(ByTime(q), batch, accepted)
  {
    if batch != [] {
      SettleByTime(q, Front(batch), accepted);
      WithoutByTime(SettleAll(q, Front(batch), accepted), Last(batch).id);
      BumpedByTime(SettleAll(q, Front(batch), accepted), Last(batch).id);
    }
  }

  // ---- In time order a drain rewrites the first twenty and nothing else ----

  function Survivors(s: seq<Message>, accepted: set<Id>): seq<Message> {
    if s == [] then []
    else Survivors(Front(s), accepted) + if Leaves(Last(s), accepted) then [] else [Bump(Last(s))]
  }

  function First(n: nat): nat {
    if n < BATCH then n else BATCH
  }

  lemma {:induction false} InsertKeepsDistinct(s: seq<Message>, m: Message)
    requires Distinct(s) && forall x :: x in s ==> x.id != m.id
    ensures Distinct(Insert(s, m))
    ensures forall x :: x in Insert(s, m) <==> x in s || x == m
  {
    if s != [] {
      InsertKeepsDistinct(Front(s), m);
      assert s == Front(s) + [Last(s)];
      var more := Insert(Front(s), m);
      assert forall k :: 0 <= k < |more| ==> more[k] in more;
      assert forall x :: x in Front(s) ==> x.id != Last(s).id;
    }
  }

  lemma {:induction false} DistinctByTime(q: seq<Message>)
    requires Distinct(q)
    ensures Distinct(ByTime(q))
    ensures forall x :: x in ByTime(q) <==> x in q
  {
    if q != [] {
      hide Insert;
      DistinctByTime(Front(q));
      InsertKeepsDistinct(ByTime(Front(q)), Last(q));
      assert q == Front(q) + [Last(q)];
    }
  }

  lemma {:induction false} WithoutConcat(s: seq<Message>, t: seq<Message>, id: Id)
    ensures Without(s + t, id) == Without(s, id) + Without(t, id)
  {
    if t == [] {
      assert s + t == s;
    } else {
      hide Without;
      var front, m := Front(t), Last(t);
      WithoutConcat(s, front, id);
      assert t == front + [m];
      AppendLast(s, front, m);
      AppendLast(Without(s, id), Without(front, id), m);
      WithoutSnoc(s + front, m, id);
      WithoutSnoc(front, m, id);
    }
  }

  lemma {:induction false} WithoutNone(s: seq<Message>, id: Id)
    requires forall k :: 0 <= k < |s| ==> s[k].id != id
    ensures Without(s, id) == s
  {
    if s != [] {
      hide Without;
      var front, m := Front(s), Last(s);
      assert s == front + [m];
      WithoutNone(front, id);
      WithoutSnoc(front, m, id);
    }
  }

  lemma WithoutAt(front: seq<Message>, m: Message, rest: seq<Message>)
    requires Distinct(front + [m] + rest)
    ensures Without(front + [m] + rest, m.id) == front + rest
  {
    var s := front + [m] + rest;
    assert s[|front|] == m;
    assert forall k :: 0 <= k < |front| ==> s[k] == front[k];
    assert forall k :: 0 <= k < |rest| ==> s[|front| + 1 + k] == rest[k];
    WithoutNone(front, m.id);
    WithoutNone(rest, m.id);
    WithoutSnoc(front, m, m.id);
    hide Without;
    WithoutConcat(front + [m], rest, m.id);
  }

  lemma BumpedAt(front: seq<Message>, m: Message, rest: seq<Message>)
    requires Distinct(front + [m] + rest)
    ensures Bumped(front + [m] + rest, m.id) == front + [Bump(m)] + rest
  {
    var s := front + [m] + rest;
    BumpedLooks(s, m.id);
    assert s[|front|] == m;
  }

  lemma {:induction false} SurvivorsKeepIds(s: seq<Message>, accepted: set<Id>, rest: seq<Message>)
    requires Distinct(s + rest)
    ensures Distinct(Survivors(s, accepted) + rest)
  {
    if s == [] {
      assert Survivors(s, accepted) + rest == s + rest;
    } else {
      var front, m := Front(s), Last(s);
      assert s + rest == front + ([m] + rest);
      SurvivorsKeepIds(front, accepted, [m] + rest);
      BumpOrDrop(Survivors(front, accepted), m, rest, Leaves(m, accepted));
    }
  }

  lemma BumpOrDrop(front: seq<Message>, m: Message, rest: seq<Message>, drop: bool)
    requires Distinct(front + ([m] + rest))
    ensures Distinct(front + (if drop then [] else [Bump(m)]) + rest)
  {
    var s := front + ([m] + rest);
    assert s[|front|] == m;
    assert forall k :: 0 <= k < |front| ==> s[k] == front[k];
    assert forall k :: 0 <= k < |rest| ==> s[|front| + 1 + k] == rest[k];
  }

  lemma SettleAt(front: seq<Message>, m: Message, rest: seq<Message>, accepted: set<Id>)
    requires Distinct(front + [m] + rest)
    ensures Settle(front + [m] + rest, m, accepted)
         == front + (if Leaves(m, accepted) then [] else [Bump(m)]) + rest
  {
    hide Without, Bumped;
    WithoutAt(front, m, rest);
    BumpedAt(front, m, rest);
    assert front + [] == front;
  }

  lemma SettleSnoc(q: seq<Message>, batch: seq<Message>, m: Message, accepted: set<Id>)
    ensures SettleAll(q, batch + [m], accepted) == Settle(SettleAll(q, batch, accepted), m, accepted)
    ensures Survivors(batch + [m], accepted)
         == Survivors(batch, accepted) + if Leaves(m, accepted) then [] else [Bump(m)]
  {
    assert Front(batch + [m]) == batch;
  }

  lemma {:induction false} SettlePrefix(s: seq<Message>, batch: seq<Message>, rest: seq<Message>, accepted: set<Id>)
    requires Distinct(s) && s == batch + rest
    ensures SettleAll(s, batch, accepted) == Survivors(batch, accepted) + rest
  {
    if batch == [] {
      assert s == rest;
    } else {
      hide SettleAll, Survivors, Settle, Leaves, Distinct;
      var front, m := Front(batch), Last(batch);
      assert batch == front + [m];
      assert s == front + ([m] + rest);
      SettlePrefix(s, front, [m] + rest, accepted);
      SettleSnoc(s, front, m, accepted);
      SurvivorsKeepIds(front, accepted, [m] + rest);
      var kept := Survivors(front, accepted);
      assert kept + ([m] + rest) == kept + [m] + rest;
      SettleAt(kept, m, rest, accepted);
    }
  }

  lemma DrainInTimeOrder(q: seq<Message>, accepted: set<Id>)
    requires Distinct(q)
    ensures var s := ByTime(q);
      ByTime(Drained(q, accepted)) == Survivors(s[..First(|s|)], accepted) + s[First(|s|)..]
  {
    DistinctByTime(q);
    SettleByTime(q, Batch(q), accepted);
    var s := ByTime(q);
    var n := First(|s|);
    assert s == s[..n] + s[n..];
    SettlePrefix(s, s[..n], s[n..], accepted);
  }

  // ---- The queue empties ----

  /** How many more drains can see the message: four minus its retries, and one when there is no retry left. */
  function DrainsLeft(m: Message): nat {
    if m.retries >= MAX_RETRY then 1 else MAX_RETRY + 1 - m.retries
  }

  function TotalDrainsLeft(q: seq<Message>): nat {
    if q == [] then 0 else TotalDrainsLeft(Front(q)) + DrainsLeft(Last(q))
  }

  lemma TotalSnoc(s: seq<Message>, m: Message)
    ensures TotalDrainsLeft(s + [m]) == TotalDrainsLeft(s) + DrainsLeft(m)
  {
    assert Front(s + [m]) == s;
  }

  lemma {:induction false} TotalOfConcat(s: seq<Message>, t: seq<Message>)
    ensures TotalDrainsLeft(s + t) == TotalDrainsLeft(s) + TotalDrainsLeft(t)
  {
    if t == [] {
      assert s + t == s;
    } else {
      TotalOfConcat(s, Front(t));
      assert Front(s + t) == s + Front(t);
    }
  }

  lemma {:induction false} TotalOfInsert(s: seq<Message>, m: Message)
    ensures TotalDrainsLeft(Insert(s, m)) == TotalDrainsLeft(s) + DrainsLeft(m)
  {
    if s == [] || Last(s).createdAt <= m.createdAt {
      assert Front(s + [m]) == s;
    } else {
      TotalOfInsert(Front(s), m);
      assert Front(Insert(Front(s), m) + [Last(s)]) == Insert(Front(s), m);
    }
  }

  lemma {:induction false} TotalByTime(q: seq<Message>)
    ensures TotalDrainsLeft(ByTime(q)) == TotalDrainsLeft(q)
  {
    if q != [] {
      TotalByTime(Front(q));
      TotalOfInsert(ByTime(Front(q)), Last(q));
    }
  }

  lemma {:induction false} SurvivorsAreNearer(s: seq<Message>, accepted: set<Id>)
    ensures TotalDrainsLeft(Survivors(s, accepted)) + |s| <= TotalDrainsLeft(s)
    ensures |Survivors(s, accepted)| <= |s|
  {
    if s != [] {
      SurvivorsAreNearer(Front(s), accepted);
      if !Leaves(Last(s), accepted) {
        TotalSnoc(Survivors(Front(s), accepted), Bump(Last(s)));
      } else {
        assert Survivors(Front(s), accepted) + [] == Survivors(Front(s), accepted);
      }
    }
  }

  lemma {:induction false} ByTimeLength(q: seq<Message>)
    ensures |ByTime(q)| == |q|
  {
    if q != [] {
      ByTimeLength(Front(q));
      InsertLength(ByTime(Front(q)), Last(q));
    }
  }

  lemma {:induction false} InsertLength(s: seq<Message>, m: Message)
    ensures |Insert(s, m)| == |s| + 1
  {
    if s != [] {
      InsertLength(Front(s), m);
    }
  }

  /** Every connected drain of a non-empty queue brings the end nearer, whatever the server answers:
      by at least one step for each of the messages it takes. */
  lemma EveryDrainMakesProgress(q: seq<Message>, accepted: set<Id>)
    requires Distinct(q)
    ensures TotalDrainsLeft(Drained(q, accepted)) + First(|q|) <= TotalDrainsLeft(q)
    ensures q != [] ==> TotalDrainsLeft(Drained(q, accepted)) < TotalDrainsLeft(q)
  {
    hide ByTime, Drained, Survivors, TotalDrainsLeft;
    var s := ByTime(q);
    var n := First(|s|);
    ByTimeLength(q);
    DrainInTimeOrder(q, accepted);
    SurvivorsAreNearer(s[..n], accepted);
    TotalOfConcat(Survivors(s[..n], accepted), s[n..]);
    TotalOfConcat(s[..n], s[n..]);
    assert s[..n] + s[n..] == s;
    TotalByTime(q);
    TotalByTime(Drained(q, accepted));
  }

  function DrainedAll(q: seq<Message>, drains: seq<set<Id>>): seq<Message>
    decreases |drains|
  {
    if drains == [] then q else DrainedAll(Drained(q, drains[0]), drains[1..])
  }

  /** The first `n` messages in time order have at most `c` drains left. */
  ghost predicate NearlyDone(s: seq<Message>, n: nat, c: nat) {
    n <= |s| && n <= BATCH && forall k :: 0 <= k < n ==> DrainsLeft(s[k]) <= c
  }

  lemma {:induction false} SurvivorsOf(s: seq<Message>, n: nat, c: nat, accepted: set<Id>) returns (n': nat)
    requires n <= |s| && c > 0 && forall k :: 0 <= k < n ==> DrainsLeft(s[k]) <= c
    ensures var kept := Survivors(s, accepted);
      && n' <= |kept| && n' <= n && |kept| - n' <= |s| - n
      && forall k :: 0 <= k < n' ==> DrainsLeft(kept[k]) <= c - 1
  {
    if s == [] {
      n' := 0;
    } else if n == |s| {
      n' := SurvivorsOf(Front(s), n - 1, c, accepted);
      var kept := Survivors(Front(s), accepted);
      assert forall k :: 0 <= k < |kept| ==> Survivors(s, accepted)[k] == kept[k];
      n' := |Survivors(s, accepted)|;
    } else {
      n' := SurvivorsOf(Front(s), n, c, accepted);
    }
  }

  /** The oldest twenty stay in front until they are gone, which takes four drains at most. */
  lemma {:induction false} GoneBy(q: seq<Message>, n: nat, c: nat, rounds: nat, drains: seq<set<Id>>)
    requires Distinct(q) && NearlyDone(ByTime(q), n, c)
    requires |ByTime(q)| - n <= BATCH * rounds && |drains| >= c + (MAX_RETRY + 1) * rounds
    ensures DrainedAll(q, drains) == []
    decreases |drains|, rounds
  {
    var s := ByTime(q);
    ByTimeLength(q);
    var first := if n > 0 then DrainsLeft(s[0]) else 1;
    assert c == 0 ==> n == 0;
    if c == 0 && rounds == 0 {
      EmptyStaysEmpty(q, drains);
    } else if c == 0 {
      GoneBy(q, First(|s|), MAX_RETRY + 1, rounds - 1, drains);
    } else {
      DrainInTimeOrder(q, drains[0]);
      DistinctAfterDrain(q, drains[0]);
      var b := First(|s|);
      var n' := SurvivorsOf(s[..b], n, c, drains[0]);
      GoneBy(Drained(q, drains[0]), n', c - 1, rounds, drains[1..]);
    }
  }

  lemma {:induction false} EmptyStaysEmpty(q: seq<Message>, drains: seq<set<Id>>)
    requires q == []
    ensures DrainedAll(q, drains) == []
  {
    if drains != [] {
      EmptyStaysEmpty(Drained(q, drains[0]), drains[1..]);
    }
  }

  lemma {:induction false} DistinctAfter(q: seq<Message>, batch: seq<Message>, accepted: set<Id>)
    requires Distinct(q)
    ensures Distinct(SettleAll(q, batch, accepted))
  {
    if batch != [] {
      DistinctAfter(q, Front(batch), accepted);
      var before := SettleAll(q, Front(batch), accepted);
      WithoutLooks(before, Last(batch).id, Last(batch).id);
      BumpedIsUpdate(before, Last(batch).id);
    }
  }

  lemma DistinctAfterDrain(q: seq<Message>, accepted: set<Id>)
    requires Distinct(q)
    ensures Distinct(Drained(q, accepted))
  {
    DistinctAfter(q, Batch(q), accepted);
  }

  function BatchesOf(n: nat): nat {
    (n + BATCH - 1) / BATCH
  }

  /** With no new messages a queue of n is empty after four connected drains for every twenty messages
      or part of it, whatever the server answers in each of them. */
  lemma QueueEmpties(q: seq<Message>, drains: seq<set<Id>>)
    requires Distinct(q) && |drains| >= 4 * ((|q| + 19) / 20)
    ensures DrainedAll(q, drains) == []
  {
    ByTimeLength(q);
    GoneBy(q, 0, 0, BatchesOf(|q|), drains);
  }

  // ---- What a drain does to one message ----

  /** The answers to the POSTs of one message. */
  function AnswersOf(posts: seq<Post>, id: Id): seq<bool> {
    if posts == [] then []
    else AnswersOf(Front(posts), id) + if Last(posts).id == id then [Last(posts).ok] else []
  }

  lemma {:induction false} SettleLooks(q: seq<Message>, batch: seq<Message>, accepted: set<Id>, id: Id)
    requires Distinct(q) && Distinct(batch)
    ensures var left := Lookup(SettleAll(q, batch, accepted), id);
      match Lookup(batch, id)
      case None => left == Lookup(q, id)
      case Some(m) =>
        if Leaves(m, accepted) || Lookup(q, id).None? then left == None
        else left == Some(Bump(Lookup(q, id).value))
  {
    if batch != [] {
      hide SettleAll, Lookup, Distinct;
      var front, m := Front(batch), Last(batch);
      assert batch == front + [m];
      DistinctFront(front, m);
      SettleLooks(q, front, accepted, id);
      SettleSnoc(q, front, m, accepted);
      LookupSnoc(front, m, id);
      var before := SettleAll(q, front, accepted);
      DistinctAfter(q, front, accepted);
      WithoutLooks(before, m.id, id);
      BumpedLookup(before, m.id, id);
    } else {
      assert Lookup(batch, id) == None;
    }
  }

  lemma DistinctFront(front: seq<Message>, m: Message)
    requires Distinct(front + [m])
    ensures Distinct(front) && Lookup(front, m.id).None?
  {
    var s := front + [m];
    assert s[|front|] == m && forall k :: 0 <= k < |front| ==> s[k] == front[k];
  }

  lemma BumpedLookup(q: seq<Message>, id: Id, other: Id)
    ensures Lookup(Bumped(q, id), other) ==
      match Lookup(q, other)
      case None => None
      case Some(m) => Some(if other == id then Bump(m) else m)
  {
    BumpedLooks(q, id);
    var i, j := IndexOf(q, other), IndexOf(Bumped(q, id), other);
    if i < |q| {
      assert Bumped(q, id)[i].id == other;
    }
    if j < |q| {
      assert q[j].id == other;
    }
  }

  lemma {:induction false} AnswersOfConcat(a: seq<Post>, p: Post, id: Id)
    ensures AnswersOf(a + [p], id) == AnswersOf(a, id) + if p.id == id then [p.ok] else []
  {
    assert Front(a + [p]) == a;
  }

  lemma {:induction false} OnePost(batch: seq<Message>, accepted: set<Id>, id: Id)
    requires Distinct(batch)
    ensures AnswersOf(Posts(batch, accepted), id) ==
      match Lookup(batch, id)
      case None => []
      case Some(m) => if m.retries >= MAX_RETRY then [] else [id in accepted]
  {
    if batch != [] {
      var front, m := Front(batch), Last(batch);
      assert batch == front + [m];
      DistinctFront(front, m);
      hide AnswersOf, Lookup, Distinct;
      OnePost(front, accepted, id);
      LookupSnoc(front, m, id);
      AnswersOfConcat(Posts(front, accepted), Post(m.id, m.id in accepted), id);
      assert Posts(front, accepted) + [] == Posts(front, accepted);
    }
  }

  /** What a drain does to the message with the given id and to its POSTs. */
  lemma DrainLooks(q: seq<Message>, accepted: set<Id>, id: Id)
    requires Distinct(q)
    ensures var b := Lookup(Batch(q), id);
      var answers := AnswersOf(Posts(Batch(q), accepted), id);
      if b.None? then Lookup(Drained(q, accepted), id) == Lookup(q, id) && answers == []
      else
        && Lookup(q, id) == b
        && Lookup(Drained(q, accepted), id) ==
             (if b.value.retries >= 3 || id in accepted then None else Some(b.value.(retries := b.value.retries + 1)))
        && answers == if b.value.retries >= 3 then [] else [id in accepted]
  {
    var batch := Batch(q);
    DistinctByTime(q);
    assert Distinct(batch);
    SettleLooks(q, batch, accepted, id);
    OnePost(batch, accepted, id);
    if Lookup(batch, id).Some? {
      var m := Lookup(batch, id).value;
      assert m in ByTime(q);
      var i :| 0 <= i < |q| && q[i] == m;
      LookupOf(q, i);
    }
  }

  /** A drain takes the twenty oldest messages, or all if there are no more: none it leaves is older than one it takes. */
  lemma BatchInWords(q: seq<Message>)
    requires Distinct(q)
    ensures |Batch(q)| == if |q| < 20 then |q| else 20
    ensures Distinct(Batch(q)) && forall b :: b in Batch(q) ==> b in q
    ensures forall i, j :: 0 <= i < j < |Batch(q)| ==> Batch(q)[i].createdAt <= Batch(q)[j].createdAt
    ensures forall b, m :: b in Batch(q) && m in q && m !in Batch(q) ==> b.createdAt <= m.createdAt
  {
    var s, n := ByTime(q), |Batch(q)|;
    ByTimeLength(q);
    ByTimeSorts(q);
    DistinctByTime(q);
    assert s == s[..n] + s[n..];
    hide ByTime;
  }

  // ---- The fate of one message ----

  /** A message enqueued as `first` that is left in the queue, or not, after these answers to its POSTs. */
  ghost predicate Fated(first: Message, left: Option<Message>, answers: seq<bool>) {
    if left.Some? then
      && left.value == first.(retries := first.retries + |answers|)
      && true !in answers && (answers != [] ==> first.retries + |answers| <= MAX_RETRY)
    else
      || (answers != [] && Last(answers) && true !in Front(answers) && first.retries + |answers| <= MAX_RETRY)
      || (true !in answers && |answers| == Max(0, MAX_RETRY - first.retries))
  }

  lemma NotTrueAfter(answers: seq<bool>, ok: bool)
    ensures Front(answers + [ok]) == answers && Last(answers + [ok]) == ok
    ensures true in answers + [ok] <==> true in answers || ok
  {
  }

  lemma FateStep(first: Message, left: Message, answers: seq<bool>, ok: bool)
    requires Fated(first, Some(left), answers)
    ensures Fated(first, if ok || left.retries >= MAX_RETRY then None else Some(Bump(left)),
                  if left.retries >= MAX_RETRY then answers else answers + [ok])
  {
    NotTrueAfter(answers, ok);
  }

  lemma FateStarts(m: Message)
    ensures Fated(m, Some(m), [])
  {
  }

  lemma ThreeRefusals(answers: seq<bool>)
    requires |answers| == 3 && true !in answers
    ensures answers == [false, false, false]
  {
    forall k | 0 <= k < 3 ensures !answers[k] {
      assert answers[k] in answers;
    }
  }
}
