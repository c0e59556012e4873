/** Counting calls in a sliding window: what the limiters share. Times are milliseconds. */
module SlidingWindow {
  import opened Prelude

  /** The calls that still count at `now`. */
  function Active(ts: seq<int>, now: int, window: int): (r: seq<int>)
    ensures |r| <= |ts|
    ensures forall t :: t in r <==> t in ts && now - t < window
  {
    if ts == [] then []
    else if now - Last(ts) < window then Active(Front(ts), now, window) + [Last(ts)]
    else Active(Front(ts), now, window)
  }

  /** How many calls fall into the half-open interval from..to. */
  function Count(ts: seq<int>, from: int, to: int): nat {
    if ts == [] then 0 else Count(Front(ts), from, to) + if from <= Last(ts) < to then 1 else 0
  }

  lemma {:induction false} ActiveTwice(ts: seq<int>, early: int, late: int, window: int)
    requires early <= late
    ensures Active(Active(ts, early, window), late, window) == Active(ts, late, window)
  {
    if ts != [] {
      ActiveTwice(Front(ts), early, late, window);
      ActiveAppend(Active(Front(ts), early, window), Last(ts), late, window);
    }
  }

  lemma ActiveAppend(ts: seq<int>, t: int, now: int, window: int)
    ensures Active(ts + [t], now, window) == Active(ts, now, window) + if now - t < window then [t] else []
  {
    assert Front(ts + [t]) == ts;
  }

  /** Pruning a list and recording an allowed call keeps its count in step with the full history. */
  lemma TrackOne(ts: seq<int>, history: seq<int>, t: int, allowed: bool, now: int, window: int)
    requires t <= now && Active(ts, t, window) == Active(history, t, window)
    ensures var more := if allowed then [t] else [];
      Active(Active(ts, t, window) + more, now, window) == Active(history + more, now, window)
  {
    ActiveTwice(history, t, now, window);
    if allowed {
      ActiveAppend(Active(ts, t, window), t, now, window);
      ActiveAppend(history, t, now, window);
    } else {
      assert history + [] == history && Active(ts, t, window) + [] == Active(ts, t, window);
    }
  }

  /** A history of allowed calls: each came when fewer than `limit` calls counted. */
  ghost predicate Admitted(ts: seq<int>, limit: int, window: int) {
    ts != [] ==>
      && Admitted(Front(ts), limit, window)
      && |Active(Front(ts), Last(ts), window)| < limit
      && forall k :: 0 <= k < |ts| ==> ts[k] <= Last(ts)
  }

  lemma AdmitOne(ts: seq<int>, t: int, limit: int, window: int)
    requires Admitted(ts, limit, window) && |Active(ts, t, window)| < limit && forall x :: x in ts ==> x <= t
    ensures Admitted(ts + [t], limit, window)
  {
    assert Front(ts + [t]) == ts;
    assert forall k :: 0 <= k < |ts| ==> ts[k] in ts;
  }

  lemma {:induction false} CountIsActive(ts: seq<int>, from: int, to: int, now: int, window: int)
    requires now < from + window
    ensures Count(ts, from, to) <= |Active(ts, now, window)|
  {
    if ts != [] {
      CountIsActive(Front(ts), from, to, now, window);
    }
  }

  /** The bound: no window of that length, wherever it starts, holds more than `limit` allowed calls. */
  lemma {:induction false} WindowBound(ts: seq<int>, limit: nat, window: int, from: int)
    requires Admitted(ts, limit, window)
    ensures Count(ts, from, from + window) <= limit
  {
    if ts != [] {
      WindowBound(Front(ts), limit, window, from);
      if from <= Last(ts) < from + window {
        CountIsActive(Front(ts), from, from + window, Last(ts), window);
      }
    }
  }
}
