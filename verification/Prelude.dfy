/** Small definitions shared by the component models. */
module Prelude {

  datatype Option<+T> = None | Some(value: T) {
    function GetOr(default: T): T {
      match this
      case Some(v) => v
      case None => default
    }
  }

  function Max(a: int, b: int): int {
    if a < b then b else a
  }

  /** The last element of a sequence. */
  function Last<T>(s: seq<T>): T
    requires |s| > 0
  {
    s[|s| - 1]
  }

  /** Everything but the last element. */
  function Front<T>(s: seq<T>): seq<T>
    requires |s| > 0
  {
    s[..|s| - 1]
  }

  function Sum(xs: seq<int>): int {
    if xs == [] then 0 else Sum(Front(xs)) + Last(xs)
  }

  lemma {:induction false} SumIsAdditive(xs: seq<int>, ys: seq<int>)
    ensures Sum(xs + ys) == Sum(xs) + Sum(ys)
    ensures |xs| == 1 ==> Sum(xs) == xs[0]
  {
    if ys == [] {
      assert xs + ys == xs;
    } else {
      SumIsAdditive(xs, Front(ys));
      assert Front(xs + ys) == xs + Front(ys);
    }
    assert |xs| == 1 ==> Front(xs) == [];
  }

  /** The texts one after the other. */
  function Concat(texts: seq<string>): string {
    if texts == [] then "" else Concat(Front(texts)) + Last(texts)
  }

  lemma {:induction false} ConcatIsAdditive(a: seq<string>, b: seq<string>)
    ensures Concat(a + b) == Concat(a) + Concat(b)
    ensures |a| == 1 ==> Concat(a) == a[0]
  {
    if b == [] {
      assert a + b == a;
    } else {
      ConcatIsAdditive(a, Front(b));
      assert Front(a + b) == a + Front(b);
    }
    assert |a| == 1 ==> Front(a) == [] && Concat([]) == "";
  }

  lemma AppendLast<T>(a: seq<T>, b: seq<T>, x: T)
    ensures a + (b + [x]) == (a + b) + [x]
  {
  }

  ghost predicate NoDuplicates<T>(s: seq<T>) {
    forall i, j :: 0 <= i < j < |s| ==> s[i] != s[j]
  }

  /** A duplicate-free sequence of numbers below n has at most n of them, and if it has n it has them all. */
  lemma {:induction false} Pigeonhole(s: seq<nat>, n: nat)
    requires NoDuplicates(s)
    requires forall k :: 0 <= k < |s| ==> s[k] < n
    ensures |s| <= n
    ensures |s| == n ==> forall i: nat :: i < n ==> i in s
  {
    if |s| > 0 {
      assert 0 <= s[0] < n;
      if n - 1 in s {
        var k :| 0 <= k < |s| && s[k] == n - 1;
        var rest := s[..k] + s[k + 1..];
        assert forall x :: x in s <==> x in rest || x == n - 1;
        Pigeonhole(rest, n - 1);
      } else {
        Pigeonhole(s, n - 1);
      }
    }
  }
}
