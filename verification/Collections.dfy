/** A value that may be missing. */
module Wrappers {
  datatype Option<T> = None | Some(value: T)
}

/** Queues without repetitions, and taking an element out of them. */
module Queues {
  ghost predicate Distinct(s: seq<nat>) {
    forall i, j :: 0 <= i < j < |s| ==> s[i] != s[j]
  }

  /** The queue without the first occurrence of `x`. */
  function Without(s: seq<nat>, x: nat): (r: seq<nat>)
    ensures |r| == if x in s then |s| - 1 else |s|
  {
    if s == [] then [] else if s[0] == x then s[1..] else [s[0]] + Without(s[1..], x)
  }

  lemma {:induction false} WithoutRemoves(s: seq<nat>, x: nat)
    requires Distinct(s)
    ensures Distinct(Without(s, x)) && forall y :: y in Without(s, x) <==> y in s && y != x
  {
    if s != [] {
      assert s == [s[0]] + s[1..];
      WithoutRemoves(s[1..], x);
      var rest := Without(s[1..], x);
      assert forall i :: 0 <= i < |rest| ==> rest[i] in rest;
    }
  }

  /** How many stand before `x`. */
  function Place(s: seq<nat>, x: nat): (n: nat)
    ensures x in s ==> n < |s| && s[n] == x
  {
    if s == [] || s[0] == x then 0 else 1 + Place(s[1..], x)
  }

  lemma {:induction false} PlaceFirst(s: seq<nat>, x: nat, j: nat)
    requires x in s && j < Place(s, x)
    ensures s[j] != x
  {
    if j > 0 {
      PlaceFirst(s[1..], x, j - 1);
    }
  }

  lemma {:induction false} PlaceIs(s: seq<nat>, i: nat)
    requires i < |s| && s[i] !in s[..i]
    ensures Place(s, s[i]) == i
  {
    if i > 0 {
      assert s[0] == s[..i][0] && s[1..][i - 1] == s[i];
      assert s[1..][..i - 1] == s[..i][1..];
      PlaceIs(s[1..], i - 1);
    }
  }

  /** Whoever stands behind the first `k` moves up by `k` when they leave, whoever comes after. */
  lemma PlaceFrom(s: seq<nat>, k: nat, more: seq<nat>, x: nat)
    requires x in s && k <= Place(s, x)
    ensures x in s[k..] + more && Place(s[k..] + more, x) == Place(s, x) - k
  {
    var r, i := s[k..] + more, Place(s, x) - k;
    assert r[i] == x;
    forall j | 0 <= j < i
      ensures r[j] != x
    {
      PlaceFirst(s, x, k + j);
    }
    PlaceIs(r, i);
  }

  /** Whoever is not among the first `k` stands behind them. */
  lemma PlaceAtLeast(s: seq<nat>, k: nat, x: nat)
    requires Distinct(s) && k <= |s| && x in s[k..]
    ensures x in s && k <= Place(s, x)
  {
    var i :| 0 <= i < |s[k..]| && s[k..][i] == x;
    assert s[k + i] == x;
  }

  /** Taking out another one moves `x` up only if that one stood before it. */
  lemma {:induction false} PlaceWithout(s: seq<nat>, y: nat, x: nat)
    requires x in s && x != y
    ensures x in Without(s, y)
    ensures Place(Without(s, y), x) == Place(s, x) - if y in s && Place(s, y) < Place(s, x) then 1 else 0
  {
    assert s == [s[0]] + s[1..];
    if s[0] != y && s[0] != x {
      PlaceWithout(s[1..], y, x);
      assert Without(s, y)[1..] == Without(s[1..], y);
    }
  }
}

/** Taking an element out of a sequence by its index. */
module Sequences {
  function RemoveAt<T>(s: seq<T>, i: nat): (r: seq<T>)
    requires i < |s|
    ensures |r| == |s| - 1
  {
    s[..i] + s[i + 1..]
  }
}
