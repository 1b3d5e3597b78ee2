/** Rearranging sequences. */
module Permutation {

  /** The same elements in another order. */
  ghost predicate Same<T>(a: seq<T>, b: seq<T>) {
    multiset(a) == multiset(b)
  }

  function Swap<T>(s: seq<T>, i: int, j: int): (t: seq<T>)
    requires 0 <= i < |s| && 0 <= j < |s|
    ensures |t| == |s| && Same(s, t)
  {
    SwapSame(s, i, j);
    s[i := s[j]][j := s[i]]
  }

  lemma SwapSame<T>(a: seq<T>, i: int, j: int)
    requires 0 <= i < |a| && 0 <= j < |a|
    ensures multiset(a[i := a[j]][j := a[i]]) == multiset(a)
  {
    var b := a[i := a[j]];
    assert multiset(b) == multiset(a) - multiset{a[i]} + multiset{a[j]};
  }

  lemma SameMembers<T>(a: seq<T>, b: seq<T>)
    requires Same(a, b)
    ensures |a| == |b| && forall x :: x in a <==> x in b
  {
    assert |a| == |multiset(a)| == |multiset(b)| == |b|;
    forall x
      ensures x in a <==> x in b
    {
      assert x in a <==> x in multiset(a);
      assert x in b <==> x in multiset(b);
    }
  }

  predicate Distinct<T(==)>(s: seq<T>) {
    forall j, k | 0 <= j < k < |s| :: s[j] != s[k]
  }

  lemma SameDistinct<T>(a: seq<T>, b: seq<T>)
    requires Same(a, b) && Distinct(a)
    ensures Distinct(b)
  {
    forall j, k | 0 <= j < k < |b|
      ensures b[j] != b[k]
    {
      OnceEach(a, b[j]);
      TwiceCounted(b, j, k);
    }
  }

  lemma {:induction false} OnceEach<T>(a: seq<T>, x: T)
    requires Distinct(a)
    ensures multiset(a)[x] <= 1
  {
    if a != [] {
      assert a == [a[0]] + a[1..];
      OnceEach(a[1..], x);
      if a[0] == x {
        assert x !in a[1..];
      }
    }
  }

  lemma TwiceCounted<T>(b: seq<T>, j: int, k: int)
    requires 0 <= j < k < |b|
    ensures b[j] == b[k] ==> multiset(b)[b[j]] >= 2
  {
    assert b == b[..k] + b[k..];
    assert b[j] in b[..k] && b[k] in b[k..];
    assert multiset(b)[b[j]] == multiset(b[..k])[b[j]] + multiset(b[k..])[b[j]];
  }

  // ---------------------------------------------------------------- holes

  /**
   A sequence in the middle of moving the element v[j] to another place by shifting others over it:
   what it holds at j itself does not matter.
  */
  ghost predicate Hole<T>(a: seq<T>, v: seq<T>, j: int) {
    |v| <= |a| && 0 <= j < |v| && forall k | 0 <= k < |v| && k != j :: a[k] == v[k]
  }

  lemma HoleMoved<T>(a: seq<T>, v: seq<T>, j: int, k: int)
    requires Hole(a, v, j) && 0 <= k < |v| && k != j
    ensures Hole(a[j := a[k]], Swap(v, j, k), k) && Swap(v, j, k)[k] == v[j]
  {
  }

  lemma HoleFilled<T>(a: seq<T>, v: seq<T>, j: int)
    requires Hole(a, v, j)
    ensures a[j := v[j]][..|v|] == v
  {
  }

  // ---------------------------------------------------------------- the first numbers, in some order

  function Numbers(n: nat): (s: set<nat>)
    ensures |s| == n && forall x: nat :: x in s <==> x < n
  {
    if n == 0 then {} else Numbers(n - 1) + {n - 1}
  }

  function Members(s: seq<nat>): (r: set<nat>)
    ensures forall x :: x in r <==> x in s
  {
    if s == [] then {} else Members(s[..|s| - 1]) + {s[|s| - 1]}
  }

  lemma {:induction false} DistinctCount(s: seq<nat>)
    requires forall j, k | 0 <= j < k < |s| :: s[j] != s[k]
    ensures |Members(s)| == |s|
  {
    if s != [] {
      var t := s[..|s| - 1];
      DistinctCount(t);
      assert s[|s| - 1] !in t;
    }
  }

  /** n different numbers below n are all the numbers below n. */
  lemma Pigeonhole(s: seq<nat>, n: nat)
    requires |s| == n && (forall k | 0 <= k < n :: s[k] < n) && (forall j, k | 0 <= j < k < n :: s[j] != s[k])
    ensures forall x: nat :: x in s <==> x < n
  {
    DistinctCount(s);
    var e, all := Members(s), Numbers(n);
    assert e <= all;
    assert |all - e| == |all| - |e|;
    assert all - e == {};
  }
}
