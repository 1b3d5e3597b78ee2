/** Counting the threads of a system by the kind of place they are at. */
module Counting {

  /** The threads at a place of kind k. */
  ghost function Where<T, K>(at: map<T, K>, k: K): set<T> {
    set t | t in at && at[t] == k
  }

  /** How many threads are at a place of kind k. */
  ghost function Count<T, K>(at: map<T, K>, k: K): nat {
    |Where(at, k)|
  }

  function One(b: bool): nat { if b then 1 else 0 }

  /** How a count changes when one thread leaves a place that counts (or not) for one that does (or not). */
  predicate Shift(before: nat, after: nat, leaves: bool, enters: bool) {
    after == before - One(leaves) + One(enters) && before >= One(leaves)
  }

  lemma CountShift<T, K>(at: map<T, K>, t: T, to: K, k: K)
    requires t in at
    ensures Shift(Count(at, k), Count(at[t := to], k), at[t] == k, to == k)
  {
    var before, after := Where(at, k), Where(at[t := to], k);
    if to == k {
      assert after == before + {t};
    } else {
      assert after == before - {t};
    }
  }

  lemma CountWitness<T, K>(at: map<T, K>, k: K) returns (t: T)
    requires Count(at, k) >= 1
    ensures t in at && at[t] == k
  {
    t :| t in Where(at, k);
  }

  /** A count of at most one names at most one thread. */
  lemma CountUnique<T, K>(at: map<T, K>, t: T, u: T, k: K)
    requires t in at && u in at && at[t] == k && at[u] == k
    requires Count(at, k) <= 1
    ensures t == u
  {
    var w := Where(at, k);
    assert t in w && u in w;
    assert |w - {t}| == |w| - 1;
    assert w - {t} == {};
  }

  lemma CountZero<T, K>(at: map<T, K>, k: K)
    requires forall t | t in at :: at[t] != k
    ensures Count(at, k) == 0
  {
    assert Where(at, k) == {};
  }

  /** The threads at places of two different kinds, together, are some of all threads. */
  lemma CountTwo<T, K>(at: map<T, K>, j: K, k: K)
    requires j != k
    ensures Count(at, j) + Count(at, k) <= |at|
  {
    assert Where(at, j) !! Where(at, k);
    SubsetSize(Where(at, j) + Where(at, k), at.Keys);
  }

  lemma SubsetSize<T>(a: set<T>, b: set<T>)
    requires a <= b
    ensures |a| <= |b|
  {
    assert b == a + (b - a);
  }
}
