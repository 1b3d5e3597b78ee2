/**
 How waitable_select of kernel/thread/waitable.c orders its work: a random order to poll the cases
 in, the same cases sorted by the addresses of their waitables, and the locks taken in that order.
*/
module SelectOrder {
  import opened WaitableProtocol
  import opened Permutation

  // ---------------------------------------------------------------- the poll order

  /** Random numbers for a shuffle: the i-th is at most i, as fastrandn(i + 1) is. */
  predicate AreRandom(random: seq<nat>) {
    forall i | 0 <= i < |random| :: random[i] <= i
  }

  /** The order to which random numbers lead: each element is put in the place of an earlier one, which comes last. */
  function Shuffle(random: seq<nat>): (order: seq<int>)
    requires AreRandom(random)
    ensures |order| == |random|
  {
    if random == [] then []
    else
      var i := |random| - 1;
      var before := Shuffle(random[..i]);
      var j := random[i];
      (before + [if j < i then before[j] else i])[j := i]
  }

  /** The inside-out shuffle: a permutation, whatever the random numbers are. */
  method PollOrder(n: nat, random: seq<nat>) returns (order: array<int>)
    requires |random| == n && AreRandom(random)
    ensures fresh(order) && order.Length == n && IsOrder(order[..], n) && order[..] == Shuffle(random)
  {
    order := new int[n];
    for i := 0 to n
      invariant IsOrder(order[..i], i) && order[..i] == Shuffle(random[..i])
    {
      ghost var s := order[..i];
      var j := random[i];
      order[i] := order[j];
      order[j] := i;
      Shuffled(s, i, j, order[..i + 1]);
      assert random[..i + 1][..i] == random[..i];
      assert order[..i + 1] == (s + [if j < i then s[j] else i])[j := i];
    }
    assert order[..] == order[..n] && random[..n] == random;
  }

  /** Every order comes up for some random numbers ... */
  lemma {:induction false} EveryOrder(order: seq<int>, n: nat) returns (random: seq<nat>)
    requires IsOrder(order, n)
    ensures |random| == n && AreRandom(random) && Shuffle(random) == order
    decreases n
  {
    random := [];
    if n > 0 {
      var i := n - 1;
      assert i in order;
      var j :| 0 <= j < n && order[j] == i;
      var before := order[j := order[i]][..i];
      TakenBack(order, n, j);
      var rest := EveryOrder(before, i);
      random := rest + [j];
      assert random[..i] == rest;
      PutBack(order, n, j);
    }
  }

  /** One step of the shuffle undone and done again. */
  lemma PutBack(order: seq<int>, n: nat, j: nat)
    requires |order| == n && j < n && order[j] == n - 1
    ensures var i, before := n - 1, order[j := order[n - 1]][..n - 1];
            (before + [if j < i then before[j] else i])[j := i] == order
  {
  }

  /** One step of the shuffle undone. */
  lemma TakenBack(order: seq<int>, n: nat, j: nat)
    requires IsOrder(order, n) && j < n && order[j] == n - 1
    ensures IsOrder(order[j := order[n - 1]][..n - 1], n - 1)
  {
    var before := order[j := order[n - 1]][..n - 1];
    forall v | 0 <= v < n - 1
      ensures v in before
    {
      assert v in order;
      var k :| 0 <= k < n && order[k] == v;
      assert before[if k == n - 1 then j else k] == v;
    }
  }

  /** Where the last random number leaves the elements. */
  lemma LastStep(random: seq<nat>)
    requires AreRandom(random) && random != []
    ensures var i, order := |random| - 1, Shuffle(random);
            && order[random[i]] == i && (forall k | 0 <= k <= i && k != random[i] :: order[k] != i)
            && forall k | 0 <= k < i :: Shuffle(random[..i])[k] == order[if k == random[i] then i else k]
  {
    var i := |random| - 1;
    ShuffleIsOrder(random[..i]);
    StepLeaves(Shuffle(random[..i]), i, random[i], Shuffle(random));
  }

  lemma StepLeaves(before: seq<int>, i: nat, j: nat, order: seq<int>)
    requires |before| == i && j <= i && order == (before + [if j < i then before[j] else i])[j := i]
    requires forall k | 0 <= k < i :: before[k] < i
    ensures order[j] == i && (forall k | 0 <= k <= i && k != j :: order[k] != i)
    ensures forall k | 0 <= k < i :: before[k] == order[if k == j then i else k]
  {
  }

  /** ... and for no others: all orders are equally likely. */
  lemma {:induction false} OneShuffleEach(a: seq<nat>, b: seq<nat>)
    requires AreRandom(a) && AreRandom(b) && Shuffle(a) == Shuffle(b)
    ensures a == b
  {
    if a != [] {
      var i := |a| - 1;
      LastStep(a);
      LastStep(b);
      assert a[i] == b[i];
      assert Shuffle(a[..i]) == Shuffle(b[..i]);
      OneShuffleEach(a[..i], b[..i]);
      assert a == a[..i] + [a[i]] && b == b[..i] + [b[i]];
    }
  }

  lemma {:induction false} ShuffleIsOrder(random: seq<nat>)
    requires AreRandom(random)
    ensures IsOrder(Shuffle(random), |random|)
  {
    if random != [] {
      var i := |random| - 1;
      ShuffleIsOrder(random[..i]);
      Shuffled(Shuffle(random[..i]), i, random[i], Shuffle(random));
    }
  }

  /** One step of the shuffle moves the j-th element to the end and puts the new one in its place. */
  lemma Shuffled(s: seq<int>, i: nat, j: nat, t: seq<int>)
    requires IsOrder(s, i) && j <= i && |t| == i + 1 && t[j] == i && (j < i ==> t[i] == s[j])
    requires forall k | 0 <= k < i && k != j :: t[k] == s[k]
    ensures IsOrder(t, i + 1)
  {
    forall v | 0 <= v < i + 1
      ensures v in t
    {
      if v == i {
        assert t[j] == v;
      } else {
        assert v in s;
        var k :| 0 <= k < i && s[k] == v;
        assert t[if k == j then i else k] == v;
      }
    }
  }

  // ---------------------------------------------------------------- the lock order

  function Key(w: seq<Wid>, a: seq<int>, k: int): Wid
    requires 0 <= k < |a| && 0 <= a[k] < |w|
  {
    w[a[k]]
  }

  ghost predicate InRange(w: seq<Wid>, a: seq<int>) {
    forall k | 0 <= k < |a| :: 0 <= a[k] < |w|
  }

  function Parent(k: int): int {
    (k - 1) / 2
  }

  /** The k-th element is not larger than its parent. */
  ghost predicate BelowParent(w: seq<Wid>, a: seq<int>, k: int)
    requires 0 < k < |a| && InRange(w, a)
  {
    Key(w, a, k) <= Key(w, a, Parent(k))
  }

  /** The first n elements form a heap with the largest address on top. */
  ghost predicate Heap(w: seq<Wid>, a: seq<int>, n: nat)
    requires InRange(w, a)
  {
    n <= |a| && forall k {:trigger BelowParent(w, a, k)} | 0 < k < n :: BelowParent(w, a, k)
  }

  predicate InOrder(w: seq<Wid>, a: seq<int>, j: int, k: int)
    requires 0 <= j < |a| && 0 <= k < |a| && 0 <= a[j] < |w| && 0 <= a[k] < |w|
  {
    Key(w, a, j) <= Key(w, a, k)
  }

  /** The elements from n on are sorted, and none of them is smaller than an earlier one. */
  ghost predicate Split(w: seq<Wid>, a: seq<int>, n: nat)
    requires InRange(w, a)
  {
    n <= |a| && forall j, k {:trigger InOrder(w, a, j, k)} | 0 <= j < k < |a| && n <= k :: InOrder(w, a, j, k)
  }

  ghost predicate Sorted(w: seq<Wid>, a: seq<int>)
    requires InRange(w, a)
  {
    Split(w, a, 0)
  }

  lemma SameRange(w: seq<Wid>, a: seq<int>, b: seq<int>)
    requires InRange(w, a) && Same(a, b)
    ensures InRange(w, b)
  {
    forall k | 0 <= k < |b|
      ensures 0 <= b[k] < |w|
    {
      assert b[k] in multiset(b);
      assert b[k] in a;
    }
  }

  /** A heap except that the element at j may be too large for its place. */
  ghost predicate AlmostUp(w: seq<Wid>, a: seq<int>, j: nat)
    requires InRange(w, a)
  {
    && j < |a|
    && (forall k {:trigger BelowParent(w, a, k)} | 0 < k < |a| && k != j :: BelowParent(w, a, k))
    && (forall k | 0 < k < |a| && Parent(k) == j && j > 0 :: Key(w, a, k) <= Key(w, a, Parent(j)))
  }

  lemma SiftUp(w: seq<Wid>, a: seq<int>, j: nat)
    requires InRange(w, a) && AlmostUp(w, a, j) && j > 0 && Key(w, a, Parent(j)) < Key(w, a, j)
    ensures var b := Swap(a, j, Parent(j)); InRange(w, b) && AlmostUp(w, b, Parent(j))
  {
    var p := Parent(j);
    var b := Swap(a, j, p);
    SameRange(w, a, b);
    forall k | 0 < k < |b| && k != p
      ensures BelowParent(w, b, k)
    {
      assert k != j ==> BelowParent(w, a, k);
    }
    forall k | 0 < k < |b| && Parent(k) == p && p > 0
      ensures Key(w, b, k) <= Key(w, b, Parent(p))
    {
      assert BelowParent(w, a, p);
      assert k != j ==> BelowParent(w, a, k);
    }
  }

  lemma SiftedUp(w: seq<Wid>, a: seq<int>, j: nat)
    requires InRange(w, a) && AlmostUp(w, a, j) && (j == 0 || Key(w, a, Parent(j)) >= Key(w, a, j))
    ensures Heap(w, a, |a|)
  {
    forall k | 0 < k < |a|
      ensures BelowParent(w, a, k)
    {
    }
  }

  /** The first loop of the sort: the cases in poll order become a heap. */
  method BuildHeap(w: seq<Wid>, poll: array<int>, order: array<int>)
    requires order.Length == poll.Length && order != poll && InRange(w, poll[..])
    modifies order
    ensures InRange(w, order[..]) && Heap(w, order[..], order.Length) && Same(poll[..], order[..])
  {
    for i := 0 to poll.Length
      invariant InRange(w, order[..i]) && Heap(w, order[..i], i) && Same(poll[..i], order[..i])
    {
      Inserted(w, poll[..], order[..i], i);
      InsertUp(w, order, i, poll[i]);
    }
    assert order[..] == order[..poll.Length] && poll[..] == poll[..poll.Length];
  }

  /** The inner loop: the place for o among the first i elements, from the bottom up. */
  method InsertUp(w: seq<Wid>, order: array<int>, i: nat, o: int)
    requires i < order.Length && InRange(w, order[..i] + [o]) && AlmostUp(w, order[..i] + [o], i)
    modifies order
    ensures InRange(w, order[..i + 1]) && Heap(w, order[..i + 1], i + 1) && Same(old(order[..i]) + [o], order[..i + 1])
  {
    var j := i;
    ghost var v := order[..i] + [o];
    assert v[i] == o;
    while j > 0 && w[order[(j - 1) / 2]] < w[o]
      invariant 0 <= j <= i && |v| == i + 1 && Hole(order[..], v, j) && v[j] == o
      invariant InRange(w, v) && AlmostUp(w, v, j) && Same(old(order[..i]) + [o], v)
    {
      var k := (j - 1) / 2;
      SiftUp(w, v, j);
      HoleMoved(order[..], v, j, k);
      v := Swap(v, j, k);
      order[j] := order[k];
      j := k;
    }
    SiftedUp(w, v, j);
    HoleFilled(order[..], v, j);
    order[j] := o;
  }

  lemma Inserted(w: seq<Wid>, poll: seq<int>, a: seq<int>, i: nat)
    requires i < |poll| && |a| == i && InRange(w, poll) && InRange(w, a) && Heap(w, a, i) && Same(poll[..i], a)
    ensures var v := a + [poll[i]]; InRange(w, v) && AlmostUp(w, v, i) && Same(v, poll[..i + 1])
  {
    var v := a + [poll[i]];
    assert poll[..i + 1] == poll[..i] + [poll[i]];
    forall k | 0 < k < i
      ensures BelowParent(w, v, k)
    {
      assert BelowParent(w, a, k);
    }
  }

  // ---------------------------------------------------------------- sorting

  lemma {:induction false} RootIsLargest(w: seq<Wid>, a: seq<int>, n: nat, k: nat)
    requires InRange(w, a) && Heap(w, a, n) && k < n
    ensures Key(w, a, k) <= Key(w, a, 0)
  {
    if k > 0 {
      assert BelowParent(w, a, k);
      RootIsLargest(w, a, n, Parent(k));
    }
  }

  /** A heap of the first n elements, except that the element at j may be too small for its place. */
  ghost predicate AlmostDown(w: seq<Wid>, a: seq<int>, n: nat, j: nat)
    requires InRange(w, a)
  {
    && n <= |a|
    && (forall k {:trigger BelowParent(w, a, k)} | 0 < k < n && Parent(k) != j :: BelowParent(w, a, k))
    && (forall k | 0 < k < n && Parent(k) == j && j > 0 :: Key(w, a, k) <= Key(w, a, Parent(j)))
  }

  /** Taking the top of the heap to the front of the sorted part. */
  lemma TakeTop(w: seq<Wid>, a: seq<int>, i: nat)
    requires InRange(w, a) && i < |a| && Heap(w, a, i + 1) && Split(w, a, i + 1)
    ensures var b := Swap(a, 0, i); InRange(w, b) && AlmostDown(w, b, i, 0) && Split(w, b, i)
  {
    var b := Swap(a, 0, i);
    SameRange(w, a, b);
    forall k | 0 < k < i && Parent(k) != 0
      ensures BelowParent(w, b, k)
    {
      assert BelowParent(w, a, k);
    }
    forall j, k | 0 <= j < k < |b| && i <= k
      ensures InOrder(w, b, j, k)
    {
      var from := if j == 0 then i else if j == i then 0 else j;
      if k == i {
        RootIsLargest(w, a, i + 1, from);
      } else {
        assert InOrder(w, a, from, k);
      }
    }
  }

  /** One step down, to the larger child. */
  lemma SiftDown(w: seq<Wid>, a: seq<int>, n: nat, j: nat, k: nat)
    requires InRange(w, a) && AlmostDown(w, a, n, j) && Split(w, a, n) && j < k < n && Parent(k) == j
    requires Key(w, a, j) < Key(w, a, k)
    requires forall c | 0 < c < n && Parent(c) == j :: Key(w, a, c) <= Key(w, a, k)
    ensures var b := Swap(a, j, k); InRange(w, b) && AlmostDown(w, b, n, k) && Split(w, b, n)
  {
    var b := Swap(a, j, k);
    SameRange(w, a, b);
    forall c | 0 < c < n && Parent(c) != k
      ensures BelowParent(w, b, c)
    {
      assert Parent(c) != j ==> BelowParent(w, a, c);
    }
    forall c | 0 < c < n && Parent(c) == k
      ensures Key(w, b, c) <= Key(w, b, j)
    {
      assert BelowParent(w, a, c);
    }
    forall x, y | 0 <= x < y < |b| && n <= y
      ensures InOrder(w, b, x, y)
    {
      assert InOrder(w, a, if x == j then k else if x == k then j else x, y);
    }
  }

  lemma SiftedDown(w: seq<Wid>, a: seq<int>, n: nat, j: nat)
    requires InRange(w, a) && AlmostDown(w, a, n, j) && j < |a|
    requires forall c | 0 < c < n && Parent(c) == j :: Key(w, a, c) <= Key(w, a, j)
    ensures Heap(w, a, n)
  {
    forall k | 0 < k < n
      ensures BelowParent(w, a, k)
    {
    }
  }

  /** The second loop of the sort. */
  method SortHeap(w: seq<Wid>, order: array<int>)
    requires InRange(w, order[..]) && Heap(w, order[..], order.Length)
    modifies order
    ensures InRange(w, order[..]) && Sorted(w, order[..]) && Same(old(order[..]), order[..])
  {
    var i := order.Length;
    while i > 0
      invariant 0 <= i <= order.Length && InRange(w, order[..]) && Heap(w, order[..], i) && Split(w, order[..], i)
      invariant Same(old(order[..]), order[..])
    {
      i := i - 1;
      var o := order[i];
      TakeTop(w, order[..], i);
      ghost var v := Swap(order[..], 0, i);
      order[i] := order[0];
      SiftIn(w, order, i, o, v);
    }
  }

  /** The inner loop: the place for o among the first n elements, from the top down. */
  method SiftIn(w: seq<Wid>, order: array<int>, n: nat, o: int, ghost start: seq<int>)
    requires n < order.Length && |start| == order.Length && Hole(order[..], start, 0) && start[0] == o
    requires InRange(w, start) && AlmostDown(w, start, n, 0) && Split(w, start, n)
    modifies order
    ensures InRange(w, order[..]) && Heap(w, order[..], n) && Split(w, order[..], n) && Same(start, order[..])
  {
    var j;
    ghost var v;
    j, v := Descend(w, order, n, o, start);
    HoleFilled(order[..], v, j);
    order[j] := o;
    assert order[..] == order[..|v|] == v;
  }

  /** The hole moves down to the place for o. */
  method Descend(w: seq<Wid>, order: array<int>, n: nat, o: int, ghost start: seq<int>)
    returns (j: nat, ghost v: seq<int>)
    requires n < order.Length && |start| == order.Length && Hole(order[..], start, 0) && start[0] == o
    requires InRange(w, start) && AlmostDown(w, start, n, 0) && Split(w, start, n)
    modifies order
    ensures |v| == order.Length && Hole(order[..], v, j) && v[j] == o
    ensures InRange(w, v) && Heap(w, v, n) && Split(w, v, n) && Same(start, v)
  {
    j := 0;
    v := start;
    while true
      invariant 0 <= j < |v| == order.Length && (n > 0 ==> j < n) && Hole(order[..], v, j) && v[j] == o
      invariant InRange(w, v) && AlmostDown(w, v, n, j) && Split(w, v, n) && Same(start, v)
      decreases |v| - j
    {
      var k := j * 2 + 1;
      if k >= n {
        break;
      }
      if k + 1 < n && w[order[k]] < w[order[k + 1]] {
        k := k + 1;
      }
      LargerChild(w, v, n, j, k);
      if w[o] < w[order[k]] {
        SiftDown(w, v, n, j, k);
        HoleMoved(order[..], v, j, k);
        v := Swap(v, j, k);
        order[j] := order[k];
        j := k;
        continue;
      }
      break;
    }
    SiftedDown(w, v, n, j);
  }

  /** k is the only child of j, or the larger of the two. */
  lemma LargerChild(w: seq<Wid>, a: seq<int>, n: nat, j: nat, k: nat)
    requires InRange(w, a) && n <= |a| && j * 2 + 1 < n && k < n
    requires k == j * 2 + 1 || k == j * 2 + 2
    requires k == j * 2 + 1 && k + 1 < n ==> Key(w, a, k) >= Key(w, a, k + 1)
    requires k == j * 2 + 2 ==> Key(w, a, k - 1) <= Key(w, a, k)
    ensures Parent(k) == j && forall c | 0 < c < n && Parent(c) == j :: Key(w, a, c) <= Key(w, a, k)
  {
  }

  /** Rearranging an order of the cases gives an order of the cases. */
  lemma SameOrder(a: seq<int>, b: seq<int>, n: nat)
    requires IsOrder(a, n) && Same(a, b)
    ensures IsOrder(b, n)
  {
    SameMembers(a, b);
    SameDistinct(a, b);
    forall k | 0 <= k < n
      ensures 0 <= b[k] < n
    {
      assert b[k] in a;
    }
    forall i | 0 <= i < n
      ensures i in b
    {
      assert i in a;
    }
  }

  /** An order in which a select may lock the waitables w: all of them, sorted by their addresses. */
  ghost predicate LockOrder(w: seq<Wid>, order: seq<int>) {
    IsOrder(order, |w|) && InRange(w, order) && forall j, k | 0 <= j < k < |order| :: w[order[j]] <= w[order[k]]
  }

  /** Both orders of a select, for any waitables, also repeated ones, and any random numbers. */
  method Orders(w: seq<Wid>, random: seq<nat>) returns (poll: array<int>, order: array<int>)
    requires |random| == |w| && forall i | 0 <= i < |w| :: random[i] <= i
    ensures fresh(poll) && IsOrder(poll[..], |w|)
    ensures fresh(order) && LockOrder(w, order[..])
  {
    poll := PollOrder(|w|, random);
    order := new int[|w|];
    BuildHeap(w, poll, order);
    SortHeap(w, order);
    SameOrder(poll[..], order[..], |w|);
    forall j, k | 0 <= j < k < order.Length
      ensures w[order[j]] <= w[order[k]]
    {
      assert InOrder(w, order[..], j, k);
    }
  }

  // ---------------------------------------------------------------- locking

  /** The addresses of the waitables in the order of the cases. */
  function Keys(w: seq<Wid>, order: seq<int>): (r: seq<Wid>)
    requires InRange(w, order)
    ensures |r| == |order| && forall k | 0 <= k < |order| :: r[k] == w[order[k]]
  {
    seq(|order|, k requires 0 <= k < |order| => w[order[k]])
  }

  /** Runs of equal elements shortened to one. */
  function Runs(s: seq<Wid>): seq<Wid> {
    if s == [] then []
    else if |s| > 1 && s[|s| - 2] == s[|s| - 1] then Runs(s[..|s| - 1])
    else Runs(s[..|s| - 1]) + [s[|s| - 1]]
  }

  function Reversed(s: seq<Wid>): seq<Wid> {
    if s == [] then [] else Reversed(s[1..]) + [s[0]]
  }

  lemma {:induction false} ReversedPlus(s: seq<Wid>, x: Wid)
    ensures Reversed(s + [x]) == [x] + Reversed(s)
  {
    if s != [] {
      assert (s + [x])[1..] == s[1..] + [x];
      ReversedPlus(s[1..], x);
    }
  }

  /** waitable_select_lock, returning the locks in the order they are taken. */
  method LockAll(w: seq<Wid>, order: array<int>) returns (locked: seq<Wid>)
    requires InRange(w, order[..]) && forall i | 0 <= i < |w| :: w[i] != 0
    ensures locked == Runs(Keys(w, order[..]))
  {
    ghost var keys := Keys(w, order[..]);
    locked := [];
    var last: Wid := 0;
    for i := 0 to order.Length
      invariant locked == Runs(keys[..i]) && last == if i == 0 then 0 else keys[i - 1]
    {
      assert keys[..i + 1][..i] == keys[..i];
      if last != w[order[i]] {
        last := w[order[i]];
        locked := locked + [last];
      }
    }
    assert keys[..order.Length] == keys;
  }

  /** waitable_select_unlock gives back the same locks, the last one first. */
  method UnlockAll(w: seq<Wid>, order: array<int>) returns (unlocked: seq<Wid>)
    requires InRange(w, order[..])
    ensures Reversed(unlocked) == Runs(Keys(w, order[..]))
  {
    ghost var keys := Keys(w, order[..]);
    unlocked := [];
    var i := order.Length;
    assert keys[..i] == keys;
    while i > 0
      invariant 0 <= i <= order.Length && Runs(keys[..i]) + Reversed(unlocked) == Runs(keys)
    {
      i := i - 1;
      var v := w[order[i]];
      assert keys[..i + 1][..i] == keys[..i] && keys[..i + 1][i] == v;
      if i > 0 && v == w[order[i - 1]] {
        continue;
      }
      assert Runs(keys[..i + 1]) == Runs(keys[..i]) + [v];
      ReversedPlus(unlocked, v);
      Regroup(Runs(keys[..i]), v, Reversed(unlocked));
      unlocked := unlocked + [v];
    }
  }

  lemma Regroup(a: seq<Wid>, v: Wid, b: seq<Wid>)
    ensures a + [v] + b == a + ([v] + b)
  {
  }

  /** waitable_select_park, which walks the descriptors made in lock order, gives back the same locks, too. */
  method ParkUnlock(w: seq<Wid>, order: array<int>) returns (unlocked: seq<Wid>)
    requires InRange(w, order[..]) && forall i | 0 <= i < |w| :: w[i] != 0
    ensures unlocked == Runs(Keys(w, order[..]))
  {
    ghost var keys := Keys(w, order[..]);
    unlocked := [];
    var last: Wid := 0;
    for i := 0 to order.Length
      invariant last == (if i == 0 then 0 else keys[i - 1])
      invariant if i == 0 then unlocked == [] else unlocked + [last] == Runs(keys[..i])
    {
      assert keys[..i + 1][..i] == keys[..i];
      if w[order[i]] != last && last != 0 {
        unlocked := unlocked + [last];
      }
      last := w[order[i]];
    }
    if last != 0 {
      unlocked := unlocked + [last];
    }
    assert keys[..order.Length] == keys;
  }

  predicate Increasing(s: seq<Wid>) {
    forall j, k | 0 <= j < k < |s| :: s[j] < s[k]
  }

  /** In a sorted order, each waitable is locked exactly once, by increasing address. */
  lemma {:induction false} LocksIncrease(s: seq<Wid>)
    requires forall j, k | 0 <= j < k < |s| :: s[j] <= s[k]
    ensures Increasing(Runs(s)) && forall v :: v in Runs(s) <==> v in s
  {
    if s != [] {
      var t, x := s[..|s| - 1], s[|s| - 1];
      LocksIncrease(t);
      assert s == t + [x];
      if |s| > 1 && s[|s| - 2] == x {
        assert t[|s| - 2] == x && Runs(s) == Runs(t);
      } else {
        forall v | v in Runs(t)
          ensures v < x
        {
          var k :| 0 <= k < |t| && t[k] == v;
          assert t[k] == s[k] <= s[|s| - 2];
        }
        IncreasingPlus(Runs(t), x);
      }
    }
  }

  lemma IncreasingPlus(s: seq<Wid>, x: Wid)
    requires Increasing(s) && forall v | v in s :: v < x
    ensures Increasing(s + [x])
  {
    forall j, k | 0 <= j < k < |s + [x]|
      ensures (s + [x])[j] < (s + [x])[k]
    {
      assert (s + [x])[j] == s[j] && s[j] in s;
    }
  }

  // ---------------------------------------------------------------- no deadlock

  /** A thread in a select: the locks it needs, in the order of LockAll, and how many it has. */
  datatype Locker = Locker(need: seq<Wid>, has: nat, leaving: bool)

  type System = map<Tid, Locker>

  function Holds(l: Locker): set<Wid> {
    set k | 0 <= k < |l.need| && k < l.has :: l.need[k]
  }

  predicate Free(ls: System, v: Wid) {
    forall u | u in ls :: v !in Holds(ls[u])
  }

  /** A select of the waitables w begins: LockAll is going to take these locks. */
  ghost predicate Begin(ls: System, ls': System, t: Tid) {
    t !in ls && exists w, order :: LockOrder(w, order) && ls' == ls[t := Locker(Runs(Keys(w, order)), 0, false)]
  }

  /** LockAll takes one lock, which nobody may have. */
  predicate TakeLock(ls: System, ls': System, t: Tid) {
    && t in ls && !ls[t].leaving && ls[t].has < |ls[t].need| && Free(ls, ls[t].need[ls[t].has])
    && ls' == ls[t := ls[t].(has := ls[t].has + 1)]
  }

  /** The select has all its locks and does what it locked them for. */
  predicate Turn(ls: System, ls': System, t: Tid) {
    t in ls && !ls[t].leaving && ls[t].has == |ls[t].need| && ls' == ls[t := ls[t].(leaving := true)]
  }

  /** UnlockAll gives one lock back; after the last one the select is over. */
  predicate GiveLock(ls: System, ls': System, t: Tid) {
    && t in ls && ls[t].leaving
    && ls' == if ls[t].has == 0 then ls - {t} else ls[t := ls[t].(has := ls[t].has - 1)]
  }

  predicate Proceeds(ls: System, ls': System, t: Tid) {
    TakeLock(ls, ls', t) || Turn(ls, ls', t) || GiveLock(ls, ls', t)
  }

  ghost predicate Step(ls: System, ls': System) {
    exists t :: Begin(ls, ls', t) || Proceeds(ls, ls', t)
  }

  ghost predicate Run(run: seq<System>) {
    |run| > 0 && run[0] == map[] && forall i | 0 <= i < |run| - 1 :: Step(run[i], run[i + 1])
  }

  ghost predicate LockerOk(l: Locker) {
    l.has <= |l.need| && Increasing(l.need)
  }

  predicate Apart(ls: System, t: Tid, u: Tid)
    requires t in ls && u in ls
  {
    t != u ==> Holds(ls[t]) !! Holds(ls[u])
  }

  ghost predicate Inv(ls: System) {
    && (forall t | t in ls :: LockerOk(ls[t]))
    && forall t, u {:trigger Apart(ls, t, u)} | t in ls && u in ls :: Apart(ls, t, u)
  }

  lemma TakeLockInv(ls: System, ls': System, t: Tid)
    requires Inv(ls) && TakeLock(ls, ls', t)
    ensures Inv(ls')
  {
    var l := ls[t];
    assert Holds(ls'[t]) == Holds(l) + {l.need[l.has]};
    forall a, b | a in ls' && b in ls'
      ensures Apart(ls', a, b)
    {
      assert Apart(ls, a, b);
    }
  }

  lemma BeginInv(ls: System, ls': System, t: Tid)
    requires Inv(ls) && Begin(ls, ls', t)
    ensures Inv(ls')
  {
    var w, order :| LockOrder(w, order) && ls' == ls[t := Locker(Runs(Keys(w, order)), 0, false)];
    BeginsOk(w, order);
    JoinInv(ls, t, Locker(Runs(Keys(w, order)), 0, false));
  }

  lemma BeginsOk(w: seq<Wid>, order: seq<int>)
    requires LockOrder(w, order)
    ensures var l := Locker(Runs(Keys(w, order)), 0, false); LockerOk(l) && Holds(l) == {}
  {
    LocksIncrease(Keys(w, order));
  }

  lemma JoinInv(ls: System, t: Tid, l: Locker)
    requires Inv(ls) && t !in ls && LockerOk(l) && Holds(l) == {}
    ensures Inv(ls[t := l])
  {
    HoldLess(ls, ls[t := l]);
  }

  lemma LeaveInv(ls: System, ls': System, t: Tid)
    requires Inv(ls) && (Turn(ls, ls', t) || GiveLock(ls, ls', t))
    ensures Inv(ls')
  {
    HoldLess(ls, ls');
  }

  /** A thread that takes no lock comes into nobody's way. */
  lemma HoldLess(ls: System, ls': System)
    requires Inv(ls) && forall a | a in ls' :: if a in ls then Holds(ls'[a]) <= Holds(ls[a]) else Holds(ls'[a]) == {}
    ensures forall a, b {:trigger Apart(ls', a, b)} | a in ls' && b in ls' :: Apart(ls', a, b)
  {
    forall a, b | a in ls' && b in ls'
      ensures Apart(ls', a, b)
    {
      if a in ls && b in ls {
        assert Apart(ls, a, b);
      }
    }
  }

  lemma {:induction false} RunInv(run: seq<System>, i: nat)
    requires Run(run) && i < |run|
    ensures Inv(run[i])
  {
    if i > 0 {
      RunInv(run, i - 1);
      assert Step(run[i - 1], run[i - 1 + 1]);
      var t :| Begin(run[i - 1], run[i], t) || Proceeds(run[i - 1], run[i], t);
      if TakeLock(run[i - 1], run[i], t) {
        TakeLockInv(run[i - 1], run[i], t);
      } else if Begin(run[i - 1], run[i], t) {
        BeginInv(run[i - 1], run[i], t);
      } else {
        LeaveInv(run[i - 1], run[i], t);
      }
    }
  }

  /** No two selects have the same lock. */
  lemma LocksExclude(run: seq<System>, i: nat, t: Tid, u: Tid)
    requires Run(run) && i < |run| && t in run[i] && u in run[i] && t != u
    ensures Holds(run[i][t]) !! Holds(run[i][u])
  {
    RunInv(run, i);
    assert Apart(run[i], t, u);
  }

  /**
   Any number of selects, of any waitables, that take their locks one after the other in the order
   computed for them, cannot block each other: while there is any, one of them can go on.
  */
  lemma NoDeadlock(run: seq<System>, i: nat)
    requires Run(run) && i < |run| && run[i] != map[]
    ensures exists t, next :: t in run[i] && Proceeds(run[i], next, t)
  {
    var ls := run[i];
    RunInv(run, i);
    assert ls.Keys != {};
    var t := HighestWish(ls, ls.Keys);
    var l := ls[t];
    var next := if l.leaving && l.has == 0 then ls - {t}
                else if l.leaving then ls[t := l.(has := l.has - 1)]
                else if l.has == |l.need| then ls[t := l.(leaving := true)]
                else ls[t := l.(has := l.has + 1)];
    if !CanGoOn(l) {
      forall u | u in ls
        ensures l.need[l.has] !in Holds(ls[u])
      {
        HasOnlySmaller(l, ls[u]);
      }
      assert TakeLock(ls, next, t);
    }
    assert LockerOk(l);
    assert Proceeds(ls, next, t);
  }

  /** A thread that waits for no lock. */
  predicate CanGoOn(l: Locker) {
    l.leaving || l.has >= |l.need|
  }

  /** The address b waits for is the higher one; a thread that waits for none comes last. */
  predicate WishAtMost(a: Locker, b: Locker) {
    CanGoOn(b) || (!CanGoOn(a) && a.need[a.has] <= b.need[b.has])
  }

  /** What a thread has is smaller than what it wishes for. */
  lemma HasOnlySmaller(a: Locker, b: Locker)
    requires LockerOk(a) && LockerOk(b) && !CanGoOn(a) && WishAtMost(b, a)
    ensures a.need[a.has] !in Holds(b)
  {
    forall k | 0 <= k < |b.need| && k < b.has
      ensures b.need[k] != a.need[a.has]
    {
      assert !CanGoOn(b) && b.need[k] < b.need[b.has];
    }
  }

  lemma Pick(group: set<Tid>) returns (t: Tid)
    requires group != {}
    ensures t in group
  {
    assert (forall x :: x !in group) ==> group == {};
    t :| t in group;
  }

  lemma {:induction false} HighestWish(ls: System, group: set<Tid>) returns (t: Tid)
    requires group != {} && group <= ls.Keys
    ensures t in group && forall u | u in group :: WishAtMost(ls[u], ls[t])
    decreases |group|
  {
    t := Pick(group);
    if group != {t} {
      var others := group - {t};
      assert others != {};
      var u := HighestWish(ls, others);
      assert group == others + {t};
      if WishAtMost(ls[t], ls[u]) {
        t := u;
      }
    }
  }
}
