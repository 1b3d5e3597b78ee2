/** When a periodic timer runs again. */
module TimerPeriod {
  import opened Multiples

  const INT64_MAX: int := 0x7FFF_FFFF_FFFF_FFFF

  /** What is left of a sum in 64 bits with a sign. */
  function Signed(x: int): int {
    var low := x % 0x1_0000_0000_0000_0000;
    if low <= INT64_MAX then low else low - 0x1_0000_0000_0000_0000
  }

  /** run_one_timer: the next time a periodic timer is to run; a sum that has become negative means never. */
  function NextRun(when: int, period: int, now: int): (next: int)
    requires 0 < when <= now <= INT64_MAX && 0 < period <= INT64_MAX
    ensures now < next <= now + period || next == INT64_MAX
    ensures next < INT64_MAX ==> Divides(period, next - when)
    ensures when < next || next == INT64_MAX
  {
    var n := (now - when) / period;
    PeriodsPassed(now - when, period);
    var sum := Signed(when + period * (1 + n));
    if sum < 0 then INT64_MAX else sum
  }

  /** It is the first time after now that is whole periods from the last one, if 64 bits can hold it. */
  lemma NextRunExactly(when: int, period: int, now: int, x: int)
    requires 0 < when <= now <= INT64_MAX && 0 < period <= INT64_MAX
    requires now < x <= now + period && Divides(period, x - when)
    ensures NextRun(when, period, now) == if x <= INT64_MAX then x else INT64_MAX
  {
    var y := when + period * (1 + (now - when) / period);
    PeriodsPassed(now - when, period);
    if x < y {
      MultiplesApart(period, x - when, y - when);
    } else if y < x {
      MultiplesApart(period, y - when, x - when);
    }
  }

  /** There is such a time. */
  lemma HasNextRun(when: int, period: int, now: int) returns (x: int)
    requires 0 < when <= now <= INT64_MAX && 0 < period <= INT64_MAX
    ensures now < x <= now + period && Divides(period, x - when)
  {
    x := when + period * (1 + (now - when) / period);
    PeriodsPassed(now - when, period);
  }

  lemma PeriodsPassed(late: nat, period: nat)
    requires period > 0
    ensures late < period * (1 + late / period) <= late + period
    ensures Divides(period, period * (1 + late / period))
  {
    var n := late / period;
    assert late == period * n + late % period;
    assert period * n == n * period;
    assert period * (1 + n) == period * n + period;
    DividesMultiple(period, 1 + n);
  }
}

/** The timer heap of kernel/thread/timer.c: a 4-ary heap changed in place, with lazy modification and deletion. */
module TimerHeap {
  import opened Permutation
  import Period = TimerPeriod

  datatype Status = NoStatus | Waiting | Running | Deleted | Removing | Removed | Modifying | ModifiedEarlier
      | ModifiedLater | Moving

  class Timer {
    var cpu: int
    var when: int
    var nextwhen: int
    var status: Status

    /** When the timer is going to run. */
    function Effective(): int
      reads this
    {
      if status.ModifiedEarlier? || status.ModifiedLater? then nextwhen else when
    }
  }

  // ---------------------------------------------------------------- 4-ary heaps

  function Parent(k: int): int {
    (k - 1) / 4
  }

  /** The k-th key is not smaller than its parent. */
  ghost predicate Ordered(s: seq<int>, k: int)
    requires 0 < k < |s|
  {
    s[Parent(k)] <= s[k]
  }

  /** The first n keys form a heap with the smallest on top. */
  ghost predicate Heap(s: seq<int>, n: int) {
    0 <= n <= |s| && forall k {:trigger Ordered(s, k)} | 0 < k < n :: Ordered(s, k)
  }

  /** A heap of the first n keys, whatever the key at i is. */
  ghost predicate Broken(s: seq<int>, n: int, i: int) {
    && 0 <= i < n <= |s|
    && (forall k {:trigger Ordered(s, k)} | 0 < k < n && k != i && Parent(k) != i :: Ordered(s, k))
    && (forall k | 0 < k < n && Parent(k) == i && i > 0 :: s[Parent(i)] <= s[k])
  }

  /** ... except that the key at i may be too small for its place. */
  ghost predicate AlmostUp(s: seq<int>, n: int, i: int) {
    Broken(s, n, i) && forall k | 0 < k < n && Parent(k) == i :: s[i] <= s[k]
  }

  /** ... except that the key at i may be too large for its place. */
  ghost predicate AlmostDown(s: seq<int>, n: int, i: int) {
    Broken(s, n, i) && (i > 0 ==> s[Parent(i)] <= s[i])
  }

  lemma StepUp(s: seq<int>, n: int, i: int)
    requires Broken(s, n, i) && i > 0 && s[i] < s[Parent(i)]
    ensures AlmostUp(Swap(s, i, Parent(i)), n, Parent(i))
  {
    var p := Parent(i);
    var t := Swap(s, i, p);
    forall k | 0 < k < n && k != p && Parent(k) != p
      ensures Ordered(t, k)
    {
      assert k != i && Parent(k) != i ==> Ordered(s, k);
    }
    forall k | 0 < k < n && Parent(k) == p
      ensures t[p] <= t[k] && (p > 0 ==> t[Parent(p)] <= t[k])
    {
      assert k != i ==> Ordered(s, k);
      assert p > 0 ==> Ordered(s, p);
    }
  }

  lemma SettledUp(s: seq<int>, n: int, i: int)
    requires AlmostUp(s, n, i) && (i > 0 ==> s[Parent(i)] <= s[i])
    ensures Heap(s, n)
  {
    forall k | 0 < k < n
      ensures Ordered(s, k)
    {
    }
  }

  /** k is the smallest child of i. */
  ghost predicate SmallestChild(s: seq<int>, n: int, i: int, k: int) {
    0 <= i < k < n <= |s| && Parent(k) == i && forall c | 0 < c < n && Parent(c) == i :: s[k] <= s[c]
  }

  lemma StepDown(s: seq<int>, n: int, i: int, k: int)
    requires AlmostDown(s, n, i) && SmallestChild(s, n, i, k) && s[k] < s[i]
    ensures AlmostDown(Swap(s, i, k), n, k)
  {
    var t := Swap(s, i, k);
    forall c | 0 < c < n && c != k && Parent(c) != k
      ensures Ordered(t, c)
    {
      assert c != i && Parent(c) != i ==> Ordered(s, c);
    }
    forall c | 0 < c < n && Parent(c) == k
      ensures t[i] <= t[c]
    {
      assert Ordered(s, c);
    }
  }

  lemma SettledDown(s: seq<int>, n: int, i: int)
    requires AlmostDown(s, n, i) && forall k | 0 < k < n && Parent(k) == i :: s[i] <= s[k]
    ensures Heap(s, n)
  {
    forall k | 0 < k < n
      ensures Ordered(s, k)
    {
    }
  }

  /** No key but the one at i is smaller than the root. */
  lemma {:induction false} RootIsSmallest(s: seq<int>, n: int, i: int, k: int)
    requires Broken(s, n, i) && 0 <= k < n && k != i && i > 0
    ensures s[0] <= s[k]
    decreases k
  {
    if k > 0 {
      if Parent(k) == i {
        RootIsSmallest(s, n, i, Parent(i));
      } else {
        assert Ordered(s, k);
        RootIsSmallest(s, n, i, Parent(k));
      }
    }
  }

  lemma {:induction false} HeapRoot(s: seq<int>, n: int, k: int)
    requires Heap(s, n) && 0 <= k < n
    ensures s[0] <= s[k]
  {
    if k > 0 {
      assert Ordered(s, k);
      HeapRoot(s, n, Parent(k));
    }
  }

  lemma ChildrenOf(i: int, k: int)
    requires 0 <= i && 0 < k
    ensures Parent(k) == i <==> 4 * i + 1 <= k <= 4 * i + 4
  {
  }

  // ---------------------------------------------------------------- the timers of a CPU

  /** The keys of the heap. */
  ghost function Keys(ts: seq<Timer>): (s: seq<int>)
    reads ts
    ensures |s| == |ts| && forall k | 0 <= k < |ts| :: s[k] == ts[k].when
  {
    seq(|ts|, k requires 0 <= k < |ts| reads ts => ts[k].when)
  }

  /** s holds the keys of v. */
  ghost predicate IsKeys(v: seq<Timer>, s: seq<int>)
    reads v
  {
    |s| == |v| && forall k | 0 <= k < |v| :: v[k].when == s[k]
  }

  lemma Moved(ts: seq<Timer>, v: seq<Timer>, s: seq<int>, i: int, k: int)
    requires |ts| == |v| && Hole(ts, v, i) && 0 <= k < |v| && k != i && IsKeys(v, s)
    ensures Hole(ts[i := ts[k]], Swap(v, i, k), k) && Swap(v, i, k)[k] == v[i] && IsKeys(Swap(v, i, k), Swap(s, i, k))
    ensures forall x | 0 <= x < |v| && x != i && x != k :: Swap(v, i, k)[x] == v[x]
  {
    HoleMoved(ts, v, i, k);
  }

  lemma Filled(ts: seq<Timer>, v: seq<Timer>, s: seq<int>, i: int)
    requires |ts| == |v| && Hole(ts, v, i) && IsKeys(v, s)
    ensures ts[i := v[i]] == v && (ts[i] == v[i] ==> ts == v) && Keys(v) == s
  {
    HoleFilled(ts, v, i);
  }

  lemma AppendedOk(s: seq<int>, x: int)
    requires Heap(s, |s|)
    ensures Broken(s + [x], |s| + 1, |s|)
  {
    var t := s + [x];
    forall k | 0 < k < |t| && k != |s| && Parent(k) != |s|
      ensures Ordered(t, k)
    {
      assert Ordered(s, k);
    }
    forall k | 0 < k < |t|
      ensures Parent(k) != |s|
    {
    }
  }

  lemma NoChildren(s: seq<int>, i: int)
    requires AlmostDown(s, |s|, i) && i == |s| - 1
    ensures Heap(s, |s|)
  {
    forall k | 0 < k < |s|
      ensures Parent(k) != i
    {
    }
    SettledDown(s, |s|, i);
  }

  lemma HeapIsAlmostDown(s: seq<int>, n: int, i: int)
    requires Heap(s, n) && 0 <= i < n
    ensures AlmostDown(s, n, i)
  {
    forall k | 0 < k < n
      ensures s[Parent(k)] <= s[k]
    {
      assert Ordered(s, k);
    }
  }

  /** The last element takes the place of the i-th. */
  function Fill<T>(s: seq<T>, i: int): (t: seq<T>)
    requires 0 <= i < |s|
    ensures |t| == |s| - 1 && forall k | 0 <= k < |t| :: t[k] == if k == i then s[|s| - 1] else s[k]
  {
    s[i := s[|s| - 1]][..|s| - 1]
  }

  lemma FillMembers<T>(s: seq<T>, i: int)
    requires 0 <= i < |s| && Distinct(s)
    ensures Distinct(Fill(s, i)) && forall x :: x in Fill(s, i) <==> x in s && x != s[i]
  {
    var last, t := |s| - 1, Fill(s, i);
    forall x
      ensures x in t <==> x in s && x != s[i]
    {
      if x in t {
        var k :| 0 <= k < |t| && t[k] == x;
        assert x == s[if k == i then last else k];
      }
      if x in s && x != s[i] {
        var k :| 0 <= k < |s| && s[k] == x;
        assert t[if k == last then i else k] == x;
      }
    }
  }

  lemma FillKeys(s: seq<int>, i: int)
    requires Broken(s, |s|, i)
    ensures var t := Fill(s, i);
            && (i == |t| ==> Heap(t, |t|))
            && (i < |t| ==> Broken(t, |t|, i) && (i > 0 ==> t[0] == s[0] <= t[i]))
            && (0 < i == |t| ==> t[0] == s[0])
  {
    var t := Fill(s, i);
    forall k | 0 < k < |t| && k != i && Parent(k) != i
      ensures Ordered(t, k)
    {
      assert Ordered(s, k);
    }
    if i == |t| {
      forall k | 0 < k < |t|
        ensures Ordered(t, k)
      {
        assert k != i && Parent(k) != i;
      }
    } else if i > 0 {
      RootIsSmallest(s, |s|, i, |t|);
    }
  }

  lemma HeapIsBroken(s: seq<int>, i: int, x: int)
    requires Heap(s, |s|) && 0 <= i < |s|
    ensures Broken(s[i := x], |s|, i)
  {
    var t := s[i := x];
    forall k | 0 < k < |s| && k != i && Parent(k) != i
      ensures Ordered(t, k)
    {
      assert Ordered(s, k);
    }
    forall k | 0 < k < |s| && Parent(k) == i && i > 0
      ensures t[Parent(i)] <= t[k]
    {
      assert Ordered(s, k) && Ordered(s, i);
    }
  }

  // ---------------------------------------------------------------- what the operations do to the array

  /** Adding t changes no other membership. */
  ghost predicate Added<T>(h: seq<T>, h': seq<T>, t: T) {
    t !in h && t in h' && (forall x | x in h :: x in h') && forall x | x in h' :: x in h || x == t
  }

  /** Taking out the i-th changes no other membership, and nothing below the index `changed`. */
  ghost predicate TakenOut<T>(h: seq<T>, h': seq<T>, i: int, changed: int) {
    && 0 <= changed <= i < |h| && changed <= |h'|
    && (forall x | x in h' :: x in h && x != h[i])
    && (forall x | x in h && x != h[i] :: x in h')
    && forall k | 0 <= k < changed :: h'[k] == h[k]
  }

  ghost predicate SameTimers<T>(h: seq<T>, h': seq<T>) {
    (forall x | x in h :: x in h') && forall x | x in h' :: x in h
  }

  // ---------------------------------------------------------------- packing

  lemma PlacedIsBroken(s: seq<int>, to: int, x: int)
    requires Heap(s, to) && 0 <= to < |s|
    ensures Broken(s[to := x], to + 1, to)
  {
    forall k | 0 < k < to + 1 && k != to && Parent(k) != to
      ensures Ordered(s[to := x], k)
    {
      assert Ordered(s, k);
    }
  }

  lemma LastSettled(s: seq<int>, to: int)
    requires AlmostDown(s, to + 1, to)
    ensures Heap(s, to + 1)
  {
    SettledDown(s, to + 1, to);
  }

  lemma SameFront(s: seq<int>, m: int, t: seq<int>, n: int)
    requires Heap(s, m) && 0 <= n <= m && n <= |t| && forall k | 0 <= k < n :: s[k] == t[k]
    ensures Heap(t, n)
  {
    forall k | 0 < k < n
      ensures Ordered(t, k)
    {
      assert Ordered(s, k);
    }
  }

  lemma PrefixSame<T>(a: seq<T>, b: seq<T>, n: int)
    requires Same(a, b) && |a| == |b| && 0 <= n <= |a| && forall k | n <= k < |a| :: a[k] == b[k]
    ensures Same(a[..n], b[..n])
  {
    assert a == a[..n] + a[n..] && b == b[..n] + b[n..];
    assert a[n..] == b[n..];
    assert multiset(a[..n]) == multiset(a) - multiset(a[n..]);
    assert multiset(b[..n]) == multiset(b) - multiset(b[n..]);
  }

  ghost function Elements(s: seq<Timer>): set<Timer> {
    set t | t in s
  }

  lemma RestOf(all: seq<Timer>, i: int)
    requires 0 <= i < |all| && Distinct(all)
    ensures all[i] in all[i..] && Elements(all[i + 1..]) == Elements(all[i..]) - {all[i]}
  {
    assert all[i..] == [all[i]] + all[i + 1..];
  }

  /** What a timer was like when adjust_timers began. */
  datatype Was = Was(status: Status, effective: int)

  class Timers {
    const cpu: int                       // whose timers these are
    var timers: seq<Timer>
    var numTimers: int
    var deletedTimers: int
    var timer0When: int
    var timerModifiedEarliest: int

    /** timer0_when is the root's key, or zero. */
    predicate TracksRoot()
      reads this, timers
    {
      timer0When == if timers == [] then 0 else timers[0].when
    }

    ghost predicate Valid()
      reads this, timers
    {
      numTimers == |timers| && TracksRoot() && ValidHeap(timers)
    }

    /** A heap of timers of this CPU. */
    ghost predicate ValidHeap(ts: seq<Timer>)
      reads ts
    {
      Distinct(ts) && Heap(Keys(ts), |ts|) && forall t | t in ts :: t.cpu == cpu && t.when > 0
    }

    /** siftup_timer, on the heap of the first n timers; returns the smallest changed index. */
    method SiftUp(start: int, ghost n: int) returns (i: int)
      requires 0 <= start < n <= |timers| && Broken(Keys(timers), n, start) && timers[start].when > 0
      modifies `timers
      ensures 0 <= i <= start && Same(old(timers), timers) && |timers| == |old(timers)|
              && timers[i] == old(timers)[start]
      ensures forall k | 0 <= k < |timers| && (k < i || start < k) :: timers[k] == old(timers)[k]
      ensures i < start ==> Heap(Keys(timers), n)
      ensures i == start ==> timers == old(timers) && AlmostDown(Keys(timers), n, start)
      ensures start > 0 && old(timers)[0].when <= old(timers)[start].when ==> timers[0] == old(timers)[0]
    {
      var tmp := timers[start];
      ghost var v, s;
      i, v, s := Rise(start, n);
      if i < start {
        SettledUp(s, n, i);
      }
      Filled(timers, v, s, i);
      if tmp != timers[i] {
        timers := timers[i := tmp];
      }
    }

    /** The hole has risen from start to i; with the timer from start in it, the array would be v. */
    ghost predicate Rising(was: seq<Timer>, v: seq<Timer>, s: seq<int>, i: int, start: int, n: int)
      reads v
    {
      && 0 <= i <= start < |v| == |was| && v[i] == was[start] && Same(was, v) && IsKeys(v, s)
      && (forall k | 0 <= k < |v| && (k < i || start < k) :: v[k] == was[k])
      && if i == start then v == was && Broken(s, n, i) else AlmostUp(s, n, i)
    }

    lemma RiseStep(was: seq<Timer>, v: seq<Timer>, s: seq<int>, i: int, start: int, n: int)
      requires Rising(was, v, s, i, start, n) && 0 < i && start < n && s[i] < s[Parent(i)]
      ensures Rising(was, Swap(v, i, Parent(i)), Swap(s, i, Parent(i)), Parent(i), start, n)
    {
      StepUp(s, n, i);
    }

    /** The loop of siftup_timer. */
    method Rise(start: int, ghost n: int) returns (i: int, ghost v: seq<Timer>, ghost s: seq<int>)
      requires 0 <= start < n <= |timers| && Broken(Keys(timers), n, start)
      modifies `timers
      ensures Rising(old(timers), v, s, i, start, n) && |timers| == |v| && Hole(timers, v, i)
      ensures i > 0 ==> s[Parent(i)] <= s[i]
      ensures i == start ==> timers == old(timers)
      ensures start > 0 && old(timers)[0].when <= old(timers)[start].when ==> i > 0
    {
      i := start;
      var when := timers[i].when;
      v, s := timers, Keys(timers);
      while i > 0
        invariant Rising(old(timers), v, s, i, start, n) && |timers| == |v| && Hole(timers, v, i) && s[i] == when
        invariant i == start ==> timers == old(timers)
        invariant start > 0 && old(timers)[0].when <= when ==> i > 0
      {
        var parent := (i - 1) / 4;
        if when >= timers[parent].when {
          break;
        }
        RiseStep(old(timers), v, s, i, start, n);
        HoleMoved(timers, v, i, parent);
        v, s := Swap(v, i, parent), Swap(s, i, parent);
        timers := timers[i := timers[parent]];
        i := parent;
      }
    }

    /** siftdown_timer */
    method SiftDown(start: int)
      requires 0 <= start < |timers| && AlmostDown(Keys(timers), |timers|, start) && timers[start].when > 0
      modifies `timers
      ensures Same(old(timers), timers) && |timers| == |old(timers)| && Heap(Keys(timers), |timers|)
      ensures forall k | 0 <= k < start :: timers[k] == old(timers)[k]
    {
      var n := |timers|;
      var i := start;
      var when := timers[i].when;
      var tmp := timers[i];
      ghost var v, s := timers, Keys(timers);
      while true
        invariant start <= i < n == |timers| == |v| && Hole(timers, v, i) && v[i] == tmp && Same(old(timers), v)
        invariant forall k | 0 <= k < start :: v[k] == old(timers)[k]
        invariant AlmostDown(s, n, i) && IsKeys(v, s)
        decreases n - i
      {
        if i * 4 + 1 >= n {
          break;
        }
        var child := PickChild(i, v, s);
        if timers[child].when >= when {
          break;
        }
        StepDown(s, n, i, child);
        Moved(timers, v, s, i, child);
        v, s := Swap(v, i, child), Swap(s, i, child);
        timers := timers[i := timers[child]];
        i := child;
      }
      forall k | 0 < k < n && Parent(k) == i
        ensures s[i] <= s[k]
      {
        ChildrenOf(i, k);
      }
      SettledDown(s, n, i);
      Filled(timers, v, s, i);
      if tmp != timers[i] {
        timers := timers[i := tmp];
      }
    }

    /** The smallest of up to four children. */
    method PickChild(i: int, ghost v: seq<Timer>, ghost s: seq<int>) returns (leftChild: int)
      requires 0 <= i && i * 4 + 1 < |timers| == |v| && Hole(timers, v, i) && IsKeys(v, s)
      ensures SmallestChild(s, |s|, i, leftChild)
    {
      var n := |timers|;
      leftChild := i * 4 + 1;
      var midChild := leftChild + 2;
      var leftWhen := timers[leftChild].when;
      if leftChild + 1 < n && timers[leftChild + 1].when < leftWhen {
        leftWhen := timers[leftChild + 1].when;
        leftChild := leftChild + 1;
      }
      if midChild < n {
        var midWhen := timers[midChild].when;
        if midChild + 1 < n && timers[midChild + 1].when < midWhen {
          midWhen := timers[midChild + 1].when;
          midChild := midChild + 1;
        }
        if midWhen < leftWhen {
          leftWhen := midWhen;
          leftChild := midChild;
        }
      }
      ChildrenOf(i, leftChild);
      forall c | 0 < c < n && Parent(c) == i
        ensures s[leftChild] <= s[c]
      {
        ChildrenOf(i, c);
      }
    }

    // -------------------------------------------------------------- adding and deleting

    method UpdateTimer0When()
      modifies `timer0When
      ensures TracksRoot()
    {
      if |timers| == 0 {
        timer0When := 0;
      } else {
        timer0When := timers[0].when;
      }
    }

    /** The heap part of do_add_timer. */
    method Push(timer: Timer)
      requires Distinct(timers) && timer !in timers && Heap(Keys(timers), |timers|) && timer.when > 0
      modifies `timers
      ensures Distinct(timers) && |timers| == |old(timers)| + 1 && Heap(Keys(timers), |timers|)
      ensures Added(old(timers), timers, timer)
      ensures timers[0] == timer || (old(timers) != [] && timers[0] == old(timers)[0])
    {
      ghost var s := Keys(timers);
      var i := |timers|;
      timers := timers + [timer];
      ghost var pushed := timers;
      AppendedOk(s, timer.when);
      assert Keys(timers) == s + [timer.when];
      var top := SiftUp(i, |timers|);
      SameMembers(pushed, timers);
      SameDistinct(pushed, timers);
      if top == i {
        NoChildren(Keys(timers), i);
      }
    }

    /** do_add_timer */
    method DoAdd(timer: Timer)
      requires Valid() && timer !in timers && timer.cpu == -1 && timer.when > 0
      modifies `timers, `numTimers, `timer0When, timer`cpu
      ensures Valid() && |timers| == |old(timers)| + 1
      ensures Added(old(timers), timers, timer)
    {
      assert timer.cpu == -1;
      ghost var s := Keys(timers);
      timer.cpu := cpu;
      assert Keys(timers) == s;
      Push(timer);
      if timer == timers[0] {
        timer0When := timer.when;
      }
      numTimers := numTimers + 1;
    }

    /** The heap part of do_delete_timer. */
    method Pop(i: int) returns (smallestChanged: int)
      requires 0 <= i < |timers| && Distinct(timers) && Broken(Keys(timers), |timers|, i)
      requires forall t | t in timers && t != timers[i] :: t.cpu == cpu && t.when > 0
      modifies `timers
      ensures ValidHeap(timers) && |timers| == |old(timers)| - 1
      ensures TakenOut(old(timers), timers, i, smallestChanged)
      ensures i > 0 ==> timers != [] && timers[0] == old(timers)[0]
    {
      var last := |timers| - 1;
      FillFromBack(i);
      smallestChanged := i;
      if i != last {
        smallestChanged := Resettle(i);
      }
    }

    /** The last timer takes the place of the i-th. */
    method FillFromBack(i: int)
      requires 0 <= i < |timers| && Distinct(timers) && Broken(Keys(timers), |timers|, i)
      requires forall t | t in timers && t != timers[i] :: t.cpu == cpu && t.when > 0
      modifies `timers
      ensures |timers| == |old(timers)| - 1 && Distinct(timers) && forall t | t in timers :: t.cpu == cpu && t.when > 0
      ensures TakenOut(old(timers), timers, i, if i < |timers| then i else |timers|)
      ensures if i < |timers| then Broken(Keys(timers), |timers|, i) else Heap(Keys(timers), |timers|)
      ensures i > 0 ==> timers != [] && timers[0] == old(timers)[0]
      ensures 0 < i < |timers| ==> timers[0].when <= timers[i].when
    {
      ghost var was, s := timers, Keys(timers);
      FillMembers(was, i);
      FillKeys(s, i);
      var last := |timers| - 1;
      if i != last {
        timers := timers[i := timers[last]];
      }
      timers := timers[..last];
      assert timers == Fill(was, i);
      assert Keys(timers) == Fill(s, i);
    }

    /** do_delete_timer; returns the smallest changed index, below which nothing changes. */
    method DoDelete(i: int) returns (smallestChanged: int)
      requires 0 <= i < |timers| && Distinct(timers) && numTimers == |timers| && Broken(Keys(timers), |timers|, i)
      requires (i > 0 ==> TracksRoot()) && forall t | t in timers :: t.cpu == cpu && t.when > 0
      modifies `timers, `numTimers, `timer0When, {timers[i]}
      ensures Valid() && |timers| == |old(timers)| - 1 && old(timers)[i].cpu == -1
      ensures var t := old(timers)[i];
              t.when == old(t.when) && t.nextwhen == old(t.nextwhen)
              && t.status == old(t.status)
      ensures TakenOut(old(timers), timers, i, smallestChanged)
    {
      ghost var s := Keys(timers);
      var timer := timers[i];
      timer.cpu := -1;
      assert Keys(timers) == s;
      smallestChanged := Pop(i);
      ghost var left := timers;
      assert ValidHeap(left);
      if i == 0 {
        UpdateTimer0When();
      }
      numTimers := numTimers - 1;
    }

    /** Puts the timer that has come to position i in its place, in whichever direction that is. */
    method Resettle(i: int) returns (smallestChanged: int)
      requires 0 <= i < |timers| && Broken(Keys(timers), |timers|, i) && Distinct(timers)
               && forall t | t in timers :: t.when > 0
      modifies `timers
      ensures |timers| == |old(timers)| && Distinct(timers) && Heap(Keys(timers), |timers|)
              && forall t :: t in timers <==> t in old(timers)
      ensures 0 <= smallestChanged <= i && forall k | 0 <= k < smallestChanged :: timers[k] == old(timers)[k]
      ensures i > 0 && old(timers)[0].when <= old(timers)[i].when ==> timers[0] == old(timers)[0]
    {
      ghost var was := timers;
      smallestChanged := SiftUp(i, |timers|);
      if smallestChanged < i {
        HeapIsAlmostDown(Keys(timers), |timers|, i);
        SameMembers(was, timers);
        assert timers[i] in was;
      }
      SiftDown(i);
      SameMembers(was, timers);
      SameDistinct(was, timers);
    }

    /** do_delete_timer0 */
    method DoDelete0()
      requires timers != [] && Distinct(timers) && numTimers == |timers| && Broken(Keys(timers), |timers|, 0)
      requires forall t | t in timers :: t.cpu == cpu && t.when > 0
      modifies `timers, `numTimers, `timer0When, {timers[0]}
      ensures Valid() && |timers| == |old(timers)| - 1 && old(timers)[0].cpu == -1
      ensures var t := old(timers)[0];
              t.when == old(t.when) && t.nextwhen == old(t.nextwhen)
              && t.status == old(t.status)
      ensures TakenOut(old(timers), timers, 0, 0)
    {
      ghost var s := Keys(timers);
      var timer := timers[0];
      assert timer.cpu == cpu;
      timer.cpu := -1;
      assert Keys(timers) == s;
      PopRoot();
      UpdateTimer0When();
      numTimers := numTimers - 1;
    }

    /** The heap part of do_delete_timer0. */
    method PopRoot()
      requires timers != [] && Distinct(timers) && Broken(Keys(timers), |timers|, 0)
      requires forall t | t in timers && t != timers[0] :: t.cpu == cpu && t.when > 0
      modifies `timers
      ensures ValidHeap(timers) && |timers| == |old(timers)| - 1
      ensures TakenOut(old(timers), timers, 0, 0)
    {
      ghost var was, s := timers, Keys(timers);
      FillMembers(was, 0);
      FillKeys(s, 0);
      var last := timers[|timers| - 1];
      timers := timers[..|timers| - 1];
      if |timers| > 0 {
        timers := timers[0 := last];
      }
      assert timers == Fill(was, 0);
      assert Keys(timers) == Fill(s, 0);
      if |timers| > 0 {
        ghost var cut := timers;
        SiftDown(0);
        SameMembers(cut, timers);
        SameDistinct(cut, timers);
      }
    }

    // -------------------------------------------------------------- running

    /** run_one_timer for a timer that is to run again: it stays in the heap, for its next time. */
    method RunPeriodic(now: int, period: int)
      requires Valid() && timers != [] && timers[0].status.Running?
      requires timers[0].when <= now <= Period.INT64_MAX && 0 < period <= Period.INT64_MAX
      modifies `timers, `timer0When, {timers[0]}
      ensures Valid() && SameTimers(old(timers), timers) && numTimers == old(numTimers)
      ensures var t := old(timers)[0]; t.status.Waiting? && t.when == Period.NextRun(old(t.when), period, now)
    {
      Reschedule(Period.NextRun(timers[0].when, period, now));
    }

    /** Gives the root a later time. */
    method Reschedule(next: int)
      requires Valid() && timers != [] && timers[0].when <= next
      modifies `timers, `timer0When, {timers[0]}
      ensures Valid() && SameTimers(old(timers), timers)
      ensures var t := old(timers)[0]; t.status.Waiting? && t.when == next
    {
      var timer := timers[0];
      SetRootWhen(timer, next);
      ghost var s := Keys(timers);
      timer.status := Waiting;
      UpdateTimer0When();
      assert Keys(timers) == s;
    }

    method SetRootWhen(timer: Timer, next: int)
      requires ValidHeap(timers) && timers != [] && timers[0] == timer && timer.when <= next
      modifies `timers, timer`when
      ensures ValidHeap(timers) && |timers| == |old(timers)| && SameTimers(old(timers), timers)
      ensures timer.when == next
    {
      ghost var s := Keys(timers);
      HeapIsBroken(s, 0, next);
      timer.when := next;
      assert Keys(timers) == s[0 := next];
      SettleRoot();
    }

    /** siftdown_timer of the root. */
    method SettleRoot()
      requires timers != [] && Distinct(timers) && AlmostDown(Keys(timers), |timers|, 0)
      requires forall t | t in timers :: t.cpu == cpu && t.when > 0
      modifies `timers
      ensures ValidHeap(timers) && |timers| == |old(timers)| && SameTimers(old(timers), timers)
    {
      ghost var was := timers;
      SiftDown(0);
      SameMembers(was, timers);
      SameDistinct(was, timers);
    }

    /** run_one_timer for a timer that is to run once. */
    method RunOnce()
      requires Valid() && timers != [] && timers[0].status.Running?
      modifies `timers, `numTimers, `timer0When, {timers[0]}
      ensures Valid() && TakenOut(old(timers), timers, 0, 0) && |timers| == |old(timers)| - 1
      ensures old(timers)[0].status.NoStatus? && old(timers)[0].cpu == -1
    {
      var timer := timers[0];
      HeapIsAlmostDown(Keys(timers), |timers|, 0);
      DoDelete0();
      timer.status := NoStatus;
      assert timer !in timers;
    }

    // -------------------------------------------------------------- applying modifications and deletions

    /** The timers are in no transient state: nobody is modifying, moving or running one. */
    ghost predicate Settled()
      reads this, timers
    {
      forall t | t in timers :: Normal(t)
    }

    predicate Normal(t: Timer)
      reads t
    {
      && (t.status.Waiting? || t.status.Deleted? || t.status.ModifiedEarlier? || t.status.ModifiedLater?)
      && (t.status.ModifiedEarlier? || t.status.ModifiedLater? ==> t.nextwhen > 0)
    }

    /** A timer that has not been touched. */
    predicate Untouched(t: Timer, was: Was)
      reads t
    {
      t.status == was.status && t.Effective() == was.effective
    }

    predicate InHand(t: Timer, was: Was)
      reads t
    {
      (was.status.ModifiedEarlier? || was.status.ModifiedLater?) && t.status.Moving? && t.when == was.effective
          && t.cpu == -1 && t.when > 0
    }

    predicate Dropped(t: Timer, was: Was)
      reads t
    {
      was.status.Deleted? && t.status.Removed? && t.cpu == -1
    }

    /** Waiting in the heap for its effective time. */
    predicate Back(t: Timer, was: Was)
      reads t
    {
      !was.status.Deleted? && t.status.Waiting? && t.when == was.effective
    }

    /** Where the timers of the heap are while adjust_timers holds some of them. */
    ghost predicate Accounted(was: map<Timer, Was>, moved: seq<Timer>)
      reads this, timers, was.Keys, moved
    {
      && (forall t | t in was ::
          (t in timers && Untouched(t, was[t])) || (t in moved && InHand(t, was[t]))
          || (t !in timers && t !in moved && Dropped(t, was[t])))
      && (forall t | t in timers :: t in was && t !in moved && Untouched(t, was[t]))
      && (forall t | t in moved :: t in was && InHand(t, was[t]))
      && Distinct(moved)
    }

    /** The case TIMER_DELETED of adjust_timers. */
    method DropDeleted(i: int) returns (changed: int)
      requires Valid() && 0 <= i < |timers| && timers[i].status.Deleted?
      modifies `timers, `numTimers, `timer0When, `deletedTimers, {timers[i]}
      ensures Valid() && |timers| == |old(timers)| - 1 && deletedTimers == old(deletedTimers) - 1
      ensures TakenOut(old(timers), timers, i, changed)
      ensures old(timers)[i].status.Removed? && old(timers)[i].cpu == -1
    {
      var timer := timers[i];
      ghost var s := Keys(timers);
      timer.status := Removing;
      assert Keys(timers) == s;
      HeapIsAlmostDown(s, |s|, i);
      changed := DoDelete(i);
      timer.status := Removed;
      assert timer !in timers;
      deletedTimers := deletedTimers - 1;
    }

    /** The cases TIMER_MODIFIED_EARLIER and TIMER_MODIFIED_LATER of adjust_timers. */
    method TakeModified(i: int) returns (changed: int)
      requires Valid() && 0 <= i < |timers| && (timers[i].status.ModifiedEarlier? || timers[i].status.ModifiedLater?)
               && timers[i].nextwhen > 0
      modifies `timers, `numTimers, `timer0When, {timers[i]}
      ensures Valid() && |timers| == |old(timers)| - 1
      ensures TakenOut(old(timers), timers, i, changed)
      ensures var t := old(timers)[i]; t.status.Moving? && t.cpu == -1 && t.when == old(t.nextwhen)
    {
      var timer := timers[i];
      ghost var s := Keys(timers);
      timer.status := Moving;
      timer.when := timer.nextwhen;
      HeapIsBroken(s, i, timer.nextwhen);
      assert forall k | 0 <= k < |timers| && k != i :: timers[k] != timer;
      assert Keys(timers) == s[i := timer.nextwhen];
      changed := DoDelete(i);
    }

    /** One round of adjust_timers for a timer that is deleted or modified: it leaves the heap. */
    method TakeOut(i: int, moved: seq<Timer>, ghost was: map<Timer, Was>) returns (changed: int, moved': seq<Timer>)
      requires Valid() && Accounted(was, moved) && 0 <= i < |timers| && Settled()
      requires !timers[i].status.Waiting?
      modifies this, {timers[i]}
      ensures Valid() && Accounted(was, moved') && Settled() && |timers| == |old(timers)| - 1
      ensures TakenOut(old(timers), timers, i, changed)
      ensures Elements(timers) + Elements(moved') <= Elements(old(timers)) + Elements(moved)
      ensures timerModifiedEarliest == old(timerModifiedEarliest)
      ensures deletedTimers - |timers| - |moved'| == old(deletedTimers) - |old(timers)| - |moved|
    {
      var timer := timers[i];
      assert timer in timers && timer !in moved;
      if timer.status.Deleted? {
        changed := DropDeleted(i);
        moved' := moved;
      } else {
        changed := TakeModified(i);
        moved' := moved + [timer];
      }
    }

    /** All timers that were not deleted are in the heap again, waiting for their effective times. */
    ghost predicate Rebuilt(was: map<Timer, Was>)
      reads this, timers, was.Keys
    {
      RebuiltAs(was, timers)
    }

    ghost predicate RebuiltAs(was: map<Timer, Was>, ts: seq<Timer>)
      reads was.Keys, ts
    {
      && (forall t | t in was ::
            if was[t].status.Deleted? then t !in ts && Dropped(t, was[t]) else t in ts && Back(t, was[t]))
      && (forall t | t in ts :: t in was)
    }

    /** add_adjusted_timers */
    method AddAdjusted(moved: seq<Timer>, ghost was: map<Timer, Was>)
      requires Valid() && Accounted(was, moved) && forall t | t in timers :: t.status.Waiting?
      modifies this, moved
      ensures Valid() && Rebuilt(was)
      ensures timerModifiedEarliest == old(timerModifiedEarliest) && deletedTimers == old(deletedTimers)
      ensures |timers| == |old(timers)| + |moved|
    {
      var k := 0;
      while k < |moved|
        invariant 0 <= k <= |moved| && Valid() && Distinct(moved) && |timers| == |old(timers)| + k
        invariant Returning(was, moved[k..])
        invariant timerModifiedEarliest == old(timerModifiedEarliest) && deletedTimers == old(deletedTimers)
      {
        assert moved[k..] == [moved[k]] + moved[k + 1..];
        assert moved[k] !in moved[k + 1..];
        GiveBack(moved[k], moved[k + 1..], was);
        k := k + 1;
      }
    }

    /** While timers are given back: the rest is still outside the heap. */
    ghost predicate Returning(was: map<Timer, Was>, rest: seq<Timer>)
      reads this, timers, was.Keys, rest
    {
      && (forall t | t in was :: t in timers || t in rest || Dropped(t, was[t]))
      && (forall t | t in timers :: t in was && t !in rest && Back(t, was[t]))
      && (forall t | t in rest :: t in was && InHand(t, was[t]))
    }

    method GiveBack(timer: Timer, ghost rest: seq<Timer>, ghost was: map<Timer, Was>)
      requires Valid() && Returning(was, [timer] + rest) && timer !in rest
      modifies `timers, `numTimers, `timer0When, timer
      ensures Valid() && Returning(was, rest) && |timers| == |old(timers)| + 1
    {
      assert timer in [timer] + rest;
      DoAdd(timer);
      ghost var s := Keys(timers);
      assert timer.status.Moving?;
      timer.status := Waiting;
      assert Keys(timers) == s;
      assert forall t | t in rest :: t in [timer] + rest;
    }

    /**
     The loop of adjust_timers. It goes back to the smallest changed index whenever it takes a timer
     out of the heap, below which every timer is still one that has been looked at.
    */
    method TakeAllOut(ghost was: map<Timer, Was>, ghost footprint: set<Timer>) returns (moved: seq<Timer>)
      requires Valid() && Settled() && Accounted(was, []) && Elements(timers) <= footprint
      modifies this, footprint
      ensures Valid() && Accounted(was, moved) && forall t | t in timers :: t.status.Waiting?
      ensures Elements(moved) <= footprint
      ensures timerModifiedEarliest == old(timerModifiedEarliest)
      ensures deletedTimers - |timers| - |moved| == old(deletedTimers) - |old(timers)|
    {
      moved := [];
      var i := 0;
      while i < |timers|
        invariant Scanned(was, moved, i, footprint)
        invariant timerModifiedEarliest == old(timerModifiedEarliest)
        invariant deletedTimers - |timers| - |moved| == old(deletedTimers) - |old(timers)|
        decreases |timers|, |timers| - i
      {
        i, moved := LookAt(i, moved, was, footprint);
      }
    }

    /** adjust_timers has come to index i, with these timers in hand; below i all timers are waiting. */
    ghost predicate Scanned(was: map<Timer, Was>, moved: seq<Timer>, i: int, footprint: set<Timer>)
      reads this, timers, was.Keys, moved
    {
      && 0 <= i <= |timers| && Valid() && Settled() && Accounted(was, moved)
      && Elements(timers) + Elements(moved) <= footprint
      && forall k | 0 <= k < i :: timers[k].status.Waiting?
    }

    /** One round of the loop; returns the next index. */
    method LookAt(i: int, moved: seq<Timer>, ghost was: map<Timer, Was>, ghost footprint: set<Timer>)
      returns (i': int, moved': seq<Timer>)
      requires Scanned(was, moved, i, footprint) && i < |timers|
      modifies this, footprint
      ensures Scanned(was, moved', i', footprint)
      ensures |timers| < |old(timers)| || (|timers| == |old(timers)| && i' == i + 1)
      ensures timerModifiedEarliest == old(timerModifiedEarliest)
      ensures deletedTimers - |timers| - |moved'| == old(deletedTimers) - |old(timers)| - |moved|
    {
      if timers[i].status.Waiting? {
        i', moved' := i + 1, moved;
      } else {
        assert timers[i] in Elements(timers);
        i', moved' := TakeOut(i, moved, was);
      }
    }

    /**
     adjust_timers, while nobody changes the status of a timer. Before the time of the first timer
     modified to run earlier it does nothing. Otherwise the loop comes to an end, and the heap holds
     exactly the timers that were not deleted, each in its place for its effective time.
    */
    method AdjustTimers(now: int)
      requires Valid() && Settled()
      modifies this, timers
      ensures Valid()
      ensures old(timerModifiedEarliest) == 0 || old(timerModifiedEarliest) > now ==>
                && timers == old(timers) && timerModifiedEarliest == old(timerModifiedEarliest)
                    && deletedTimers == old(deletedTimers)
                && forall t | t in timers :: t.status == old(t.status) && t.when == old(t.when)
                    && t.nextwhen == old(t.nextwhen)
      ensures old(timerModifiedEarliest) != 0 && old(timerModifiedEarliest) <= now ==>
                && timerModifiedEarliest == 0 && Rebuilt(old(Snapshot()))
                && old(deletedTimers) - deletedTimers == |old(timers)| - |timers|
    {
      var first := timerModifiedEarliest;
      if first == 0 || first > now {
        return;
      }
      timerModifiedEarliest := 0;
      TakeOutAndReturn(Snapshot());
    }

    /** All of adjust_timers but its early return. */
    method TakeOutAndReturn(ghost was: map<Timer, Was>)
      requires Valid() && Settled() && Accounted(was, [])
      modifies this, Elements(timers)
      ensures Valid() && Rebuilt(was) && timerModifiedEarliest == old(timerModifiedEarliest)
      ensures old(deletedTimers) - deletedTimers == |old(timers)| - |timers|
    {
      var moved := TakeAllOut(was, Elements(timers));
      AddAdjusted(moved, was);
    }

    // -------------------------------------------------------------- clearing deleted timers

    /** While clear_deleted_timers packs the timers: done are those it kept, rest those it has not yet looked at. */
    ghost predicate Packed(was: map<Timer, Was>, done: set<Timer>, rest: set<Timer>)
      reads this, was.Keys, done, rest
    {
      && (forall t | t in was :: t in done || t in rest || Dropped(t, was[t]))
      && (forall t | t in done :: t in was && t !in rest && Back(t, was[t]) && t.cpu == cpu && t.when > 0)
      && (forall t | t in rest :: t in was && Untouched(t, was[t]) && t.cpu == cpu && t.when > 0 && Normal(t))
    }

    /** The first to slots hold a heap of the timers that were kept. */
    ghost predicate Packing(was: map<Timer, Was>, to: int, rest: set<Timer>)
      reads this, timers, was.Keys, rest
    {
      && 0 <= to <= |timers| && Heap(Keys(timers), to) && Distinct(timers[..to])
      && Packed(was, Elements(timers[..to]), rest)
    }

    lemma FirstKept(was: map<Timer, Was>, done: set<Timer>, timer: Timer, rest: set<Timer>)
      requires Packed(was - {timer}, done, rest - {timer}) && timer in was
      requires Back(timer, was[timer]) && timer.cpu == cpu && timer.when > 0
      ensures Packed(was, done + {timer}, rest - {timer})
    {
    }

    /** Puts a timer behind the first to timers of the heap and into its place. */
    method PlaceAt(to: int, timer: Timer)
      requires 0 <= to < |timers| && Heap(Keys(timers), to) && Distinct(timers[..to]) && timer !in timers[..to]
               && timer.when > 0
      modifies `timers
      ensures |timers| == |old(timers)| && Heap(Keys(timers), to + 1) && Distinct(timers[..to + 1])
      ensures forall k | to < k < |timers| :: timers[k] == old(timers)[k]
      ensures Elements(timers[..to + 1]) == Elements(old(timers)[..to]) + {timer}
    {
      ghost var s, kept := Keys(timers), timers[..to];
      timers := timers[to := timer];
      ghost var placed := timers;
      assert Keys(timers) == s[to := timer.when];
      PlacedIsBroken(s, to, timer.when);
      var top := SiftUp(to, to + 1);
      PrefixSame(placed, timers, to + 1);
      SameMembers(placed[..to + 1], timers[..to + 1]);
      assert placed[..to + 1] == kept + [timer];
      SameDistinct(placed[..to + 1], timers[..to + 1]);
      if top == to {
        LastSettled(Keys(timers), to);
      }
    }

    /** The case TIMER_WAITING of clear_deleted_timers. */
    method KeepWaiting(to: int, changedHeap: bool, timer: Timer, ghost was: map<Timer, Was>, ghost rest: set<Timer>)
      requires Packing(was, to, rest) && timer in rest && timer.status.Waiting? && to < |timers|
      requires changedHeap || (timers[to] == timer && Heap(Keys(timers), |timers|))
      modifies `timers
      ensures Packing(was, to + 1, rest - {timer}) && |timers| == |old(timers)|
              && (!changedHeap ==> timers == old(timers))
      ensures forall k | to < k < |timers| :: timers[k] == old(timers)[k]
    {
      ghost var done := Elements(timers[..to]);
      assert Packed(was - {timer}, done, rest - {timer});
      assert timer !in timers[..to];
      if changedHeap {
        PlaceAt(to, timer);
      } else {
        StaysInPlace(to, timer);
      }
      FirstKept(was, done, timer, rest);
    }

    lemma StaysInPlace(to: int, timer: Timer)
      requires 0 <= to < |timers| && timers[to] == timer && Heap(Keys(timers), |timers|)
      requires Distinct(timers[..to]) && timer !in timers[..to]
      ensures Heap(Keys(timers), to + 1) && Distinct(timers[..to + 1])
      ensures Elements(timers[..to + 1]) == Elements(timers[..to]) + {timer}
    {
      assert timers[..to + 1] == timers[..to] + [timer];
      SameFront(Keys(timers), |timers|, Keys(timers), to + 1);
    }

    /** The cases TIMER_MODIFIED_EARLIER and TIMER_MODIFIED_LATER of clear_deleted_timers. */
    method KeepModified(to: int, timer: Timer, ghost was: map<Timer, Was>, ghost rest: set<Timer>)
      requires Packing(was, to, rest) && timer in rest
               && (timer.status.ModifiedEarlier? || timer.status.ModifiedLater?) && to < |timers|
      modifies `timers, timer
      ensures Packing(was, to + 1, rest - {timer}) && |timers| == |old(timers)|
      ensures forall k | to < k < |timers| :: timers[k] == old(timers)[k]
    {
      ghost var done, s := Elements(timers[..to]), Keys(timers);
      assert timer !in done;
      timer.status := Moving;
      timer.when := timer.nextwhen;
      assert Packed(was - {timer}, done, rest - {timer});
      assert forall k | 0 <= k < to :: timers[..to][k] == timers[k];
      SameFront(s, to, Keys(timers), to);
      PlaceAt(to, timer);
      s := Keys(timers);
      timer.status := Waiting;
      assert Keys(timers) == s;
      FirstKept(was, done, timer, rest);
    }

    /** The case TIMER_DELETED of clear_deleted_timers. */
    method ClearDropped(to: int, timer: Timer, ghost was: map<Timer, Was>, ghost rest: set<Timer>)
      requires Packing(was, to, rest) && timer in rest && timer.status.Deleted?
      modifies timer
      ensures Packing(was, to, rest - {timer}) && Keys(timers) == old(Keys(timers))
    {
      ghost var done, s := Elements(timers[..to]), Keys(timers);
      timer.status := Removing;
      timer.cpu := -1;
      timer.status := Removed;
      assert Keys(timers) == s;
      assert Packed(was, done, rest - {timer});
    }

    /** One round of clear_deleted_timers; returns whether it kept the timer. */
    method PackOne(to: int, changedHeap: bool, timer: Timer, ghost was: map<Timer, Was>, ghost rest: set<Timer>)
      returns (kept: bool)
      requires Packing(was, to, rest) && timer in rest && to < |timers|
      requires changedHeap || (timers[to] == timer && Heap(Keys(timers), |timers|))
      modifies `timers, timer
      ensures Packing(was, if kept then to + 1 else to, rest - {timer}) && |timers| == |old(timers)|
      ensures forall k | to < k < |timers| :: timers[k] == old(timers)[k]
      ensures !kept ==> timers == old(timers)
      ensures !changedHeap && old(timer.status).Waiting? ==>
              kept && timers == old(timers)
              && timer.when == old(timer.when)
    {
      assert Normal(timer);
      kept := !timer.status.Deleted?;
      if timer.status.Waiting? {
        KeepWaiting(to, changedHeap, timer, was, rest);
      } else if kept {
        KeepModified(to, timer, was, rest);
      } else {
        ClearDropped(to, timer, was, rest);
      }
    }

    /** What holds after i rounds of clear_deleted_timers. */
    ghost predicate Rounds(was: map<Timer, Was>, all: seq<Timer>, i: int, to: int, changedHeap: bool)
      reads this, timers, was.Keys, all
    {
      && 0 <= to <= i <= |timers| == |all| && Packing(was, to, Elements(all[i..]))
      && (forall k | i <= k < |all| :: timers[k] == all[k])
      && (!changedHeap ==> to == i && Heap(Keys(timers), |timers|))
    }

    method PackRound(i: int, to: int, changedHeap: bool, ghost was: map<Timer, Was>, ghost all: seq<Timer>)
      returns (to': int, changedHeap': bool)
      requires Rounds(was, all, i, to, changedHeap) && i < |timers| && Distinct(all)
      modifies `timers, {timers[i]}
      ensures Rounds(was, all, i + 1, to', changedHeap')
    {
      var timer := timers[i];
      RestOf(all, i);
      changedHeap' := changedHeap || !timer.status.Waiting?;
      ghost var s := Keys(timers);
      var kept := PackOne(to, changedHeap, timer, was, Elements(all[i..]));
      to' := if kept then to + 1 else to;
      assert !changedHeap' ==> Keys(timers) == s;
    }

    /** The loop of clear_deleted_timers: returns how many timers it kept and how many it dropped. */
    method PackTimers(ghost was: map<Timer, Was>, ghost all: seq<Timer>, ghost footprint: set<Timer>)
      returns (to: int, cdel: int)
      requires Distinct(all) && Rounds(was, all, 0, 0, false) && forall k | 0 <= k < |all| :: all[k] in footprint
      modifies `timers, footprint
      ensures Rounds(was, all, |all|, to, true) && to + cdel == |all|
    {
      var changedHeap := false;
      var i := 0;
      to := 0;
      while i < |timers|
        invariant Rounds(was, all, i, to, changedHeap)
      {
        assert timers[i] == all[i];
        to, changedHeap := PackRound(i, to, changedHeap, was, all);
        i := i + 1;
      }
      cdel := |timers| - to;
    }

    /** Cuts the array down to the timers that were kept. */
    method CutTo(cdel: int, ghost done: seq<Timer>)
      requires 0 <= cdel <= |timers| == numTimers && done == timers[..|timers| - cdel] && ValidHeap(done)
      modifies `timers, `numTimers, `deletedTimers, `timer0When
      ensures Valid() && timers == done && deletedTimers == old(deletedTimers) - cdel
    {
      deletedTimers := deletedTimers - cdel;
      numTimers := numTimers - cdel;
      timers := timers[..|timers| - cdel];
      UpdateTimer0When();
    }

    lemma PackedAll(was: map<Timer, Was>, all: seq<Timer>, to: int, done: seq<Timer>)
      requires Rounds(was, all, |all|, to, true) && done == timers[..to]
      ensures ValidHeap(done) && RebuiltAs(was, done)
    {
      assert all[|all|..] == [];
      SameFront(Keys(timers), to, Keys(done), to);
      assert forall t :: t in done <==> t in Elements(done);
    }

    lemma StartPacking()
      requires Valid() && Settled()
      ensures Rounds(Snapshot(), timers, 0, 0, false)
    {
      assert timers[..0] == [] && timers[0..] == timers;
    }

    /**
     clear_deleted_timers, while nobody changes the status of a timer: one pass that packs the timers
     to the front of the array, in which a heap grows, and drops those that were deleted.
    */
    method ClearDeleted()
      requires Valid() && Settled()
      modifies this, Elements(timers)
      ensures Valid() && Rebuilt(old(Snapshot())) && timerModifiedEarliest == 0
      ensures old(deletedTimers) - deletedTimers == |old(timers)| - |timers|
    {
      timerModifiedEarliest := 0;
      var cdel, done := Pack(Snapshot());
      CutTo(cdel, done);
    }

    /** Packs the timers that are not deleted to the front; returns them, and how many others there are. */
    method Pack(ghost was: map<Timer, Was>) returns (cdel: int, ghost done: seq<Timer>)
      requires Valid() && Settled() && was == Snapshot()
      modifies `timers, Elements(timers)
      ensures |timers| == |old(timers)| && 0 <= cdel <= |timers| && done == timers[..|timers| - cdel]
      ensures ValidHeap(done) && RebuiltAs(was, done)
    {
      StartPacking();
      var to;
      ghost var all := timers;
      to, cdel := PackTimers(was, all, Elements(all));
      done := timers[..to];
      PackedAll(was, all, to, done);
    }

    /** The timers of the heap, as they are now. */
    ghost function Snapshot(): map<Timer, Was>
      reads this, timers
    {
      map t | t in timers :: Was(t.status, t.Effective())
    }
  }
}
