/**
 The per-CPU run queues of kernel/thread/scheduler.c as a transition system: any number of CPUs
 putting, getting, spilling to the global list and stealing from each other, one step per atomic
 access or slot access, or per region under the scheduler lock.

 Heads and tails count upwards without bound; RunQueueArray keeps them in 32 bits, as the program does.
*/
module RunQueueProtocol {

  type Thread = int

  datatype Option<T> = None | Some(value: T)

  /** What a CPU is about to do. Steps with a `t` have that thread in hand. */
  datatype Pc =
    | Idle
    // run_queue_put
    | PutNextLoad(t: Thread)                              // about to load next
    | PutNextCas(t: Thread, was: Option<Thread>)          // about to CAS next from `was` to t
    | PutHead(t: Thread)                                  // about to load head
    | PutTail(t: Thread, h: nat)                          // about to load tail
    | PutSlot(t: Thread)                                  // found room, about to write the slot
    | PutStore(t: Thread)                                 // about to publish the slot by moving tail
    // run_queue_put_slow
    | SlowCopy(t: Thread, h: nat, batch: seq<Thread>)     // copying slots
    | SlowCas(t: Thread, h: nat, batch: seq<Thread>)      // about to CAS head past the copied slots
    | SlowList(t: Thread, batch: seq<Thread>)             // about to append to the global list
    // run_queue_get
    | GetNext                                             // about to load next
    | GetNextCas(t: Thread)                               // about to CAS next from t to null (t is only a candidate)
    | GetHead
    | GetTail(h: nat)
    | GetSlot(h: nat)
    | GetCas(h: nat, t: Thread)                           // about to CAS head past t (only a candidate)
    // run_queue_grab from CPU v
    | GrabHead(v: nat, sn: bool)
    | GrabTail(v: nat, sn: bool, h: nat)
    | GrabRead(v: nat, sn: bool, h: nat, n: nat, i: nat)
    | GrabWrite(v: nat, sn: bool, h: nat, n: nat, i: nat, x: Thread)
    | GrabCas(v: nat, sn: bool, h: nat, n: nat)
    | GrabNext(v: nat, sn: bool)
    | GrabNextCas(v: nat, sn: bool, x: Thread)
    | GrabNextWrite(t: Thread)
    // run_queue_steal, with n threads in the slots from tail on
    | StealTake(n: nat)
    | StealHead(t: Thread, n: nat)
    | StealStore(t: Thread, n: nat)
    // run_queue_empty of CPU v; `empty` records whether it was empty when next was read
    | ProbeTail(v: nat, h: nat)
    | ProbeNext(v: nat, h: nat, tl: nat)
    | ProbeCheck(v: nat, h: nat, tl: nat, isNull: bool, empty: bool)
    // run_queue_empty of the CPU itself
    | SelfTail(h: nat)
    | SelfNext(h: nat, tl: nat)
    | SelfCheck(h: nat, tl: nat, isNull: bool, empty: bool)

  /** A CPU: its run queue, what it is doing, and what global_run_queue_get still has to put. */
  datatype Cpu = Cpu(head: nat, tail: nat, ring: seq<Thread>, next: Option<Thread>,
                     pc: Pc, todo: seq<Thread>, first: Option<Thread>)

  /** The global list, its size, who holds the scheduler lock, and all threads that ever came and went. */
  datatype Global = Global(list: seq<Thread>, size: int, lock: Option<nat>,
                           entered: multiset<Thread>, left: multiset<Thread>)

  datatype State = State(cpus: seq<Cpu>, g: Global)

  ghost predicate Init(s: State) {
    && |s.cpus| > 0 && s.g == Global([], 0, None, multiset{}, multiset{})
    && forall c | 0 <= c < |s.cpus| :: s.cpus[c] == Cpu(0, 0, s.cpus[c].ring, None, Idle, [], None)
        && |s.cpus[c].ring| == 256
  }

  /** The slot for position p. */
  function Slot(c: Cpu, p: nat): Thread
    requires |c.ring| == 256
  {
    c.ring[p % 256]
  }

  function Write(c: Cpu, p: nat, t: Thread): Cpu
    requires |c.ring| == 256
  {
    c.(ring := c.ring[p % 256 := t])
  }

  // ---------------------------------------------------------------- steps

  /** The number of threads a thief takes of k. */
  function Half(k: nat): nat {
    k - k / 2
  }

  /** Steps that touch only the CPU's own queue, taking in the thread `inn` and giving out the thread `out`. */
  ghost predicate Own(c: Cpu, c': Cpu, inn: Option<Thread>, out: Option<Thread>)
    requires |c.ring| == 256
  {
    match c.pc
    case Idle =>
      || (c.first == None && inn.Some? && out == None
          && (c' == c.(pc := PutNextLoad(inn.value)) || c' == c.(pc := PutHead(inn.value))))
      || (c.first == None && inn == None && out == None
          && (c' == c.(pc := GetNext) || c' == c.(pc := SelfTail(c.head))))
      || (c.first != None && inn == None && out == None && c.todo != []
          && c' == c.(pc := PutHead(c.todo[0]), todo := c.todo[1..]))
    case PutNextLoad(t) => inn == None && out == None && c' == c.(pc := PutNextCas(t, c.next))
    case PutNextCas(t, was) =>
      inn == None && out == None &&
      if c.next == was then c' == c.(next := Some(t), pc := if was == None then Idle else PutHead(was.value))
      else c' == c.(pc := PutNextCas(t, c.next))
    case PutHead(t) => inn == None && out == None && c' == c.(pc := PutTail(t, c.head))
    case PutTail(t, h) =>
      inn == None && out == None && c' == c.(pc := if c.tail - h < 256 then PutSlot(t) else SlowCopy(t, h, []))
    case PutSlot(t) => inn == None && out == None && c' == Write(c, c.tail, t).(pc := PutStore(t))
    case PutStore(t) => inn == None && out == None && c' == c.(tail := c.tail + 1, pc := Idle)
    case SlowCopy(t, h, batch) =>
      inn == None && out == None &&
      c' == c.(pc := if |batch| < (c.tail - h) / 2 then SlowCopy(t, h, batch + [Slot(c, h + |batch|)])
          else SlowCas(t, h, batch))
    case SlowCas(t, h, batch) =>
      inn == None && out == None &&
      if c.head == h then c' == c.(head := h + |batch|, pc := SlowList(t, batch))
      else c' == c.(pc := PutHead(t))
    case GetNext =>
      inn == None && out == None && c' == c.(pc := if c.next == None then GetHead else GetNextCas(c.next.value))
    case GetNextCas(t) =>
      inn == None &&
      if c.next == Some(t) then out == Some(t) && c' == c.(next := None, pc := Idle)
      else out == None && c' == c.(pc := GetHead)
    case GetHead => inn == None && out == None && c' == c.(pc := GetTail(c.head))
    case GetTail(h) => inn == None && out == None && c' == c.(pc := if c.tail == h then Idle else GetSlot(h))
    case GetSlot(h) => inn == None && out == None && c' == c.(pc := GetCas(h, Slot(c, h)))
    case GetCas(h, t) =>
      inn == None &&
      if c.head == h then out == Some(t) && c' == c.(head := h + 1, pc := Idle)
      else out == None && c' == c.(pc := GetHead)
    case GrabWrite(v, sn, h, n, i, x) =>
      inn == None && out == None &&
      c' == Write(c, c.tail + i, x).(pc := if i + 1 < n then GrabRead(v, sn, h, n, i + 1) else GrabCas(v, sn, h, n))
    case GrabNextWrite(t) => inn == None && out == None && c' == Write(c, c.tail, t).(pc := StealTake(1))
    case StealTake(n) =>
      inn == None && n > 0 &&
      var t := Slot(c, c.tail + n - 1);
      if n == 1 then out == Some(t) && c' == c.(pc := Idle) else out == None && c' == c.(pc := StealHead(t, n - 1))
    case StealHead(t, n) => inn == None && out == None && c' == c.(pc := StealStore(t, n))
    case StealStore(t, n) => inn == None && out == Some(t) && c' == c.(tail := c.tail + n, pc := Idle)
    case SelfTail(h) => inn == None && out == None && c' == c.(pc := SelfNext(h, c.tail))
    case SelfNext(h, tl) =>
      inn == None && out == None && c' == c.(pc := SelfCheck(h, tl, c.next == None, c.head == c.tail && c.next == None))
    case SelfCheck(h, tl, isNull, empty) =>
      inn == None && out == None && c' == c.(pc := if c.tail == tl then Idle else SelfTail(c.head))
    case _ => false
  }

  /** Steps of CPU c that read or rob the queue of CPU v. */
  ghost predicate Other(c: Cpu, v: Cpu, c': Cpu, v': Cpu, vi: nat)
    requires |c.ring| == 256 && |v.ring| == 256
  {
    match c.pc
    case Idle =>
      && c.first == None && v' == v
      // a thief has found its own queue empty
      && ((c.head == c.tail && (c' == c.(pc := GrabHead(vi, true)) || c' == c.(pc := GrabHead(vi, false))))
          || c' == c.(pc := ProbeTail(vi, v.head)))
    case GrabHead(w, sn) => w == vi && v' == v && c' == c.(pc := GrabTail(vi, sn, v.head))
    case GrabTail(w, sn, h) =>
      w == vi && v' == v && v.tail >= h &&
      var n := Half(v.tail - h);
      c' == c.(pc := if n == 0 then (if sn then GrabNext(vi, sn) else Idle)
                     else if n > 128 then GrabHead(vi, sn) else GrabRead(vi, sn, h, n, 0))
    case GrabRead(w, sn, h, n, i) => w == vi && v' == v && c' == c.(pc := GrabWrite(vi, sn, h, n, i, Slot(v, h + i)))
    case GrabCas(w, sn, h, n) =>
      w == vi &&
      if v.head == h then v' == v.(head := h + n) && c' == c.(pc := StealTake(n))
      else v' == v && c' == c.(pc := GrabHead(vi, sn))
    case GrabNext(w, sn) =>
      w == vi && v' == v && c' == c.(pc := if v.next == None then Idle else GrabNextCas(vi, sn, v.next.value))
    case GrabNextCas(w, sn, x) =>
      w == vi &&
      if v.next == Some(x) then v' == v.(next := None) && c' == c.(pc := GrabNextWrite(x))
      else v' == v && c' == c.(pc := GrabHead(vi, sn))
    case ProbeTail(w, h) => w == vi && v' == v && c' == c.(pc := ProbeNext(vi, h, v.tail))
    case ProbeNext(w, h, tl) =>
      w == vi && v' == v && c' == c.(pc := ProbeCheck(vi, h, tl, v.next == None, v.head == v.tail && v.next == None))
    case ProbeCheck(w, h, tl, isNull, empty) =>
      w == vi && v' == v && c' == c.(pc := if v.tail == tl then Idle else ProbeTail(vi, v.head))
    case _ => false
  }

  /**
   A CPU's share of a global list of this size, when all CPUs take equal parts: the largest number n that
   leaves nobody more than the CPUs before it have taken, that the list has, that is not more than asked for,
   and that fits into half a ring.
  */
  predicate IsShare(size: int, cpus: nat, max: int, n: int) {
    && 1 <= n <= size && n <= 128 && (max > 0 ==> n <= max) && (n - 1) * cpus <= size
    && (n == size || n == 128 || (max > 0 && n == max) || size < n * cpus)
  }

  /** No larger number will do. */
  lemma ShareIsLargest(size: int, cpus: nat, max: int, n: int, larger: int)
    requires cpus > 0 && IsShare(size, cpus, max, n) && n < larger
    ensures larger > size || larger > 128 || (max > 0 && larger > max) || (larger - 1) * cpus > size
  {
    if size < n * cpus {
      assert (larger - 1) * cpus == n * cpus + (larger - 1 - n) * cpus;
    }
  }

  /** How many threads global_run_queue_get takes. */
  function Share(size: int, cpus: nat, max: int): (n: int)
    requires size > 0 && cpus > 0
    ensures IsShare(size, cpus, max, n)
  {
    var n := size / cpus + 1;
    var n1 := if n > size then size else n;
    var n2 := if max > 0 && n1 > max then max else n1;
    var n3 := if n2 > 128 then 128 else n2;
    ShareBounds(size, cpus, n3);
    n3
  }

  lemma ShareBounds(size: int, cpus: nat, n: int)
    requires size > 0 && cpus > 0 && 1 <= n <= size / cpus + 1
    ensures (n - 1) * cpus <= size && (n == size / cpus + 1 ==> size < n * cpus)
  {
    var q, r := size / cpus, size % cpus;
    assert size == q * cpus + r && 0 <= r < cpus;
    PartOf(q, n - 1, cpus);
    assert (q + 1) * cpus == q * cpus + cpus;
  }

  lemma PartOf(q: int, m: int, cpus: nat)
    requires m <= q
    ensures m * cpus <= q * cpus
  {
  }

  /** Steps under the scheduler lock. */
  ghost predicate Shared(c: Cpu, g: Global, c': Cpu, g': Global, ci: nat, cpus: nat)
    requires cpus > 0
  {
    match c.pc
    case SlowList(t, batch) =>
      g.lock == None && c' == c.(pc := Idle) &&
      g' == g.(list := g.list + batch + [t], size := g.size + |batch| + 1)
    case Idle =>
      // global_run_queue_get takes the lock and its share of the list ...
      || (c.first == None && g.lock == None && g.size > 0 && g.size == |g.list| &&
          exists max: int :: TakeShare(c, g, c', g', ci, Share(g.size, cpus, max)))
      // ... and releases it when all but the first thread have been put into the CPU's own queue
      || (c.first.Some? && c.todo == [] && c' == c.(first := None) &&
          g' == g.(lock := None, left := g.left + multiset{c.first.value}))
    case _ => false
  }

  predicate TakeShare(c: Cpu, g: Global, c': Cpu, g': Global, ci: nat, n: int) {
    && 1 <= n <= |g.list|
    && (n > 1 ==> c.head == c.tail)      // more than one only when the CPU has found its own queue empty
    && c' == c.(todo := g.list[1..n], first := Some(g.list[0]))
    && g' == g.(list := g.list[n..], size := g.size - n, lock := Some(ci))
  }

  function Opt(o: Option<Thread>): multiset<Thread> {
    if o.Some? then multiset{o.value} else multiset{}
  }

  /** The step of CPU i, if v != i on CPU v as well. */
  ghost predicate Step(s: State, s': State, i: nat, v: nat)
    requires i < |s.cpus| && v < |s.cpus|
  {
    && (forall c | 0 <= c < |s.cpus| :: |s.cpus[c].ring| == 256)
    && |s'.cpus| == |s.cpus|
    && if v == i then
         && s'.cpus == s.cpus[i := s'.cpus[i]]
         && ((exists inn, out :: OwnStep(s, s', i, inn, out)) || Shared(s.cpus[i], s.g, s'.cpus[i], s'.g, i, |s.cpus|))
       else
         && s'.cpus == s.cpus[i := s'.cpus[i]][v := s'.cpus[v]] && s'.g == s.g
         && Other(s.cpus[i], s.cpus[v], s'.cpus[i], s'.cpus[v], v)
  }

  ghost predicate OwnStep(s: State, s': State, i: nat, inn: Option<Thread>, out: Option<Thread>)
    requires i < |s.cpus| == |s'.cpus| && |s.cpus[i].ring| == 256
  {
    && Own(s.cpus[i], s'.cpus[i], inn, out)
    && s'.g == s.g.(entered := s.g.entered + Opt(inn), left := s.g.left + Opt(out))
  }

  ghost predicate Next(s: State, s': State) {
    exists i: nat, v: nat :: i < |s.cpus| && v < |s.cpus| && Step(s, s', i, v)
  }

  ghost predicate Run(run: seq<State>) {
    |run| > 0 && Init(run[0]) && forall i | 0 <= i < |run| - 1 :: Next(run[i], run[i + 1])
  }

  // ---------------------------------------------------------------- what each CPU has

  function One(t: Thread, x: Thread): nat {
    if t == x then 1 else 0
  }

  function Some1(o: Option<Thread>, x: Thread): nat {
    if o == Some(x) then 1 else 0
  }

  /** How often thread x is in the slots from position a up to b. */
  function Items(ring: seq<Thread>, a: nat, b: nat, x: Thread): nat
    requires |ring| == 256
    decreases b
  {
    if a >= b then 0 else Items(ring, a, b - 1, x) + One(ring[(b - 1) % 256], x)
  }

  lemma {:induction false} ItemsSplit(ring: seq<Thread>, a: nat, m: nat, b: nat, x: Thread)
    requires |ring| == 256 && a <= m <= b
    ensures Items(ring, a, b, x) == Items(ring, a, m, x) + Items(ring, m, b, x)
    decreases b
  {
    if m < b {
      ItemsSplit(ring, a, m, b - 1, x);
    }
  }

  /** Two rings agree at positions counted from a and from b. */
  predicate Same(r: seq<Thread>, a: nat, q: seq<Thread>, b: nat, j: nat)
    requires |r| == 256 && |q| == 256
  {
    r[(a + j) % 256] == q[(b + j) % 256]
  }

  /** The same threads in two windows of two rings. */
  lemma {:induction false} ItemsSame(r: seq<Thread>, a: nat, q: seq<Thread>, b: nat, n: nat, x: Thread)
    requires |r| == 256 && |q| == 256 && forall j {:trigger Same(r, a, q, b, j)} | 0 <= j < n :: Same(r, a, q, b, j)
    ensures Items(r, a, a + n, x) == Items(q, b, b + n, x)
    decreases n
  {
    if n > 0 {
      ItemsSame(r, a, q, b, n - 1, x);
      assert Same(r, a, q, b, n - 1);
    }
  }

  /** Writing a slot outside a window leaves the window alone: positions less than 256 apart have different slots. */
  lemma {:induction false} ItemsWritten(ring: seq<Thread>, p: nat, t: Thread, a: nat, b: nat, x: Thread)
    requires |ring| == 256 && a <= b <= p < a + 256
    ensures Items(ring[p % 256 := t], a, b, x) == Items(ring, a, b, x)
    decreases b
  {
    if a < b {
      ItemsWritten(ring, p, t, a, b - 1, x);
    }
  }

  lemma {:induction false} ItemsBatch(ring: seq<Thread>, a: nat, batch: seq<Thread>, x: Thread)
    requires |ring| == 256 && forall j | 0 <= j < |batch| :: batch[j] == ring[(a + j) % 256]
    ensures Items(ring, a, a + |batch|, x) == multiset(batch)[x]
    decreases |batch|
  {
    var n := |batch|;
    if n > 0 {
      ItemsBatch(ring, a, batch[..n - 1], x);
      assert batch == batch[..n - 1] + [batch[n - 1]];
    }
  }

  /** The threads a CPU has in hand, that is, outside its queue. */
  function Hand(c: Cpu, x: Thread): nat
    requires |c.ring| == 256
  {
    match c.pc
    case PutNextLoad(t) => One(t, x)
    case PutNextCas(t, was) => One(t, x)
    case PutHead(t) => One(t, x)
    case PutTail(t, h) => One(t, x)
    case PutSlot(t) => One(t, x)
    case PutStore(t) => One(t, x)
    case SlowCopy(t, h, batch) => One(t, x)
    case SlowCas(t, h, batch) => One(t, x)
    case SlowList(t, batch) => One(t, x) + multiset(batch)[x]
    case GrabNextWrite(t) => One(t, x)
    case StealTake(n) => Items(c.ring, c.tail, c.tail + n, x)
    case StealHead(t, n) => One(t, x) + Items(c.ring, c.tail, c.tail + n, x)
    case StealStore(t, n) => One(t, x) + Items(c.ring, c.tail, c.tail + n, x)
    case _ => 0
  }

  /** How often a CPU is responsible for thread x. */
  function Held(c: Cpu, x: Thread): nat
    requires |c.ring| == 256
  {
    Items(c.ring, c.head, c.tail, x) + Some1(c.next, x) + multiset(c.todo)[x] + Some1(c.first, x) + Hand(c, x)
  }

  // ---------------------------------------------------------------- the invariant

  /** What a CPU knows about its own queue, which others may only take from. */
  ghost predicate CpuOk(c: Cpu) {
    && |c.ring| == 256 && c.head <= c.tail <= c.head + 256
    && (c.todo != [] ==> c.first.Some?)
    && (c.first.Some? ==> HasRoom(c))
    && match c.pc
       case PutTail(t, h) => h <= c.head && c.tail <= h + 256
       case PutSlot(t) => c.tail < c.head + 256
       case PutStore(t) => c.tail < c.head + 256 && Slot(c, c.tail) == t
       case SlowCopy(t, h, batch) => |batch| <= 128 && SlowOk(c, h, batch)
       case SlowCas(t, h, batch) => |batch| == 128 && SlowOk(c, h, batch)
       case SlowList(t, batch) => |batch| == 128
       case GetTail(h) => h <= c.head
       case GetSlot(h) => h <= c.head && h < c.tail
       case GetCas(h, t) => h <= c.head && h < c.tail && Slot(c, h) == t
       case GrabHead(v, sn) => c.head == c.tail
       case GrabTail(v, sn, h) => c.head == c.tail
       case GrabRead(v, sn, h, n, i) => c.head == c.tail && i < n <= 128
       case GrabWrite(v, sn, h, n, i, x) => c.head == c.tail && i < n <= 128
       case GrabCas(v, sn, h, n) => c.head == c.tail && 1 <= n <= 128
       case GrabNext(v, sn) => c.head == c.tail
       case GrabNextCas(v, sn, x) => c.head == c.tail
       case GrabNextWrite(t) => c.head == c.tail
       case StealTake(n) => c.head == c.tail && 1 <= n <= 128
       case StealHead(t, n) => c.head == c.tail && 1 <= n < 128
       case StealStore(t, n) => c.head == c.tail && 1 <= n < 128
       case SelfTail(h) => h <= c.head
       case SelfNext(h, tl) => h <= c.head && tl == c.tail
       case SelfCheck(h, tl, isNull, empty) => tl == c.tail && (h == tl && isNull ==> empty)
       case _ => true
  }

  /** The slow path runs on a full ring; the copied slots cannot change, because only the owner writes slots. */
  ghost predicate SlowOk(c: Cpu, h: nat, batch: seq<Thread>)
    requires |c.ring| == 256
  {
    h <= c.head && c.tail == h + 256 && forall j | 0 <= j < |batch| :: batch[j] == Slot(c, h + j)
  }

  /** What global_run_queue_get puts fits into the ring. */
  predicate HasRoom(c: Cpu) {
    match c.pc
    case Idle => c.todo == [] || c.tail - c.head + |c.todo| <= 127
    case PutHead(t) => c.tail - c.head + |c.todo| + 1 <= 127
    case PutTail(t, h) => c.tail - h + |c.todo| + 1 <= 127
    case PutSlot(t) => c.tail - c.head + |c.todo| + 1 <= 127
    case PutStore(t) => c.tail - c.head + |c.todo| + 1 <= 127
    case _ => false
  }

  /** What a CPU knows about the CPU v it steals from or probes. */
  ghost predicate ThiefOk(c: Cpu, v: Cpu, vi: nat)
    requires |c.ring| == 256 && |v.ring| == 256
  {
    match c.pc
    case GrabTail(w, sn, h) => w == vi ==> h <= v.head
    case GrabRead(w, sn, h, n, i) => w == vi ==> h <= v.head && h + n <= v.tail && Copied(c, v, h, i)
    case GrabWrite(w, sn, h, n, i, x) =>
      w == vi ==> h <= v.head && h + n <= v.tail && Copied(c, v, h, i) && (v.head == h ==> x == Slot(v, h + i))
    case GrabCas(w, sn, h, n) => w == vi ==> h <= v.head && h + n <= v.tail && Copied(c, v, h, n)
    case ProbeTail(w, h) => w == vi ==> h <= v.head
    case ProbeNext(w, h, tl) => w == vi ==> h <= v.head && tl <= v.tail
    case ProbeCheck(w, h, tl, isNull, empty) =>
      w == vi ==> h <= v.head && tl <= v.tail && (h == tl == v.tail && isNull ==> empty)
    case _ => true
  }

  /** As long as the victim's head has not moved, the copied slots are what the victim still has. */
  ghost predicate Copied(c: Cpu, v: Cpu, h: nat, n: nat)
    requires |c.ring| == 256 && |v.ring| == 256
  {
    v.head == h ==> forall j {:trigger Same(c.ring, c.tail, v.ring, h, j)} | 0 <= j < n ::
        Same(c.ring, c.tail, v.ring, h, j)
  }

  // ---------------------------------------------------------------- steps of one CPU on its own queue

  predicate Slow(pc: Pc) { pc.PutTail? || pc.SlowCopy? || pc.SlowCas? }
  predicate Probing(pc: Pc) { pc.SelfTail? || pc.SelfNext? || pc.SelfCheck? || pc.ProbeTail? || pc.ProbeNext?
      || pc.ProbeCheck? }
  predicate Stealing(pc: Pc) { pc.GrabWrite? || pc.GrabNextWrite? || pc.StealTake? || pc.StealHead? || pc.StealStore? }

  lemma OwnKeepsOk(c: Cpu, c': Cpu, inn: Option<Thread>, out: Option<Thread>)
    requires CpuOk(c) && Own(c, c', inn, out)
    ensures CpuOk(c')
  {
    if Slow(c.pc) {
      SlowKeepsOk(c, c', inn, out);
    } else if Stealing(c.pc) {
      StealingKeepsOk(c, c', inn, out);
    } else {
      PlainKeepsOk(c, c', inn, out);
    }
  }

  lemma SlowKeepsOk(c: Cpu, c': Cpu, inn: Option<Thread>, out: Option<Thread>)
    requires CpuOk(c) && Own(c, c', inn, out) && Slow(c.pc)
    ensures CpuOk(c')
  {
  }

  lemma StealingKeepsOk(c: Cpu, c': Cpu, inn: Option<Thread>, out: Option<Thread>)
    requires CpuOk(c) && Own(c, c', inn, out) && Stealing(c.pc)
    ensures CpuOk(c')
  {
  }

  lemma PlainKeepsOk(c: Cpu, c': Cpu, inn: Option<Thread>, out: Option<Thread>)
    requires CpuOk(c) && Own(c, c', inn, out) && !Slow(c.pc) && !Stealing(c.pc)
    ensures CpuOk(c')
  {
    if c.pc.Idle? {
      IdleKeepsOk(c, c', inn, out);
    } else if Probing(c.pc) {
      SelfKeepsOk(c, c', inn, out);
    } else {
      RestKeepsOk(c, c', inn, out);
    }
  }

  lemma SelfKeepsOk(c: Cpu, c': Cpu, inn: Option<Thread>, out: Option<Thread>)
    requires CpuOk(c) && Own(c, c', inn, out) && Probing(c.pc)
    ensures CpuOk(c')
  {
    assert c.first == None;
  }

  lemma IdleKeepsOk(c: Cpu, c': Cpu, inn: Option<Thread>, out: Option<Thread>)
    requires CpuOk(c) && Own(c, c', inn, out) && c.pc.Idle?
    ensures CpuOk(c')
  {
  }

  lemma RestKeepsOk(c: Cpu, c': Cpu, inn: Option<Thread>, out: Option<Thread>)
    requires CpuOk(c) && Own(c, c', inn, out) && !Slow(c.pc) && !Stealing(c.pc) && !Probing(c.pc) && !c.pc.Idle?
    ensures CpuOk(c')
  {
  }

  lemma OwnConserves(c: Cpu, c': Cpu, inn: Option<Thread>, out: Option<Thread>, x: Thread)
    requires CpuOk(c) && CpuOk(c') && Own(c, c', inn, out)
    ensures Held(c', x) + Some1(out, x) == Held(c, x) + Some1(inn, x)
  {
    if Slow(c.pc) {
      SlowConserves(c, c', inn, out, x);
    } else if Stealing(c.pc) {
      StealingConserves(c, c', inn, out, x);
    } else if c.pc.Idle? || c.pc.PutSlot? || c.pc.GetCas? {
      PlainConserves(c, c', inn, out, x);
    } else {
      RestConserves(c, c', inn, out, x);
    }
  }

  lemma SlowConserves(c: Cpu, c': Cpu, inn: Option<Thread>, out: Option<Thread>, x: Thread)
    requires CpuOk(c) && CpuOk(c') && Own(c, c', inn, out) && Slow(c.pc)
    ensures Held(c', x) + Some1(out, x) == Held(c, x) + Some1(inn, x)
  {
    if c.pc.SlowCas? {
      SlowCasConserves(c, c', inn, out, x);
    }
  }

  lemma SlowCasConserves(c: Cpu, c': Cpu, inn: Option<Thread>, out: Option<Thread>, x: Thread)
    requires |c.ring| == 256 && c.pc.SlowCas? && |c.pc.batch| == 128 && SlowOk(c, c.pc.h, c.pc.batch) && inn == None
             && out == None
    requires c' == if c.head == c.pc.h then c.(head := c.pc.h + |c.pc.batch|, pc := SlowList(c.pc.t, c.pc.batch))
             else c.(pc := PutHead(c.pc.t))
    ensures Held(c', x) + Some1(out, x) == Held(c, x) + Some1(inn, x)
  {
    if c.head == c.pc.h {
      SpillConserves(c, c.pc.t, c.pc.batch, x);
    } else {
      PcConserves(c, c'.pc, x);
    }
  }

  /** The half of the ring that is spilled moves from the slots into the hand. */
  lemma SpillConserves(c: Cpu, t: Thread, batch: seq<Thread>, x: Thread)
    requires |c.ring| == 256 && c.pc == SlowCas(t, c.head, batch) && |batch| == 128 && SlowOk(c, c.head, batch)
    ensures Held(c.(head := c.head + |batch|, pc := SlowList(t, batch)), x) == Held(c, x)
  {
    ItemsSplit(c.ring, c.head, c.head + 128, c.tail, x);
    ItemsBatch(c.ring, c.head, batch, x);
  }

  lemma StealingConserves(c: Cpu, c': Cpu, inn: Option<Thread>, out: Option<Thread>, x: Thread)
    requires CpuOk(c) && CpuOk(c') && Own(c, c', inn, out) && Stealing(c.pc)
    ensures Held(c', x) + Some1(out, x) == Held(c, x) + Some1(inn, x)
  {
  }

  lemma PlainConserves(c: Cpu, c': Cpu, inn: Option<Thread>, out: Option<Thread>, x: Thread)
    requires CpuOk(c) && CpuOk(c') && Own(c, c', inn, out) && (c.pc.Idle? || c.pc.PutSlot? || c.pc.GetCas?)
    ensures Held(c', x) + Some1(out, x) == Held(c, x) + Some1(inn, x)
  {
    match c.pc
    case Idle =>
      if c.todo != [] {
        assert c.todo == [c.todo[0]] + c.todo[1..];
      }
    case PutSlot(t) => ItemsWritten(c.ring, c.tail, t, c.head, c.tail, x);
    case GetCas(h, t) =>
      if c.head == h {
        ItemsSplit(c.ring, h, h + 1, c.tail, x);
      }
    case _ =>
  }

  predicate Rest(pc: Pc) {
    !Slow(pc) && !Stealing(pc) && !pc.Idle? && !pc.PutSlot? && !pc.GetCas?
  }

  lemma RestConserves(c: Cpu, c': Cpu, inn: Option<Thread>, out: Option<Thread>, x: Thread)
    requires CpuOk(c) && CpuOk(c') && Own(c, c', inn, out) && Rest(c.pc)
    ensures Held(c', x) + Some1(out, x) == Held(c, x) + Some1(inn, x)
  {
    if c.pc.PutNextCas? || c.pc.GetNextCas? || c.pc.PutStore? || c.pc.SlowList? {
      SwapConserves(c, c', inn, out, x);
    } else {
      LoadConserves(c, c', inn, out);
      PcConserves(c, c'.pc, x);
    }
  }

  lemma SwapConserves(c: Cpu, c': Cpu, inn: Option<Thread>, out: Option<Thread>, x: Thread)
    requires CpuOk(c) && Own(c, c', inn, out) && |c'.ring| == 256
    requires c.pc.PutNextCas? || c.pc.GetNextCas? || c.pc.PutStore? || c.pc.SlowList?
    ensures Held(c', x) + Some1(out, x) == Held(c, x) + Some1(inn, x)
  {
  }

  /** Steps that only load something. */
  lemma LoadConserves(c: Cpu, c': Cpu, inn: Option<Thread>, out: Option<Thread>)
    requires |c.ring| == 256 && Own(c, c', inn, out) && Rest(c.pc)
    requires !c.pc.PutNextCas? && !c.pc.GetNextCas? && !c.pc.PutStore? && !c.pc.SlowList?
    ensures inn == None && out == None && c' == c.(pc := c'.pc)
    ensures forall x :: Hand(c', x) == Hand(c, x)
  {
  }

  lemma PcConserves(c: Cpu, pc': Pc, x: Thread)
    requires |c.ring| == 256 && Hand(c.(pc := pc'), x) == Hand(c, x)
    ensures Held(c.(pc := pc'), x) == Held(c, x)
  {
  }

  // ---------------------------------------------------------------- steps that involve another CPU

  /** All that others do to a queue: take from its head, or take its next thread. */
  ghost predicate Robbed(v: Cpu, v': Cpu) {
    (v.head <= v'.head <= v.tail && v' == v.(head := v'.head)) || v' == v.(next := None)
  }

  lemma RobbedOk(v: Cpu, v': Cpu)
    requires CpuOk(v) && Robbed(v, v')
    ensures CpuOk(v')
  {
  }

  lemma OtherRobs(c: Cpu, v: Cpu, c': Cpu, v': Cpu, vi: nat)
    requires CpuOk(c) && CpuOk(v) && ThiefOk(c, v, vi) && Other(c, v, c', v', vi)
    ensures Robbed(v, v') && c' == c.(pc := c'.pc)
  {
  }

  lemma OtherKeepsOk(c: Cpu, v: Cpu, c': Cpu, v': Cpu, vi: nat)
    requires CpuOk(c) && CpuOk(v) && ThiefOk(c, v, vi) && Other(c, v, c', v', vi)
    ensures CpuOk(c')
  {
    if Probing(c.pc) || c.pc.Idle? {
      ProbingKeepsOk(c, v, c', v', vi);
    } else {
      GrabbingKeepsOk(c, v, c', v', vi);
    }
  }

  lemma ProbingKeepsOk(c: Cpu, v: Cpu, c': Cpu, v': Cpu, vi: nat)
    requires CpuOk(c) && |v.ring| == 256 && Other(c, v, c', v', vi) && (Probing(c.pc) || c.pc.Idle?)
    ensures CpuOk(c')
  {
  }

  lemma GrabbingKeepsOk(c: Cpu, v: Cpu, c': Cpu, v': Cpu, vi: nat)
    requires CpuOk(c) && CpuOk(v) && ThiefOk(c, v, vi) && Other(c, v, c', v', vi) && !Probing(c.pc) && !c.pc.Idle?
    ensures CpuOk(c')
  {
  }

  lemma OtherKeepsThief(c: Cpu, v: Cpu, c': Cpu, v': Cpu, vi: nat)
    requires CpuOk(c) && CpuOk(v) && ThiefOk(c, v, vi) && Other(c, v, c', v', vi) && CpuOk(c') && CpuOk(v')
    ensures ThiefOk(c', v', vi)
  {
    if Probing(c.pc) || c.pc.Idle? {
      ProbingKeepsThief(c, v, c', v', vi);
    } else {
      GrabbingKeepsThief(c, v, c', v', vi);
    }
  }

  lemma ProbingKeepsThief(c: Cpu, v: Cpu, c': Cpu, v': Cpu, vi: nat)
    requires CpuOk(v) && |c.ring| == 256 && ThiefOk(c, v, vi) && Other(c, v, c', v', vi) && |c'.ring| == 256
             && |v'.ring| == 256
    requires Probing(c.pc) || c.pc.Idle?
    ensures ThiefOk(c', v', vi)
  {
  }

  lemma GrabbingKeepsThief(c: Cpu, v: Cpu, c': Cpu, v': Cpu, vi: nat)
    requires CpuOk(c) && CpuOk(v) && ThiefOk(c, v, vi) && Other(c, v, c', v', vi) && |c'.ring| == 256
             && |v'.ring| == 256
    requires !Probing(c.pc) && !c.pc.Idle?
    ensures ThiefOk(c', v', vi)
  {
  }

  /** A successful grab: what the victim loses is what the thief has copied. */
  lemma GrabConserves(c: Cpu, v: Cpu, n: nat, x: Thread)
    requires |c.ring| == 256 && |v.ring| == 256 && c.pc.GrabCas? && c.head == c.tail
    requires v.head + n <= v.tail && Copied(c, v, v.head, n)
    ensures Held(c.(pc := StealTake(n)), x) + Held(v.(head := v.head + n), x) == Held(c, x) + Held(v, x)
  {
    ItemsSplit(v.ring, v.head, v.head + n, v.tail, x);
    ItemsSame(c.ring, c.tail, v.ring, v.head, n, x);
    LessHeld(v, n, x);
    MoreHeld(c, n, x);
  }

  lemma LessHeld(v: Cpu, n: nat, x: Thread)
    requires |v.ring| == 256 && Items(v.ring, v.head, v.tail, x) == Items(v.ring, v.head, v.head + n, x)
             + Items(v.ring, v.head + n, v.tail, x)
    ensures Hand(v.(head := v.head + n), x) == Hand(v, x)
    ensures Held(v.(head := v.head + n), x) + Items(v.ring, v.head, v.head + n, x) == Held(v, x)
  {
  }

  lemma MoreHeld(c: Cpu, n: nat, x: Thread)
    requires |c.ring| == 256 && c.pc.GrabCas?
    ensures Held(c.(pc := StealTake(n)), x) == Held(c, x) + Items(c.ring, c.tail, c.tail + n, x)
  {
  }

  lemma NextConserves(c: Cpu, v: Cpu, t: Thread, x: Thread)
    requires |c.ring| == 256 && |v.ring| == 256 && c.pc.GrabNextCas? && v.next == Some(t)
    ensures Held(c.(pc := GrabNextWrite(t)), x) + Held(v.(next := None), x) == Held(c, x) + Held(v, x)
  {
  }

  lemma OtherConserves(c: Cpu, v: Cpu, c': Cpu, v': Cpu, vi: nat, x: Thread)
    requires CpuOk(c) && CpuOk(v) && ThiefOk(c, v, vi) && Other(c, v, c', v', vi) && CpuOk(c') && CpuOk(v')
    ensures Held(c', x) + Held(v', x) == Held(c, x) + Held(v, x)
  {
    if c.pc.GrabCas? && v.head == c.pc.h {
      GrabConserves(c, v, c.pc.n, x);
    } else if c.pc.GrabNextCas? && v.next == Some(c.pc.x) {
      NextConserves(c, v, c.pc.x, x);
    } else {
      OthersTakeNothing(c, v, c', v', vi, x);
    }
  }

  lemma OthersTakeNothing(c: Cpu, v: Cpu, c': Cpu, v': Cpu, vi: nat, x: Thread)
    requires |c.ring| == 256 && |v.ring| == 256 && Other(c, v, c', v', vi)
    requires !(c.pc.GrabCas? && v.head == c.pc.h) && !(c.pc.GrabNextCas? && v.next == Some(c.pc.x))
    ensures v' == v && c' == c.(pc := c'.pc) && Hand(c, x) == Hand(c', x) == 0
  {
  }

  /** What the owner does to its ring: the slots between head and tail stay. */
  lemma OwnWindow(v: Cpu, v': Cpu, inn: Option<Thread>, out: Option<Thread>)
    requires CpuOk(v) && Own(v, v', inn, out) && CpuOk(v')
    ensures v.head <= v'.head && v.tail <= v'.tail
    ensures forall p | v.head <= p < v.tail :: Slot(v', p) == Slot(v, p)
  {
  }

  /**
   The owner's own steps do not disturb a thief: it writes only slots whose positions are less than 256 beyond
   its head.
  */
  lemma OwnUnderThief(c: Cpu, v: Cpu, v': Cpu, vi: nat, inn: Option<Thread>, out: Option<Thread>)
    requires CpuOk(c) && CpuOk(v) && ThiefOk(c, v, vi) && Own(v, v', inn, out) && CpuOk(v')
    ensures ThiefOk(c, v', vi)
  {
    OwnWindow(v, v', inn, out);
    ThiefUnder(c, v, v', vi);
  }

  /** Whatever moves head and tail forward and keeps the slots in between does not disturb a thief. */
  lemma ThiefUnder(c: Cpu, v: Cpu, v': Cpu, vi: nat)
    requires CpuOk(c) && CpuOk(v) && ThiefOk(c, v, vi) && |v'.ring| == 256
    requires v.head <= v'.head && v.tail <= v'.tail
    requires forall p | v.head <= p < v.tail :: Slot(v', p) == Slot(v, p)
    ensures ThiefOk(c, v', vi)
  {
    if c.pc.GrabRead? {
      CopiedUnder(c, v, v', c.pc.h, c.pc.i, c.pc.n);
    } else if c.pc.GrabWrite? {
      CopiedUnder(c, v, v', c.pc.h, c.pc.i, c.pc.n);
    } else if c.pc.GrabCas? {
      CopiedUnder(c, v, v', c.pc.h, c.pc.n, c.pc.n);
    }
  }

  lemma CopiedUnder(c: Cpu, v: Cpu, v': Cpu, h: nat, i: nat, n: nat)
    requires |c.ring| == 256 && |v.ring| == 256 && |v'.ring| == 256 && v.head <= v'.head && i <= n
    requires forall p | v.head <= p < v.tail :: Slot(v', p) == Slot(v, p)
    ensures Copied(c, v, h, i) && h <= v.head && h + n <= v.tail ==> Copied(c, v', h, i)
  {
    if Copied(c, v, h, i) && h <= v.head && h + n <= v.tail && v'.head == h {
      forall j: nat {:trigger Same(c.ring, c.tail, v'.ring, h, j)} | j < i
        ensures Same(c.ring, c.tail, v'.ring, h, j)
      {
        assert Same(c.ring, c.tail, v.ring, h, j);
        assert Slot(v', h + j) == Slot(v, h + j);
      }
    }
  }

  /** The thief's own steps, in particular writing the copied slots. */
  lemma OwnKeepsThief(c: Cpu, c': Cpu, v: Cpu, vi: nat, inn: Option<Thread>, out: Option<Thread>)
    requires CpuOk(c) && CpuOk(v) && ThiefOk(c, v, vi) && Own(c, c', inn, out) && CpuOk(c')
    ensures ThiefOk(c', v, vi)
  {
    if c.pc.GrabWrite? {
      if c.pc.v == vi {
        WriteCopies(c, v, c.pc.h, c.pc.i, c.pc.x);
      }
    } else {
      OwnIsNoThief(c, c', inn, out);
    }
  }

  predicate AtVictim(pc: Pc) {
    || pc.GrabTail? || pc.GrabRead? || pc.GrabWrite? || pc.GrabCas?
    || pc.ProbeTail? || pc.ProbeNext? || pc.ProbeCheck?
  }

  lemma OwnIsNoThief(c: Cpu, c': Cpu, inn: Option<Thread>, out: Option<Thread>)
    requires |c.ring| == 256 && Own(c, c', inn, out) && !c.pc.GrabWrite?
    ensures !AtVictim(c'.pc)
  {
  }

  lemma WriteCopies(c: Cpu, v: Cpu, h: nat, i: nat, x: Thread)
    requires |c.ring| == 256 && |v.ring| == 256 && i < 128 && Copied(c, v, h, i)
             && (v.head == h ==> x == Slot(v, h + i))
    ensures Copied(Write(c, c.tail + i, x), v, h, i + 1)
  {
    var c' := Write(c, c.tail + i, x);
    if v.head == h {
      forall j: nat {:trigger Same(c'.ring, c'.tail, v.ring, h, j)} | j < i + 1
        ensures Same(c'.ring, c'.tail, v.ring, h, j)
      {
        assert j < i ==> Same(c.ring, c.tail, v.ring, h, j);
      }
    }
  }

  lemma ThiefSame(c: Cpu, c': Cpu, v: Cpu, vi: nat)
    requires |c.ring| == 256 && |v.ring| == 256 && ThiefOk(c, v, vi)
    requires c'.ring == c.ring && c'.tail == c.tail && c'.pc == c.pc
    ensures ThiefOk(c', v, vi)
  {
  }

  /** A step on one victim says nothing about another. */
  lemma ThiefElsewhere(c: Cpu, v: Cpu, c': Cpu, v': Cpu, vi: nat, w: Cpu, wi: nat)
    requires CpuOk(c) && CpuOk(v) && CpuOk(w) && Other(c, v, c', v', vi) && vi != wi && |c'.ring| == 256
    ensures ThiefOk(c', w, wi)
  {
  }

  // ---------------------------------------------------------------- the whole system

  ghost predicate AllRings(cpus: seq<Cpu>) {
    forall c | 0 <= c < |cpus| :: |cpus[c].ring| == 256
  }

  /** How often thread x is with any CPU. */
  ghost function Total(cpus: seq<Cpu>, x: Thread): nat
    requires AllRings(cpus)
  {
    if cpus == [] then 0 else Total(cpus[..|cpus| - 1], x) + Held(cpus[|cpus| - 1], x)
  }

  lemma {:induction false} TotalUpdate(cpus: seq<Cpu>, i: nat, c: Cpu, x: Thread)
    requires AllRings(cpus) && i < |cpus| && |c.ring| == 256
    ensures AllRings(cpus[i := c]) && Total(cpus[i := c], x) + Held(cpus[i], x) == Total(cpus, x) + Held(c, x)
  {
    var n := |cpus| - 1;
    if i == n {
      assert cpus[i := c][..n] == cpus[..n];
    } else {
      assert cpus[i := c][..n] == cpus[..n][i := c];
      TotalUpdate(cpus[..n], i, c, x);
    }
  }

  ghost predicate PairOk(cpus: seq<Cpu>, c: nat, v: nat)
    requires AllRings(cpus) && c < |cpus| && v < |cpus|
  {
    c != v ==> ThiefOk(cpus[c], cpus[v], v)
  }

  ghost predicate CpusOk(cpus: seq<Cpu>) {
    && AllRings(cpus)
    && (forall c {:trigger CpuOk(cpus[c])} | 0 <= c < |cpus| :: CpuOk(cpus[c]))
    && (forall c: nat, v: nat {:trigger PairOk(cpus, c, v)} | c < |cpus| && v < |cpus| :: PairOk(cpus, c, v))
  }

  /** The lock is held by the CPU that is inside global_run_queue_get. */
  ghost predicate LockOk(s: State) {
    forall c | 0 <= c < |s.cpus| :: s.cpus[c].first.Some? <==> s.g.lock == Some(c)
  }

  /** Every thread that came is with some CPU, on the global list, or has been handed out, as often as it came. */
  ghost predicate ConservedFor(s: State, x: Thread)
    requires AllRings(s.cpus)
  {
    s.g.entered[x] == s.g.left[x] + multiset(s.g.list)[x] + Total(s.cpus, x)
  }

  ghost predicate Inv(s: State) {
    && |s.cpus| > 0 && CpusOk(s.cpus) && LockOk(s) && s.g.size == |s.g.list|
    && forall x {:trigger ConservedFor(s, x)} :: ConservedFor(s, x)
  }

  lemma {:induction false} NothingHeld(cpus: seq<Cpu>, x: Thread)
    requires forall c | 0 <= c < |cpus| ::
             cpus[c] == Cpu(0, 0, cpus[c].ring, None, Idle, [], None)
             && |cpus[c].ring| == 256
    ensures Total(cpus, x) == 0
  {
    if cpus != [] {
      NothingHeld(cpus[..|cpus| - 1], x);
    }
  }

  lemma InitInv(s: State)
    requires Init(s)
    ensures Inv(s)
  {
    forall x
      ensures ConservedFor(s, x)
    {
      NothingHeld(s.cpus, x);
    }
    forall c: nat, v: nat | c < |s.cpus| && v < |s.cpus|
      ensures PairOk(s.cpus, c, v)
    {
    }
  }

  lemma OwnStepInv(s: State, s': State, i: nat, inn: Option<Thread>, out: Option<Thread>)
    requires Inv(s) && i < |s.cpus| == |s'.cpus| && s'.cpus == s.cpus[i := s'.cpus[i]] && OwnStep(s, s', i, inn, out)
    ensures Inv(s')
  {
    var c, c' := s.cpus[i], s'.cpus[i];
    assert CpuOk(c);
    OwnKeepsOk(c, c', inn, out);
    OwnCpus(s.cpus, i, c', inn, out);
    OwnFirst(c, c', inn, out);
    forall x
      ensures ConservedFor(s', x)
    {
      assert ConservedFor(s, x);
      OwnConserves(c, c', inn, out, x);
      OneConserves(s, s', i, c', inn, out, x);
    }
  }

  /** If one CPU neither loses nor copies anything, nor does the system. */
  lemma OneConserves(s: State, s': State, i: nat, c': Cpu, inn: Option<Thread>, out: Option<Thread>, x: Thread)
    requires AllRings(s.cpus) && ConservedFor(s, x) && i < |s.cpus| && s'.cpus == s.cpus[i := c'] && |c'.ring| == 256
    requires s'.g == s.g.(entered := s.g.entered + Opt(inn), left := s.g.left + Opt(out))
    requires Held(c', x) + Some1(out, x) == Held(s.cpus[i], x) + Some1(inn, x)
    ensures AllRings(s'.cpus) && ConservedFor(s', x)
  {
    TotalUpdate(s.cpus, i, c', x);
  }

  lemma OwnCpus(cpus: seq<Cpu>, i: nat, c': Cpu, inn: Option<Thread>, out: Option<Thread>)
    requires CpusOk(cpus) && i < |cpus| && Own(cpus[i], c', inn, out) && CpuOk(c')
    ensures CpusOk(cpus[i := c'])
  {
    var cpus' := cpus[i := c'];
    forall j: nat, v: nat {:trigger PairOk(cpus', j, v)} | j < |cpus| && v < |cpus|
      ensures PairOk(cpus', j, v)
    {
      assert PairOk(cpus, j, v) && CpuOk(cpus[j]) && CpuOk(cpus[v]);
      if j == i != v {
        OwnKeepsThief(cpus[i], c', cpus[v], v, inn, out);
      } else if v == i != j {
        OwnUnderThief(cpus[j], cpus[i], c', i, inn, out);
      }
    }
  }

  lemma OwnFirst(c: Cpu, c': Cpu, inn: Option<Thread>, out: Option<Thread>)
    requires CpuOk(c) && Own(c, c', inn, out)
    ensures c'.first == c.first
  {
  }

  lemma OtherStepInv(s: State, s': State, i: nat, v: nat)
    requires Inv(s) && i < |s.cpus| && v < |s.cpus| && i != v && Step(s, s', i, v)
    ensures Inv(s')
  {
    var c, d, c', d' := s.cpus[i], s.cpus[v], s'.cpus[i], s'.cpus[v];
    assert CpuOk(c) && CpuOk(d) && PairOk(s.cpus, i, v);
    OtherRobs(c, d, c', d', v);
    OtherKeepsOk(c, d, c', d', v);
    RobbedOk(d, d');
    OtherPairs(s, s', i, v);
    forall x
      ensures ConservedFor(s', x)
    {
      assert ConservedFor(s, x);
      OtherConserves(c, d, c', d', v, x);
      TotalUpdate(s.cpus, i, c', x);
      TotalUpdate(s.cpus[i := c'], v, d', x);
    }
  }

  lemma OtherPairs(s: State, s': State, i: nat, v: nat)
    requires Inv(s) && i < |s.cpus| && v < |s.cpus| && i != v && Step(s, s', i, v)
    requires CpuOk(s'.cpus[i]) && CpuOk(s'.cpus[v]) && Robbed(s.cpus[v], s'.cpus[v])
             && s'.cpus[i] == s.cpus[i].(pc := s'.cpus[i].pc)
    ensures CpusOk(s'.cpus)
  {
    forall j: nat | j < |s'.cpus|
      ensures CpuOk(s'.cpus[j])
    {
      assert CpuOk(s.cpus[j]);
    }
    forall j: nat, w: nat | j < |s'.cpus| && w < |s'.cpus|
      ensures PairOk(s'.cpus, j, w)
    {
      if j == i && w != i {
        ThiefPair(s, s', i, v, w);
      } else if j != i && j != w {
        WitnessPair(s.cpus, s'.cpus, j, w);
      }
    }
  }

  lemma ThiefPair(s: State, s': State, i: nat, v: nat, w: nat)
    requires CpusOk(s.cpus) && i < |s.cpus| && v < |s.cpus| && w < |s.cpus| && i != v && i != w && Step(s, s', i, v)
    requires AllRings(s'.cpus) && CpuOk(s'.cpus[i]) && CpuOk(s'.cpus[v])
    ensures PairOk(s'.cpus, i, w)
  {
    assert PairOk(s.cpus, i, w) && CpuOk(s.cpus[i]) && CpuOk(s.cpus[v]) && CpuOk(s.cpus[w]);
    if w == v {
      OtherKeepsThief(s.cpus[i], s.cpus[v], s'.cpus[i], s'.cpus[v], v);
    } else {
      ThiefElsewhere(s.cpus[i], s.cpus[v], s'.cpus[i], s'.cpus[v], v, s.cpus[w], w);
    }
  }

  /** A thief that does not move, while its victim loses at most what is before or at its head. */
  lemma WitnessPair(cpus: seq<Cpu>, cpus': seq<Cpu>, j: nat, w: nat)
    requires CpusOk(cpus) && AllRings(cpus') && j < |cpus| == |cpus'| && w < |cpus| && j != w
    requires cpus'[j].ring == cpus[j].ring && cpus'[j].tail == cpus[j].tail && cpus'[j].pc == cpus[j].pc
    requires cpus'[w].ring == cpus[w].ring && cpus'[w].tail == cpus[w].tail && cpus'[w].head >= cpus[w].head
    ensures PairOk(cpus', j, w)
  {
    assert PairOk(cpus, j, w) && CpuOk(cpus[j]) && CpuOk(cpus[w]);
    ThiefUnder(cpus[j], cpus[w], cpus'[w], w);
    ThiefSame(cpus[j], cpus'[j], cpus'[w], w);
  }

  lemma SharedStepInv(s: State, s': State, i: nat)
    requires Inv(s) && i < |s.cpus| == |s'.cpus| && s'.cpus == s.cpus[i := s'.cpus[i]]
    requires Shared(s.cpus[i], s.g, s'.cpus[i], s'.g, i, |s.cpus|)
    ensures Inv(s')
  {
    var c, c' := s.cpus[i], s'.cpus[i];
    assert CpuOk(c);
    SharedOk(c, s.g, c', s'.g, i, |s.cpus|);
    SharedCpus(s.cpus, i, c');
    forall x
      ensures ConservedFor(s', x)
    {
      assert ConservedFor(s, x);
      SharedConserves(s.cpus[i], s.g, c', s'.g, i, |s.cpus|, x);
      TotalUpdate(s.cpus, i, c', x);
    }
  }

  lemma SharedOk(c: Cpu, g: Global, c': Cpu, g': Global, ci: nat, cpus: nat)
    requires CpuOk(c) && cpus > 0 && Shared(c, g, c', g', ci, cpus) && g.size == |g.list|
    ensures CpuOk(c') && c'.pc == Idle && c' == c.(pc := Idle, todo := c'.todo, first := c'.first)
            && g'.size == |g'.list|
  {
  }

  lemma SharedCpus(cpus: seq<Cpu>, i: nat, c': Cpu)
    requires CpusOk(cpus) && i < |cpus| && CpuOk(c') && c' == cpus[i].(pc := Idle, todo := c'.todo, first := c'.first)
    ensures CpusOk(cpus[i := c'])
  {
    var cpus' := cpus[i := c'];
    forall j: nat, v: nat {:trigger PairOk(cpus', j, v)} | j < |cpus| && v < |cpus|
      ensures PairOk(cpus', j, v)
    {
      if j != i && j != v {
        WitnessPair(cpus, cpus', j, v);
      }
    }
  }

  lemma SharedConserves(c: Cpu, g: Global, c': Cpu, g': Global, ci: nat, cpus: nat, x: Thread)
    requires CpuOk(c) && cpus > 0 && Shared(c, g, c', g', ci, cpus) && |c'.ring| == 256
    ensures Held(c', x) + multiset(g'.list)[x] + g'.left[x] == Held(c, x) + multiset(g.list)[x] + g.left[x]
    ensures g'.entered == g.entered
  {
    if c.pc.Idle? && c.first == None {
      var max: int :| TakeShare(c, g, c', g', ci, Share(g.size, cpus, max));
      TakeConserves(c, g, c', g', ci, Share(g.size, cpus, max), x);
    }
  }

  lemma TakeConserves(c: Cpu, g: Global, c': Cpu, g': Global, ci: nat, n: nat, x: Thread)
    requires |c.ring| == 256 && c.todo == [] && c.first == None && c.pc == Idle && TakeShare(c, g, c', g', ci, n)
    ensures Held(c', x) + multiset(g'.list)[x] == Held(c, x) + multiset(g.list)[x]
  {
    assert g.list == [g.list[0]] + g.list[1..n] + g.list[n..];
    assert multiset(g.list)[x] == One(g.list[0], x) + multiset(g.list[1..n])[x] + multiset(g.list[n..])[x];
  }

  // ---------------------------------------------------------------- results

  lemma NextInv(s: State, s': State)
    requires Inv(s) && Next(s, s')
    ensures Inv(s')
  {
    var i: nat, v: nat :| i < |s.cpus| && v < |s.cpus| && Step(s, s', i, v);
    if i != v {
      OtherStepInv(s, s', i, v);
    } else if exists inn, out :: OwnStep(s, s', i, inn, out) {
      var inn, out :| OwnStep(s, s', i, inn, out);
      OwnStepInv(s, s', i, inn, out);
    } else {
      SharedStepInv(s, s', i);
    }
  }

  lemma {:induction false} RunInv(run: seq<State>, i: nat)
    requires Run(run) && i < |run|
    ensures Inv(run[i])
  {
    if i == 0 {
      InitInv(run[0]);
    } else {
      RunInv(run, i - 1);
      assert Next(run[i - 1], run[i - 1 + 1]);
      NextInv(run[i - 1], run[i]);
    }
  }

  /**
   Nothing is lost and nothing is duplicated, in any run with any number of CPUs, owners and thieves:
   a thread has been handed out, is on the global list or is with one of the CPUs, exactly as often
   as it was put; and no ring ever holds more threads than it has slots.
  */
  lemma ThreadsConserved(run: seq<State>, i: nat, x: Thread)
    requires Run(run) && i < |run|
    ensures var s := run[i];
            && AllRings(s.cpus) && s.g.entered[x] == s.g.left[x] + multiset(s.g.list)[x] + Total(s.cpus, x)
            && forall c | 0 <= c < |s.cpus| :: 0 <= s.cpus[c].tail - s.cpus[c].head <= 256
  {
    RunInv(run, i);
    assert ConservedFor(run[i], x);
    forall c | 0 <= c < |run[i].cpus|
      ensures 0 <= run[i].cpus[c].tail - run[i].cpus[c].head <= 256
    {
      assert CpuOk(run[i].cpus[c]);
    }
  }

  /** A thread put once is handed to at most one CPU, and then it is nowhere else. */
  lemma DeliveredOnce(run: seq<State>, i: nat, x: Thread)
    requires Run(run) && i < |run| && run[i].g.entered[x] == 1
    ensures run[i].g.left[x] <= 1
    ensures run[i].g.left[x] == 1 ==>
            x !in run[i].g.list && AllRings(run[i].cpus)
            && forall c | 0 <= c < |run[i].cpus| :: Held(run[i].cpus[c], x) == 0
  {
    ThreadsConserved(run, i, x);
    var s := run[i];
    if s.g.left[x] == 1 {
      forall c | 0 <= c < |s.cpus|
        ensures Held(s.cpus[c], x) == 0
      {
        HeldInTotal(s.cpus, c, x);
      }
      assert multiset(s.g.list)[x] == 0;
      assert x !in multiset(s.g.list);
    }
  }

  lemma {:induction false} HeldInTotal(cpus: seq<Cpu>, c: nat, x: Thread)
    requires AllRings(cpus) && c < |cpus|
    ensures Held(cpus[c], x) <= Total(cpus, x)
  {
    if c < |cpus| - 1 {
      HeldInTotal(cpus[..|cpus| - 1], c, x);
    }
  }

  /** The assertion in run_queue_steal: what was stolen fits. And a spill always takes half of a full ring. */
  lemma RoomForStolen(run: seq<State>, i: nat, c: nat)
    requires Run(run) && i < |run| && c < |run[i].cpus|
    ensures var q := run[i].cpus[c];
            && (q.pc.StealHead? ==> q.tail - q.head + q.pc.n < 256)
            && (q.pc.SlowList? ==> |q.pc.batch| == 128)
  {
    RunInv(run, i);
    assert CpuOk(run[i].cpus[c]);
  }

  /**
   global_run_queue_get puts threads while it holds the scheduler lock; none of these puts takes the path that
   needs the lock.
  */
  lemma NoSelfDeadlock(run: seq<State>, i: nat, c: nat)
    requires Run(run) && i < |run| && c < |run[i].cpus| && run[i].g.lock == Some(c)
    ensures var pc := run[i].cpus[c].pc; !pc.SlowCopy? && !pc.SlowCas? && !pc.SlowList?
  {
    RunInv(run, i);
    assert CpuOk(run[i].cpus[c]);
  }

  /** run_queue_get reports an empty ring only when the ring is empty at that very moment. */
  lemma GetFindsEmpty(run: seq<State>, i: nat, c: nat)
    requires Run(run) && i < |run| && c < |run[i].cpus|
    ensures var q := run[i].cpus[c]; q.pc.GetTail? && q.tail == q.pc.h ==> q.head == q.tail
  {
    RunInv(run, i);
    assert CpuOk(run[i].cpus[c]);
  }

  /**
   When run_queue_empty says that the queue of another CPU is empty, there was a moment, between its
   reads, at which both the ring and next were.
  */
  lemma EmptyWasEmpty(run: seq<State>, i: nat, c: nat, v: nat)
    requires Run(run) && i < |run| && c < |run[i].cpus| && v < |run[i].cpus| && c != v
    ensures var pc := run[i].cpus[c].pc;
            pc.ProbeCheck? && pc.v == v && run[i].cpus[v].tail == pc.tl && pc.h == pc.tl && pc.isNull ==> pc.empty
  {
    RunInv(run, i);
    assert PairOk(run[i].cpus, c, v);
  }

  /** The same of a CPU that asks about its own queue; and it never has to ask twice. */
  lemma SelfWasEmpty(run: seq<State>, i: nat, c: nat)
    requires Run(run) && i < |run| && c < |run[i].cpus|
    ensures var pc := run[i].cpus[c].pc;
            pc.SelfCheck? ==> run[i].cpus[c].tail == pc.tl && (pc.h == pc.tl && pc.isNull ==> pc.empty)
  {
    RunInv(run, i);
    assert CpuOk(run[i].cpus[c]);
  }

  /**
   A thief that wins the race for the head has exactly the threads it takes: the slots it copied were never
   overwritten.
  */
  lemma CopiesAreGood(run: seq<State>, i: nat, c: nat, v: nat, j: nat)
    requires Run(run) && i < |run| && c < |run[i].cpus| && v < |run[i].cpus| && c != v
    requires var pc := run[i].cpus[c].pc; pc.GrabCas? && pc.v == v && run[i].cpus[v].head == pc.h && j < pc.n
    ensures |run[i].cpus[c].ring| == 256 && |run[i].cpus[v].ring| == 256
    ensures run[i].cpus[v].head + j < run[i].cpus[v].tail
    ensures Slot(run[i].cpus[c], run[i].cpus[c].tail + j) == Slot(run[i].cpus[v], run[i].cpus[v].head + j)
  {
    RunInv(run, i);
    var p, q := run[i].cpus[c], run[i].cpus[v];
    assert PairOk(run[i].cpus, c, v);
    assert Same(p.ring, p.tail, q.ring, q.head, j);
  }
}
