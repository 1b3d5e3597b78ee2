/**
 The operations on a run queue of kernel/thread/scheduler.c in the program's own terms: an array of
 256 slots changed in place and 32-bit counters that wrap around. Here an operation runs without
 interference, which shows what the interleavings of RunQueueProtocol leave open: the order.
*/
module RunQueueArray {

  import opened RunQueueProtocol

  const WORD := 0x1_0000_0000

  /** Addition of 32-bit numbers. */
  function Add32(x: nat, n: nat): (r: nat)
    requires x < WORD && n < WORD
    ensures r < WORD && r % 256 == (x + n) % 256
  {
    if x + n < WORD then x + n else x + n - WORD
  }

  /** Subtraction of 32-bit numbers. */
  function Sub32(x: nat, y: nat): (r: nat)
    requires x < WORD && y < WORD
    ensures r < WORD && Add32(y, r) == x
  {
    if x >= y then x - y else x + WORD - y
  }

  /** The slot of the i-th position from a. */
  function At(a: nat, i: nat): nat {
    (a + i) % 256
  }

  /** Positions less than 256 apart have different slots, also across the wrap-around. */
  lemma SlotsDiffer(a: nat, b: nat)
    requires a < WORD && b < WORD && Sub32(b, a) < 256
    ensures b % 256 == At(a, Sub32(b, a))
    ensures forall i | 0 <= i < Sub32(b, a) :: At(a, i) != b % 256
  {
  }

  lemma MovedOn(tail: nat, head: nat, n: nat)
    requires tail < WORD && head < WORD && n <= Sub32(tail, head) <= 256
    ensures Sub32(tail, Add32(head, n)) == Sub32(tail, head) - n
    ensures forall i: nat :: At(Add32(head, n), i) == At(head, n + i)
  {
  }

  /** The global list and its size; the caller holds the scheduler lock. */
  class GlobalRunQueue {
    var list: seq<Thread>
    var size: int

    ghost predicate Valid()
      reads this
    {
      size == |list|
    }

    method PutBatch(batch: seq<Thread>, n: int)
      requires Valid() && n == |batch|
      modifies this
      ensures Valid() && list == old(list) + batch
    {
      list := list + batch;
      size := size + n;
    }

    method Pop() returns (t: Thread)
      requires list != []
      modifies `list
      ensures t == old(list)[0] && list == old(list)[1..]
    {
      t := list[0];
      list := list[1..];
    }

    /**
     global_run_queue_get, called for a single thread or when the CPU's own ring is at most half full.
     The CPU gets its share from the front of the list; the first thread is returned and the others are
     put behind those in the ring, in order.
    */
    method Get(max: int, cpus: nat, own: LocalRunQueue) returns (t: Option<Thread>)
      requires Valid() && cpus > 0 && own.Valid() && (max == 1 || |own.Contents()| <= 128)
      modifies this, own, own.queue
      ensures Valid() && own.Valid() && own.next == old(own.next)
      ensures t == None <==> old(list) == []
      ensures t == None ==> list == old(list) && own.Contents() == old(own.Contents())
      ensures var before := |old(own.Contents())|;
              && |own.Contents()| >= before && own.Contents()[..before] == old(own.Contents())
              && (t.Some? ==> old(list) == [t.value] + own.Contents()[before..] + list)
              && (t.Some? ==> IsShare(|old(list)|, cpus, max, 1 + |own.Contents()| - before))
    {
      if size == 0 {
        return None;
      }
      ghost var was, had := list, own.Contents();
      var n := Share(size, cpus, max);
      size := size - n;
      var first := Pop();
      PutRest(n - 1, own);
      assert own.Contents()[|had|..] == was[1..n] && own.Contents()[..|had|] == had;
      assert was == [was[0]] + was[1..n] + was[n..];
      return Some(first);
    }

    /** The loop that puts the first n threads of the list. */
    method PutRest(count: nat, own: LocalRunQueue)
      requires count <= |list| && own.Valid() && |own.Contents()| + count <= 256
      modifies `list, own, own.queue
      ensures own.Valid() && own.next == old(own.next)
      ensures list == old(list)[count..] && own.Contents() == old(own.Contents()) + old(list)[..count]
    {
      ghost var was, had := list, own.Contents();
      var n := count;
      while n > 0
        invariant 0 <= n <= count && list == was[count - n..]
        invariant own.Valid() && own.next == old(own.next) && own.Contents() == had + was[..count - n]
      {
        var t := Pop();
        var done := own.PutFast(t);
        assert was[..count - n + 1] == was[..count - n] + [was[count - n]];
        n := n - 1;
      }
    }
  }

  class LocalRunQueue {
    var head: nat
    var tail: nat
    const queue: array<Thread>
    var next: Option<Thread>

    constructor ()
      ensures Valid() && Contents() == [] && next == None && fresh(queue)
    {
      head, tail, next := 0, 0, None;
      queue := new Thread[256];
    }

    ghost predicate Valid()
      reads this
    {
      queue.Length == 256 && head < WORD && tail < WORD && Sub32(tail, head) <= 256
    }

    /** The threads in the ring, from head to tail. */
    ghost function Contents(): (s: seq<Thread>)
      requires Valid()
      reads this, queue
      ensures |s| == Sub32(tail, head)
    {
      seq(Sub32(tail, head), i requires 0 <= i < 256 reads this, queue => queue[At(head, i)])
    }

    /** The compare-and-swap that moves head past n threads. */
    method Advance(n: nat)
      requires Valid() && n <= |Contents()|
      modifies `head
      ensures Valid() && Contents() == old(Contents())[n..]
    {
      ghost var was := Contents();
      MovedOn(tail, head, n);
      head := Add32(head, n);
      forall i | 0 <= i < |was| - n
        ensures Contents()[i] == was[n + i]
      {
        assert At(head, i) == At(old(head), n + i);
      }
      assert Contents() == was[n..];
    }

    /** The fast path of run_queue_put. */
    method PutFast(t: Thread) returns (done: bool)
      requires Valid()
      modifies `tail, queue
      ensures Valid() && done == (|old(Contents())| < 256)
      ensures Contents() == if done then old(Contents()) + [t] else old(Contents())
    {
      done := Sub32(tail, head) < 256;
      if done {
        ghost var was := Contents();
        SlotsDiffer(head, tail);
        queue[tail % 256] := t;
        assert forall i | 0 <= i < |was| :: queue[At(head, i)] == was[i];
        tail := Add32(tail, 1);
        assert |Contents()| == |was| + 1;
        assert Contents()[|was|] == t;
        assert Contents()[..|was|] == was;
      }
    }

    /** run_queue_put_slow on a full ring: the older half goes to the global list, followed by the new thread. */
    method PutSlow(t: Thread, global: GlobalRunQueue)
      requires Valid() && |Contents()| == 256 && global.Valid()
      modifies `head, global
      ensures Valid() && global.Valid()
      ensures Contents() == old(Contents())[128..]
      ensures global.list == old(global.list) + old(Contents())[..128] + [t]
    {
      ghost var was := Contents();
      var n := Sub32(tail, head) / 2;
      var batch: seq<Thread> := [];
      var i := 0;
      while i < n
        invariant 0 <= i <= n == 128 && Valid() && Contents() == was
        invariant batch == was[..i]
      {
        batch := batch + [queue[Add32(head, i) % 256]];
        assert was[..i + 1] == was[..i] + [was[i]];
        i := i + 1;
      }
      Advance(n);
      global.PutBatch(batch + [t], n + 1);
      assert global.list == old(global.list) + was[..128] + [t];
    }

    /** run_queue_put: a thread to run next displaces the one that was to run next. */
    method Put(thread: Thread, runNext: bool, global: GlobalRunQueue)
      requires Valid() && global.Valid()
      modifies this, queue, global
      ensures Valid() && global.Valid()
      ensures next == if runNext then Some(thread) else old(next)
      ensures runNext && old(next) == None ==> Contents() == old(Contents()) && global.list == old(global.list)
      ensures !runNext || old(next).Some? ==>
                var t, was := if runNext then old(next).value else thread, old(Contents());
                && (|was| < 256 ==> Contents() == was + [t] && global.list == old(global.list))
                && (|was| == 256 ==> Contents() == was[128..] && global.list == old(global.list) + was[..128] + [t])
    {
      var t := thread;
      if runNext {
        var displaced := next;
        next := Some(thread);
        if displaced == None {
          return;
        }
        t := displaced.value;
      }
      var done := PutFast(t);
      if !done {
        PutSlow(t, global);
      }
    }

    /** run_queue_get: the thread to run next, or else the oldest. */
    method Get() returns (t: Option<Thread>)
      requires Valid()
      modifies `head, `next
      ensures Valid() && next == None
      ensures old(next).Some? ==> t == old(next) && Contents() == old(Contents())
      ensures old(next) == None && old(Contents()) != [] ==>
              t == Some(old(Contents())[0])
              && Contents() == old(Contents())[1..]
      ensures t == None <==> old(next) == None && old(Contents()) == []
      ensures t == None ==> Contents() == []
    {
      t := next;
      if t != None {
        next := None;
        return;
      }
      if tail != head {
        ghost var was := Contents();
        t := Some(queue[head % 256]);
        assert was[0] == queue[head % 256];
        Advance(1);
      }
    }

    /** run_queue_grab: copy the older half of another ring, rounded up, beyond our own tail. */
    method Grab(other: LocalRunQueue, stealNext: bool) returns (n: nat)
      requires Valid() && other.Valid() && other != this && queue != other.queue && Contents() == []
      modifies queue, other`head, other`next
      ensures Valid() && other.Valid() && Contents() == []
      ensures var was := old(other.Contents());
              if was != [] then
                && n == Half(|was|) && other.Contents() == was[n..] && other.next == old(other.next)
                && Copied(was, n)
              else
                && other.Contents() == [] && n == (if stealNext && old(other.next).Some? then 1 else 0)
                && other.next == (if n == 1 then None else old(other.next))
                && (n == 1 ==> queue[tail % 256] == old(other.next).value)
    {
      ghost var was := other.Contents();
      n := Sub32(other.tail, other.head);
      n := Half(n);
      if n == 0 {
        if stealNext && other.next != None {
          queue[tail % 256] := other.next.value;
          other.next := None;
          n := 1;
        }
        return;
      }
      assert n <= 256 / 2;
      CopyFrom(other, n);
      other.Advance(n);
    }

    /** The copying loop of run_queue_grab. */
    method CopyFrom(other: LocalRunQueue, n: nat)
      requires Valid() && other.Valid() && queue != other.queue && n <= |other.Contents()| && n <= 128
      modifies queue
      ensures Copied(other.Contents(), n)
    {
      var i := 0;
      while i < n
        invariant 0 <= i <= n
        invariant Copied(other.Contents(), i)
      {
        SlotsDiffer(tail, Add32(tail, i));
        var t := other.queue[Add32(other.head, i) % 256];
        assert t == other.Contents()[i];
        queue[Add32(tail, i) % 256] := t;
        i := i + 1;
      }
    }

    ghost predicate Copied(was: seq<Thread>, n: nat)
      requires queue.Length == 256 && n <= |was|
      reads this, queue
    {
      forall j | 0 <= j < n :: queue[At(tail, j)] == was[j]
    }

    /** run_queue_steal: of the threads grabbed the last is returned and the others are queued, in order. */
    method Steal(other: LocalRunQueue, stealNext: bool) returns (t: Option<Thread>)
      requires Valid() && other.Valid() && other != this && queue != other.queue && Contents() == []
      modifies `tail, queue, other`head, other`next
      ensures Valid() && other.Valid()
      ensures var was := old(other.Contents());
              if was != [] then
                t.Some? && Contents() + [t.value] + other.Contents() == was && |other.Contents()| == |was| / 2
              else
                && Contents() == [] && other.Contents() == []
                && t == (if stealNext then old(other.next) else None)
                && other.next == (if stealNext then None else old(other.next))
    {
      ghost var was := other.Contents();
      var n := Grab(other, stealNext);
      if n == 0 {
        return None;
      }
      n := n - 1;
      var thread := queue[Add32(tail, n) % 256];
      assert was != [] ==> thread == was[n];
      if n == 0 {
        return Some(thread);
      }
      assert Sub32(tail, head) + n < 256;
      tail := Add32(tail, n);
      assert Contents() == was[..n];
      return Some(thread);
    }
  }
}
