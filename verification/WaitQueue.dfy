/** The doubly linked queues of kernel/thread/waitable.c, relinked in place. */
module WaitQueue {

  /** The part of a thread that wakers compete for. */
  class Thread {
    var selectDone: bool
  }

  /** A waiting-thread descriptor. */
  class WaitingThread {
    var next: WaitingThread?
    var prev: WaitingThread?
    const thread: Thread
    const isSelect: bool

    constructor (thread: Thread, isSelect: bool)
      ensures this.thread == thread && this.isSelect == isSelect && Unlinked()
    {
      this.thread, this.isSelect := thread, isSelect;
      next, prev := null, null;
    }

    /** Not a member of any queue, as far as its own links tell. */
    predicate Unlinked()
      reads this
    {
      next == null && prev == null
    }

    /** Its thread has already been chosen through another descriptor. */
    predicate Stale()
      reads this, thread
    {
      isSelect && thread.selectDone
    }
  }

  class Queue {
    var first: WaitingThread?
    var last: WaitingThread?
    ghost var Contents: seq<WaitingThread>

    constructor ()
      ensures Valid() && Contents == []
    {
      first, last := null, null;
      Contents := [];
    }

    ghost predicate Valid()
      reads this, Contents
    {
      && Distinct(Contents)
      && (forall i {:trigger Linked(Contents, i)} | 0 <= i < |Contents| :: Linked(Contents, i))
      && first == (if Contents == [] then null else Contents[0])
      && last == (if Contents == [] then null else Contents[|Contents| - 1])
    }

    static predicate Distinct(q: seq<WaitingThread>) {
      forall i, j | 0 <= i < j < |q| :: q[i] != q[j]
    }

    /** The links of the i-th member. */
    static ghost predicate Linked(q: seq<WaitingThread>, i: int)
      requires 0 <= i < |q|
      reads q
    {
      && q[i].next == (if i + 1 < |q| then q[i + 1] else null)
      && q[i].prev == (if i > 0 then q[i - 1] else null)
    }

    /** wait_queue_enqueue */
    method Enqueue(wt: WaitingThread)
      requires Valid() && wt !in Contents
      modifies this, wt, Contents
      ensures Valid() && Contents == old(Contents) + [wt]
    {
      ghost var q := Contents;
      assert q != [] ==> Linked(q, |q| - 1);
      wt.next := null;
      var x := last;
      if x == null {
        wt.prev := null;
        first := wt;
        last := wt;
      } else {
        wt.prev := x;
        x.next := wt;
        last := wt;
      }
      Contents := Contents + [wt];
      forall i | 0 <= i < |Contents|
        ensures Linked(Contents, i)
      {
        if i < |q| {
          assert old(Linked(q, i)) && q[i] != wt;
          assert i < |q| - 1 ==> q[i] != q[|q| - 1];
        }
      }
    }

    /**
     wait_queue_dequeue: passes over the k descriptors whose threads have been chosen elsewhere, and
     takes the next one, if there is one, choosing its thread if it belongs to a select.
    */
    method Dequeue() returns (wt: WaitingThread?, ghost k: nat)
      requires Valid()
      modifies this, Contents, set x | x in Contents :: x.thread
      ensures Valid() && k <= |old(Contents)|
      ensures forall i | 0 <= i < k :: old(Contents[i].Stale()) && old(Contents)[i].Unlinked()
      ensures k == |old(Contents)| ==> wt == null && Contents == []
      ensures k < |old(Contents)| ==>
              !old(Contents[k].Stale()) && wt == old(Contents)[k]
              && Contents == old(Contents)[k + 1..]
      ensures k < |old(Contents)| ==> wt.Unlinked() && (wt.isSelect ==> wt.thread.selectDone)
      ensures forall x | x in old(Contents) && (k == |old(Contents)| || !wt.isSelect || x.thread != wt.thread) ::
                x.thread.selectDone == old(x.thread.selectDone)
    {
      ghost var q := Contents;
      k := 0;
      while true
        invariant 0 <= k <= |q| && Valid() && Contents == q[k..]
        invariant forall x | x in q :: x.thread.selectDone == old(x.thread.selectDone)
        invariant forall i | 0 <= i < k :: old(q[i].Stale()) && q[i].Unlinked()
        decreases |q| - k
      {
        wt := first;
        if wt == null {
          return;
        }
        assert wt == q[k] && forall i | 0 <= i < k :: q[i] !in q[k..];
        PopFirst();
        if wt.isSelect && wt.thread.selectDone {
          k := k + 1;
          continue;
        }
        if wt.isSelect {
          wt.thread.selectDone := true;
        }
        return;
      }
    }

    /** The part of wait_queue_dequeue that unlinks the first descriptor. */
    method PopFirst()
      requires Valid() && Contents != []
      modifies this, Contents
      ensures Valid() && Contents == old(Contents)[1..] && old(Contents)[0].Unlinked()
    {
      ghost var q := Contents;
      assert Linked(q, 0);
      var wt := first;
      var y := wt.next;
      if y == null {
        first := null;
        last := null;
      } else {
        assert Linked(q, 1) && y == q[1];
        y.prev := null;
        first := y;
        wt.next := null;
      }
      Contents := Contents[1..];
      forall i | 0 <= i < |Contents|
        ensures Linked(Contents, i)
      {
        assert old(Linked(q, i + 1)) && q[0] != q[i + 1];
        assert i > 0 ==> q[1] != q[i + 1];
      }
    }

    /** wait_queue_dequeue_wt: takes out a descriptor from any position, or one that is already out. */
    method DequeueWt(wt: WaitingThread)
      requires Valid() && (wt in Contents || wt.Unlinked())
      modifies this, wt, Contents
      ensures Valid() && wt.Unlinked() && wt !in Contents
      ensures wt !in old(Contents) ==> Contents == old(Contents)
      ensures forall k | 0 <= k < |old(Contents)| && old(Contents)[k] == wt ::
              Contents == old(Contents)[..k]
              + old(Contents)[k + 1..]
    {
      ghost var k := |Contents|;
      if wt in Contents {
        k :| 0 <= k < |Contents| && Contents[k] == wt;
      }
      Unlink(wt, k);
    }

    /** The body of wait_queue_dequeue_wt, for the descriptor at position k or for none. */
    method Unlink(wt: WaitingThread, ghost k: nat)
      requires Valid()
      requires if k < |Contents| then Contents[k] == wt else wt !in Contents && wt.Unlinked() && k == |Contents|
      modifies this, wt, Contents
      ensures Valid() && wt.Unlinked() && wt !in Contents
      ensures Contents == if k < |old(Contents)| then old(Contents)[..k] + old(Contents)[k + 1..] else old(Contents)
    {
      var x := wt.prev;
      var y := wt.next;
      ghost var q := Contents;
      if k < |q| {
        assert Linked(q, k);
        assert k > 0 ==> Linked(q, k - 1);
        assert k + 1 < |q| ==> Linked(q, k + 1);
      }
      if x != null {
        if y != null {
          x.next := y;
          y.prev := x;
          wt.next := null;
          wt.prev := null;
        } else {
          x.next := null;
          last := x;
          wt.prev := null;
        }
      } else if y != null {
        y.prev := null;
        first := y;
        wt.next := null;
      } else if first == wt {
        first := null;
        last := null;
      }
      if k < |Contents| {
        Contents := Contents[..k] + Contents[k + 1..];
      }
      forall i | 0 <= i < |Contents|
        ensures Linked(Contents, i)
      {
        if k < |q| {
          var j := if i < k then i else i + 1;
          assert Contents[i] == q[j] && old(Linked(q, j));
          assert j != k && (k > 0 && j != k - 1 ==> q[j] != q[k - 1])
                 && (k + 1 < |q| && j != k + 1 ==> q[j] != q[k + 1]);
        } else {
          assert old(Linked(q, i));
        }
      }
    }
  }
}
