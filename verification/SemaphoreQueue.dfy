/**
 The waiters list of kernel/sync/semaphore.c: descriptors chained through wait_link, the first
 one remembering the last in wait_tail.
*/
module SemaphoreQueue {

  /** The part of a waiting-thread descriptor that the semaphore uses. */
  class WaitingThread {
    var ticket: nat
    var waitLink: WaitingThread?
    var waitTail: WaitingThread?

    constructor ()
      ensures Fresh()
    {
      ticket, waitLink, waitTail := 0, null, null;
    }

    /** As it comes from the descriptor pool, and as Dequeue leaves it. */
    ghost predicate Fresh()
      reads this
    {
      ticket == 0 && waitLink == null && waitTail == null
    }
  }

  /** What follows position i, if anything. */
  function After(s: seq<WaitingThread>, i: nat): (w: WaitingThread?)
    requires i < |s|
  {
    if i + 1 < |s| then s[i + 1] else null
  }

  class WaitList {
    var waiters: WaitingThread?
    ghost var Contents: seq<WaitingThread>

    ghost predicate Valid()
      reads this, Contents
    {
      && (forall i, j | 0 <= i < j < |Contents| :: Contents[i] != Contents[j])
      && waiters == (if Contents == [] then null else Contents[0])
      && (forall i | 0 <= i < |Contents| :: Contents[i].ticket == 0)
      && (forall i | 0 <= i < |Contents| :: Contents[i].waitLink == After(Contents, i))
      && (Contents != [] ==>
            Contents[0].waitTail == if |Contents| == 1 then null else Contents[|Contents| - 1])
    }

    constructor ()
      ensures Valid() && Contents == []
    {
      waiters, Contents := null, [];
    }

    /** semaphore_queue */
    method Queue(wt: WaitingThread, lifo: bool)
      requires Valid() && wt !in Contents && wt.Fresh()
      modifies this, Contents, wt
      ensures Valid()
      ensures Contents == if lifo then [wt] + old(Contents) else old(Contents) + [wt]
    {
      if waiters == null {
        waiters := wt;
        Contents := [wt];
      } else if lifo {
        QueueFront(wt);
      } else {
        QueueBack(wt);
      }
    }

    /** Put wt in the place of the first waiter. */
    method QueueFront(wt: WaitingThread)
      requires Valid() && Contents != [] && wt !in Contents && wt.Fresh()
      modifies this, Contents, wt
      ensures Valid() && Contents == [wt] + old(Contents)
    {
      var t := waiters;
      waiters := wt;
      wt.ticket := t.ticket;
      wt.waitLink := t;
      wt.waitTail := t.waitTail;
      if wt.waitTail == null {
        wt.waitTail := t;
      }
      t.waitTail := null;
      ghost var before := Contents;
      Contents := [wt] + before;
      assert forall i | 0 < i < |Contents| :: Contents[i] == before[i - 1];
    }

    /** Put wt behind the last waiter. */
    method QueueBack(wt: WaitingThread)
      requires Valid() && Contents != [] && wt !in Contents && wt.Fresh()
      modifies this, Contents, wt
      ensures Valid() && Contents == old(Contents) + [wt]
    {
      var t := waiters;
      ghost var before := Contents;
      if t.waitTail == null {
        t.waitLink := wt;
      } else {
        t.waitTail.waitLink := wt;
      }
      t.waitTail := wt;
      wt.waitLink := null;
      Contents := before + [wt];
      assert forall i | 0 <= i < |before| :: Contents[i] == before[i];
    }

    /** semaphore_dequeue */
    method Dequeue() returns (wt: WaitingThread?)
      requires Valid()
      modifies this, Contents
      ensures Valid()
      ensures old(Contents) == [] ==> wt == null && Contents == []
      ensures old(Contents) != [] ==> wt == old(Contents)[0] && wt.Fresh() && Contents == old(Contents)[1..]
    {
      wt := waiters;
      if wt == null {
        return;
      }
      assert wt == Contents[0] && wt.waitLink == After(Contents, 0);
      if |Contents| > 1 {
        assert Contents[1].waitLink == After(Contents, 1);
      }
      if wt.waitLink != null {
        // put the next one in wt's place
        var t := wt.waitLink;
        waiters := t;
        t.ticket := wt.ticket;
        if t.waitLink != null {
          t.waitTail := wt.waitTail;
        } else {
          t.waitTail := null;
        }
        wt.waitLink := null;
        wt.waitTail := null;
      } else {
        waiters := null;
      }
      wt.ticket := 0;
      ghost var before := Contents;
      Contents := before[1..];
      assert forall i | 0 <= i < |Contents| :: Contents[i] == before[i + 1];
    }
  }
}
