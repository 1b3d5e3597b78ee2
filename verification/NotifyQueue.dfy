/**
 The list of kernel/sync/notify_list.c: descriptors chained through next, with a head and a tail that
 are relinked in place. NotifyListProtocol has the same list as a sequence.
*/
module NotifyQueue {

  /** The part of a waiting-thread descriptor that the notify list uses. */
  class WaitingThread {
    var ticket: nat
    var next: WaitingThread?

    constructor (ticket: nat)
      ensures this.ticket == ticket && next == null
    {
      this.ticket, next := ticket, null;
    }
  }

  /** What follows position i, if anything. */
  function After(s: seq<WaitingThread>, i: nat): (w: WaitingThread?)
    requires i < |s|
  {
    if i + 1 < |s| then s[i + 1] else null
  }

  ghost predicate LinkOk(s: seq<WaitingThread>, i: nat)
    requires i < |s|
    reads s
  {
    s[i].next == After(s, i)
  }

  /** The descriptors of s are chained, the last one ending the chain. */
  ghost predicate Chained(s: seq<WaitingThread>)
    reads s
  {
    && (forall i, j | 0 <= i < j < |s| :: s[i] != s[j])
    && forall i {:trigger LinkOk(s, i)} | 0 <= i < |s| :: LinkOk(s, i)
  }

  /** k is the first position with this ticket, or the length if there is none. */
  ghost predicate FirstAt(s: seq<WaitingThread>, ticket: nat, k: nat)
    reads s
  {
    k <= |s| && (forall i | 0 <= i < k :: s[i].ticket != ticket) && (k < |s| ==> s[k].ticket == ticket)
  }

  /** s without its k-th element. */
  function Without(s: seq<WaitingThread>, k: nat): (t: seq<WaitingThread>)
    requires k < |s|
    ensures |t| == |s| - 1 && forall i | 0 <= i < |t| :: t[i] == if i < k then s[i] else s[i + 1]
  {
    s[..k] + s[k + 1..]
  }

  class List {
    var head: WaitingThread?
    var tail: WaitingThread?
    ghost var Contents: seq<WaitingThread>

    ghost predicate Valid()
      reads this, Contents
    {
      && Chained(Contents)
      && head == (if Contents == [] then null else Contents[0])
      && tail == (if Contents == [] then null else Contents[|Contents| - 1])
    }

    constructor ()
      ensures Valid() && Contents == []
    {
      head, tail, Contents := null, null, [];
    }

    /** The enqueueing of notify_list_wait. */
    method Append(wt: WaitingThread)
      requires Valid() && wt !in Contents && wt.next == null
      modifies this, Contents
      ensures Valid() && Contents == old(Contents) + [wt]
    {
      ghost var before := Contents;
      if tail == null {
        head := wt;
      } else {
        tail.next := wt;
      }
      tail := wt;
      Contents := before + [wt];
      forall i | 0 <= i < |Contents|
        ensures LinkOk(Contents, i)
      {
        assert i < |before| ==> Contents[i] == before[i] && old(LinkOk(before, i));
      }
    }

    /** notify_list_notify_all takes the whole list, under the lock. */
    method TakeAll() returns (first: WaitingThread?, ghost taken: seq<WaitingThread>)
      requires Valid()
      modifies this
      ensures Valid() && Contents == [] && taken == old(Contents) && Chained(taken)
      ensures first == if taken == [] then null else taken[0]
    {
      first, taken := head, Contents;
      head, tail, Contents := null, null, [];
    }

    /** The search of notify_list_notify_one, and the unlinking of what it finds. */
    method Take(ticket: nat) returns (wt: WaitingThread?, ghost k: nat)
      requires Valid()
      modifies this, Contents
      ensures Valid() && old(FirstAt(Contents, ticket, k))
      ensures wt == null <==> k == |old(Contents)|
      ensures wt == null ==> Contents == old(Contents)
      ensures wt != null ==>
                && wt == old(Contents)[k] && wt.next == null
                && Contents == Without(old(Contents), k)
      ensures forall x | x in old(Contents) :: x.ticket == old(x.ticket)
    {
      var prev: WaitingThread? := null;
      wt, k := head, 0;
      while wt != null
        invariant k <= |Contents| && Valid() && Contents == old(Contents)
        invariant wt == if k < |Contents| then Contents[k] else null
        invariant prev == if k == 0 then null else Contents[k - 1]
        invariant forall i | 0 <= i < k :: Contents[i].ticket != ticket
        invariant forall x | x in Contents :: x.ticket == old(x.ticket) && x.next == old(x.next)
        decreases |Contents| - k
      {
        if wt.ticket == ticket {
          Unlink(prev, wt, k);
          return;
        }
        assert LinkOk(Contents, k);
        prev, wt, k := wt, wt.next, k + 1;
      }
    }

    /** Takes out the k-th descriptor, behind prev. */
    method Unlink(prev: WaitingThread?, wt: WaitingThread, ghost k: nat)
      requires Valid() && k < |Contents| && wt == Contents[k] && prev == if k == 0 then null else Contents[k - 1]
      modifies this, Contents
      ensures Valid() && Contents == Without(old(Contents), k) && wt.next == null
      ensures forall x | x in old(Contents) :: x.ticket == old(x.ticket)
    {
      ghost var before := Contents;
      var next := wt.next;
      assert LinkOk(before, k);
      if prev != null {
        prev.next := next;
      } else {
        head := next;
      }
      if next == null {
        tail := prev;
      }
      wt.next := null;
      Contents := Without(before, k);
      forall i | 0 <= i < |Contents|
        ensures LinkOk(Contents, i)
      {
        assert old(LinkOk(before, if i < k then i else i + 1));
      }
    }
  }

  /** The rest of notify_list_notify_all, without the lock: each descriptor is unchained and readied, in order. */
  method ReadyAll(first: WaitingThread?, ghost taken: seq<WaitingThread>) returns (readied: seq<WaitingThread>)
    requires Chained(taken) && first == if taken == [] then null else taken[0]
    modifies taken
    ensures readied == taken && forall x | x in taken :: x.next == null
  {
    readied := [];
    var wt := first;
    while wt != null
      invariant |readied| <= |taken| && readied == taken[..|readied|]
      invariant wt == if |readied| < |taken| then taken[|readied|] else null
      invariant forall i | 0 <= i < |readied| :: taken[i].next == null
      invariant forall i {:trigger LinkOk(taken, i)} | |readied| <= i < |taken| :: LinkOk(taken, i)
      decreases |taken| - |readied|
    {
      assert LinkOk(taken, |readied|);
      var next := wt.next;
      label chained:
      wt.next := null;
      forall i | |readied| < i < |taken|
        ensures LinkOk(taken, i)
      {
        assert taken[i] != wt && old@chained(LinkOk(taken, i));
      }
      readied := readied + [wt];
      wt := next;
    }
  }
}
