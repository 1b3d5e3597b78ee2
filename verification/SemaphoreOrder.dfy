/** The waiters of kernel/sync/semaphore.c are woken in the order of the queue, which no step changes. */
module SemaphoreOrder {
  import opened SemaphoreProtocol
  import opened QueueOrder

  lemma StepOrder(s: State, s': State, t: Thread, x: Thread, y: Thread)
    requires QueueInv(s) && Step(s, s', t) && Ahead(s.g.queue, x, y) && x in s'.g.queue && y in s'.g.queue
    ensures Ahead(s'.g.queue, x, y)
  {
    if !Wakes(s, s', t) {
      MoveQueues(s.g, t, s.pc[t], s'.g, s'.pc[t]);
      if s'.g.queue == s.g.queue + [t] {
        AppendOrder(s.g.queue, t, x, y);
      } else if s'.g.queue == [t] + s.g.queue {
        PrependOrder(t, s.g.queue, x, y);
      } else if s.g.queue != [] && s'.g.queue == s.g.queue[1..] {
        TailOrder(s.g.queue, x, y);
      }
    }
  }

  /** Both threads are queued. */
  predicate BothAt(run: seq<State>, k: nat, x: Thread, y: Thread) {
    k < |run| && x in run[k].g.queue && y in run[k].g.queue
  }

  ghost predicate AheadAt(run: seq<State>, k: nat, x: Thread, y: Thread) {
    k < |run| && Ahead(run[k].g.queue, x, y)
  }

  ghost predicate OrderHolds(run: seq<State>, k: nat, x: Thread, y: Thread) {
    AheadAt(run, k, x, y) && BothAt(run, k + 1, x, y) ==> AheadAt(run, k + 1, x, y)
  }

  lemma OrderAt(run: seq<State>, k: nat, initial: nat, x: Thread, y: Thread)
    requires Run(run, initial) && k + 1 < |run|
    ensures OrderHolds(run, k, x, y)
  {
    if AheadAt(run, k, x, y) && BothAt(run, k + 1, x, y) {
      RunInv(run, k, initial);
      assert Next(run[k], run[k + 1]);
      var t :| Step(run[k], run[k + 1], t);
      StepOrder(run[k], run[k + 1], t, x, y);
    }
  }

  lemma {:induction false} OrderAlong(run: seq<State>, i: nat, j: nat, x: Thread, y: Thread)
    requires i <= j < |run| && AheadAt(run, i, x, y)
    requires forall k: nat | i <= k <= j :: BothAt(run, k, x, y)
    requires forall k: nat | i <= k < j :: OrderHolds(run, k, x, y)
    ensures AheadAt(run, j, x, y)
  {
    if i < j {
      OrderAlong(run, i, j - 1, x, y);
      assert OrderHolds(run, j - 1, x, y) && BothAt(run, j, x, y);
    }
  }

  /** No releaser takes a waiter in hand while another is queued before it. */
  lemma WokenInOrder(run: seq<State>, i: nat, j: nat, initial: nat, x: Thread, y: Thread, t: Thread)
    requires Run(run, initial) && i <= j && j + 1 < |run| && AheadAt(run, i, x, y)
    requires forall k: nat | i <= k <= j :: BothAt(run, k, x, y)
    ensures t in run[j + 1].pc ==> Target(run[j + 1].pc[t]) != Some(y)
  {
    forall k: nat | i <= k < j
      ensures OrderHolds(run, k, x, y)
    {
      OrderAt(run, k, initial, x, y);
    }
    OrderAlong(run, i, j, x, y);
    RunInv(run, j, initial);
    assert Next(run[j], run[j + 1]);
    var u :| Step(run[j], run[j + 1], u);
    TakesFirst(run[j], run[j + 1], u, t, x, y);
  }

  lemma TakesFirst(s: State, s': State, u: Thread, t: Thread, x: Thread, y: Thread)
    requires QueueInv(s) && Step(s, s', u) && Ahead(s.g.queue, x, y)
    ensures t in s'.pc ==> Target(s'.pc[t]) != Some(y)
  {
    assert forall v | v in s.pc && Target(s.pc[v]).Some? :: InHand(s, Target(s.pc[v]).value);
    if !Wakes(s, s', u) && t == u {
      MoveQueues(s.g, u, s.pc[u], s'.g, s'.pc[u]);
    }
  }
}
