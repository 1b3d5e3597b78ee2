/**
 Hand-off in kernel/sync/semaphore.c: a releaser that was asked to hand its token over gives it to the waiter
 it wakes, unless it has seen that there is none left; a releaser that was not asked never does.
*/
module SemaphoreHandOff {
  import opened SemaphoreProtocol

  /** Inside semaphore_release, called with this handoff flag. */
  predicate Releasing(p: Pc, handoff: bool) {
    match p
    case Released(h) => h == handoff
    case WantLockToWake(h) => h == handoff
    case TestAgain(h) => h == handoff
    case Dequeue(h) => h == handoff
    case UnlockAndWake(h, _) => h == handoff
    case TryLoad(stage) => stage.ForWaiter? && handoff
    case TryCas(stage, _) => stage.ForWaiter? && handoff
    case Ready(_, ticket) => ticket ==> handoff
    case _ => false
  }

  /** About to wake a waiter that gets no token. */
  predicate WakesEmptyHanded(p: Pc) {
    p.Ready? && !p.ticket
  }

  /** Trying for the token of the waiter in hand, while there is none. */
  predicate TriesInVain(s: State, t: Thread) {
    t in s.pc && s.pc[t].TryLoad? && s.pc[t].stage.ForWaiter? && s.g.value == 0
  }

  lemma KeepsReleasing(s: State, s': State, u: Thread, t: Thread, handoff: bool)
    requires Step(s, s', u) && t in s.pc && Releasing(s.pc[t], handoff)
    ensures t in s'.pc && (Releasing(s'.pc[t], handoff) || s'.pc[t].Idle?)
    ensures handoff && WakesEmptyHanded(s'.pc[t]) ==> WakesEmptyHanded(s.pc[t]) || TriesInVain(s, t)
  {
  }

  predicate ReleasingAt(run: seq<State>, k: nat, t: Thread, handoff: bool) {
    k < |run| && t in run[k].pc && Releasing(run[k].pc[t], handoff)
  }

  /** In the k-th step the release of thread t goes on, or ends. */
  predicate GoesOn(run: seq<State>, k: nat, t: Thread, handoff: bool) {
    k + 1 < |run| && (ReleasingAt(run, k, t, handoff) ==>
      && t in run[k + 1].pc && (ReleasingAt(run, k + 1, t, handoff) || run[k + 1].pc[t].Idle?)
      && (handoff && WakesEmptyHanded(run[k + 1].pc[t]) ==>
            WakesEmptyHanded(run[k].pc[t]) || TriesInVain(run[k], t)))
  }

  lemma StepAt(run: seq<State>, k: nat, t: Thread, handoff: bool, initial: nat)
    requires Run(run, initial) && k + 1 < |run|
    ensures GoesOn(run, k, t, handoff)
  {
    assert Next(run[k], run[k + 1]);
    var u :| Step(run[k], run[k + 1], u);
    if ReleasingAt(run, k, t, handoff) {
      KeepsReleasing(run[k], run[k + 1], u, t, handoff);
    }
  }

  lemma {:induction false} TriedAlong(run: seq<State>, i: nat, j: nat, t: Thread) returns (m: nat)
    requires i <= j < |run| && t in run[i].pc && run[i].pc[t] == Released(true)
    requires forall k: nat | i <= k <= j :: t in run[k].pc && !run[k].pc[t].Idle?
    requires forall k: nat | i <= k < j :: GoesOn(run, k, t, true)
    ensures ReleasingAt(run, j, t, true)
    ensures WakesEmptyHanded(run[j].pc[t]) ==> i <= m < j && TriesInVain(run[m], t)
  {
    m := 0;
    if i < j {
      m := TriedAlong(run, i, j - 1, t);
      assert GoesOn(run, j - 1, t, true);
      if TriesInVain(run[j - 1], t) {
        m := j - 1;
      }
    }
  }

  /**
   If semaphore_release with handoff is about to wake a waiter without a ticket, it has seen, since it
   began, that there was no token to hand over.
  */
  lemma HandOffTried(run: seq<State>, initial: nat, i: nat, j: nat, t: Thread) returns (m: nat)
    requires Run(run, initial) && i <= j < |run| && t in run[i].pc && run[i].pc[t] == Released(true)
    requires forall k: nat | i <= k <= j :: t in run[k].pc && !run[k].pc[t].Idle?
    requires WakesEmptyHanded(run[j].pc[t])
    ensures i <= m < j && TriesInVain(run[m], t)
  {
    forall k: nat | i <= k < j
      ensures GoesOn(run, k, t, true)
    {
      StepAt(run, k, t, true, initial);
    }
    m := TriedAlong(run, i, j, t);
  }

  lemma {:induction false} ReleasedAlong(run: seq<State>, i: nat, j: nat, t: Thread, handoff: bool)
    requires i <= j < |run| && t in run[i].pc && run[i].pc[t] == Released(handoff)
    requires forall k: nat | i <= k <= j :: t in run[k].pc && !run[k].pc[t].Idle?
    requires forall k: nat | i <= k < j :: GoesOn(run, k, t, handoff)
    ensures ReleasingAt(run, j, t, handoff)
  {
    if i < j {
      ReleasedAlong(run, i, j - 1, t, handoff);
      assert GoesOn(run, j - 1, t, handoff);
    }
  }

  /** A releaser gives the waiter it wakes a ticket only if it was called with handoff. */
  lemma TicketMeansHandOff(run: seq<State>, initial: nat, i: nat, j: nat, t: Thread, handoff: bool)
    requires Run(run, initial) && i <= j < |run| && t in run[i].pc && run[i].pc[t] == Released(handoff)
    requires forall k: nat | i <= k <= j :: t in run[k].pc && !run[k].pc[t].Idle?
    requires run[j].pc[t].Ready? && run[j].pc[t].ticket
    ensures handoff
  {
    forall k: nat | i <= k < j
      ensures GoesOn(run, k, t, handoff)
    {
      StepAt(run, k, t, handoff, initial);
    }
    ReleasedAlong(run, i, j, t, handoff);
  }
}
