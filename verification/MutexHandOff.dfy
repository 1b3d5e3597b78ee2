/**
 The hand-off of a starving mutex of kernel/sync/mutex.c through the semaphore: the unlocker asks for its
 token to be handed over, and the waiter is woken with it, unless somebody was given it first.
*/
module MutexHandOff {
  import S = SemaphoreProtocol
  import opened MutexOverSemaphore
  import opened SemaphoreHandOff

  /** In the k-th step thread t, which has unlocked the mutex, calls semaphore_release. */
  predicate CallsRelease(run: seq<State>, k: nat, t: Thread) {
    && k + 1 < |run| && t in run[k].pc && t in run[k + 1].pc && t in run[k + 1].sem.pc
    && (run[k].pc[t].Wake? || run[k].pc[t].HandOff?) && run[k + 1].pc[t].Idle?
  }

  /** Thread t is inside the semaphore. */
  predicate InSemaphore(s: State, t: Thread) {
    t in s.sem.pc && !s.sem.pc[t].Idle?
  }

  function SemRun(run: seq<State>): (r: seq<S.State>)
    ensures |r| == |run| && forall k | 0 <= k < |run| :: r[k] == run[k].sem
  {
    seq(|run|, k requires 0 <= k < |run| => run[k].sem)
  }

  /** To the semaphore, each step is a step of its own or none. */
  lemma SemStep(s: State, s': State, t: Thread)
    requires Step(s, s', t)
    ensures s'.sem == s.sem || S.Step(s.sem, s'.sem, t)
  {
  }

  lemma SemGoesOn(run: seq<State>, k: nat, t: Thread, handoff: bool)
    requires Run(run) && k + 1 < |run|
    ensures GoesOn(SemRun(run), k, t, handoff)
  {
    assert Next(run[k], run[k + 1]);
    var u :| Step(run[k], run[k + 1], u);
    SemStep(run[k], run[k + 1], u);
    if run[k + 1].sem != run[k].sem && ReleasingAt(SemRun(run), k, t, handoff) {
      KeepsReleasing(run[k].sem, run[k + 1].sem, u, t, handoff);
    }
  }

  lemma ReleaseCall(s: State, s': State, u: Thread, t: Thread)
    requires Step(s, s', u) && t in s.pc && t in s'.pc && (s.pc[t].Wake? || s.pc[t].HandOff?) && s'.pc[t].Idle?
    ensures t in s'.sem.pc && s'.sem.pc[t] == S.Released(s.pc[t].HandOff?)
  {
  }

  /** A thread is on its way to a hand-off exactly if it unlocked a starving mutex. */
  lemma HandsOffStarving(run: seq<State>, k: nat, t: Thread)
    requires Run(run) && k + 1 < |run| && t in run[k].pc && run[k].pc[t].Held?
    requires t in run[k + 1].pc && !run[k + 1].pc[t].Held?
    ensures run[k + 1].pc[t].HandOff? <==> run[k].word.starving
  {
    assert Next(run[k], run[k + 1]);
    var u :| Step(run[k], run[k + 1], u);
    Unlocks(run[k], run[k + 1], u, t);
  }

  lemma Unlocks(s: State, s': State, u: Thread, t: Thread)
    requires Step(s, s', u) && t in s.pc && s.pc[t].Held? && t in s'.pc && !s'.pc[t].Held?
    ensures s'.pc[t].HandOff? <==> s.word.starving
  {
  }

  /**
   When the unlocker of a starving mutex is about to wake a waiter without a ticket, it has seen, since
   it called semaphore_release, that no token was left to hand over.
  */
  lemma StarvingUnlockHandsOver(run: seq<State>, i: nat, j: nat, t: Thread) returns (m: nat)
    requires Run(run) && i < j < |run| && CallsRelease(run, i, t) && run[i].pc[t].HandOff?
    requires forall k: nat | i < k <= j :: InSemaphore(run[k], t)
    requires InSemaphore(run[j], t) && WakesEmptyHanded(run[j].sem.pc[t])
    ensures i < m < j && TriesInVain(run[m].sem, t)
  {
    ReleaseCalled(run, i, t);
    forall k: nat | i < k < j
      ensures GoesOn(SemRun(run), k, t, true)
    {
      SemGoesOn(run, k, t, true);
    }
    m := TriedAlong(SemRun(run), i + 1, j, t);
  }

  lemma ReleaseCalled(run: seq<State>, i: nat, t: Thread)
    requires Run(run) && CallsRelease(run, i, t)
    ensures run[i + 1].sem.pc[t] == S.Released(run[i].pc[t].HandOff?)
  {
    assert Next(run[i], run[i + 1]);
    var u :| Step(run[i], run[i + 1], u);
    ReleaseCall(run[i], run[i + 1], u, t);
  }

  /** When the mutex is not starving, waiters are woken without a ticket and compete for the mutex. */
  lemma NormalUnlockWakes(run: seq<State>, i: nat, j: nat, t: Thread)
    requires Run(run) && i < j < |run| && CallsRelease(run, i, t) && run[i].pc[t].Wake?
    requires forall k: nat | i < k <= j :: InSemaphore(run[k], t)
    requires InSemaphore(run[j], t) && run[j].sem.pc[t].Ready?
    ensures WakesEmptyHanded(run[j].sem.pc[t])
  {
    ReleaseCalled(run, i, t);
    forall k: nat | i < k < j
      ensures GoesOn(SemRun(run), k, t, false)
    {
      SemGoesOn(run, k, t, false);
    }
    ReleasedAlong(SemRun(run), i + 1, j, t, false);
    assert ReleasingAt(SemRun(run), j, t, false);
  }
}
