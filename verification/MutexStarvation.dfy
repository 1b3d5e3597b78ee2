/**
 Starvation mode of kernel/sync/mutex.c: when the mutex enters it, that nobody barges in while it lasts,
 and when it ends. What a failed mutex_try_lock has seen is here, too.
*/
module MutexStarvation {
  import opened MutexProtocol

  /** Thread t has waited too long, found the mutex held or starving once more, and goes to sleep again. */
  predicate GoesBackToSleep(s: State, s': State, t: Thread) {
    && t in s.pc && t in s'.pc && s.pc[t].LockTry? && s.pc[t].starving
    && s'.pc[t] == Acquire(true)
  }

  /** Thread t becomes the owner. */
  predicate BecomesOwner(s: State, s': State, t: Thread) {
    t in s.pc && t in s'.pc && !s.pc[t].Held? && s'.pc[t].Held?
  }

  /** Thread t takes over a handed-off mutex. */
  predicate TakesOver(s: State, s': State, t: Thread) {
    BecomesOwner(s, s', t) && s.pc[t].TakeHandOff?
  }

  // ---------------------------------------------------------------- one step

  /** A thread that has waited too long leaves STARVING set when it goes to sleep again. */
  lemma SleepsStarving(s: State, s': State, t: Thread)
    requires Step(s, s', t) && GoesBackToSleep(s, s', t)
    ensures s'.shared.word.starving
  {
  }

  /** Nothing else sets STARVING, and it is set over a held mutex only. */
  lemma EntersOnlySo(s: State, s': State, t: Thread)
    requires Step(s, s', t) && !s.shared.word.starving && s'.shared.word.starving
    ensures GoesBackToSleep(s, s', t) && s.shared.word.locked
  {
  }

  /** While STARVING is set, nobody becomes the owner but the thread to which the mutex is handed. */
  lemma NobodyBarges(s: State, s': State, t: Thread)
    requires Inv(s) && Step(s, s', t) && s.shared.word.starving && BecomesOwner(s, s', t)
    ensures TakesOver(s, s', t)
  {
    assert CopyInv(s.shared.word, s.pc[t]);
  }

  /**
   A thread that takes over ends starvation mode exactly if it has not waited too long or has seen
   itself to be the last waiter; nothing else ends it.
  */
  lemma LeavesExactly(s: State, s': State, t: Thread)
    requires Inv(s) && Step(s, s', t) && s.shared.word.starving
    ensures !s'.shared.word.starving <==>
            TakesOver(s, s', t) && (!s.pc[t].starving || s.pc[t].seen.waiters == 1)
  {
    assert CopyInv(s.shared.word, s.pc[t]);
    if s.pc[t].TakeHandOff? {
      TallyMove(s, s.(pc := s.pc[t := Idle]), t, Idle);
    }
  }

  /** The thread that takes over has seen the word as it was when it read it, and knows whether it waited too long. */
  lemma ReadsWord(s: State, s': State, t: Thread)
    requires Step(s, s', t) && s.pc[t].Acquired?
    ensures exists late :: s' == AfterWaking(s, t, late)
  {
    var late := s'.pc[t].starving;
    assert s' == AfterWaking(s, t, late);
  }

  /** Thread t has read the word after waking up; `late` says whether it has been waiting for too long by now. */
  function AfterWaking(s: State, t: Thread, late: bool): State
    requires t in s.pc && s.pc[t].Acquired?
  {
    var w, starving := s.shared.word, s.pc[t].starving || late;
    s.(pc := s.pc[t := if w.starving then TakeHandOff(w, starving) else LockTry(w, true, starving)])
  }

  /** Either outcome of the waiting time is possible, in every state. */
  lemma WaitingTimeCounts(s: State, t: Thread, late: bool)
    requires t in s.pc && s.pc[t].Acquired?
    ensures Step(s, AfterWaking(s, t, late), t)
  {
  }

  // ---------------------------------------------------------------- whole runs

  /** In the k-th step of a run thread t becomes the owner. */
  predicate NewOwner(run: seq<State>, k: nat, t: Thread) {
    k + 1 < |run| && BecomesOwner(run[k], run[k + 1], t)
  }

  /** A thread whose place changes is the one that takes the step. */
  lemma OnlyMover(s: State, s': State, t: Thread, u: Thread)
    requires Step(s, s', t) && u in s.pc && s'.pc[u] != s.pc[u]
    ensures u == t
  {
  }

  lemma RunStep(run: seq<State>, i: nat) returns (t: Thread)
    requires Run(run) && i + 1 < |run|
    ensures Inv(run[i]) && Step(run[i], run[i + 1], t)
  {
    RunInv(run, i);
    assert Next(run[i], run[i + 1]);
    t :| Step(run[i], run[i + 1], t);
  }

  lemma KeepsStarving(run: seq<State>, k: nat)
    requires Run(run) && k + 1 < |run| && run[k].shared.word.starving && forall u :: !NewOwner(run, k, u)
    ensures run[k + 1].shared.word.starving
  {
    var u := RunStep(run, k);
    assert !NewOwner(run, k, u);
    LeavesExactly(run[k], run[k + 1], u);
  }

  /** STARVING stays set until a thread takes over. */
  lemma {:induction false} StaysStarving(run: seq<State>, i: nat, j: nat)
    requires Run(run) && i <= j < |run| && run[i].shared.word.starving
    requires forall k: nat, u | i <= k < j :: !NewOwner(run, k, u)
    ensures run[j].shared.word.starving
  {
    if i < j {
      StaysStarving(run, i, j - 1);
      KeepsStarving(run, j - 1);
    }
  }

  /**
   Once a thread that has waited too long goes back to sleep, the next owner of the mutex is a thread to
   which it is handed, through the queue; no newcomer and no mutex_try_lock gets it first.
  */
  lemma NextOwnerIsHandedTo(run: seq<State>, i: nat, t: Thread, j: nat, u: Thread)
    requires Run(run) && i < j < |run| - 1 && GoesBackToSleep(run[i], run[i + 1], t)
    requires NewOwner(run, j, u)
    requires forall k: nat, v | i < k < j :: !NewOwner(run, k, v)
    ensures run[j].shared.word.starving && TakesOver(run[j], run[j + 1], u)
  {
    var v := RunStep(run, i);
    OnlyMover(run[i], run[i + 1], v, t);
    SleepsStarving(run[i], run[i + 1], t);
    StaysStarving(run, i + 1, j);
    v := RunStep(run, j);
    OnlyMover(run[j], run[j + 1], v, u);
    NobodyBarges(run[j], run[j + 1], u);
  }

  /** STARVING is cleared exactly where a thread takes over that has not waited too long or was the last waiter. */
  lemma StarvationEnds(run: seq<State>, i: nat)
    requires Run(run) && i + 1 < |run| && run[i].shared.word.starving
    ensures var s, s' := run[i], run[i + 1];
            !s'.shared.word.starving <==>
            exists t :: TakesOver(s, s', t) && (!s.pc[t].starving || s.pc[t].seen.waiters == 1)
  {
    var t := RunStep(run, i);
    LeavesExactly(run[i], run[i + 1], t);
    var s, s' := run[i], run[i + 1];
    if u :| TakesOver(s, s', u) {
      OnlyMover(s, s', t, u);
    }
  }

  /** STARVING is set exactly where a thread that has waited too long goes back to sleep. */
  lemma StarvationBegins(run: seq<State>, i: nat)
    requires Run(run) && i + 1 < |run| && !run[i].shared.word.starving
    ensures var s, s' := run[i], run[i + 1]; s'.shared.word.starving <==> exists t :: GoesBackToSleep(s, s', t)
  {
    var t := RunStep(run, i);
    var s, s' := run[i], run[i + 1];
    if s'.shared.word.starving {
      EntersOnlySo(s, s', t);
    }
    if u :| GoesBackToSleep(s, s', u) {
      OnlyMover(s, s', t, u);
      SleepsStarving(s, s', u);
    }
  }

  // ---------------------------------------------------------------- answers and progress

  /** A thread between the two accesses of mutex_try_lock has seen a free mutex since it began. */
  lemma {:induction false} TryLockSaw(run: seq<State>, j: nat, t: Thread) returns (i: nat)
    requires Run(run) && j < |run| && t in run[j].pc && run[j].pc[t].TryLockCas?
    ensures i < j && t in run[i].pc && run[i].pc[t].Idle? && run[i].shared.word == run[j].pc[t].seen
    ensures !run[i].shared.word.locked && !run[i].shared.word.starving
    ensures forall k | i < k <= j :: t in run[k].pc && run[k].pc[t] == run[j].pc[t]
  {
    if j == 0 {
      assert false;
    } else {
      var u := RunStep(run, j - 1);
      TryLockFrom(run[j - 1], run[j], u, t);
      i := j - 1;
      if !run[i].pc[t].Idle? {
        i := TryLockSaw(run, j - 1, t);
      }
    }
  }

  lemma TryLockFrom(s: State, s': State, u: Thread, t: Thread)
    requires Step(s, s', u) && t in s'.pc && s'.pc[t].TryLockCas?
    ensures t in s.pc && (s.pc[t] == s'.pc[t]
            || (s.pc[t].Idle? && s'.pc[t].seen == s.shared.word && !s.shared.word.locked && !s.shared.word.starving))
  {
  }

  /** mutex_try_lock fails only if the mutex is held or handed over when it looks, or the word changes afterwards. */
  lemma TryLockFails(run: seq<State>, j: nat, t: Thread) returns (i: nat)
    requires Run(run) && j + 1 < |run| && Step(run[j], run[j + 1], t) && run[j + 1].pc[t].Idle?
    requires run[j].pc[t].Idle? || run[j].pc[t].TryLockCas?
    ensures i <= j && t in run[i].pc && run[i].pc[t].Idle?
    ensures i == j ==> run[j].shared.word.locked || run[j].shared.word.starving
    ensures i < j ==> run[i].shared.word != run[j].shared.word
  {
    i := j;
    if run[j].pc[t].TryLockCas? {
      i := TryLockSaw(run, j, t);
    }
  }

  /** Only the semaphore makes a thread wait: any other thread can take its next step. */
  lemma CanGoOn(run: seq<State>, i: nat, t: Thread)
    requires Run(run) && i < |run| && t in run[i].pc
    requires run[i].pc[t].Acquire? ==> run[i].shared.tokens > 0
    ensures exists s' :: Step(run[i], s', t)
  {
    var s := run[i];
    RunInv(run, i);
    TallyMove(s, s.(pc := s.pc[t := Idle]), t, Idle);
    assert CopyInv(s.shared.word, s.pc[t]);
    var g, q := GoesOn(s.shared, s.pc[t]);
    var s' := State(g, s.pc[t := q]);
    assert Step(s, s', t);
  }

  lemma GoesOn(g: Shared, p: Pc) returns (g': Shared, q: Pc)
    requires p.Acquire? ==> g.tokens > 0
    requires p.Held? ==> g.word.locked
    requires p.TakeHandOff? ==> g.word.waiters > 0
    ensures Move(g, p, g', q)
  {
    match p
    case Idle => g', q := g, LockLoad(false, false);
    case LockLoad(awoke, starving) => g', q := g, LockTry(g.word, awoke, starving);
    case LockTry(seen, awoke, starving) => g', q := g, LockLoad(awoke, starving);
    case Acquire(starving) => g', q := g.(tokens := g.tokens - 1), Acquired(starving);
    case Acquired(starving) => g', q := g, AfterWake(g.word, starving);
    case TakeHandOff(seen, starving) =>
      q := Held;
      g' := g.(word := Word(true, g.word.woken, g.word.starving && !LeavesStarvation(seen, starving),
          g.word.waiters - 1));
    case TryLockCas(seen) =>
      if g.word == seen {
        g', q := g.(word := seen.(locked := true)), Held;
      } else {
        g', q := g, Idle;
      }
    case Held =>
      g' := g.(word := g.word.(locked := false));
      q := if g'.word == ZERO then Idle else if g'.word.starving then HandOff else UnlockTry(g'.word);
    case UnlockTry(seen) => g', q := g, if NothingToWake(seen) then Idle else UnlockLoad;
    case UnlockLoad => g', q := g, UnlockTry(g.word);
    case Wake => g', q := g.(tokens := g.tokens + 1), Idle;
    case HandOff => g', q := g.(tokens := g.tokens + 1), Idle;
  }
}
