/**
 When the timers of kernel/thread/timer.c run: not before the time last asked for, not after they have been
 stopped, and no check_timers ends with one that is due.
*/
module TimerDue {
  import opened TimerWakeProtocol
  import opened TimerFate
  import H = TimerHeap
  import Period = TimerPeriod
  import opened Multiples

  /** The time that the last timer_start or timer_modify asked for. */
  function Due(t: Timer): int {
    match t.change
    case Claimed(to) => to
    case Recording => t.nextwhen
    case Loaded(_) => t.nextwhen
    case Ready(_) => t.nextwhen
    case _ => if Modified(t.status) then t.nextwhen else t.when
  }

  /** Somebody asks for timer t to run, at the time `to`. */
  predicate Asks(step: Step, t: Id, to: int) {
    match step
    case Modify(u, at) => u == t && at == to
    case Restart(u, at) => u == t && at == to
    case Start(u, at, _) => u == t && at == to
    case _ => false
  }

  predicate AsksFor(step: Step, t: Id) {
    (step.Modify? || step.Restart? || step.Start?) && step.t == t
  }

  /** check_timers runs timer t, for the last time or not. */
  predicate Runs(s: State, step: Step, t: Id) {
    Meets(s, t) && (step.RunOnce? || step.RunPeriodic?)
  }

  /** From s to s' nobody asks for timer t to run, and it does not run. */
  ghost predicate LeftAlone(s: State, s': State, t: Id) {
    exists step :: Next(s, step, s') && !AsksFor(step, t) && !Runs(s, step, t)
  }

  /** From s to s' nobody asks for timer t to run. */
  ghost predicate NotAsked(s: State, s': State, t: Id) {
    exists step :: Next(s, step, s') && !AsksFor(step, t)
  }

  /** Timer t has been stopped. */
  predicate Stopped(s: State, t: Id) {
    && t in s.timers
    && var x := s.timers[t];
       (x.change.Stopping? && x.status.Modifying?) || (x.change.Idle? && (x.status.Deleted? || x.status.Removed?))
  }

  // ---------------------------------------------------------------- one step

  lemma AskedIsDue(s: State, step: Step, s': State, t: Id, to: int)
    requires Next(s, step, s') && Asks(step, t, to)
    ensures t in s'.timers && Due(s'.timers[t]) == to
  {
  }

  lemma ChangeKeepsDue(s: State, step: Step, u: Id, s': State, t: Id)
    requires Inv(s) && ChangeStep(s, step, u, s') && !AsksFor(step, t) && GoingToRun(s, t) && GoingToRun(s', t)
    ensures Due(s'.timers[t]) == Due(s.timers[t])
  {
  }

  lemma HolderKeepsDue(s: State, step: Step, s': State, t: Id)
    requires Inv(s) && HeldStep(s, step, s')
    requires !AsksFor(step, t) && !Runs(s, step, t) && GoingToRun(s, t)
    ensures t in s'.timers && Due(s'.timers[t]) == Due(s.timers[t])
  {
    if s.lock.job.Running? {
      RunKeepsDue(s, s.lock.job.now, step, s', t);
    } else if s.lock.job.Adding? && !step.Release? {
      AddingKeepsDue(s, step, s', t);
    }
  }

  lemma RunKeepsDue(s: State, now: int, step: Step, s': State, t: Id)
    requires RunStep(s, now, step, s') && s.lock == Held(Running(now)) && !Runs(s, step, t) && t in s.timers
    ensures t in s'.timers && Due(s'.timers[t]) == Due(s.timers[t])
  {
  }

  lemma AddingKeepsDue(s: State, step: Step, s': State, t: Id)
    requires AddingStep(s, step, s') && !AsksFor(step, t) && t in s.timers
    ensures t in s'.timers && Due(s'.timers[t]) == Due(s.timers[t])
  {
  }

  lemma DropKeepsDue(s: State, h': seq<Id>, s': State, t: Id)
    requires DropRootStep(s, h', s') && GoingToRun(s, t) && GoingToRun(s', t) && Inv(s)
    ensures Due(s'.timers[t]) == Due(s.timers[t])
  {
  }

  lemma AdjustKeepsDue(s: State, step: Step, s': State, t: Id)
    requires Inv(s) && AdjustStep(s, step, s') && GoingToRun(s, t) && GoingToRun(s', t)
    ensures Due(s'.timers[t]) == Due(s.timers[t])
  {
  }

  lemma ClearKeepsDue(s: State, step: Step, s': State, t: Id)
    requires Inv(s) && ClearStep(s, step, s') && GoingToRun(s, t) && GoingToRun(s', t)
    ensures Due(s'.timers[t]) == Due(s.timers[t])
  {
  }

  /** However a timer is moved about, it stays due at the time asked for. */
  lemma KeepsDue(s: State, s': State, t: Id)
    requires Inv(s) && LeftAlone(s, s', t) && GoingToRun(s, t) && GoingToRun(s', t)
    ensures Due(s'.timers[t]) == Due(s.timers[t])
  {
    var step :| Next(s, step, s') && !AsksFor(step, t) && !Runs(s, step, t);
    if u :| ChangeStep(s, step, u, s') {
      ChangeKeepsDue(s, step, u, s', t);
    } else if HeldStep(s, step, s') {
      HolderKeepsDue(s, step, s', t);
    } else if step.DropRoot? && DropRootStep(s, step.h', s') {
      DropKeepsDue(s, step.h', s', t);
    } else if AdjustStep(s, step, s') {
      AdjustKeepsDue(s, step, s', t);
    } else if ClearStep(s, step, s') {
      ClearKeepsDue(s, step, s', t);
    }
  }

  lemma RunsWhenDue(s: State, step: Step, s': State, t: Id)
    requires Next(s, step, s') && Runs(s, step, t)
    ensures s.timers[t].status.Waiting? && s.timers[t].when <= s.lock.job.now
  {
  }

  /**
   A periodic timer that has run is due at the first time after now that is whole periods from the last
   one, or never if 64 bits cannot hold it; it stays in the heap, waiting.
  */
  lemma RunsPeriodically(s: State, step: Step, s': State, t: Id, next: int)
    requires Inv(s) && Next(s, step, s') && Runs(s, step, t) && step.RunPeriodic?
    requires s.lock.job.now < next <= s.lock.job.now + step.period
    requires step.period > 0 && next >= s.timers[t].when && Divides(step.period, next - s.timers[t].when)
    ensures t in s'.timers && t in s'.heap && GoingToRun(s', t) && s'.timers[t].status.Waiting?
    ensures Due(s'.timers[t]) == if next <= Period.INT64_MAX then next else Period.INT64_MAX
  {
    var m, now := s.timers, s.lock.job.now;
    RunsWhenDue(s, step, s', t);
    assert RunStep(s, now, step, s');
    assert t in s.heap;
    Period.NextRunExactly(m[t].when, step.period, now, next);
  }

  lemma ChangeKeepsStopped(s: State, step: Step, u: Id, s': State, t: Id)
    requires ChangeStep(s, step, u, s') && !AsksFor(step, t) && Stopped(s, t)
    ensures Stopped(s', t)
  {
  }

  lemma HolderKeepsStopped(s: State, step: Step, s': State, t: Id)
    requires Inv(s) && HeldStep(s, step, s') && !AsksFor(step, t) && Stopped(s, t)
    ensures Stopped(s', t)
  {
    if s.lock.job.Running? {
      RunKeepsStopped(s, s.lock.job.now, step, s', t);
    } else if s.lock.job.Adding? && !step.Release? {
      AddingKeepsStopped(s, step, s', t);
    }
  }

  lemma RunKeepsStopped(s: State, now: int, step: Step, s': State, t: Id)
    requires RunStep(s, now, step, s') && Stopped(s, t)
    ensures Stopped(s', t)
  {
  }

  lemma AddingKeepsStopped(s: State, step: Step, s': State, t: Id)
    requires AddingStep(s, step, s') && !AsksFor(step, t) && Stopped(s, t)
    ensures Stopped(s', t)
  {
  }

  lemma DropKeepsStopped(s: State, h': seq<Id>, s': State, t: Id)
    requires DropRootStep(s, h', s') && Inv(s) && Stopped(s, t)
    ensures Stopped(s', t)
  {
  }

  lemma AdjustKeepsStopped(s: State, step: Step, s': State, t: Id)
    requires Inv(s) && AdjustStep(s, step, s') && Stopped(s, t)
    ensures Stopped(s', t)
  {
  }

  lemma ClearKeepsStopped(s: State, step: Step, s': State, t: Id)
    requires ClearStep(s, step, s') && Stopped(s, t)
    ensures Stopped(s', t)
  {
  }

  lemma StepKeepsStopped(s: State, s': State, t: Id)
    requires Inv(s) && NotAsked(s, s', t) && Stopped(s, t)
    ensures Stopped(s', t)
  {
    var step :| Next(s, step, s') && !AsksFor(step, t);
    if u :| ChangeStep(s, step, u, s') {
      ChangeKeepsStopped(s, step, u, s', t);
    } else if HeldStep(s, step, s') {
      HolderKeepsStopped(s, step, s', t);
    } else if step.DropRoot? && DropRootStep(s, step.h', s') {
      DropKeepsStopped(s, step.h', s', t);
    } else if AdjustStep(s, step, s') {
      AdjustKeepsStopped(s, step, s', t);
    } else if ClearStep(s, step, s') {
      ClearKeepsStopped(s, step, s', t);
    }
  }

  lemma StoppedIsOut(s: State, t: Id)
    requires Inv(s) && Stopped(s, t)
    ensures !GoingToRun(s, t)
  {
  }

  /** When the holder of the lock meets a root that is waiting and due, it can do nothing but run it. */
  lemma MetIsRun(s: State, step: Step, s': State, t: Id)
    requires Inv(s) && Next(s, step, s') && Meets(s, t)
    requires s.timers[t].status.Waiting? && s.timers[t].when <= s.lock.job.now
    ensures Runs(s, step, t) || exists u :: ChangeStep(s, step, u, s')
  {
  }

  // ---------------------------------------------------------------- over whole runs

  ghost predicate AloneAt(run: seq<State>, k: nat, t: Id) {
    k + 1 < |run| && LeftAlone(run[k], run[k + 1], t)
  }

  ghost predicate NotAskedAt(run: seq<State>, k: nat, t: Id) {
    k + 1 < |run| && NotAsked(run[k], run[k + 1], t)
  }

  /** Timer t is due at the same time before and after the k-th step. */
  predicate SameDue(run: seq<State>, k: nat, t: Id) {
    k + 1 < |run| && t in run[k].timers && t in run[k + 1].timers && Due(run[k + 1].timers[t]) == Due(run[k].timers[t])
  }

  lemma {:induction false} DueAlong(run: seq<State>, j: nat, k: nat, t: Id)
    requires j <= k < |run| && t in run[j].timers && forall i: nat | j <= i < k :: SameDue(run, i, t)
    ensures t in run[k].timers && Due(run[k].timers[t]) == Due(run[j].timers[t])
  {
    if j < k {
      DueAlong(run, j, k - 1, t);
      assert SameDue(run, k - 1, t);
    }
  }

  lemma DueAt(run: seq<State>, k: nat, t: Id)
    requires IsRun(run) && AloneAt(run, k, t) && GoingToRun(run[k], t) && GoingToRun(run[k + 1], t)
    ensures SameDue(run, k, t)
  {
    RunInv(run, k);
    KeepsDue(run[k], run[k + 1], t);
  }

  predicate GoingAt(run: seq<State>, k: nat, t: Id) {
    k < |run| && GoingToRun(run[k], t)
  }

  /**
   No timer runs early: if the last call of timer_start or timer_modify for timer t, at the j-th step,
   asked for the time `to`, check_timers runs t only at that time or later.
  */
  lemma NeverEarly(run: seq<State>, j: nat, k: nat, t: Id, to: int, asking: Step, running: Step)
    requires IsRun(run) && j < k < |run| - 1
    requires Next(run[j], asking, run[j + 1]) && Asks(asking, t, to)
    requires forall i: nat | j < i < k :: AloneAt(run, i, t)
    requires forall i: nat | j < i <= k :: GoingAt(run, i, t)
    requires Next(run[k], running, run[k + 1]) && Runs(run[k], running, t)
    ensures to <= run[k].lock.job.now
  {
    AskedIsDue(run[j], asking, run[j + 1], t, to);
    forall i: nat | j + 1 <= i < k
      ensures SameDue(run, i, t)
    {
      assert AloneAt(run, i, t) && GoingAt(run, i, t) && GoingAt(run, i + 1, t);
      DueAt(run, i, t);
    }
    DueAlong(run, j + 1, k, t);
    assert GoingAt(run, k, t);
    RunsWhenDue(run[k], running, run[k + 1], t);
    RunInv(run, k);
    WaitingIsIdle(run[k], t);
  }

  lemma WaitingIsIdle(s: State, t: Id)
    requires Inv(s) && GoingToRun(s, t) && s.timers[t].status.Waiting?
    ensures Due(s.timers[t]) == s.timers[t].when
  {
  }

  /** Timer t stays stopped in the k-th step. */
  predicate StopHolds(run: seq<State>, k: nat, t: Id) {
    k + 1 < |run| && (Stopped(run[k], t) ==> Stopped(run[k + 1], t))
  }

  lemma {:induction false} StoppedAlong(run: seq<State>, j: nat, k: nat, t: Id)
    requires j <= k < |run| && Stopped(run[j], t) && forall i: nat | j <= i < k :: StopHolds(run, i, t)
    ensures Stopped(run[k], t)
  {
    if j < k {
      StoppedAlong(run, j, k - 1, t);
      assert StopHolds(run, k - 1, t);
    }
  }

  lemma StopAt(run: seq<State>, k: nat, t: Id)
    requires IsRun(run) && NotAskedAt(run, k, t)
    ensures StopHolds(run, k, t)
  {
    if Stopped(run[k], t) {
      RunInv(run, k);
      StepKeepsStopped(run[k], run[k + 1], t);
    }
  }

  /** A timer that has been stopped is not going to run, and does not run, until somebody asks for it again. */
  lemma StoppedForGood(run: seq<State>, j: nat, k: nat, t: Id)
    requires IsRun(run) && j < k < |run| && IsStopped(run[j], run[j + 1], t)
    requires forall i: nat | j < i < k :: NotAskedAt(run, i, t)
    ensures !GoingToRun(run[k], t)
    ensures forall step, s' :: Next(run[k], step, s') ==> !Runs(run[k], step, t)
  {
    RunInv(run, j + 1);
    RunInv(run, k);
    assert Stopped(run[j + 1], t);
    forall i: nat | j + 1 <= i < k
      ensures StopHolds(run, i, t)
    {
      assert NotAskedAt(run, i, t);
      StopAt(run, i, t);
    }
    StoppedAlong(run, j + 1, k, t);
    StoppedIsOut(run[k], t);
    forall step, s' | Next(run[k], step, s')
      ensures !Runs(run[k], step, t)
    {
      if Runs(run[k], step, t) {
        RunsWhenDue(run[k], step, s', t);
      }
    }
  }

  /** When the loop of check_timers ends, no timer in the heap is due by its `when`, and so no waiting one at all. */
  lemma ChecksAllDue(run: seq<State>, k: nat, now: int)
    requires IsRun(run) && k + 1 < |run| && run[k].lock == Held(Running(now)) && run[k + 1].lock == Held(Cleaning)
    ensures var s := run[k + 1];
            forall t | t in s.heap :: t in s.timers && s.timers[t].when > now
                && (s.timers[t].status.Waiting? ==> Deadline(s.timers[t]) > now)
  {
    assert Follows(run[k], run[k + 1]);
    EndsWhenNothingDue(run[k], run[k + 1], now);
    Timer0IsRoot(run, k + 1);
  }

  lemma EndsWhenNothingDue(s: State, s': State, now: int)
    requires Follows(s, s') && s.lock == Held(Running(now)) && s'.lock == Held(Cleaning)
    ensures s' == s.(lock := Held(Cleaning)) && (s.heap != [] ==> RootWhen(s.timers, s.heap) > now)
  {
  }

  /** adjust_timers turns back only if no timer that was modified to run earlier is due. */
  lemma SkipsOnlyEarly(run: seq<State>, k: nat, now: int)
    requires IsRun(run) && k + 1 < |run| && run[k].lock == Held(Adjusting(now)) && run[k + 1].lock == Held(Running(now))
    ensures var s := run[k + 1];
            forall t | t in s.heap ::
              t in s.timers && (s.timers[t].status.ModifiedEarlier? ==> s.timers[t].nextwhen > now)
  {
    assert Follows(run[k], run[k + 1]);
    RunInv(run, k);
    SkipsWhenNothingDue(run[k], run[k + 1], now);
    forall t | t in run[k].heap
      ensures t in run[k].timers && Covered(run[k].timers[t], run[k].earliest)
    {
    }
  }

  lemma SkipsWhenNothingDue(s: State, s': State, now: int)
    requires Follows(s, s') && s.lock == Held(Adjusting(now)) && s'.lock == Held(Running(now))
    ensures s' == s.(lock := Held(Running(now))) && (s.earliest == 0 || s.earliest > now || s.heap == [])
  {
  }

  // ---------------------------------------------------------------- answers

  /** What a caller is told about a timer whose status it sees, once it can tell. */
  datatype Answer = Yes | No | TryAgain

  /** timer_stop: was the timer stopped by this call? */
  function StopAnswer(status: H.Status): Answer {
    match status
    case Waiting => Yes
    case ModifiedLater => Yes
    case ModifiedEarlier => Yes
    case Deleted => No
    case Removing => No
    case Removed => No
    case NoStatus => No
    case _ => TryAgain
  }

  /** timer_modify: was the timer going to run anyway? */
  function ModifyAnswer(status: H.Status): Answer {
    match status
    case Waiting => Yes
    case ModifiedLater => Yes
    case ModifiedEarlier => Yes
    case Deleted => No
    case Removed => No
    case NoStatus => No
    case _ => TryAgain
  }

  /** Both tell the truth at every moment of every run, and try again only while somebody else is at the timer. */
  lemma AnswersAreTrue(run: seq<State>, k: nat, t: Id)
    requires IsRun(run) && k < |run| && t in run[k].timers
    ensures var s, status := run[k], run[k].timers[t].status;
            && (StopAnswer(status).Yes? ==> GoingToRun(s, t)) && (StopAnswer(status).No? ==> !GoingToRun(s, t))
            && ModifyAnswer(status) == StopAnswer(status)
            && (StopAnswer(status).TryAgain? <==> !s.timers[t].change.Idle? || t in Outside(s))
            && (StopAnswer(status).Yes? <==> CanChange(s.timers[t], Stop(t)))
  {
    RunInv(run, k);
  }

  /** Nobody has to wait to ask for a timer that nobody else is changing or moving, a stopped one included. */
  lemma CanAsk(run: seq<State>, k: nat, t: Id, to: int) returns (step: Step, s': State)
    requires IsRun(run) && k < |run| && t in run[k].timers && to > 0
    requires !ModifyAnswer(run[k].timers[t].status).TryAgain?
    ensures Next(run[k], step, s') && Asks(step, t, to)
  {
    RunInv(run, k);
    var s := run[k];
    step := if CanChange(s.timers[t], Modify(t, to)) then Modify(t, to) else Restart(t, to);
    s' := s.(timers := s.timers[t := Changed(s.timers[t], s.earliest, step)]);
    assert ChangeStep(s, step, t, s');
  }
}
