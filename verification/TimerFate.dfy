/**
 What becomes of a timer of kernel/thread/timer.c once it is started: it stays until it is stopped or
 run, or until run_timer meets it at the root while it is modified, and drops it.
*/
module TimerFate {
  import opened TimerWakeProtocol
  import opened Permutation
  import H = TimerHeap
  import L = TimerLoads

  /** The timer is with the CPU and is going to run: nobody has stopped it. */
  predicate GoingToRun(s: State, t: Id) {
    && t in s.timers && (t in s.heap || t in Rest(s) || t in Outside(s))
    && !s.timers[t].status.Deleted? && !s.timers[t].change.Stopping?
  }

  /** timer_stop takes effect. */
  predicate IsStopped(s: State, s': State, t: Id) {
    && t in s.timers && t in s'.timers && (s.timers[t].status.Waiting? || Modified(s.timers[t].status))
    && s'.timers[t].change.Stopping?
  }

  /** run_timer is looking at t, at the root of the heap. */
  predicate Meets(s: State, t: Id) {
    s.lock.Held? && s.lock.job.Running? && s.heap != [] && s.heap[0] == t && t in s.timers
  }

  /** run_timer finds t due and runs it, for the last time. */
  predicate RunsLast(s: State, s': State, t: Id) {
    && Meets(s, t) && s.timers[t].status.Waiting? && s.timers[t].when <= s.lock.job.now
    && t in s'.timers && s'.timers[t].status.NoStatus?
  }

  /** run_timer finds t modified and removes it. */
  predicate IsDropped(s: State, s': State, t: Id) {
    Meets(s, t) && Modified(s.timers[t].status) && t in s'.timers && s'.timers[t].status.Removed?
  }

  predicate Ends(s: State, s': State, t: Id) {
    IsStopped(s, s', t) || RunsLast(s, s', t) || IsDropped(s, s', t)
  }

  // ---------------------------------------------------------------- one step

  lemma ChangeFate(s: State, step: Step, u: Id, s': State, t: Id)
    requires Inv(s) && ChangeStep(s, step, u, s') && GoingToRun(s, t)
    ensures GoingToRun(s', t) <==> !Ends(s, s', t)
  {
  }

  lemma HeldFate(s: State, step: Step, s': State, t: Id)
    requires Inv(s) && HeldStep(s, step, s') && GoingToRun(s, t)
    ensures GoingToRun(s', t) <==> !Ends(s, s', t)
  {
  }

  lemma DropFate(s: State, h': seq<Id>, s': State, t: Id)
    requires Inv(s) && DropRootStep(s, h', s') && GoingToRun(s, t)
    ensures GoingToRun(s', t) <==> !Ends(s, s', t)
  {
  }

  lemma AdjustFate(s: State, step: Step, s': State, t: Id)
    requires Inv(s) && AdjustStep(s, step, s') && GoingToRun(s, t)
    ensures GoingToRun(s', t) <==> !Ends(s, s', t)
  {
  }

  lemma ClearFate(s: State, step: Step, s': State, t: Id)
    requires Inv(s) && ClearStep(s, step, s') && GoingToRun(s, t)
    ensures GoingToRun(s', t) <==> !Ends(s, s', t)
  {
  }

  /** A timer that is going to run stays so, except when it is stopped, run for the last time, or dropped. */
  lemma StepFate(s: State, s': State, t: Id)
    requires Inv(s) && Follows(s, s') && GoingToRun(s, t)
    ensures GoingToRun(s', t) <==> !Ends(s, s', t)
  {
    var step :| Next(s, step, s');
    if u :| ChangeStep(s, step, u, s') {
      ChangeFate(s, step, u, s', t);
    } else if HeldStep(s, step, s') {
      HeldFate(s, step, s', t);
    } else if step.DropRoot? && DropRootStep(s, step.h', s') {
      DropFate(s, step.h', s', t);
    } else if AdjustStep(s, step, s') {
      AdjustFate(s, step, s', t);
    } else if ClearStep(s, step, s') {
      ClearFate(s, step, s', t);
    }
  }

  /** A pending timer is removed exactly when run_timer meets it at the root, modified, and goes on. */
  lemma RemovedExactly(s: State, step: Step, s': State, t: Id)
    requires Inv(s) && Next(s, step, s') && GoingToRun(s, t) && Pending(s.timers[t])
    ensures t in s'.timers && (s'.timers[t].status.Removed? <==> step.DropRoot? && s.heap != [] && t == s.heap[0])
    ensures s'.timers[t].status.Removed? <==> IsDropped(s, s', t)
  {
    if step.DropRoot? {
      DropRootOnly(s, step, s');
      DropRemoves(s, step.h', s', t);
    } else {
      OthersRemoveNone(s, step, s', t);
    }
  }

  lemma DropRootOnly(s: State, step: Step, s': State)
    requires Next(s, step, s') && step.DropRoot?
    ensures DropRootStep(s, step.h', s')
  {
  }

  lemma DropRemoves(s: State, h': seq<Id>, s': State, t: Id)
    requires Inv(s) && DropRootStep(s, h', s') && GoingToRun(s, t) && Pending(s.timers[t])
    ensures t in s'.timers && (s'.timers[t].status.Removed? <==> t == s.heap[0])
    ensures s'.timers[t].status.Removed? <==> IsDropped(s, s', t)
  {
  }

  lemma OthersRemoveNone(s: State, step: Step, s': State, t: Id)
    requires Inv(s) && Next(s, step, s') && !step.DropRoot? && t in s.timers && Pending(s.timers[t])
    ensures t in s'.timers && !s'.timers[t].status.Removed?
  {
    if u :| ChangeStep(s, step, u, s') {
      ChangeRemovesNone(s, step, u, s', t);
    } else if HeldStep(s, step, s') {
      HeldRemovesNone(s, step, s', t);
    } else if AdjustStep(s, step, s') {
      AdjustRemovesNone(s, step, s', t);
    } else if ClearStep(s, step, s') {
      ClearRemovesNone(s, step, s', t);
    }
  }

  lemma ChangeRemovesNone(s: State, step: Step, u: Id, s': State, t: Id)
    requires ChangeStep(s, step, u, s') && t in s.timers && Pending(s.timers[t])
    ensures t in s'.timers && !s'.timers[t].status.Removed?
  {
  }

  lemma ClearRemovesNone(s: State, step: Step, s': State, t: Id)
    requires ClearStep(s, step, s') && t in s.timers && Pending(s.timers[t])
    ensures t in s'.timers && !s'.timers[t].status.Removed?
  {
  }

  lemma HeldRemovesNone(s: State, step: Step, s': State, t: Id)
    requires HeldStep(s, step, s') && t in s.timers && Pending(s.timers[t])
    ensures t in s'.timers && !s'.timers[t].status.Removed?
  {
  }

  lemma AdjustRemovesNone(s: State, step: Step, s': State, t: Id)
    requires AdjustStep(s, step, s') && t in s.timers && Pending(s.timers[t])
    ensures t in s'.timers && !s'.timers[t].status.Removed?
  {
  }

  /** ... for when it has met a modified root, it can do nothing else. */
  lemma MetIsDropped(s: State, step: Step, s': State, t: Id)
    requires Inv(s) && Next(s, step, s') && Meets(s, t) && Modified(s.timers[t].status)
    ensures IsDropped(s, s', t) || exists u :: ChangeStep(s, step, u, s')
  {
  }

  // ---------------------------------------------------------------- over whole runs

  lemma RunFate(run: seq<State>, k: nat, t: Id)
    requires IsRun(run) && k + 1 < |run| && GoingToRun(run[k], t)
    ensures GoingToRun(run[k + 1], t) <==> !Ends(run[k], run[k + 1], t)
  {
    RunInv(run, k);
    assert Follows(run[k], run[k + 1]);
    StepFate(run[k], run[k + 1], t);
  }

  /** A last moment at which b holds, before it does not. */
  lemma {:induction false} LastTrue(b: seq<bool>, j: nat, k: nat) returns (i: nat)
    requires j < k < |b| && b[j] && !b[k]
    ensures j <= i < k && b[i] && !b[i + 1]
    decreases k
  {
    i := k - 1;
    if !b[i] {
      i := LastTrue(b, j, i);
    }
  }

  /** Between two moments of a run, a timer that has ceased to be going to run was stopped, run or dropped. */
  lemma EndsOnce(run: seq<State>, j: nat, k: nat, t: Id) returns (i: nat)
    requires IsRun(run) && j < k < |run| && GoingToRun(run[j], t) && !GoingToRun(run[k], t)
    ensures j <= i < k && GoingToRun(run[i], t) && Ends(run[i], run[i + 1], t)
  {
    var b := seq(|run|, n requires 0 <= n < |run| => GoingToRun(run[n], t));
    i := LastTrue(b, j, k);
    RunFate(run, i, t);
  }

  /** A timer that is not stopped is lost, without having run, exactly where run_timer drops it. */
  lemma LostExactly(run: seq<State>, k: nat, t: Id)
    requires IsRun(run) && k + 1 < |run| && GoingToRun(run[k], t) && !IsStopped(run[k], run[k + 1], t)
    ensures !GoingToRun(run[k + 1], t) && !RunsLast(run[k], run[k + 1], t) <==> IsDropped(run[k], run[k + 1], t)
  {
    RunFate(run, k, t);
  }

  // ---------------------------------------------------------------- a run in which it happens

  const Postponed := State(map[0 := Timer(100, 200, H.ModifiedLater, Idle)], [0], 100, 0, Free)
  const Lost := State(map[0 := Timer(100, 200, H.Removed, Idle)], [], 0, 0, Free)

  /** A timer is started for 100 and modified to run at 200. */
  lemma PostponedTo200()
    ensures Reaches(Init, Postponed)
  {
    var a := State(map[0 := Timer(100, 0, H.Waiting, Idle)], [0], 100, 0, Free);
    L.OneStarted(100);
    var b := a.(timers := map[0 := Timer(100, 0, H.Modifying, Claimed(200))]);
    assert b.timers == a.timers[0 := b.timers[0]];
    ChangeSteps(Init, a, 0, Modify(0, 200), b);
    var c := a.(timers := map[0 := Timer(100, 200, H.Modifying, Ready(false))]);
    assert c.timers == b.timers[0 := c.timers[0]];
    ChangeSteps(Init, b, 0, Write(0), c);
    assert Postponed.timers == c.timers[0 := Postponed.timers[0]];
    ChangeSteps(Init, c, 0, Publish(0), Postponed);
  }

  /** A check_timers at 150 finds no timer modified to run earlier ... */
  lemma NotAdjustedAt150()
    ensures Reaches(Postponed, Postponed.(lock := Held(Running(150))))
  {
    Acquires(Postponed, Postponed, Adjusting(150));
    HeldSteps(Postponed, Postponed.(lock := Held(Adjusting(150))), SkipAdjust, Postponed.(lock := Held(Running(150))));
  }

  /** ... and run_timer removes the root. */
  lemma RemovedAt150()
    ensures Reaches(Postponed, Lost.(lock := Held(Running(150))))
  {
    NotAdjustedAt150();
    var a, b := Postponed.(lock := Held(Running(150))), Lost.(lock := Held(Running(150)));
    L.Heaps(b.timers);
    assert b.timers == a.timers[0 := b.timers[0]];
    assert DropRootStep(a, [], b);
    assert Next(a, DropRoot([]), b);
    Later(Postponed, a, b);
  }

  lemma LostAt150()
    ensures Reaches(Postponed, Lost)
  {
    RemovedAt150();
    HeldSteps(Postponed, Lost.(lock := Held(Running(150))), EndRun, Lost.(lock := Held(Cleaning)));
    HeldSteps(Postponed, Lost.(lock := Held(Cleaning)), Release, Lost);
  }

  /** A timer that was put off from 100 to 200, and is neither stopped nor run, is gone after a check at 150. */
  lemma PostponedTimerLost() returns (run: seq<State>, j: nat, k: nat)
    ensures IsRun(run) && j < k < |run| && run[j].lock.Free? && run[k].lock.Free?
    ensures GoingToRun(run[j], 0) && Pending(run[j].timers[0]) && Deadline(run[j].timers[0]) == 200
    ensures run[k].heap == [] && 0 in run[k].timers && run[k].timers[0].status.Removed?
  {
    PostponedTo200();
    LostAt150();
    var a :| IsPath(a) && a[0] == Init && a[|a| - 1] == Postponed;
    var b :| IsPath(b) && b[0] == Postponed && b[|b| - 1] == Lost;
    Joined(a, b);
    run := a + b[1..];
    j, k := |a| - 1, |run| - 1;
    assert run[j] == Postponed && run[k] == Lost;
  }
}
