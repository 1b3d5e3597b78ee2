/**
 nobarrier_wake_time and check_timers of kernel/thread/timer.c load timer0_when and then
 timer_modified_earliest. By the second load the first value may be out of date.
*/
module TimerLoads {
  import opened TimerWakeProtocol
  import H = TimerHeap

  /** What the second load and timer0_when at that moment have to be for the first load to do no harm. */
  predicate Recent(timer0: int, earliest: int, first: int) {
    timer0 == 0 || 0 < first <= timer0 || 0 < earliest <= timer0
  }

  /** A state that can be reached, with nobody holding the lock, and these two words. */
  ghost predicate Shows(s: State, timer0: int, earliest: int) {
    Reaches(Init, s) && s.lock.Free? && s.timer0 == timer0 && s.earliest == earliest
  }

  /**
   Whoever sleeps until the result is in time, whatever the timers are, exactly if there is no timer,
   or one of the two values loaded is that of a timer and not later than the root at the second load.
  */
  lemma StaleFirstLoad(timer0: int, earliest: int, first: int)
    requires timer0 >= 0 && earliest >= 0 && first >= 0
    ensures Recent(timer0, earliest, first) <==>
              forall s | Shows(s, timer0, earliest) :: InTime(s, WakeTime(first, earliest))
  {
    if Recent(timer0, earliest, first) {
      forall s | Shows(s, timer0, earliest)
        ensures InTime(s, WakeTime(first, earliest))
      {
        RecentIsInTime(s, first);
      }
    } else {
      var s := AnyWords(timer0, earliest);
      assert 0 in s.heap && !InTime(s, WakeTime(first, earliest));
    }
  }

  lemma RecentIsInTime(s: State, first: int)
    requires Reaches(Init, s) && s.lock.Free? && first >= 0 && Recent(s.timer0, s.earliest, first)
    ensures InTime(s, WakeTime(first, s.earliest))
  {
    ReachedInTime(s);
    forall t | t in s.heap && t in s.timers && Pending(s.timers[t])
      ensures WakeTime(first, s.earliest) != 0 && WakeTime(first, s.earliest) <= Deadline(s.timers[t])
    {
      KeyAt(s, t);
    }
  }

  /** Any two words that are not recent show while a timer nobody has touched is the root. */
  lemma AnyWords(timer0: int, earliest: int) returns (s: State)
    requires timer0 > 0 && (earliest == 0 || earliest > timer0)
    ensures Shows(s, timer0, earliest)
    ensures s.heap != [] && s.heap[0] == 0 && 0 in s.timers && s.timers[0] == In(timer0, 0, H.Waiting)
  {
    var one := State(map[0 := In(timer0, 0, H.Waiting)], [0], timer0, 0, Free);
    OneStarted(timer0);
    if earliest == 0 {
      s := one;
    } else {
      var two := State(Two(In(timer0, 0, H.Waiting), In(earliest + 1, 0, H.Waiting)), [0, 1], timer0, 0, Free);
      SecondStarted(timer0, earliest + 1);
      ModifiesEarlier(two, 1, earliest);
      s := AfterModify(two, 1, earliest);
      Transitive(Init, one, two);
      Transitive(Init, two, s);
    }
  }

  /** The load of check_timers says that nothing is due. */
  predicate TurnsBack(wake: int, now: int) {
    wake == 0 || now < wake
  }

  ghost predicate NoneDue(s: State, now: int) {
    forall t | t in s.heap && t in s.timers && Pending(s.timers[t]) :: now < Deadline(s.timers[t])
  }

  /** To be in time is to turn back only when nothing is due. */
  lemma InTimeMeansNoneDue(s: State, wake: int)
    ensures InTime(s, wake) <==> forall now | TurnsBack(wake, now) :: NoneDue(s, now)
  {
    if forall now | TurnsBack(wake, now) :: NoneDue(s, now) {
      forall t | t in s.heap && t in s.timers && Pending(s.timers[t])
        ensures wake != 0 && wake <= Deadline(s.timers[t])
      {
        var now := Deadline(s.timers[t]);
        assert !NoneDue(s, now);
        assert !TurnsBack(wake, now);
      }
    }
  }

  /**
   When check_timers turns back after its two loads, no pending timer is due, whatever the timers and
   the time are, exactly under the same condition.
  */
  lemma NothingDue(timer0: int, earliest: int, first: int)
    requires timer0 >= 0 && earliest >= 0 && first >= 0
    ensures Recent(timer0, earliest, first) <==>
              forall s, now | Shows(s, timer0, earliest) && TurnsBack(WakeTime(first, earliest), now) :: NoneDue(s, now)
  {
    var wake := WakeTime(first, earliest);
    StaleFirstLoad(timer0, earliest, first);
    if Recent(timer0, earliest, first) {
      forall s, now | Shows(s, timer0, earliest) && TurnsBack(wake, now)
        ensures NoneDue(s, now)
      {
        InTimeMeansNoneDue(s, wake);
      }
    } else {
      var s :| Shows(s, timer0, earliest) && !InTime(s, wake);
      InTimeMeansNoneDue(s, wake);
    }
  }

  // ---------------------------------------------------------------- a run in which it happens

  /** Two timers. */
  function Two(x: Timer, y: Timer): map<Id, Timer> {
    map[0 := x, 1 := y]
  }

  function In(when: int, nextwhen: int, status: H.Status): Timer {
    Timer(when, nextwhen, status, Idle)
  }

  lemma Heaps(m: map<Id, Timer>)
    ensures IsHeap(m, []) && IsHeap(m, [0]) && IsHeap(m, [1])
    ensures When(m, 0) <= When(m, 1) ==> IsHeap(m, [0, 1])
  {
    var s := Keys(m, [0, 1]);
    assert When(m, 0) <= When(m, 1) ==> H.Ordered(s, 1);
  }

  const Started := State(Two(In(100, 0, H.Waiting), In(200, 0, H.Waiting)), [0, 1], 100, 0, Free)
  const Both := State(Two(In(100, 5, H.ModifiedEarlier), In(200, 50, H.ModifiedEarlier)), [0, 1], 100, 5, Free)
  const Taken := State(Two(In(5, 5, H.Moving), In(50, 50, H.Moving)), [], 0, 0, Scan(10, 0, [0, 1]))
  const Ended := State(Two(In(5, 5, H.NoStatus), In(50, 50, H.Waiting)), [1], 50, 0, Free)

  /** A timer is started. */
  lemma OneStarted(when: int)
    requires when > 0
    ensures Reaches(Init, State(map[0 := In(when, 0, H.Waiting)], [0], when, 0, Free))
  {
    var x := In(when, 0, H.Waiting);
    var a := Init.(lock := Held(Adding));
    Acquires(Init, Init, Adding);
    var b := State(map[0 := x], [0], when, 0, Free);
    Heaps(b.timers);
    assert b.timers == a.timers[0 := x];
    HeldSteps(Init, a, Start(0, when, [0]), b.(lock := Held(Adding)));
    HeldSteps(Init, b.(lock := Held(Adding)), Release, b);
  }

  /** Another timer is started, not before the first. */
  lemma SecondStarted(when: int, second: int)
    requires 0 < when <= second
    ensures Reaches(State(map[0 := In(when, 0, H.Waiting)], [0], when, 0, Free),
                    State(Two(In(when, 0, H.Waiting), In(second, 0, H.Waiting)), [0, 1], when, 0, Free))
  {
    var b := State(map[0 := In(when, 0, H.Waiting)], [0], when, 0, Free);
    var c := State(Two(In(when, 0, H.Waiting), In(second, 0, H.Waiting)), [0, 1], when, 0, Free);
    Acquires(b, b, Adding);
    Heaps(c.timers);
    assert c.timers == b.timers[1 := In(second, 0, H.Waiting)];
    HeldSteps(b, b.(lock := Held(Adding)), Start(1, second, [0, 1]), c.(lock := Held(Adding)));
    HeldSteps(b, c.(lock := Held(Adding)), Release, c);
  }

  /** They are modified to run at 5 and at 50. */
  lemma BothModified()
    ensures Reaches(Started, Both)
  {
    ModifiesEarlier(Started, 0, 5);
    var a := AfterModify(Started, 0, 5);
    ModifiesEarlier(a, 1, 50);
    assert AfterModify(a, 1, 50).timers == Both.timers;
    Transitive(Started, a, Both);
  }

  /** At 10, check_timers finds that it is time for the first, and adjust_timers begins. */
  lemma AdjustBegins()
    ensures Reaches(Both, Both.(earliest := 0, lock := Scan(10, 0, [])))
  {
    Acquires(Both, Both, Adjusting(10));
    HeldSteps(Both, Both.(lock := Held(Adjusting(10))), CheckAdjust, Both.(lock := Zero(10)));
    AdjustSteps(Both, Both.(lock := Zero(10)), BeginAdjust, Both.(earliest := 0, lock := Scan(10, 0, [])));
  }

  /** It takes both timers out of the heap ... */
  lemma BothTaken()
    ensures Reaches(Both.(earliest := 0, lock := Scan(10, 0, [])), Taken)
  {
    var a := Both.(earliest := 0, lock := Scan(10, 0, []));
    var m := Two(In(5, 5, H.Moving), In(200, 50, H.ModifiedEarlier));
    var b := State(m, [1], 200, 0, Scan(10, 0, [0]));
    FirstTaken(a, b);
    SecondTaken(b);
    Transitive(a, b, Taken);
  }

  lemma FirstTaken(a: State, b: State)
    requires a == Both.(earliest := 0, lock := Scan(10, 0, []))
    requires b == State(Two(In(5, 5, H.Moving), In(200, 50, H.ModifiedEarlier)), [1], 200, 0, Scan(10, 0, [0]))
    ensures Reaches(a, b)
  {
    var seen := a.(lock := Look(10, 0, [], H.ModifiedEarlier));
    AdjustSteps(a, a, See, seen);
    FirstMoved(seen, b);
    AdjustSteps(a, seen, Take([1], 0), b);
  }

  lemma FirstMoved(seen: State, b: State)
    requires seen == Both.(earliest := 0, lock := Look(10, 0, [], H.ModifiedEarlier))
    requires b == State(Two(In(5, 5, H.Moving), In(200, 50, H.ModifiedEarlier)), [1], 200, 0, Scan(10, 0, [0]))
    ensures AdjustStep(seen, Take([1], 0), b)
  {
    Heaps(b.timers);
    assert b.timers == seen.timers[0 := In(5, 5, H.Moving)];
    assert [] + [0] == [0];
  }

  lemma SecondTaken(b: State)
    requires b == State(Two(In(5, 5, H.Moving), In(200, 50, H.ModifiedEarlier)), [1], 200, 0, Scan(10, 0, [0]))
    ensures Reaches(b, Taken)
  {
    var seen := b.(lock := Look(10, 0, [0], H.ModifiedEarlier));
    AdjustSteps(b, b, See, seen);
    Heaps(Taken.timers);
    assert Taken.timers == seen.timers[1 := In(50, 50, H.Moving)];
    assert [0] + [1] == [0, 1];
    AdjustSteps(b, seen, Take([], 0), Taken);
  }

  /** ... and puts them back in their places. */
  lemma BothReturned()
    ensures Reaches(Taken, State(Two(In(5, 5, H.Waiting), In(50, 50, H.Waiting)), [0, 1], 5, 0, Held(Running(10))))
  {
    var b := State(Two(In(5, 5, H.Waiting), In(50, 50, H.Moving)), [0], 5, 0, Return(10, [1]));
    FirstReturned(b);
    var c := State(Two(In(5, 5, H.Waiting), In(50, 50, H.Waiting)), [0, 1], 5, 0, Return(10, []));
    SecondReturned(b, c);
    Transitive(Taken, b, c);
    AdjustSteps(Taken, c, EndAdjust, c.(lock := Held(Running(10))));
  }

  lemma FirstReturned(b: State)
    requires b == State(Two(In(5, 5, H.Waiting), In(50, 50, H.Moving)), [0], 5, 0, Return(10, [1]))
    ensures Reaches(Taken, b)
  {
    var a := Taken.(lock := Return(10, [0, 1]));
    AdjustSteps(Taken, Taken, EndScan, a);
    Heaps(b.timers);
    assert b.timers == a.timers[0 := In(5, 5, H.Waiting)];
    assert [0, 1][1..] == [1];
    AdjustSteps(Taken, a, GiveBack([0]), b);
  }

  lemma SecondReturned(b: State, c: State)
    requires b == State(Two(In(5, 5, H.Waiting), In(50, 50, H.Moving)), [0], 5, 0, Return(10, [1]))
    requires c == State(Two(In(5, 5, H.Waiting), In(50, 50, H.Waiting)), [0, 1], 5, 0, Return(10, []))
    ensures Reaches(b, c)
  {
    Heaps(c.timers);
    assert c.timers == b.timers[1 := In(50, 50, H.Waiting)];
    assert [1][1..] == [];
    AdjustSteps(b, b, GiveBack([0, 1]), c);
  }

  /** run_timer runs the first timer; the lock is given up to call what it is for. */
  lemma FirstRun()
    ensures Reaches(State(Two(In(5, 5, H.Waiting), In(50, 50, H.Waiting)), [0, 1], 5, 0, Held(Running(10))), Ended)
  {
    var a := State(Two(In(5, 5, H.Waiting), In(50, 50, H.Waiting)), [0, 1], 5, 0, Held(Running(10)));
    var b := Ended.(lock := Held(Calling));
    Heaps(b.timers);
    assert b.timers == a.timers[0 := In(5, 5, H.NoStatus)];
    HeldSteps(a, a, RunOnce([1]), b);
    HeldSteps(a, b, Release, Ended);
  }

  lemma CheckedAt10()
    ensures Reaches(Both, Ended)
  {
    AdjustBegins();
    BothTaken();
    Transitive(Both, Both.(earliest := 0, lock := Scan(10, 0, [])), Taken);
    BothReturned();
    var a := State(Two(In(5, 5, H.Waiting), In(50, 50, H.Waiting)), [0, 1], 5, 0, Held(Running(10)));
    Transitive(Both, Taken, a);
    FirstRun();
    Transitive(Both, a, Ended);
  }

  /**
   Out of date means too late. Between the two loads, a check_timers at 10 moves a timer that was
   modified to run at 50 from under timer_modified_earliest to the root of the heap, runs another one,
   and gives up the lock to call it. The first load has seen 100 and the second sees 0, so the result
   is 100, and the timer that is waiting for 50 is missed.
  */
  lemma LoadsMissTimer() returns (run: seq<State>, j: nat, k: nat)
    ensures IsRun(run) && j < k < |run| && run[j].lock.Free? && run[k].lock.Free?
    ensures WakeTime(run[j].timer0, run[k].earliest) == 100
    ensures 1 in run[k].heap && 1 in run[k].timers && Pending(run[k].timers[1]) && Deadline(run[k].timers[1]) == 50
    ensures !InTime(run[j], 100) && !InTime(run[k], 100)
  {
    OneStarted(100);
    SecondStarted(100, 200);
    Transitive(Init, State(map[0 := In(100, 0, H.Waiting)], [0], 100, 0, Free), Started);
    BothModified();
    Transitive(Init, Started, Both);
    CheckedAt10();
    var a :| IsPath(a) && a[0] == Init && a[|a| - 1] == Both;
    var b :| IsPath(b) && b[0] == Both && b[|b| - 1] == Ended;
    Joined(a, b);
    run := a + b[1..];
    j, k := |a| - 1, |run| - 1;
    assert run[j] == Both && run[k] == Ended;
    assert 0 in run[j].heap && 1 in run[k].heap;
  }

  /** And a check_timers at 60 with these two loads turns back, though that timer is due. */
  lemma CheckMissesTimer() returns (run: seq<State>, j: nat, k: nat)
    ensures IsRun(run) && j < k < |run| && run[j].lock.Free? && run[k].lock.Free?
    ensures TurnsBack(WakeTime(run[j].timer0, run[k].earliest), 60) && !NoneDue(run[k], 60)
  {
    run, j, k := LoadsMissTimer();
  }
}
