/**
 When a CPU may sleep until: timers changed by any number of threads at once (kernel/thread/timer.c),
 one step for each access to a timer's status or to timer_modified_earliest. What the holder of the
 lock does to the heap in a step is what TimerHeap proves of the method it calls.
*/
module TimerWakeProtocol {
  import H = TimerHeap
  import opened Permutation
  import Period = TimerPeriod

  type Id = nat

  /** How far the thread that put a timer into TIMER_MODIFYING has come. */
  datatype Change =
    | Idle
    | Claimed(to: int)              // timer_modify, before it writes nextwhen
    | Recording                     // at the start of a round of update_timer_modified_earliest
    | Loaded(found: int)            // before its compare-and-exchange
    | Ready(earlier: bool)          // before the new status is stored
    | Stopping                      // timer_stop
    | Restarting                    // timer_modify of a timer in no heap, before it takes the lock
    | Restarted                     // ... and after

  datatype Timer = Timer(when: int, nextwhen: int, status: H.Status, change: Change)

  /** Why the lock is held, between two operations on the timers. */
  datatype Job =
    | Adding                // timer_start and timer_modify, and whoever takes the lock for a look only
    | Adjusting(now: int)   // check_timers, before adjust_timers
    | Running(now: int)     // ... in the loop around run_timer
    | Calling               // ... about to give up the lock to call what a timer is for
    | Cleaning              // ... after the loop

  /** What the holder of timers_lock is doing. */
  datatype Lock =
    | Free
    | Held(job: Job)
    | Zero(now: int)                                          // adjust_timers, before it stores zero
    | Scan(now: int, i: nat, moved: seq<Id>)                  // ... before it loads the i-th status
    | Look(now: int, i: nat, moved: seq<Id>, seen: H.Status)  // ... before its compare-and-exchange on it
    | Return(now: int, moved: seq<Id>)                        // add_adjusted_timers
    | Clear(rest: seq<Id>)                                    // clear_deleted_timers; the heap is what is packed

  datatype State = State(timers: map<Id, Timer>, heap: seq<Id>, timer0: int, earliest: int, lock: Lock)

  // ---------------------------------------------------------------- what it is for

  /** nobarrier_wake_time and the beginning of check_timers, given what they loaded. */
  function WakeTime(timer0: int, earliest: int): int {
    if timer0 == 0 || (earliest != 0 && earliest < timer0) then earliest else timer0
  }

  predicate Pending(t: Timer) {
    t.status.Waiting? || t.status.ModifiedEarlier? || t.status.ModifiedLater?
  }

  /** When a pending timer is to run. */
  function Deadline(t: Timer): int {
    if t.status.Waiting? then t.when else t.nextwhen
  }

  /** Whoever sleeps until this time oversleeps no timer. */
  ghost predicate InTime(s: State, wake: int) {
    forall t | t in s.heap && t in s.timers && Pending(s.timers[t]) :: wake != 0 && wake <= Deadline(s.timers[t])
  }

  // ---------------------------------------------------------------- steps

  function When(m: map<Id, Timer>, t: Id): int {
    if t in m then m[t].when else 0
  }

  function Keys(m: map<Id, Timer>, h: seq<Id>): (s: seq<int>)
    ensures |s| == |h| && forall k | 0 <= k < |h| :: s[k] == When(m, h[k])
  {
    seq(|h|, k requires 0 <= k < |h| => When(m, h[k]))
  }

  ghost predicate IsHeap(m: map<Id, Timer>, h: seq<Id>) {
    Distinct(h) && H.Heap(Keys(m, h), |h|)
  }

  function RootWhen(m: map<Id, Timer>, h: seq<Id>): int {
    if h == [] then 0 else When(m, h[0])
  }

  datatype Step =
      // threads that change a timer
    | Modify(t: Id, to: int)
    | Stop(t: Id)
    | Restart(t: Id, to: int)
    | Write(t: Id)
    | Load(t: Id)
    | Exchange(t: Id)
    | Publish(t: Id)
    | FinishStop(t: Id)
    | FinishRestart(t: Id)
      // the holder of the lock
    | Acquire(job: Job)
    | Release
    | Start(t: Id, when: int, h': seq<Id>)
    | AddRestarted(t: Id, h': seq<Id>)
    | DropRoot(h': seq<Id>)
    | RunOnce(h': seq<Id>)
    | RunPeriodic(period: int, h': seq<Id>)
    | EndRun
    | SkipAdjust
    | CheckAdjust
    | BeginAdjust
    | SeeWaiting
    | See
    | Miss
    | Drop(h': seq<Id>, changed: nat)
    | Take(h': seq<Id>, changed: nat)
    | EndScan
    | GiveBack(h': seq<Id>)
    | EndAdjust
    | BeginClear
    | ClearWaiting(h': seq<Id>)
    | ClearModified(h': seq<Id>)
    | ClearDeleted
    | EndClear

  predicate Modified(status: H.Status) {
    status.ModifiedEarlier? || status.ModifiedLater?
  }

  /** The steps of a thread that changes a timer, as seen by that timer. */
  predicate CanChange(t: Timer, step: Step) {
    match step
    case Modify(_, to) => t.change.Idle? && (t.status.Waiting? || Modified(t.status) || t.status.Deleted?) && to > 0
    case Stop(_) => t.change.Idle? && (t.status.Waiting? || Modified(t.status))
    case Restart(_, to) => t.change.Idle? && (t.status.NoStatus? || t.status.Removed?) && to > 0
    case Write(_) => t.change.Claimed?
    case Load(_) => t.change.Recording?
    case Exchange(_) => t.change.Loaded?
    case Publish(_) => t.change.Ready?
    case FinishStop(_) => t.change.Stopping?
    case FinishRestart(_) => t.change.Restarted?
    case _ => false
  }

  function Changed(t: Timer, earliest: int, step: Step): Timer
    requires CanChange(t, step)
  {
    match step
    case Modify(_, to) => t.(status := H.Modifying, change := Claimed(to))
    case Stop(_) => t.(status := H.Modifying, change := Stopping)
    case Restart(_, to) => t.(status := H.Modifying, change := Restarting, when := to)
    case Write(_) => t.(nextwhen := t.change.to, change := if t.change.to < t.when then Recording else Ready(false))
    case Load(_) => t.(change := if earliest != 0 && earliest < t.nextwhen then Ready(true) else Loaded(earliest))
    case Exchange(_) => t.(change := if earliest == t.change.found then Ready(true) else Recording)
    case Publish(_) => t.(status := if t.change.earlier then H.ModifiedEarlier else H.ModifiedLater, change := Idle)
    case FinishStop(_) => t.(status := H.Deleted, change := Idle)
    case FinishRestart(_) => t.(status := H.Waiting, change := Idle)
  }

  /** The step of a thread that changes timer t. */
  ghost predicate ChangeStep(s: State, step: Step, t: Id, s': State) {
    && t in s.timers && CanChange(s.timers[t], step) && step.t == t
    && s' == s.(timers := s.timers[t := Changed(s.timers[t], s.earliest, step)],
                earliest := if step.Exchange? && s.earliest == s.timers[t].change.found then s.timers[t].nextwhen
                    else s.earliest)
  }

  /** A new heap with its root recorded in timer0_when. */
  ghost predicate HeapStep(s: State, m: map<Id, Timer>, h': seq<Id>, lock: Lock, s': State) {
    IsHeap(m, h') && s' == s.(timers := m, heap := h', timer0 := RootWhen(m, h'), lock := lock)
  }

  /**
   The lock is taken to add a timer, or by check_timers, which comes back for more after it has run one.
   A check_timers whose first loads show that nothing is due does not take the lock at all.
  */
  predicate CanAcquire(job: Job) {
    job.Adding? || job.Adjusting? || job.Running?
  }

  /** run_timer would not run the root: there is none, or it is not yet due. */
  predicate NothingToRun(m: map<Id, Timer>, h: seq<Id>, now: int) {
    h == [] || (h[0] in m && m[h[0]].status.Waiting? && m[h[0]].when > now)
  }

  /** The lock is given up after a timer was added, before one is called, and at the end of check_timers. */
  ghost predicate ReleaseStep(s: State, job: Job, s': State) {
    (job.Adding? || job.Calling? || job.Cleaning?) && s' == s.(lock := Free)
  }

  /** timer_start, and timer_modify of a timer that is in no heap. */
  ghost predicate AddingStep(s: State, step: Step, s': State) {
    var m, h := s.timers, s.heap;
    match step
    case Start(t, when, h') =>
      && when > 0 && (t in m ==> m[t].change.Idle? && (m[t].status.NoStatus? || m[t].status.Removed?))
      && H.Added(h, h', t)
      && HeapStep(s, m[t := Timer(when, if t in m then m[t].nextwhen else 0, H.Waiting, Idle)], h', Held(Adding), s')
    case AddRestarted(t, h') =>
      && t in m && m[t].change.Restarting? && H.Added(h, h', t)
      && HeapStep(s, m[t := m[t].(change := Restarted)], h', Held(Adding), s')
    case _ => false
  }

  /** clean_timers and run_timer drop a deleted root; run_timer drops a root that has been modified, too. */
  ghost predicate DropRootStep(s: State, h': seq<Id>, s': State) {
    var m, h := s.timers, s.heap;
    && s.lock.Held? && (s.lock.job.Adding? || s.lock.job.Running?)
    && h != [] && h[0] in m && (m[h[0]].status.Deleted? || (s.lock.job.Running? && Modified(m[h[0]].status)))
    && H.TakenOut(h, h', 0, 0)
    && HeapStep(s, m[h[0] := m[h[0]].(status := H.Removed)], h', s.lock, s')
  }

  /** run_timer. */
  ghost predicate RunStep(s: State, now: int, step: Step, s': State) {
    var m, h := s.timers, s.heap;
    match step
    case RunOnce(h') =>
      && h != [] && h[0] in m && m[h[0]].status.Waiting? && m[h[0]].when <= now && H.TakenOut(h, h', 0, 0)
      && HeapStep(s, m[h[0] := m[h[0]].(status := H.NoStatus)], h', Held(Calling), s')
    case RunPeriodic(period, h') =>
      && h != [] && h[0] in m && m[h[0]].status.Waiting? && 0 < m[h[0]].when <= now <= Period.INT64_MAX
      && 0 < period <= Period.INT64_MAX && H.SameTimers(h, h')
      && HeapStep(s, m[h[0] := m[h[0]].(when := Period.NextRun(m[h[0]].when, period, now))], h', Held(Calling), s')
    case EndRun => NothingToRun(m, h, now) && s' == s.(lock := Held(Cleaning))
    case _ => false
  }

  /** The holder of the lock, between two operations on the timers. */
  ghost predicate HeldStep(s: State, step: Step, s': State) {
    s.lock.Held? &&
    match s.lock.job
    case Adding => AddingStep(s, step, s') || (step.Release? && ReleaseStep(s, Adding, s'))
    // adjust_timers turns back if the first timer modified to run earlier is not due
    case Adjusting(now) =>
      if s.earliest == 0 || s.earliest > now || s.heap == []
      then step.SkipAdjust? && s' == s.(lock := Held(Running(now)))
      else step.CheckAdjust? && s' == s.(lock := Zero(now))
    case Running(now) => RunStep(s, now, step, s')
    case Calling => step.Release? && ReleaseStep(s, Calling, s')
    case Cleaning =>
      || (step.Release? && ReleaseStep(s, Cleaning, s'))
      || (step.BeginClear? && s' == s.(earliest := 0, heap := [], lock := Clear(s.heap)))
  }

  /** adjust_timers, from the store of zero on. */
  ghost predicate AdjustStep(s: State, step: Step, s': State) {
    var m, h := s.timers, s.heap;
    match s.lock
    case Zero(now) => step.BeginAdjust? && s' == s.(earliest := 0, lock := Scan(now, 0, []))
    case Scan(now, i, moved) =>
      (match step
       case SeeWaiting => i < |h| && h[i] in m && m[h[i]].status.Waiting? && s' == s.(lock := Scan(now, i + 1, moved))
       case See =>
         && i < |h| && h[i] in m && (m[h[i]].status.Deleted? || Modified(m[h[i]].status))
         && s' == s.(lock := Look(now, i, moved, m[h[i]].status))
       case EndScan => i >= |h| && s' == s.(lock := Return(now, moved))
       case _ => false)
    case Look(now, i, moved, seen) =>
      i < |h| && h[i] in m &&
      (var t := h[i];
       match step
       case Miss => m[t].status != seen && s' == s.(lock := Scan(now, i + 1, moved))
       case Drop(h', changed) =>
         && seen.Deleted? && m[t].status == seen && H.TakenOut(h, h', i, changed)
         && HeapStep(s, m[t := m[t].(status := H.Removed)], h', Scan(now, changed, moved), s')
       case Take(h', changed) =>
         && Modified(seen) && m[t].status == seen && H.TakenOut(h, h', i, changed)
         && HeapStep(s, m[t := m[t].(status := H.Moving, when := m[t].nextwhen)], h', Scan(now, changed, moved + [t]),
             s')
       case _ => false)
    case Return(now, moved) =>
      (match step
       case GiveBack(h') =>
         && moved != [] && moved[0] in m && H.Added(h, h', moved[0])
         && HeapStep(s, m[moved[0] := m[moved[0]].(status := H.Waiting)], h', Return(now, moved[1..]), s')
       case EndAdjust => moved == [] && s' == s.(lock := Held(Running(now)))
       case _ => false)
    case _ => false
  }

  /** clear_deleted_timers; timer0_when is up to date again only at its end. */
  ghost predicate ClearStep(s: State, step: Step, s': State) {
    && s.lock.Clear?
    && var m, h, rest := s.timers, s.heap, s.lock.rest;
       if step.EndClear? then
         rest == [] && s' == s.(timer0 := RootWhen(m, h), lock := Held(Cleaning))
       else
         && rest != [] && rest[0] in m
         && var t := rest[0];
            match step
            case ClearWaiting(h') =>
              m[t].status.Waiting? && H.Added(h, h', t) && IsHeap(m, h')
                  && s' == s.(heap := h', lock := Clear(rest[1..]))
            case ClearModified(h') =>
              && Modified(m[t].status) && H.Added(h, h', t)
              && var m' := m[t := m[t].(status := H.Waiting, when := m[t].nextwhen)];
                 IsHeap(m', h') && s' == s.(timers := m', heap := h', lock := Clear(rest[1..]))
            case ClearDeleted =>
              m[t].status.Deleted? && s' == s.(timers := m[t := m[t].(status := H.Removed)], lock := Clear(rest[1..]))
            case _ => false
  }

  ghost predicate Next(s: State, step: Step, s': State) {
    || (exists t :: ChangeStep(s, step, t, s'))
    || (step.Acquire? && CanAcquire(step.job) && s.lock.Free? && s' == s.(lock := Held(step.job)))
    || HeldStep(s, step, s')
    || (step.DropRoot? && DropRootStep(s, step.h', s'))
    || AdjustStep(s, step, s')
    || ClearStep(s, step, s')
  }

  const Init := State(map[], [], 0, 0, Free)

  ghost predicate IsRun(run: seq<State>) {
    IsPath(run) && run[0] == Init
  }

  ghost predicate IsPath(run: seq<State>) {
    run != [] && forall k | 0 <= k < |run| - 1 :: Follows(run[k], run[k + 1])
  }

  ghost predicate Follows(s: State, s': State) {
    exists step :: Next(s, step, s')
  }

  // ---------------------------------------------------------------- the invariant

  function Outside(s: State): seq<Id> {
    match s.lock
    case Scan(_, _, moved) => moved
    case Look(_, _, moved, _) => moved
    case Return(_, moved) => moved
    case _ => []
  }

  function Rest(s: State): seq<Id> {
    if s.lock.Clear? then s.lock.rest else []
  }

  /** The timers are in the places their states say. */
  ghost predicate Places(m: map<Id, Timer>, heap: seq<Id>, rest: seq<Id>, outside: seq<Id>) {
    && IsHeap(m, heap) && Distinct(rest) && Distinct(outside)
    && (forall t | t in heap :: t !in rest && t !in outside)
    && (forall t | t in heap || t in rest :: t in m && InHeap(m[t]))
    && (forall t | t in outside :: t in m && Away(m[t]))
    && (forall t | t in m && t !in heap && t !in rest && t !in outside :: InNoHeap(m[t]))
  }

  predicate InHeap(t: Timer) {
    && t.when > 0
    && match t.change
       case Idle =>
         || t.status.Waiting? || t.status.Deleted?
         || (t.status.ModifiedEarlier? && 0 < t.nextwhen < t.when) || (t.status.ModifiedLater? && t.when <= t.nextwhen)
       case Claimed(to) => t.status.Modifying? && to > 0
       case Recording => t.status.Modifying? && 0 < t.nextwhen < t.when
       case Loaded(found) => t.status.Modifying? && 0 < t.nextwhen < t.when && (found == 0 || t.nextwhen <= found)
       case Ready(earlier) => t.status.Modifying? && 0 < t.nextwhen && (earlier <==> t.nextwhen < t.when)
       case Stopping => t.status.Modifying?
       case Restarting => false
       case Restarted => t.status.Modifying?
  }

  predicate Away(t: Timer) {
    t.when > 0 && t.status.Moving? && t.change.Idle?
  }

  predicate InNoHeap(t: Timer) {
    || (t.change.Idle? && (t.status.NoStatus? || t.status.Removed?))
    || (t.change.Restarting? && t.status.Modifying? && t.when > 0)
  }

  /** timer_modified_earliest accounts for a timer that was modified to run earlier. */
  predicate Covered(t: Timer, earliest: int) {
    t.status.ModifiedEarlier? || t.change == Ready(true) ==> earliest != 0 && earliest <= t.nextwhen
  }

  ghost predicate AllCovered(m: map<Id, Timer>, h: seq<Id>, earliest: int) {
    forall t | t in h && t in m :: Covered(m[t], earliest)
  }

  /** The first n timers of the heap are accounted for. */
  ghost predicate FirstCovered(m: map<Id, Timer>, h: seq<Id>, n: int, earliest: int) {
    n <= |h| && forall k | 0 <= k < n && h[k] in m :: Covered(m[h[k]], earliest)
  }

  /** All timers are accounted for, but those that adjust_timers or clear_deleted_timers has still to look at. */
  ghost predicate Coverage(s: State) {
    match s.lock
    case Scan(_, i, _) => FirstCovered(s.timers, s.heap, i, s.earliest)
    case Look(_, i, _, seen) =>
      && FirstCovered(s.timers, s.heap, i, s.earliest) && i < |s.heap| && s.heap[i] in s.timers
      && (seen.Deleted? || Modified(seen))
      && (Covered(s.timers[s.heap[i]], s.earliest) || s.timers[s.heap[i]].status == seen)
    case _ => AllCovered(s.timers, s.heap, s.earliest)
  }

  ghost predicate Inv(s: State) {
    && Places(s.timers, s.heap, Rest(s), Outside(s))
    && (s.lock.Clear? || s.timer0 == RootWhen(s.timers, s.heap))
    && s.earliest >= 0 && Coverage(s)
  }

  // ---------------------------------------------------------------- threads that change timers

  lemma OtherKeys(m: map<Id, Timer>, h: seq<Id>, t: Id, x: Timer)
    requires t !in h || When(m, t) == x.when
    ensures Keys(m[t := x], h) == Keys(m, h)
  {
  }

  lemma OneChanged(t: Timer, earliest: int, step: Step)
    requires CanChange(t, step)
    ensures var u := Changed(t, earliest, step);
            && !Away(t)
            && (InHeap(t) ==> InHeap(u) && u.when == t.when)
            && (InNoHeap(t) ==> InNoHeap(u))
  {
  }

  lemma {:induction false} ChangePlaces(m: map<Id, Timer>, heap: seq<Id>, rest: seq<Id>, outside: seq<Id>, t: Id,
                                        u: Timer)
    requires Places(m, heap, rest, outside) && t in m && t !in outside
    requires InHeap(m[t]) ==> InHeap(u) && u.when == m[t].when
    requires InNoHeap(m[t]) ==> InNoHeap(u)
    ensures Places(m[t := u], heap, rest, outside)
  {
    OtherKeys(m, heap, t, u);
  }

  /** What the step of a thread does to timer_modified_earliest. */
  function EarliestAfter(t: Timer, earliest: int, step: Step): int
    requires CanChange(t, step)
  {
    if step.Exchange? && earliest == t.change.found then t.nextwhen else earliest
  }

  lemma StaysCovered(t: Timer, u: Timer, earliest: int, step: Step)
    requires CanChange(u, step) && InHeap(u) && Covered(t, earliest)
    ensures Covered(t, EarliestAfter(u, earliest, step))
  {
  }

  lemma ItselfCovered(t: Timer, earliest: int, step: Step)
    requires CanChange(t, step) && InHeap(t)
    requires Covered(t, earliest) || t.status.Deleted? || Modified(t.status)
    ensures Covered(Changed(t, earliest, step), EarliestAfter(t, earliest, step))
  {
  }

  lemma InNoHeapKeepsEarliest(t: Timer, earliest: int, step: Step)
    requires CanChange(t, step) && InNoHeap(t)
    ensures EarliestAfter(t, earliest, step) == earliest
  {
  }

  lemma ChangeCovers(m: map<Id, Timer>, h: seq<Id>, n: int, earliest: int, step: Step, t: Id)
    requires t in m && CanChange(m[t], step) && FirstCovered(m, h, n, earliest) && (InHeap(m[t]) || InNoHeap(m[t]))
    requires t in h ==> InHeap(m[t])
    ensures FirstCovered(m[t := Changed(m[t], earliest, step)], h, n, EarliestAfter(m[t], earliest, step))
  {
    var u, e := Changed(m[t], earliest, step), EarliestAfter(m[t], earliest, step);
    forall k | 0 <= k < n && h[k] in m
      ensures Covered(m[t := u][h[k]], e)
    {
      if h[k] == t {
        ItselfCovered(m[t], earliest, step);
      } else if InHeap(m[t]) {
        StaysCovered(m[h[k]], m[t], earliest, step);
      } else {
        InNoHeapKeepsEarliest(m[t], earliest, step);
      }
    }
  }

  lemma AllAreFirst(m: map<Id, Timer>, h: seq<Id>, earliest: int)
    ensures AllCovered(m, h, earliest) <==> FirstCovered(m, h, |h|, earliest)
  {
    if FirstCovered(m, h, |h|, earliest) {
      forall t | t in h && t in m
        ensures Covered(m[t], earliest)
      {
        var k :| 0 <= k < |h| && h[k] == t;
      }
    }
  }

  lemma ChangeKeepsInv(s: State, step: Step, t: Id, s': State)
    requires Inv(s) && ChangeStep(s, step, t, s')
    ensures Inv(s')
  {
    var m, h := s.timers, s.heap;
    var x := m[t];
    var u, e := Changed(x, s.earliest, step), EarliestAfter(x, s.earliest, step);
    OneChanged(x, s.earliest, step);
    ChangePlaces(m, h, Rest(s), Outside(s), t, u);
    AllAreFirst(m, h, s.earliest);
    AllAreFirst(s'.timers, h, e);
    var n := if s.lock.Scan? || s.lock.Look? then s.lock.i else |h|;
    ChangeCovers(m, h, n, s.earliest, step, t);
    if s.lock.Look? {
      var y := h[n];
      if y == t {
        ItselfCovered(x, s.earliest, step);
      } else if Covered(m[y], s.earliest) && InHeap(x) {
        StaysCovered(m[y], x, s.earliest, step);
      } else if InNoHeap(x) {
        InNoHeapKeepsEarliest(x, s.earliest, step);
      }
    }
  }

  // ---------------------------------------------------------------- the holder of the lock

  lemma AddedPlaces(m: map<Id, Timer>, heap: seq<Id>, rest: seq<Id>, outside: seq<Id>, t: Id, x: Timer, h': seq<Id>,
                    rest': seq<Id>, outside': seq<Id>)
    requires Places(m, heap, rest, outside) && H.Added(heap, h', t) && InHeap(x) && IsHeap(m[t := x], h')
    requires Distinct(rest') && Distinct(outside')
    requires (forall y :: y in rest' <==> y in rest && y != t)
             && (forall y :: y in outside' <==> y in outside && y != t)
    ensures Places(m[t := x], h', rest', outside')
  {
  }

  lemma RemovedPlaces(m: map<Id, Timer>, heap: seq<Id>, outside: seq<Id>, i: nat, changed: nat, x: Timer, h': seq<Id>,
                      outside': seq<Id>)
    requires Places(m, heap, [], outside) && H.TakenOut(heap, h', i, changed) && IsHeap(m[heap[i] := x], h')
    requires if InNoHeap(x) then outside' == outside else Away(x) && outside' == outside + [heap[i]]
    ensures Places(m[heap[i] := x], h', [], outside')
  {
    assert heap[i] in heap;
  }

  lemma FirstIsNew(s: seq<Id>)
    requires s != [] && Distinct(s)
    ensures Distinct(s[1..]) && forall y :: y in s[1..] <==> y in s && y != s[0]
  {
    assert s == [s[0]] + s[1..];
  }

  lemma AddedCovers(m: map<Id, Timer>, h: seq<Id>, t: Id, x: Timer, h': seq<Id>, earliest: int)
    requires AllCovered(m, h, earliest) && H.Added(h, h', t) && Covered(x, earliest) && forall y | y in h :: y in m
    ensures AllCovered(m[t := x], h', earliest)
  {
  }

  lemma RemovedCovers(m: map<Id, Timer>, h: seq<Id>, i: nat, changed: nat, x: Timer, h': seq<Id>, earliest: int)
    requires H.TakenOut(h, h', i, changed) && forall y | y in h :: y in m
    ensures FirstCovered(m, h, i, earliest) ==> FirstCovered(m[h[i] := x], h', changed, earliest)
    ensures AllCovered(m, h, earliest) ==> AllCovered(m[h[i] := x], h', earliest)
  {
    if FirstCovered(m, h, i, earliest) {
      forall k | 0 <= k < changed
        ensures h'[k] == h[k] && h'[k] != h[i]
      {
        assert h'[k] in h';
      }
    }
  }

  lemma HeldKeepsInv(s: State, step: Step, s': State)
    requires Inv(s) && HeldStep(s, step, s')
    ensures Inv(s')
  {
    match s.lock.job
    case Adding =>
      if !step.Release? {
        AddingKeepsInv(s, step, s');
      }
    case Running(now) => RunKeepsInv(s, now, step, s');
    case Cleaning =>
      if step.BeginClear? {
        BeginClearKeepsInv(s, s');
      }
    case _ =>
  }

  lemma AddingKeepsInv(s: State, step: Step, s': State)
    requires Inv(s) && s.lock.Held? && AddingStep(s, step, s')
    ensures Inv(s')
  {
    var m, h := s.timers, s.heap;
    match step
    case Start(t, when, h') =>
      var x := Timer(when, if t in m then m[t].nextwhen else 0, H.Waiting, Idle);
      AddedPlaces(m, h, [], [], t, x, h', [], []);
      AddedCovers(m, h, t, x, h', s.earliest);
    case AddRestarted(t, h') =>
      var x := m[t].(change := Restarted);
      AddedPlaces(m, h, [], [], t, x, h', [], []);
      AddedCovers(m, h, t, x, h', s.earliest);
  }

  lemma DropRootKeepsInv(s: State, h': seq<Id>, s': State)
    requires Inv(s) && DropRootStep(s, h', s')
    ensures Inv(s')
  {
    var m, h := s.timers, s.heap;
    var x := m[h[0]].(status := H.Removed);
    RemovedPlaces(m, h, [], 0, 0, x, h', []);
    RemovedCovers(m, h, 0, 0, x, h', s.earliest);
  }

  lemma RunKeepsInv(s: State, now: int, step: Step, s': State)
    requires Inv(s) && s.lock.Held? && RunStep(s, now, step, s')
    ensures Inv(s')
  {
    var m, h := s.timers, s.heap;
    match step
    case RunOnce(h') =>
      var x := m[h[0]].(status := H.NoStatus);
      RemovedPlaces(m, h, [], 0, 0, x, h', []);
      RemovedCovers(m, h, 0, 0, x, h', s.earliest);
    case RunPeriodic(period, h') =>
      RunPeriodicKeepsInv(s, Period.NextRun(m[h[0]].when, period, now), h', s');
    case EndRun =>
  }

  lemma RunPeriodicKeepsInv(s: State, next: int, h': seq<Id>, s': State)
    requires Inv(s) && s.lock.Held? && s.heap != [] && s.heap[0] in s.timers && s.timers[s.heap[0]].status.Waiting?
    requires next > 0 && H.SameTimers(s.heap, h')
    requires HeapStep(s, s.timers[s.heap[0] := s.timers[s.heap[0]].(when := next)], h', Held(Calling), s')
    ensures Inv(s')
  {
    assert s.heap[0] in s.heap;
  }

  lemma BeginClearKeepsInv(s: State, s': State)
    requires Inv(s) && s.lock.Held? && s' == s.(earliest := 0, heap := [], lock := Clear(s.heap))
    ensures Inv(s')
  {
  }

  lemma AdjustKeepsInv(s: State, step: Step, s': State)
    requires Inv(s) && AdjustStep(s, step, s')
    ensures Inv(s')
  {
    match step
    case Drop(_, _) => DropKeepsInv(s, step, s');
    case Take(_, _) => TakeKeepsInv(s, step, s');
    case GiveBack(_) => GiveBackKeepsInv(s, step, s');
    case EndScan => AllAreFirst(s.timers, s.heap, s.earliest);
    case _ =>
  }

  lemma DropKeepsInv(s: State, step: Step, s': State)
    requires Inv(s) && step.Drop? && AdjustStep(s, step, s')
    ensures Inv(s')
  {
    var m, h, i := s.timers, s.heap, s.lock.i;
    var x := m[h[i]].(status := H.Removed);
    RemovedPlaces(m, h, s.lock.moved, i, step.changed, x, step.h', s.lock.moved);
    RemovedCovers(m, h, i, step.changed, x, step.h', s.earliest);
  }

  lemma TakeKeepsInv(s: State, step: Step, s': State)
    requires Inv(s) && step.Take? && AdjustStep(s, step, s')
    ensures Inv(s')
  {
    var m, h, i := s.timers, s.heap, s.lock.i;
    var x := m[h[i]].(status := H.Moving, when := m[h[i]].nextwhen);
    RemovedPlaces(m, h, s.lock.moved, i, step.changed, x, step.h', s.lock.moved + [h[i]]);
    RemovedCovers(m, h, i, step.changed, x, step.h', s.earliest);
  }

  lemma GiveBackKeepsInv(s: State, step: Step, s': State)
    requires Inv(s) && step.GiveBack? && AdjustStep(s, step, s')
    ensures Inv(s')
  {
    var m, h, moved := s.timers, s.heap, s.lock.moved;
    var x := m[moved[0]].(status := H.Waiting);
    FirstIsNew(moved);
    AddedPlaces(m, h, [], moved, moved[0], x, step.h', [], moved[1..]);
    AddedCovers(m, h, moved[0], x, step.h', s.earliest);
  }

  /** A timer of the rest becomes x and is packed. */
  lemma PackKeepsInv(s: State, x: Timer, h': seq<Id>, s': State)
    requires Inv(s) && s.lock.Clear? && s.lock.rest != []
    requires var t := s.lock.rest[0];
             && H.Added(s.heap, h', t) && InHeap(x) && Covered(x, s.earliest) && IsHeap(s.timers[t := x], h')
             && s' == s.(timers := s.timers[t := x], heap := h', lock := Clear(s.lock.rest[1..]))
    ensures Inv(s')
  {
    var rest := s.lock.rest;
    FirstIsNew(rest);
    AddedPlaces(s.timers, s.heap, rest, [], rest[0], x, h', rest[1..], []);
    AddedCovers(s.timers, s.heap, rest[0], x, h', s.earliest);
  }

  lemma ClearKeepsInv(s: State, step: Step, s': State)
    requires Inv(s) && ClearStep(s, step, s')
    ensures Inv(s')
  {
    if !step.EndClear? {
      var m, t := s.timers, s.lock.rest[0];
      match step
      case ClearWaiting(h') =>
        assert m == m[t := m[t]];
        PackKeepsInv(s, m[t], h', s');
      case ClearModified(h') =>
        PackKeepsInv(s, m[t].(status := H.Waiting, when := m[t].nextwhen), h', s');
      case ClearDeleted =>
        ClearDeletedKeepsInv(s, s');
    }
  }

  lemma ClearDeletedKeepsInv(s: State, s': State)
    requires Inv(s) && ClearStep(s, ClearDeleted, s')
    ensures Inv(s')
  {
    var t := s.lock.rest[0];
    FirstIsNew(s.lock.rest);
    OtherKeys(s.timers, s.heap, t, s.timers[t].(status := H.Removed));
  }

  // ---------------------------------------------------------------- over whole runs

  lemma NextKeepsInv(s: State, s': State)
    requires Inv(s) && Follows(s, s')
    ensures Inv(s')
  {
    var step :| Next(s, step, s');
    if t :| ChangeStep(s, step, t, s') {
      ChangeKeepsInv(s, step, t, s');
    } else if HeldStep(s, step, s') {
      HeldKeepsInv(s, step, s');
    } else if step.DropRoot? && DropRootStep(s, step.h', s') {
      DropRootKeepsInv(s, step.h', s');
    } else if AdjustStep(s, step, s') {
      AdjustKeepsInv(s, step, s');
    } else if ClearStep(s, step, s') {
      ClearKeepsInv(s, step, s');
    }
  }

  lemma {:induction false} RunInv(run: seq<State>, k: nat)
    requires IsRun(run) && k < |run|
    ensures Inv(run[k])
  {
    if k > 0 {
      RunInv(run, k - 1);
      assert Follows(run[k - 1], run[k]);
      NextKeepsInv(run[k - 1], run[k]);
    }
  }

  lemma KeyAt(s: State, t: Id)
    requires Inv(s) && t in s.heap && !s.lock.Clear?
    ensures s.timer0 <= s.timers[t].when
  {
    var k :| 0 <= k < |s.heap| && s.heap[k] == t;
    H.HeapRoot(Keys(s.timers, s.heap), |s.heap|, k);
  }

  /** Whenever nobody holds the lock, no pending timer is due before the wake-up time. */
  lemma NeverOversleeps(run: seq<State>, k: nat)
    requires IsRun(run) && k < |run| && run[k].lock.Free?
    ensures InTime(run[k], WakeTime(run[k].timer0, run[k].earliest))
  {
    var s := run[k];
    RunInv(run, k);
    forall t | t in s.heap && t in s.timers && Pending(s.timers[t])
      ensures WakeTime(s.timer0, s.earliest) != 0 && WakeTime(s.timer0, s.earliest) <= Deadline(s.timers[t])
    {
      KeyAt(s, t);
    }
  }

  /** timer0_when is the time of the root, which no timer in the heap precedes; it is zero only for an empty heap. */
  lemma Timer0IsRoot(run: seq<State>, k: nat)
    requires IsRun(run) && k < |run| && !run[k].lock.Clear?
    ensures var s := run[k];
            && s.timer0 == RootWhen(s.timers, s.heap) && (s.timer0 == 0 <==> s.heap == [])
            && forall t | t in s.heap :: t in s.timers && s.timer0 <= s.timers[t].when
  {
    var s := run[k];
    RunInv(run, k);
    forall t | t in s.heap
      ensures t in s.timers && s.timer0 <= s.timers[t].when
    {
      KeyAt(s, t);
    }
    if s.heap != [] {
      assert s.heap[0] in s.heap;
    }
  }

  /** adjust_timers has looked at the i-th timer since it stored zero, or nobody has stored zero. */
  predicate LookedAt(lock: Lock, i: nat) {
    match lock
    case Scan(_, n, _) => i < n
    case Look(_, n, _, _) => i < n
    case _ => true
  }

  /**
   timer_modified_earliest is not zero, and not later than any timer of the heap that was modified to
   run earlier, except for those that adjust_timers or clear_deleted_timers has still to look at.
  */
  lemma EarliestIsBound(run: seq<State>, k: nat, i: nat)
    requires IsRun(run) && k < |run| && i < |run[k].heap| && LookedAt(run[k].lock, i)
    ensures var s, t := run[k], run[k].heap[i];
            t in s.timers && (s.timers[t].status.ModifiedEarlier? ==> 0 != s.earliest <= s.timers[t].nextwhen)
  {
    var s, t := run[k], run[k].heap[i];
    RunInv(run, k);
    assert t in s.heap;
    assert Covered(s.timers[t], s.earliest);
  }

  // ---------------------------------------------------------------- runs from a state

  /** s' can be reached from s. */
  ghost predicate Reaches(s: State, s': State) {
    exists path :: IsPath(path) && path[0] == s && path[|path| - 1] == s'
  }

  lemma Later(s: State, a: State, b: State)
    requires (s == a || Reaches(s, a)) && Follows(a, b)
    ensures Reaches(s, b)
  {
    var path := [a];
    if s != a {
      path :| IsPath(path) && path[0] == s && path[|path| - 1] == a;
    }
    Joined(path, [a, b]);
    assert (path + [a, b][1..])[|path|] == b;
  }

  lemma Joined(a: seq<State>, b: seq<State>)
    requires IsPath(a) && IsPath(b) && a[|a| - 1] == b[0]
    ensures IsPath(a + b[1..])
  {
    var c := a + b[1..];
    forall k | 0 <= k < |c| - 1
      ensures Follows(c[k], c[k + 1])
    {
      if k >= |a| - 1 {
        assert Follows(b[k - (|a| - 1)], b[k - (|a| - 1) + 1]);
      }
    }
  }

  lemma Transitive(s: State, a: State, b: State)
    requires Reaches(s, a) && Reaches(a, b)
    ensures Reaches(s, b)
  {
    var x :| IsPath(x) && x[0] == s && x[|x| - 1] == a;
    var y :| IsPath(y) && y[0] == a && y[|y| - 1] == b;
    Joined(x, y);
    assert |y| == 1 ==> x + y[1..] == x;
    assert (x + y[1..])[0] == s && (x + y[1..])[|x + y[1..]| - 1] == b;
  }

  /** Every state of a run can be reached. */
  lemma RunReaches(run: seq<State>, k: nat)
    requires IsRun(run) && k < |run|
    ensures Reaches(Init, run[k])
  {
    var path := run[..k + 1];
    assert IsPath(path) && path[0] == Init && path[|path| - 1] == run[k];
  }

  lemma ReachedInTime(s: State)
    requires Reaches(Init, s) && s.lock.Free?
    ensures Inv(s) && InTime(s, WakeTime(s.timer0, s.earliest))
  {
    var path :| IsPath(path) && path[0] == Init && path[|path| - 1] == s;
    RunInv(path, |path| - 1);
    NeverOversleeps(path, |path| - 1);
  }

  lemma Acquires(s: State, a: State, job: Job)
    requires (s == a || Reaches(s, a)) && a.lock.Free? && CanAcquire(job)
    ensures Reaches(s, a.(lock := Held(job)))
  {
    var b := a.(lock := Held(job));
    assert Next(a, Acquire(job), b);
    Later(s, a, b);
  }

  lemma HeldSteps(s: State, a: State, step: Step, b: State)
    requires (s == a || Reaches(s, a)) && HeldStep(a, step, b)
    ensures Reaches(s, b)
  {
    assert Next(a, step, b);
    Later(s, a, b);
  }

  lemma AdjustSteps(s: State, a: State, step: Step, b: State)
    requires (s == a || Reaches(s, a)) && AdjustStep(a, step, b)
    ensures Reaches(s, b)
  {
    assert Next(a, step, b);
    Later(s, a, b);
  }

  lemma ChangeSteps(s: State, a: State, t: Id, step: Step, b: State)
    requires (s == a || Reaches(s, a)) && ChangeStep(a, step, t, b)
    ensures Reaches(s, b)
  {
    assert Next(a, step, b);
    Later(s, a, b);
  }

  /** The state after timer_modify of a waiting timer to an earlier time. */
  function AfterModify(s: State, t: Id, to: int): State
    requires t in s.timers
  {
    s.(timers := s.timers[t := s.timers[t].(nextwhen := to, status := H.ModifiedEarlier)],
       earliest := if s.earliest != 0 && s.earliest < to then s.earliest else to)
  }

  /** timer_modify, with nobody interfering. */
  lemma ModifiesEarlier(s: State, t: Id, to: int)
    requires t in s.timers && s.timers[t].change.Idle? && s.timers[t].status.Waiting? && 0 < to < s.timers[t].when
    ensures Reaches(s, AfterModify(s, t, to))
  {
    var x := s.timers[t];
    var a := s.(timers := s.timers[t := x.(status := H.Modifying, change := Claimed(to))]);
    ChangeSteps(s, s, t, Modify(t, to), a);
    var b := s.(timers := s.timers[t := x.(status := H.Modifying, nextwhen := to, change := Recording)]);
    assert b.timers == a.timers[t := b.timers[t]];
    ChangeSteps(s, a, t, Write(t), b);
    var y := x.(status := H.Modifying, nextwhen := to, change := Ready(true));
    var d := s.(timers := s.timers[t := y], earliest := AfterModify(s, t, to).earliest);
    if s.earliest != 0 && s.earliest < to {
      assert d.timers == b.timers[t := y];
      ChangeSteps(s, b, t, Load(t), d);
    } else {
      var c := s.(timers := s.timers[t := y.(change := Loaded(s.earliest))]);
      assert c.timers == b.timers[t := c.timers[t]] && d.timers == c.timers[t := y];
      ChangeSteps(s, b, t, Load(t), c);
      ChangeSteps(s, c, t, Exchange(t), d);
    }
    assert AfterModify(s, t, to).timers == d.timers[t := AfterModify(s, t, to).timers[t]];
    ChangeSteps(s, d, t, Publish(t), AfterModify(s, t, to));
  }
}
