/**
 The mutex of kernel/sync/mutex.c as a transition system: any finite number of threads, one
 step per atomic access of the state word, over the token semaphore of SemaphoreSpec.

 The state word is kept decoded here (Word); MutexWord.dfy shows that the packed 32-bit word
 of the source, with its additions, subtractions and bit masks, does the same.
*/
module MutexProtocol {
  import opened Counting
  import Spec = SemaphoreSpec

  type Thread = nat

  datatype Word = Word(locked: bool, woken: bool, starving: bool, waiters: nat)

  const ZERO := Word(false, false, false, 0)

  /** Where a thread is, with the locals it still needs. `seen` is a copy of the word read earlier. */
  datatype Locals<W> =
    | Idle
    | LockLoad(awoke: bool, starving: bool)             // about to read the word
    | LockTry(seen: W, awoke: bool, starving: bool)   // about to CAS from seen
    | Acquire(starving: bool)                           // inside semaphore_acquire, without a token
    | Acquired(starving: bool)                          // has the token, about to re-read the word
    | TakeHandOff(seen: W, starving: bool)            // saw STARVING, about to add the delta
    | TryLockCas(seen: W)
    | Held
    | UnlockTry(seen: W)                              // slow path, about to test seen and CAS from it
    | UnlockLoad                                        // slow path, about to re-read the word
    | Wake                                              // won the right to wake, about to release
    | HandOff                                           // starving unlock, about to release

  type Pc = Locals<Word>

  /** What the threads share: the state word and the semaphore's tokens. */
  datatype Shared = Shared(word: Word, tokens: nat)

  datatype State = State(shared: Shared, pc: map<Thread, Pc>)

  ghost predicate Init(s: State) {
    s.shared == Shared(ZERO, 0) && forall t | t in s.pc :: s.pc[t] == Idle
  }

  // ---------------------------------------------------------------- the code's computations

  /** No waiter to wake, or somebody else will take care of it: mutex_unlock_slow returns. */
  predicate NothingToWake(seen: Word) {
    seen.waiters == 0 || seen.locked || seen.woken || seen.starving
  }

  /** The word that mutex_lock_slow tries to install over seen. */
  function LockTarget(seen: Word, awoke: bool, starving: bool): Word {
    Word(seen.locked || !seen.starving,
         seen.woken && !awoke,
         seen.starving || (starving && seen.locked),
         if seen.locked || seen.starving then seen.waiters + 1 else seen.waiters)
  }

  /** May a spinning thread announce itself by setting WOKEN over seen? */
  predicate MaySpinAwake(seen: Word, awoke: bool) {
    seen.locked && !seen.starving && !awoke && !seen.woken && seen.waiters != 0
  }

  /** Does the new owner leave starvation mode? `seen` is the word it read after waking up. */
  predicate LeavesStarvation(seen: Word, starving: bool) {
    !starving || seen.waiters == 1
  }

  /** The word unlock installs when it wins the right to wake a waiter. */
  function WakeTarget(seen: Word): Word
    requires seen.waiters > 0
  {
    seen.(waiters := seen.waiters - 1, woken := true)
  }

  // ---------------------------------------------------------------- steps

  // Each step takes one thread from p to q and the shared state from g to g'.

  /** A successful CAS: the word was seen and becomes w. */
  predicate Swap(g: Shared, g': Shared, seen: Word, w: Word) {
    g.word == seen && g' == g.(word := w)
  }

  predicate LockStart(g: Shared, p: Pc, g': Shared, q: Pc) {
    p.Idle? &&
    (|| (Swap(g, g', ZERO, ZERO.(locked := true)) && q == Held)
     || (g' == g && q == LockLoad(false, false)))
  }

  predicate LockRead(g: Shared, p: Pc, g': Shared, q: Pc) {
    p.LockLoad? && g' == g && q == LockTry(g.word, p.awoke, p.starving)
  }

  /** Spin once: perhaps set WOKEN, then read the word again. */
  predicate LockSpin(g: Shared, p: Pc, g': Shared, q: Pc) {
    p.LockTry? && p.seen.locked && !p.seen.starving &&
    (|| (g' == g && q == LockLoad(p.awoke, p.starving))
     || (&& MaySpinAwake(p.seen, p.awoke)
         && Swap(g, g', p.seen, p.seen.(woken := true)) && q == LockLoad(true, p.starving)))
  }

  /** The main CAS of mutex_lock_slow. A weak CAS may also fail without reason. */
  predicate LockCas(g: Shared, p: Pc, g': Shared, q: Pc) {
    p.LockTry? &&
    (|| (g' == g && q == LockLoad(p.awoke, p.starving))
     || (&& Swap(g, g', p.seen, LockTarget(p.seen, p.awoke, p.starving))
         && q == if p.seen.locked || p.seen.starving then Acquire(p.starving) else Held))
  }

  /** semaphore_acquire consumes a token. */
  predicate TakeToken(g: Shared, p: Pc, g': Shared, q: Pc) {
    p.Acquire? && g.tokens > 0 && g' == g.(tokens := g.tokens - 1) && q == Acquired(p.starving)
  }

  /** A woken thread goes by the word it reads. */
  function AfterWake(w: Word, starving: bool): Pc {
    if w.starving then TakeHandOff(w, starving) else LockTry(w, true, starving)
  }

  /** The waiting time may make the thread starving; then it reads the word. */
  predicate ReadAfterWake(g: Shared, p: Pc, g': Shared, q: Pc) {
    p.Acquired? && g' == g && (q == AfterWake(g.word, p.starving) || q == AfterWake(g.word, true))
  }

  /** The fetch-and-add of LOCKED - (1 << WAITER_SHIFT) [- STARVING]. */
  predicate FixHandOff(g: Shared, p: Pc, g': Shared, q: Pc) {
    p.TakeHandOff? && q == Held && g.word.waiters > 0 &&
    g' == g.(word := Word(true, g.word.woken,
                          g.word.starving && !LeavesStarvation(p.seen, p.starving), g.word.waiters - 1))
  }

  predicate TryLock(g: Shared, p: Pc, g': Shared, q: Pc) {
    p.Idle? && g' == g && q == if g.word.locked || g.word.starving then Idle else TryLockCas(g.word)
  }

  predicate TryLockSwap(g: Shared, p: Pc, g': Shared, q: Pc) {
    p.TryLockCas? &&
    if g.word == p.seen then g' == g.(word := p.seen.(locked := true)) && q == Held else g' == g && q == Idle
  }

  /** The fetch-and-sub of LOCKED that starts every unlock. */
  predicate Unlock(g: Shared, p: Pc, g': Shared, q: Pc) {
    p.Held? && g.word.locked && g' == g.(word := g.word.(locked := false)) &&
    q == if g'.word == ZERO then Idle else if g'.word.starving then HandOff else UnlockTry(g'.word)
  }

  predicate UnlockCas(g: Shared, p: Pc, g': Shared, q: Pc) {
    p.UnlockTry? &&
    if NothingToWake(p.seen) then g' == g && q == Idle
    else || (g' == g && q == UnlockLoad)
         || (Swap(g, g', p.seen, WakeTarget(p.seen)) && q == Wake)
  }

  predicate UnlockRead(g: Shared, p: Pc, g': Shared, q: Pc) {
    p.UnlockLoad? && g' == g && q == UnlockTry(g.word)
  }

  /** semaphore_release: the token becomes available. */
  predicate ReleaseToken(g: Shared, p: Pc, g': Shared, q: Pc) {
    (p.Wake? || p.HandOff?) && q == Idle && g' == g.(tokens := g.tokens + 1)
  }

  predicate Move(g: Shared, p: Pc, g': Shared, q: Pc) {
    || LockStart(g, p, g', q) || LockRead(g, p, g', q) || LockSpin(g, p, g', q) || LockCas(g, p, g', q)
    || TakeToken(g, p, g', q) || ReadAfterWake(g, p, g', q) || FixHandOff(g, p, g', q)
    || TryLock(g, p, g', q) || TryLockSwap(g, p, g', q)
    || Unlock(g, p, g', q) || UnlockCas(g, p, g', q) || UnlockRead(g, p, g', q) || ReleaseToken(g, p, g', q)
  }

  ghost predicate Step(s: State, s': State, t: Thread) {
    && t in s.pc && t in s'.pc && s'.pc == s.pc[t := s'.pc[t]]
    && Move(s.shared, s.pc[t], s'.shared, s'.pc[t])
  }

  ghost predicate Next(s: State, s': State) {
    exists t :: Step(s, s', t)
  }

  /** A run: any interleaving of steps of any threads. */
  ghost predicate Run(run: seq<State>) {
    |run| > 0 && Init(run[0]) && forall i :: 0 <= i < |run| - 1 ==> Next(run[i], run[i + 1])
  }

  // ---------------------------------------------------------------- the invariant

  /** The places that the invariant counts. */
  datatype Kind = KHeld | KAcquire | KWake | KHandOff | KAcquired | KTakeHandOff | KAwoke | KLooking | KOther

  function KindOf(p: Pc): Kind {
    match p
    case Held => KHeld
    case Acquire(_) => KAcquire
    case Wake => KWake
    case HandOff => KHandOff
    case Acquired(_) => KAcquired
    case TakeHandOff(_, _) => KTakeHandOff
    case LockLoad(awoke, _) => if awoke then KAwoke else KOther
    case LockTry(_, awoke, _) => if awoke then KAwoke else KOther
    // an unlocker that is going to look at the current word, or whose copy tells it to wake somebody
    case UnlockLoad => KLooking
    case UnlockTry(seen) => if NothingToWake(seen) then KOther else KLooking
    case _ => KOther
  }

  ghost function Kinds(pc: map<Thread, Pc>): map<Thread, Kind> {
    map t | t in pc :: KindOf(pc[t])
  }

  ghost function N(s: State, k: Kind): nat {
    Count(Kinds(s.pc), k)
  }

  datatype Tally = Tally(held: nat, acquire: nat, wake: nat, handOff: nat,
                         acquired: nat, takeHandOff: nat, awoke: nat, looking: nat)

  ghost function TallyOf(s: State): Tally {
    Tally(N(s, KHeld), N(s, KAcquire), N(s, KWake), N(s, KHandOff),
          N(s, KAcquired), N(s, KTakeHandOff), N(s, KAwoke), N(s, KLooking))
  }

  /** The tally after one thread moved from a place of kind p to one of kind q. */
  predicate Moved(y: Tally, y': Tally, p: Kind, q: Kind) {
    && Shift(y.held, y'.held, p.KHeld?, q.KHeld?)
    && Shift(y.acquire, y'.acquire, p.KAcquire?, q.KAcquire?)
    && Shift(y.wake, y'.wake, p.KWake?, q.KWake?)
    && Shift(y.handOff, y'.handOff, p.KHandOff?, q.KHandOff?)
    && Shift(y.acquired, y'.acquired, p.KAcquired?, q.KAcquired?)
    && Shift(y.takeHandOff, y'.takeHandOff, p.KTakeHandOff?, q.KTakeHandOff?)
    && Shift(y.awoke, y'.awoke, p.KAwoke?, q.KAwoke?)
    && Shift(y.looking, y'.looking, p.KLooking?, q.KLooking?)
  }

  /** Wake-ups and hand-offs on their way from an unlocker, through the semaphore, to the woken thread. */
  function InFlight(tokens: nat, y: Tally): nat {
    y.wake + y.handOff + tokens + y.acquired + y.takeHandOff + y.awoke
  }

  /** The mutex belongs to the hand-off: LOCKED is clear, ownership is travelling through the semaphore. */
  predicate HandingOff(w: Word) {
    w.starving && !w.locked
  }

  predicate CountInv(g: Shared, y: Tally) {
    var w, tokens := g.word, g.tokens;
    && y.held == One(w.locked)
    && (w.starving ==> !w.woken && w.waiters > 0)
    && InFlight(tokens, y) == One(w.woken || HandingOff(w))
    && (w.woken ==> y.handOff == 0 && y.takeHandOff == 0)
    && (HandingOff(w) ==> y.wake == 0 && y.awoke == 0)
    && w.waiters + (if w.woken then y.wake + tokens else 0) ==
         y.acquire + (if HandingOff(w) then y.acquired + y.takeHandOff else 0)
    && (!w.locked && !w.woken && !w.starving && w.waiters > 0 ==> y.looking > 0)
  }

  /** What a thread's copy of the word still says about the word. */
  predicate CopyInv(w: Word, p: Pc) {
    match p
    case LockLoad(awoke, starving) => starving ==> awoke
    case LockTry(seen, awoke, starving) => (starving ==> awoke) && (awoke ==> seen.woken)
    case TakeHandOff(seen, _) => seen.starving && !seen.locked && !seen.woken && 0 < seen.waiters <= w.waiters
    case TryLockCas(seen) => !seen.locked && !seen.starving
    case _ => true
  }

  ghost predicate Inv(s: State) {
    CountInv(s.shared, TallyOf(s)) && forall t | t in s.pc :: CopyInv(s.shared.word, s.pc[t])
  }

  // One step of one thread keeps the counts in order; nothing here depends on which threads there are.

  lemma LockingKeepsCounts(g: Shared, p: Pc, y: Tally, g': Shared, q: Pc, y': Tally)
    requires CountInv(g, y) && CopyInv(g.word, p) && Moved(y, y', KindOf(p), KindOf(q))
    requires LockStart(g, p, g', q) || LockRead(g, p, g', q) || LockCas(g, p, g', q)
    ensures CountInv(g', y') && CopyInv(g'.word, q)
  {
  }

  lemma SpinningKeepsCounts(g: Shared, p: Pc, y: Tally, g': Shared, q: Pc, y': Tally)
    requires CountInv(g, y) && CopyInv(g.word, p) && Moved(y, y', KindOf(p), KindOf(q))
    requires LockSpin(g, p, g', q) || TryLock(g, p, g', q) || TryLockSwap(g, p, g', q)
    ensures CountInv(g', y') && CopyInv(g'.word, q)
  {
  }

  lemma WakingKeepsCounts(g: Shared, p: Pc, y: Tally, g': Shared, q: Pc, y': Tally)
    requires CountInv(g, y) && CopyInv(g.word, p) && Moved(y, y', KindOf(p), KindOf(q))
    requires TakeToken(g, p, g', q) || ReadAfterWake(g, p, g', q) || FixHandOff(g, p, g', q)
    ensures CountInv(g', y') && CopyInv(g'.word, q)
  {
  }

  lemma UnlockingKeepsCounts(g: Shared, p: Pc, y: Tally, g': Shared, q: Pc, y': Tally)
    requires CountInv(g, y) && CopyInv(g.word, p) && Moved(y, y', KindOf(p), KindOf(q))
    requires Unlock(g, p, g', q) || UnlockCas(g, p, g', q) || UnlockRead(g, p, g', q) || ReleaseToken(g, p, g', q)
    ensures CountInv(g', y') && CopyInv(g'.word, q)
  {
  }

  lemma MoveKeepsCounts(g: Shared, p: Pc, y: Tally, g': Shared, q: Pc, y': Tally)
    requires CountInv(g, y) && CopyInv(g.word, p)
    requires Move(g, p, g', q) && Moved(y, y', KindOf(p), KindOf(q))
    ensures CountInv(g', y') && CopyInv(g'.word, q)
  {
    if
    case LockStart(g, p, g', q) || LockRead(g, p, g', q) || LockCas(g, p, g', q) =>
      LockingKeepsCounts(g, p, y, g', q, y');
    case LockSpin(g, p, g', q) || TryLock(g, p, g', q) || TryLockSwap(g, p, g', q) =>
      SpinningKeepsCounts(g, p, y, g', q, y');
    case TakeToken(g, p, g', q) || ReadAfterWake(g, p, g', q) || FixHandOff(g, p, g', q) =>
      WakingKeepsCounts(g, p, y, g', q, y');
    case Unlock(g, p, g', q) || UnlockCas(g, p, g', q) || UnlockRead(g, p, g', q) || ReleaseToken(g, p, g', q) =>
      UnlockingKeepsCounts(g, p, y, g', q, y');
  }

  /** While one thread takes a hand-off, no other thread lowers the waiter count. */
  lemma MoveKeepsCopies(g: Shared, p: Pc, y: Tally, g': Shared, q: Pc, u: Pc)
    requires CountInv(g, y) && CopyInv(g.word, p) && CopyInv(g.word, u)
    requires u.TakeHandOff? ==> y.takeHandOff >= 1 && !p.TakeHandOff?
    requires Move(g, p, g', q)
    requires y.held >= One(p.Held?)
    ensures CopyInv(g'.word, u)
  {
  }

  lemma TallyMove(s: State, s': State, t: Thread, q: Pc)
    requires t in s.pc && s'.pc == s.pc[t := q]
    ensures Moved(TallyOf(s), TallyOf(s'), KindOf(s.pc[t]), KindOf(q))
  {
    var at, to := Kinds(s.pc), KindOf(q);
    assert Kinds(s'.pc) == at[t := to];
    CountShift(at, t, to, KHeld);
    CountShift(at, t, to, KAcquire);
    CountShift(at, t, to, KWake);
    CountShift(at, t, to, KHandOff);
    CountShift(at, t, to, KAcquired);
    CountShift(at, t, to, KTakeHandOff);
    CountShift(at, t, to, KAwoke);
    CountShift(at, t, to, KLooking);
  }

  /** Kinds no thread is at are counted zero. */
  lemma Absent(s: State, k: Kind)
    requires forall t | t in s.pc :: KindOf(s.pc[t]) != k
    ensures N(s, k) == 0
  {
    CountZero(Kinds(s.pc), k);
  }

  lemma InitInv(s: State)
    requires Init(s)
    ensures Inv(s)
  {
    Absent(s, KHeld);
    Absent(s, KAcquire);
    Absent(s, KWake);
    Absent(s, KHandOff);
    Absent(s, KAcquired);
    Absent(s, KTakeHandOff);
    Absent(s, KAwoke);
  }

  lemma StepInv(s: State, s': State, t: Thread)
    requires Inv(s) && Step(s, s', t)
    ensures Inv(s')
  {
    var g, p, y, q := s.shared, s.pc[t], TallyOf(s), s'.pc[t];
    TallyMove(s, s', t, q);
    MoveKeepsCounts(g, p, y, s'.shared, q, TallyOf(s'));
    forall u | u in s'.pc && u != t
      ensures CopyInv(s'.shared.word, s'.pc[u])
    {
      if s.pc[u].TakeHandOff? {
        TallyMove(s, s.(pc := s.pc[u := Idle]), u, Idle);
        if p.TakeHandOff? {
          CountUnique(Kinds(s.pc), t, u, KTakeHandOff);
        }
      }
      MoveKeepsCopies(g, p, y, s'.shared, q, s.pc[u]);
    }
  }

  /** Every state of every run satisfies the invariant. */
  lemma {:induction false} RunInv(run: seq<State>, i: nat)
    requires Run(run) && i < |run|
    ensures Inv(run[i])
  {
    if i == 0 {
      InitInv(run[0]);
    } else {
      RunInv(run, i - 1);
      assert Next(run[i - 1], run[i - 1 + 1]);
      var t :| Step(run[i - 1], run[i], t);
      StepInv(run[i - 1], run[i], t);
    }
  }

  /** Some run comes to this state. */
  ghost predicate Reachable(s: State) {
    exists run :: Run(run) && run[|run| - 1] == s
  }

  lemma ReachableInv(s: State)
    requires Reachable(s)
    ensures Inv(s)
  {
    var run :| Run(run) && run[|run| - 1] == s;
    RunInv(run, |run| - 1);
  }

  lemma ReachableNext(s: State, s': State, t: Thread)
    requires Reachable(s) && Step(s, s', t)
    ensures Reachable(s')
  {
    var run :| Run(run) && run[|run| - 1] == s;
    var longer := run + [s'];
    assert longer[|longer| - 1] == s';
    forall i | 0 <= i < |longer| - 1
      ensures Next(longer[i], longer[i + 1])
    {
      assert i < |run| - 1 ==> Next(run[i], run[i + 1]);
    }
  }

  // ---------------------------------------------------------------- what the invariant gives

  /** Hand-offs of ownership that are under way: in an unlocker, in the semaphore or in the woken thread. */
  ghost function HandOffs(s: State): nat {
    if HandingOff(s.shared.word) then N(s, KHandOff) + s.shared.tokens + N(s, KAcquired) + N(s, KTakeHandOff) else 0
  }

  /** Mutual exclusion, the starving hand-off included: the mutex never has two owners. */
  lemma MutualExclusion(run: seq<State>, i: nat)
    requires Run(run) && i < |run|
    ensures var s := run[i];
            && N(s, KHeld) + HandOffs(s) == One(s.shared.word.locked || s.shared.word.starving)
            && forall t, u | t in s.pc && u in s.pc && s.pc[t].Held? && s.pc[u].Held? :: t == u
  {
    RunInv(run, i);
    var s := run[i];
    forall t, u | t in s.pc && u in s.pc && s.pc[t].Held? && s.pc[u].Held?
      ensures t == u
    {
      CountUnique(Kinds(s.pc), t, u, KHeld);
    }
  }

  /** WOKEN stands for exactly one wake-up on its way; without it there is none; STARVING excludes it. */
  lemma WokenHasOneHolder(run: seq<State>, i: nat)
    requires Run(run) && i < |run|
    ensures var s := run[i];
            && (s.shared.word.woken ==> N(s, KWake) + s.shared.tokens + N(s, KAcquired) + N(s, KAwoke) == 1)
            && (!s.shared.word.woken ==> N(s, KWake) + N(s, KAwoke) == 0)
            && (s.shared.word.starving ==> !s.shared.word.woken && s.shared.word.waiters > 0)
  {
    RunInv(run, i);
  }

  /** No assertion of mutex.c fires, whatever thread t does next. */
  lemma AssertionsHold(run: seq<State>, i: nat, t: Thread)
    requires Run(run) && i < |run| && t in run[i].pc
    ensures var s, p := run[i], run[i].pc[t];
            && (p.LockTry? && p.awoke ==> p.seen.woken)
            && (p.Acquired? && s.shared.word.starving ==>
                !s.shared.word.locked && !s.shared.word.woken
                && s.shared.word.waiters != 0)
            && (p.TakeHandOff? ==> s.shared.word.starving && !s.shared.word.locked && s.shared.word.waiters != 0)
            && (p.Held? ==> s.shared.word.locked)
            && (p.HandOff? || p.TakeHandOff? ==> !s.shared.word.woken)
  {
    RunInv(run, i);
    var s := run[i];
    TallyMove(s, s.(pc := s.pc[t := Idle]), t, Idle);
    assert CopyInv(s.shared.word, s.pc[t]);
  }

  /** No waiter is stranded: an unlocked mutex with waiters has a wake-up, a hand-off or a looking unlocker. */
  lemma NoWaiterStranded(run: seq<State>, i: nat)
    requires Run(run) && i < |run|
    requires !run[i].shared.word.locked && run[i].shared.word.waiters > 0
    ensures var s := run[i];
            || s.shared.word.woken
            || HandOffs(s) == 1
            || exists t :: t in s.pc && KindOf(s.pc[t]) == KLooking
  {
    RunInv(run, i);
    var s := run[i];
    if !s.shared.word.woken && !s.shared.word.starving {
      var t := CountWitness(Kinds(s.pc), KLooking);
    }
  }

  /** When nobody is running in the mutex any more, no thread sleeps in it: a waiting thread finds a token. */
  lemma NoDeadlock(run: seq<State>, i: nat, t: Thread)
    requires Run(run) && i < |run| && t in run[i].pc && run[i].pc[t].Acquire?
    requires forall u | u in run[i].pc :: run[i].pc[u].Idle? || run[i].pc[u].Acquire?
    ensures run[i].shared.tokens == 1
  {
    RunInv(run, i);
    var s := run[i];
    Absent(s, KHeld);
    Absent(s, KWake);
    Absent(s, KHandOff);
    Absent(s, KAcquired);
    Absent(s, KTakeHandOff);
    Absent(s, KAwoke);
    Absent(s, KLooking);
    TallyMove(s, s.(pc := s.pc[t := Idle]), t, Idle);
  }

  /** The waiter count never exceeds the number of threads. */
  lemma WaitersBounded(run: seq<State>, i: nat)
    requires Run(run) && i < |run|
    ensures run[i].shared.word.waiters <= |run[i].pc|
  {
    RunInv(run, i);
    var at := Kinds(run[i].pc);
    assert |at| == |at.Keys| == |run[i].pc.Keys| by { assert at.Keys == run[i].pc.Keys; }
    CountTwo(at, KAcquire, KAcquired);
    CountTwo(at, KAcquire, KTakeHandOff);
  }

  // ---------------------------------------------------------------- the semaphore underneath

  /** The semaphore as the mutex uses it. */
  ghost function SemaphoreOf(s: State): Spec.Sem {
    Spec.Sem(s.shared.tokens,
             set t | t in s.pc && s.pc[t].Acquire?,
             set t | t in s.pc && s.pc[t].Acquired?)
  }

  /** What the mutex does with its semaphore the specification allows: each step is at most one step of it. */
  lemma UsesSemaphore(s: State, s': State, t: Thread)
    requires Step(s, s', t)
    ensures Spec.Next(SemaphoreOf(s), SemaphoreOf(s'))
  {
    var a, b := SemaphoreOf(s), SemaphoreOf(s');
    if s.pc[t].Acquire? {
      assert b.waiting == a.waiting - {t} && b.granted == a.granted + {t};
      assert Spec.Grant(a, b, t);
    } else if s.pc[t].Acquired? {
      assert b.waiting == a.waiting && b.granted == a.granted - {t};
      assert Spec.Leave(a, b, t);
    } else if s'.pc[t].Acquire? {
      assert b.waiting == a.waiting + {t} && b.granted == a.granted;
      assert Spec.Enter(a, b, t);
    } else {
      assert b.waiting == a.waiting && b.granted == a.granted;
    }
  }
}
