/**
 The packed state word of kernel/sync/mutex.c and the code that manipulates it.

 `state` is a 32-bit integer: bit 0 LOCKED, bit 1 WOKEN, bit 2 STARVING, waiter count above.
 Each method of Mutex is what one thread does in one atomic access, written with the source's own
 arithmetic on the packed word; each is proved to be one step of MutexProtocol.
*/
module MutexWord {
  import opened MutexProtocol
  import opened Counting

  const INT32_MAX := 0x7FFF_FFFF

  /** The flag bits: 1, 2 and 4. */
  datatype Flag = LOCKED | WOKEN | STARVING

  function Weight(f: Flag): nat {
    match f case LOCKED => 1 case WOKEN => 2 case STARVING => 4
  }

  /** (x & f) != 0 */
  predicate Has(x: nat, f: Flag) {
    match f case LOCKED => x % 2 >= 1 case WOKEN => x % 4 >= 2 case STARVING => x % 8 >= 4
  }

  /** x | f */
  function Or(x: nat, f: Flag): nat {
    if Has(x, f) then x else x + Weight(f)
  }

  /** x & ~f */
  function AndNot(x: nat, f: Flag): nat {
    if Has(x, f) then x - Weight(f) else x
  }

  /** x >> MUTEX_WAITER_SHIFT */
  function Waiters(x: nat): nat {
    x / 8
  }

  function Decode(x: nat): Word {
    Word(Has(x, LOCKED), Has(x, WOKEN), Has(x, STARVING), Waiters(x))
  }

  function Encode(w: Word): nat {
    (if w.locked then 1 else 0) + (if w.woken then 2 else 0) + (if w.starving then 4 else 0) + 8 * w.waiters
  }

  lemma Low8(x: nat, k: nat, r: nat)
    requires x == 8 * k + r && r < 8
    ensures x / 8 == k && x % 8 == r
  {
  }

  lemma Low4(x: nat, k: nat, r: nat)
    requires x == 4 * k + r && r < 4
    ensures x / 4 == k && x % 4 == r
  {
  }

  lemma Low2(x: nat, k: nat, r: nat)
    requires x == 2 * k + r && r < 2
    ensures x / 2 == k && x % 2 == r
  {
  }

  lemma LowBits(k: nat, r: nat)
    requires r < 8
    ensures (8 * k + r) / 8 == k && (8 * k + r) % 8 == r
    ensures (8 * k + r) % 4 == r % 4 && (8 * k + r) % 2 == r % 2
  {
    var x := 8 * k + r;
    Low8(x, k, r);
    Low4(x, 2 * k + r / 4, r % 4);
    Low2(x, 4 * k + r / 2, r % 2);
  }

  /** Packing loses nothing: a CAS on the packed word compares all four parts. */
  lemma DecodeEncode(w: Word)
    ensures Decode(Encode(w)) == w
  {
    LowBits(w.waiters, Encode(w.(waiters := 0)));
  }

  lemma EncodeDecode(x: nat)
    ensures Encode(Decode(x)) == x
  {
    LowBits(x / 8, x % 8);
  }

  /** The word fits its 32 bits, sign bit clear, exactly while there are fewer than 2^28 waiters. */
  lemma FitsWord(w: Word)
    ensures Encode(w) <= INT32_MAX <==> w.waiters < 0x1000_0000
  {
  }

  /** In a system of fewer than 2^28 threads the word never leaves its 32 bits. */
  lemma WordNeverOverflows(run: seq<State>, i: nat)
    requires Run(run) && i < |run| && |run[i].pc| < 0x1000_0000
    ensures Encode(run[i].shared.word) <= INT32_MAX
  {
    WaitersBounded(run, i);
    FitsWord(run[i].shared.word);
  }

  /** Setting a bit touches that bit only. */
  lemma OrDecodes(x: nat, f: Flag)
    ensures Decode(Or(x, f)) == (match f case LOCKED => Decode(x).(locked := true)
                                         case WOKEN => Decode(x).(woken := true)
                                         case STARVING => Decode(x).(starving := true))
  {
    EncodeDecode(x);
    DecodeEncode(match f case LOCKED => Decode(x).(locked := true)
                         case WOKEN => Decode(x).(woken := true)
                         case STARVING => Decode(x).(starving := true));
  }

  /** Clearing a bit touches that bit only. */
  lemma AndNotDecodes(x: nat, f: Flag)
    ensures Decode(AndNot(x, f)) == (match f case LOCKED => Decode(x).(locked := false)
                                             case WOKEN => Decode(x).(woken := false)
                                             case STARVING => Decode(x).(starving := false))
  {
    EncodeDecode(x);
    DecodeEncode(match f case LOCKED => Decode(x).(locked := false)
                         case WOKEN => Decode(x).(woken := false)
                         case STARVING => Decode(x).(starving := false));
  }

  lemma UnlockedAndLocked()
    ensures Decode(0) == ZERO && Decode(1) == ZERO.(locked := true)
  {
    DecodeEncode(ZERO);
    DecodeEncode(ZERO.(locked := true));
  }

  /** Adding and subtracting one waiter leaves the flags alone. */
  lemma WaiterDecodes(x: nat)
    ensures Decode(x + 8) == Decode(x).(waiters := Decode(x).waiters + 1)
    ensures x >= 8 ==> Decode(x - 8) == Decode(x).(waiters := Decode(x).waiters - 1)
  {
    LowBits(x / 8, x % 8);
    LowBits(x / 8 + 1, x % 8);
    if x >= 8 {
      LowBits(x / 8 - 1, x % 8);
    }
  }

  /** What mutex_lock_slow computes from the packed word it saw. */
  function LockWord(seen: nat, awoke: bool, starving: bool): nat {
    var next := seen;
    var next := if !Has(seen, STARVING) then Or(next, LOCKED) else next;
    var next := if Has(seen, LOCKED) || Has(seen, STARVING) then next + 8 else next;
    var next := if starving && Has(seen, LOCKED) then Or(next, STARVING) else next;
    if awoke then AndNot(next, WOKEN) else next
  }

  /** It is what the protocol asks for. */
  lemma LockWordDecodes(seen: nat, awoke: bool, starving: bool)
    ensures Decode(LockWord(seen, awoke, starving)) == LockTarget(Decode(seen), awoke, starving)
  {
    var a := if !Has(seen, STARVING) then Or(seen, LOCKED) else seen;
    OrDecodes(seen, LOCKED);
    var b := if Has(seen, LOCKED) || Has(seen, STARVING) then a + 8 else a;
    WaiterDecodes(a);
    var c := if starving && Has(seen, LOCKED) then Or(b, STARVING) else b;
    OrDecodes(b, STARVING);
    AndNotDecodes(c, WOKEN);
  }

  /** What mutex_unlock_slow installs to grab the right to wake someone. */
  function WakeWord(seen: nat): nat
    requires seen >= 8
  {
    Or(seen - 8, WOKEN)
  }

  lemma WakeWordDecodes(seen: nat)
    requires seen >= 8
    ensures Decode(WakeWord(seen)) == WakeTarget(Decode(seen))
  {
    WaiterDecodes(seen);
    OrDecodes(seen - 8, WOKEN);
  }

  /** The amount that takes over a handed-off mutex: LOCKED - (1 << WAITER_SHIFT) [- STARVING]. */
  function HandOffDelta(seen: nat, starving: bool): int {
    if !starving || Waiters(seen) == 1 then 1 - 8 - 4 else 1 - 8
  }

  /** Adding it borrows from no neighbouring field: LOCKED was clear, STARVING set, a waiter counted. */
  lemma HandOffDeltaDecodes(x: nat, seen: nat, starving: bool)
    requires !Has(x, LOCKED) && Has(x, STARVING) && Waiters(x) > 0
    ensures x + HandOffDelta(seen, starving) >= 0
    ensures var w := Decode(x);
            Decode(x + HandOffDelta(seen, starving)) ==
              Word(true, w.woken, !LeavesStarvation(Decode(seen), starving), w.waiters - 1)
  {
    var w := Decode(x);
    EncodeDecode(x);
    DecodeEncode(Word(true, w.woken, !LeavesStarvation(Decode(seen), starving), w.waiters - 1));
  }

  /** Dropping the lock bit of a locked word touches that bit only. */
  lemma UnlockDecodes(x: nat)
    requires Has(x, LOCKED)
    ensures Decode(x - 1) == Decode(x).(locked := false)
    ensures x - 1 == 0 <==> Decode(x - 1) == ZERO
  {
    AndNotDecodes(x, LOCKED);
    EncodeDecode(x - 1);
  }

  lemma SameWord(x: nat, y: nat)
    requires Decode(x) == Decode(y)
    ensures x == y
  {
    EncodeDecode(x);
    EncodeDecode(y);
  }

  function DecodePc(p: Locals<nat>): Pc {
    match p
    case Idle => Idle
    case LockLoad(awoke, starving) => LockLoad(awoke, starving)
    case LockTry(seen, awoke, starving) => LockTry(Decode(seen), awoke, starving)
    case Acquire(starving) => Acquire(starving)
    case Acquired(starving) => Acquired(starving)
    case TakeHandOff(seen, starving) => TakeHandOff(Decode(seen), starving)
    case TryLockCas(seen) => TryLockCas(Decode(seen))
    case Held => Held
    case UnlockTry(seen) => UnlockTry(Decode(seen))
    case UnlockLoad => UnlockLoad
    case Wake => Wake
    case HandOff => HandOff
  }

  function DecodePcs(pc: map<Thread, Locals<nat>>): map<Thread, Pc> {
    map t | t in pc :: DecodePc(pc[t])
  }

  // What the invariant tells a thread about the word, by the place it is at.

  lemma AwokeSawWoken(s: State, t: Thread)
    requires Reachable(s) && t in s.pc && s.pc[t].LockTry? && s.pc[t].awoke
    ensures s.pc[t].seen.woken
  {
    ReachableInv(s);
    assert CopyInv(s.shared.word, s.pc[t]);
  }

  lemma WokenFacts(s: State, t: Thread)
    requires Reachable(s) && t in s.pc
    requires s.pc[t].TakeHandOff? || (s.pc[t].Acquired? && s.shared.word.starving)
    ensures var w := s.shared.word;
            !w.locked && !w.woken && w.starving && w.waiters > 0
  {
    ReachableInv(s);
    AtLeastOne(s, t);
    assert CopyInv(s.shared.word, s.pc[t]);
  }

  lemma OwnerFacts(s: State, t: Thread)
    requires Reachable(s) && t in s.pc && s.pc[t].Held?
    ensures s.shared.word.locked
  {
    ReachableInv(s);
    AtLeastOne(s, t);
  }

  lemma AtLeastOne(s: State, t: Thread)
    requires t in s.pc
    ensures N(s, KindOf(s.pc[t])) >= 1
  {
    CountShift(Kinds(s.pc), t, KindOf(s.pc[t]), KindOf(s.pc[t]));
  }

  // What the code computes from the packed word is what the protocol asks for.

  lemma InstallsLock(x: nat, k: nat, awoke: bool, starving: bool)
    ensures LockCas(Shared(Decode(x), k), LockTry(Decode(x), awoke, starving),
            Shared(Decode(LockWord(x, awoke, starving)), k),
                    if Has(x, LOCKED) || Has(x, STARVING) then Acquire(starving) else Held)
  {
    LockWordDecodes(x, awoke, starving);
  }

  lemma SeesFree(x: nat, k: nat)
    ensures TryLock(Shared(Decode(x), k), Idle, Shared(Decode(x), k), if Has(x, LOCKED) || Has(x, STARVING) then Idle
            else TryLockCas(Decode(x)))
  {
  }

  /** mutex_unlock_slow begins with what is left of the word. */
  function AfterUnlock(x: nat): Locals<nat> {
    if x == 0 then Idle else if Has(x, STARVING) then HandOff else UnlockTry(x)
  }

  lemma DropsLock(x: nat, k: nat)
    requires Has(x, LOCKED)
    ensures x >= 1 && Unlock(Shared(Decode(x), k), Held, Shared(Decode(x - 1), k), DecodePc(AfterUnlock(x - 1)))
  {
    UnlockDecodes(x);
  }

  /** Nobody to wake, or somebody else will. */
  predicate NobodyToWake(x: nat) {
    Waiters(x) == 0 || Has(x, LOCKED) || Has(x, WOKEN) || Has(x, STARVING)
  }

  lemma WakesOne(x: nat, k: nat)
    ensures NobodyToWake(x) <==> NothingToWake(Decode(x))
    ensures !NobodyToWake(x) ==>
            x >= 8
            && UnlockCas(Shared(Decode(x), k), UnlockTry(Decode(x)), Shared(Decode(WakeWord(x)), k), Wake)
  {
    if !NobodyToWake(x) {
      WakeWordDecodes(x);
    }
  }

  lemma Advanced(s: State, s': State, t: Thread, q: Pc)
    requires Reachable(s) && t in s.pc && s'.pc == s.pc[t := q] && Move(s.shared, s.pc[t], s'.shared, q)
    ensures Step(s, s', t) && Reachable(s')
  {
    ReachableNext(s, s', t);
  }

  class Mutex {
    var state: nat                        // the packed word
    var tokens: nat                       // what the semaphore holds
    var pc: map<Thread, Locals<nat>>      // where each thread is, with its copies of the packed word

    ghost function View(): State
      reads this
    {
      State(Shared(Decode(state), tokens), DecodePcs(pc))
    }

    /** The object is in a state that a run of the protocol comes to. */
    ghost predicate Valid()
      reads this
    {
      Reachable(View())
    }

    constructor (threads: set<Thread>)
      ensures Valid() && Init(View()) && View().pc.Keys == threads
    {
      state, tokens := 0, 0;
      pc := map t | t in threads :: Idle;
      new;
      assert Init(View());
      assert Run([View()]);
    }

    /** Thread t finishes one access. */
    method Finish(t: Thread, x: nat, k: nat, q: Locals<nat>)
      requires Valid() && t in pc
      requires Move(View().shared, DecodePc(pc[t]), Shared(Decode(x), k), DecodePc(q))
      modifies this
      ensures Valid() && Step(old(View()), View(), t)
      ensures state == x && tokens == k && pc == old(pc)[t := q]
    {
      ghost var before, after := View(), State(Shared(Decode(x), k), DecodePcs(pc)[t := DecodePc(q)]);
      Advanced(before, after, t, DecodePc(q));
      state, tokens, pc := x, k, pc[t := q];
      assert View().pc == after.pc;
      assert View() == after;
    }

    /** mutex_lock, fast path; `fails` is the weak CAS failing for no reason. */
    method LockFast(t: Thread, fails: bool) returns (locked: bool)
      requires Valid() && t in pc && pc[t].Idle?
      modifies this
      ensures Valid() && Step(old(View()), View(), t)
      ensures locked <==> old(state) == 0 && !fails
      ensures pc == old(pc)[t := if locked then Held else LockLoad(false, false)]
    {
      locked := state == 0 && !fails;
      UnlockedAndLocked();
      if locked {
        assert LockStart(View().shared, Idle, Shared(Decode(1), tokens), Held);
        Finish(t, 1, tokens, Held);
      } else {
        assert LockStart(View().shared, Idle, View().shared, LockLoad(false, false));
        Finish(t, state, tokens, LockLoad(false, false));
      }
    }

    /** mutex_lock_slow: old = mutex->state */
    method LockReadWord(t: Thread)
      requires Valid() && t in pc && pc[t].LockLoad?
      modifies this
      ensures Valid() && Step(old(View()), View(), t)
      ensures pc == old(pc)[t := LockTry(old(state), old(pc)[t].awoke, old(pc)[t].starving)]
    {
      assert LockRead(View().shared, DecodePc(pc[t]), Shared(Decode(state), tokens),
             DecodePc(LockTry(state, pc[t].awoke, pc[t].starving)));
      Finish(t, state, tokens, LockTry(state, pc[t].awoke, pc[t].starving));
    }

    /** mutex_lock_slow, active spinning: the thread announces itself if a waiter might be woken in its stead. */
    method LockSpinOnce(t: Thread, fails: bool)
      requires Valid() && t in pc && pc[t].LockTry?
      requires Has(pc[t].seen, LOCKED) && !Has(pc[t].seen, STARVING)
      modifies this
      ensures Valid() && Step(old(View()), View(), t)
      ensures var p := old(pc)[t];
              var wakes := !p.awoke && !Has(p.seen, WOKEN) && Waiters(p.seen) != 0 && old(state) == p.seen && !fails;
              && state == (if wakes then Or(old(state), WOKEN) else old(state))
              && pc == old(pc)[t := LockLoad(p.awoke || wakes, p.starving)]
    {
      var p := pc[t];
      if !p.awoke && !Has(p.seen, WOKEN) && Waiters(p.seen) != 0 && state == p.seen && !fails {
        OrDecodes(p.seen, WOKEN);
        assert LockSpin(View().shared, DecodePc(p), Shared(Decode(Or(p.seen, WOKEN)), tokens),
               LockLoad(true, p.starving));
        Finish(t, Or(p.seen, WOKEN), tokens, LockLoad(true, p.starving));
      } else {
        assert LockSpin(View().shared, DecodePc(p), View().shared, LockLoad(p.awoke, p.starving));
        Finish(t, state, tokens, LockLoad(p.awoke, p.starving));
      }
    }

    /** mutex_lock_slow: compute the new word and try to install it. */
    method LockInstall(t: Thread, fails: bool) returns (installed: bool)
      requires Valid() && t in pc && pc[t].LockTry?
      modifies this
      ensures Valid() && Step(old(View()), View(), t)
      ensures installed <==> old(state) == old(pc)[t].seen && !fails
      ensures installed ==> pc[t].Held? || pc[t].Acquire?
    {
      var p := pc[t];
      var next := LockWord(p.seen, p.awoke, p.starving);
      if p.awoke {
        AwokeSawWoken(View(), t);
      }
      assert p.awoke ==> Has(p.seen, WOKEN);          // ASSERT: "inconsistent mutex state"
      InstallsLock(p.seen, tokens, p.awoke, p.starving);
      installed := state == p.seen && !fails;
      if installed {
        var q := if Has(p.seen, LOCKED) || Has(p.seen, STARVING) then Acquire(p.starving) else Held;
        assert LockCas(View().shared, DecodePc(p), Shared(Decode(next), tokens), DecodePc(q));
        Finish(t, next, tokens, q);
      } else {
        assert LockCas(View().shared, DecodePc(p), View().shared, LockLoad(p.awoke, p.starving));
        Finish(t, state, tokens, LockLoad(p.awoke, p.starving));
      }
    }

    /** semaphore_acquire takes effect. */
    method SemaphoreAcquired(t: Thread)
      requires Valid() && t in pc && pc[t].Acquire? && tokens > 0
      modifies this
      ensures Valid() && Step(old(View()), View(), t)
      ensures state == old(state) && tokens == old(tokens) - 1
      ensures pc == old(pc)[t := Acquired(old(pc)[t].starving)]
    {
      var q := Acquired(pc[t].starving);
      assert TakeToken(View().shared, DecodePc(pc[t]), Shared(Decode(state), tokens - 1), DecodePc(q));
      Finish(t, state, tokens - 1, q);
    }

    /**
     mutex_lock_slow, after waking up: the waiting time is compared with the threshold; then
     old = mutex->state, with the consistency check.
    */
    method ReadWordAfterWake(t: Thread, waitedLong: bool)
      requires Valid() && t in pc && pc[t].Acquired?
      modifies this
      ensures Valid() && Step(old(View()), View(), t)
      ensures var starving := old(pc)[t].starving || waitedLong;
              pc == old(pc)[t := if Has(state, STARVING) then TakeHandOff(state, starving)
                  else LockTry(state, true, starving)]
      ensures state == old(state) && tokens == old(tokens)
    {
      var p := pc[t];
      var starving := p.starving || waitedLong;
      if Has(state, STARVING) {
        WokenFacts(View(), t);
        assert !(Has(state, LOCKED) || Has(state, WOKEN) || Waiters(state) == 0);  // ASSERT
        assert ReadAfterWake(View().shared, DecodePc(p), View().shared, DecodePc(TakeHandOff(state, starving)));
        Finish(t, state, tokens, TakeHandOff(state, starving));
      } else {
        assert ReadAfterWake(View().shared, DecodePc(p), View().shared, DecodePc(LockTry(state, true, starving)));
        Finish(t, state, tokens, LockTry(state, true, starving));
      }
    }

    /** mutex_lock_slow: take over a handed-off mutex with one fetch-and-add. */
    method AddHandOffDelta(t: Thread)
      requires Valid() && t in pc && pc[t].TakeHandOff?
      modifies this
      ensures Valid() && Step(old(View()), View(), t)
      ensures pc == old(pc)[t := Held] && Has(state, LOCKED)
    {
      var p := pc[t];
      WokenFacts(View(), t);
      HandOffDeltaDecodes(state, p.seen, p.starving);
      var next := state + HandOffDelta(p.seen, p.starving);
      assert FixHandOff(View().shared, DecodePc(p), Shared(Decode(next), tokens), Held);
      Finish(t, next, tokens, Held);
    }

    /** mutex_try_lock: the load and the first test. */
    method TryLockRead(t: Thread)
      requires Valid() && t in pc && pc[t].Idle?
      modifies this
      ensures Valid() && Step(old(View()), View(), t)
      ensures pc[t].Idle? <==> Has(old(state), LOCKED) || Has(old(state), STARVING)
    {
      SeesFree(state, tokens);
      if Has(state, LOCKED) || Has(state, STARVING) {
        Finish(t, state, tokens, Idle);
      } else {
        Finish(t, state, tokens, TryLockCas(state));
      }
    }

    /** mutex_try_lock: the strong CAS. */
    method TryLockInstall(t: Thread) returns (locked: bool)
      requires Valid() && t in pc && pc[t].TryLockCas?
      modifies this
      ensures Valid() && Step(old(View()), View(), t)
      ensures locked <==> old(state) == old(pc)[t].seen
      ensures pc == old(pc)[t := if locked then Held else Idle]
    {
      var seen := pc[t].seen;
      locked := state == seen;
      if Decode(state) == Decode(seen) {
        SameWord(state, seen);
      }
      if locked {
        OrDecodes(seen, LOCKED);
        assert TryLockSwap(View().shared, DecodePc(pc[t]), Shared(Decode(Or(seen, LOCKED)), tokens), Held);
        Finish(t, Or(seen, LOCKED), tokens, Held);
      } else {
        assert TryLockSwap(View().shared, DecodePc(pc[t]), View().shared, Idle);
        Finish(t, state, tokens, Idle);
      }
    }

    /** mutex_unlock: drop the lock bit; mutex_unlock_slow begins with what is left. */
    method UnlockSub(t: Thread)
      requires Valid() && t in pc && pc[t].Held?
      modifies this
      ensures Valid() && Step(old(View()), View(), t)
      ensures Has(old(state), LOCKED) && state == old(state) - 1
      ensures pc == old(pc)[t := AfterUnlock(state)]
    {
      OwnerFacts(View(), t);
      var next := state - 1;
      assert Has(next + 1, LOCKED);              // ASSERT: "unlock of unlocked mutex"
      DropsLock(state, tokens);
      Finish(t, next, tokens, AfterUnlock(next));
    }

    /** mutex_unlock_slow: grab the right to wake someone, unless there is nobody to wake. */
    method UnlockInstall(t: Thread, fails: bool) returns (wakes: bool)
      requires Valid() && t in pc && pc[t].UnlockTry?
      modifies this
      ensures Valid() && Step(old(View()), View(), t)
      ensures wakes <==> pc[t].Wake?
    {
      var seen := pc[t].seen;
      wakes := false;
      WakesOne(seen, tokens);
      if NobodyToWake(seen) {
        assert UnlockCas(View().shared, DecodePc(pc[t]), View().shared, Idle);
        Finish(t, state, tokens, Idle);
      } else if state == seen && !fails {
        wakes := true;
        Finish(t, WakeWord(seen), tokens, Wake);
      } else {
        assert UnlockCas(View().shared, DecodePc(pc[t]), View().shared, UnlockLoad);
        Finish(t, state, tokens, UnlockLoad);
      }
    }

    /** mutex_unlock_slow: old = mutex->state */
    method UnlockReadWord(t: Thread)
      requires Valid() && t in pc && pc[t].UnlockLoad?
      modifies this
      ensures Valid() && Step(old(View()), View(), t)
      ensures pc == old(pc)[t := UnlockTry(old(state))]
    {
      assert UnlockRead(View().shared, DecodePc(pc[t]), View().shared, DecodePc(UnlockTry(state)));
      Finish(t, state, tokens, UnlockTry(state));
    }

    /** semaphore_release, with or without hand-off. */
    method SemaphoreRelease(t: Thread)
      requires Valid() && t in pc && (pc[t].Wake? || pc[t].HandOff?)
      modifies this
      ensures Valid() && Step(old(View()), View(), t)
      ensures state == old(state) && tokens == old(tokens) + 1 && pc == old(pc)[t := Idle]
    {
      assert ReleaseToken(View().shared, DecodePc(pc[t]), Shared(Decode(state), tokens + 1), Idle);
      Finish(t, state, tokens + 1, Idle);
    }
  }
}
