/**
 The semaphore of kernel/sync/semaphore.c as a transition system: any finite number of threads
 acquiring and releasing, one step per atomic access or plain access under the spinlock.

 A waiting-thread descriptor is identified with its thread. Parking is "enqueue, mark as waiting,
 unlock"; readying is the waker's step that lets the parked thread go on.
*/
module SemaphoreProtocol {
  import opened Counting
  import Spec = SemaphoreSpec

  type Thread = Spec.Thread

  datatype Option<T> = None | Some(value: T)

  /** Where semaphore_can_acquire was called from. */
  datatype Stage =
    | Easy                      // first attempt of semaphore_acquire
    | Locked                    // second attempt, holding the lock and counted in nwait
    | AfterWake                 // attempt after being woken without a ticket
    | ForWaiter(waiter: Thread) // a releaser trying to take the token on behalf of a dequeued waiter

  datatype Pc =
    | Idle
    // semaphore_can_acquire
    | TryLoad(stage: Stage)               // about to load value
    | TryCas(stage: Stage, seen: nat)     // about to CAS value from seen, which is not zero
    // semaphore_acquire
    | WantLock
    | CountIn                             // has the lock, about to increment nwait
    | CountOut                            // has the lock and a token, about to decrement nwait
    | UnlockOut                           // has the lock and a token, about to unlock
    | Enqueue                             // has the lock, found no token, about to queue itself and park
    | Parked
    | Woken(ticket: bool)                 // made runnable, with or without a token of its own
    | Got                                 // has a token, about to return
    // semaphore_release
    | Released(handoff: bool)             // value incremented, about to test nwait
    | WantLockToWake(handoff: bool)
    | TestAgain(handoff: bool)            // has the lock, about to test nwait again
    | Dequeue(handoff: bool)              // has the lock, about to take the first waiter
    | UnlockAndWake(handoff: bool, taken: Option<Thread>)
    | Ready(waiter: Thread, ticket: bool) // about to ready the waiter

  datatype Shared = Shared(
    value: nat,                // tokens
    nwait: nat,
    lock: Option<Thread>,      // who holds the spinlock
    queue: seq<Thread>,        // the waiters list, front first
    tickets: set<Thread>,      // whose descriptor carries a ticket
    released: nat,             // how many tokens were ever released
    acquired: nat)             // how many tokens were ever taken, for oneself or for a waiter

  datatype State = State(g: Shared, pc: map<Thread, Pc>)

  ghost predicate Init(s: State, initial: nat) {
    s.g == Shared(initial, 0, None, [], {}, 0, 0) && forall t | t in s.pc :: s.pc[t] == Idle
  }

  // ---------------------------------------------------------------- steps

  /** Where a failed attempt goes on. */
  function NoToken(stage: Stage): Pc {
    match stage
    case Easy => WantLock
    case Locked => Enqueue
    case AfterWake => WantLock
    case ForWaiter(w) => Ready(w, false)
  }

  /** Where a successful attempt goes on. */
  function HasToken(stage: Stage): Pc {
    match stage
    case Easy => Got
    case Locked => CountOut
    case AfterWake => Got
    case ForWaiter(w) => Ready(w, true)
  }

  /** The step of thread t from p to q. A CAS is weak: it may fail without reason. */
  predicate Move(g: Shared, t: Thread, p: Pc, g': Shared, q: Pc) {
    match p
    case Idle =>
      || (g' == g && q == TryLoad(Easy))
      || (g' == g.(value := g.value + 1, released := g.released + 1) && (q == Released(false) || q == Released(true)))
    case TryLoad(stage) =>
      g' == g && q == if g.value == 0 then NoToken(stage) else TryCas(stage, g.value)
    case TryCas(stage, seen) =>
      || (g' == g && q == TryLoad(stage))
      || (g.value == seen && seen > 0 && g' == Take(g, stage) && q == HasToken(stage))
    case WantLock => g.lock.None? && g' == g.(lock := Some(t)) && q == CountIn
    case CountIn => g' == g.(nwait := g.nwait + 1) && q == TryLoad(Locked)
    case CountOut => g.nwait > 0 && g' == g.(nwait := g.nwait - 1) && q == UnlockOut
    case UnlockOut => g' == g.(lock := None) && q == Got
    case Enqueue =>   // lifo or fifo, then park, which unlocks
      q == Parked &&
      (|| g' == g.(queue := g.queue + [t], lock := None)
       || g' == g.(queue := [t] + g.queue, lock := None))
    case Parked => false
    case Woken(ticket) =>
      if ticket then g' == g.(tickets := g.tickets - {t}) && q == Got else g' == g && q == TryLoad(AfterWake)
    case Got => g' == g && q == Idle
    case Released(handoff) => g' == g && q == if g.nwait == 0 then Idle else WantLockToWake(handoff)
    case WantLockToWake(handoff) => g.lock.None? && g' == g.(lock := Some(t)) && q == TestAgain(handoff)
    case TestAgain(handoff) => g' == g && q == if g.nwait == 0 then UnlockAndWake(handoff, None) else Dequeue(handoff)
    case Dequeue(handoff) =>
      if g.queue == [] then g' == g && q == UnlockAndWake(handoff, None)
      else && g.nwait > 0 && g' == g.(queue := g.queue[1..], nwait := g.nwait - 1)
           && q == UnlockAndWake(handoff, Some(g.queue[0]))
    case UnlockAndWake(handoff, taken) =>
      && g' == g.(lock := None)
      && q == (if taken.None? then Idle
               else if handoff then TryLoad(ForWaiter(taken.value)) else Ready(taken.value, false))
    case Ready(_, _) => false   // see Wakes
  }

  /** The token is taken; a releaser gives it to its waiter as a ticket. */
  function Take(g: Shared, stage: Stage): Shared
    requires g.value > 0
  {
    g.(value := g.value - 1, acquired := g.acquired + 1,
       tickets := if stage.ForWaiter? then g.tickets + {stage.waiter} else g.tickets)
  }

  ghost predicate Step(s: State, s': State, t: Thread) {
    t in s.pc && t in s'.pc &&
    (|| (Move(s.g, t, s.pc[t], s'.g, s'.pc[t]) && s'.pc == s.pc[t := s'.pc[t]])
     || Wakes(s, s', t))
  }

  /** scheduler_ready_thread */
  ghost predicate Wakes(s: State, s': State, t: Thread)
    requires t in s.pc
  {
    var p := s.pc[t];
    p.Ready? && p.waiter in s.pc && s.pc[p.waiter].Parked? && s'.g == s.g &&
    s'.pc == s.pc[p.waiter := Woken(p.ticket)][t := Idle]
  }

  ghost predicate Run(run: seq<State>, initial: nat) {
    |run| > 0 && Init(run[0], initial) &&
    forall i :: 0 <= i < |run| - 1 ==> Next(run[i], run[i + 1])
  }

  ghost predicate Next(s: State, s': State) {
    exists t :: Step(s, s', t)
  }

  // ---------------------------------------------------------------- the invariant

  predicate HoldsLock(p: Pc) {
    || p.CountIn? || p.CountOut? || p.UnlockOut? || p.Enqueue?
    || p.TestAgain? || p.Dequeue? || p.UnlockAndWake?
    || ((p.TryLoad? || p.TryCas?) && p.stage.Locked?)
  }

  /** Counted in nwait, but not in the queue. */
  predicate CountedOutside(p: Pc) {
    p.CountOut? || p.Enqueue? || ((p.TryLoad? || p.TryCas?) && p.stage.Locked?)
  }

  /** The parked waiter a releaser has in hand. */
  function Target(p: Pc): Option<Thread> {
    match p
    case TryLoad(ForWaiter(w)) => Some(w)
    case TryCas(ForWaiter(w), _) => Some(w)
    case UnlockAndWake(_, w) => w
    case Ready(w, _) => Some(w)
    case _ => None
  }

  /** A release that has not passed its token on or woken anybody, or a waiter woken without a ticket. */
  predicate InFlight(p: Pc) {
    match p
    case Released(_) => true
    case WantLockToWake(_) => true
    case TestAgain(_) => true
    case Dequeue(_) => true
    case UnlockAndWake(_, w) => w.Some?
    case TryLoad(stage) => stage.ForWaiter? || stage.AfterWake?
    case TryCas(stage, _) => stage.ForWaiter? || stage.AfterWake?
    case Ready(_, ticket) => !ticket
    case Woken(ticket) => !ticket
    case _ => false
  }

  ghost function Flights(pc: map<Thread, Pc>): map<Thread, bool> {
    map t | t in pc :: InFlight(pc[t])
  }

  ghost function FlightCount(pc: map<Thread, Pc>): nat {
    Count(Flights(pc), true)
  }

  ghost predicate LockInv(s: State) {
    && (s.g.lock.Some? ==> s.g.lock.value in s.pc)
    && forall t | t in s.pc :: HoldsLock(s.pc[t]) <==> s.g.lock == Some(t)
  }

  /** Every parked thread is in the queue once, or in the hand of one releaser. */
  ghost predicate QueueInv(s: State) {
    && (forall i, j | 0 <= i < j < |s.g.queue| :: s.g.queue[i] != s.g.queue[j])
    && (forall w | w in s.g.queue :: w in s.pc && s.pc[w].Parked?)
    && (forall t | t in s.pc && Target(s.pc[t]).Some? :: InHand(s, Target(s.pc[t]).value))
    && (forall t, u | t in s.pc && u in s.pc && t != u && Target(s.pc[t]).Some? :: Target(s.pc[t]) != Target(s.pc[u]))
  }

  /** No parked thread is forgotten. */
  ghost predicate ParkedInv(s: State) {
    forall w | w in s.pc && s.pc[w].Parked? :: w in s.g.queue || Expected(s, w)
  }

  /** Some releaser has w in hand. */
  ghost predicate Expected(s: State, w: Thread) {
    exists t :: t in s.pc && Target(s.pc[t]) == Some(w)
  }

  ghost predicate InHand(s: State, w: Thread) {
    w in s.pc && s.pc[w].Parked? && w !in s.g.queue
  }

  /** Tickets belong to waiters that a releaser is about to ready, or that have just been readied. */
  ghost predicate TicketInv(s: State) {
    && (forall w | w in s.g.tickets :: w in s.pc && w !in s.g.queue && (s.pc[w].Parked? || s.pc[w] == Woken(true)))
    && (forall t | t in s.pc && s.pc[t].Woken? :: s.pc[t].ticket <==> t in s.g.tickets)
    && (forall t | t in s.pc && Target(s.pc[t]).Some? ::
          (Target(s.pc[t]).value in s.g.tickets <==> s.pc[t].Ready? && s.pc[t].ticket))
  }

  /** The part of the invariant about numbers; h is where the holder of the lock is, if anywhere. */
  predicate NumberInv(g: Shared, h: Pc, flights: nat, initial: nat) {
    && g.value + g.acquired == initial + g.released
    && g.nwait == |g.queue| + One(CountedOutside(h))
    && (g.queue != [] || h.Enqueue? ==> g.value <= flights)
  }

  ghost function Holder(s: State): Pc {
    if s.g.lock.Some? && s.g.lock.value in s.pc then s.pc[s.g.lock.value] else Idle
  }

  ghost predicate Inv(s: State, initial: nat) {
    LockInv(s) && QueueInv(s) && ParkedInv(s) && TicketInv(s) && NumberInv(s.g, Holder(s), FlightCount(s.pc), initial)
  }

  lemma FlightsMove(pc: map<Thread, Pc>, t: Thread, q: Pc)
    requires t in pc
    ensures Shift(FlightCount(pc), FlightCount(pc[t := q]), InFlight(pc[t]), InFlight(q))
  {
    assert Flights(pc[t := q]) == Flights(pc)[t := InFlight(q)];
    CountShift(Flights(pc), t, InFlight(q), true);
  }

  lemma InitInv(s: State, initial: nat)
    requires Init(s, initial)
    ensures Inv(s, initial)
  {
    CountZero(Flights(s.pc), true);
  }

  /** h is where the holder of the lock is before the step of thread t, h' where it is afterwards. */
  predicate HolderMoves(g: Shared, t: Thread, p: Pc, h: Pc, g': Shared, q: Pc, h': Pc) {
    && (g.lock == Some(t) <==> HoldsLock(p))
    && h == (if g.lock == Some(t) then p else if g.lock == None then Idle else h)
    && h' == if g'.lock == Some(t) then q else if g'.lock == None then Idle else h
  }

  /** One step of one thread keeps the numbers in order, whether or not it holds the lock. */
  lemma MoveKeepsNumbers(g: Shared, t: Thread, p: Pc, h: Pc, n: nat, g': Shared, q: Pc, h': Pc, n': nat, initial: nat)
    requires Move(g, t, p, g', q) && NumberInv(g, h, n, initial) && Shift(n, n', InFlight(p), InFlight(q))
    requires HolderMoves(g, t, p, h, g', q, h')
    ensures NumberInv(g', h', n', initial)
  {
  }

  lemma NumbersStep(s: State, s': State, t: Thread, initial: nat)
    requires LockInv(s) && LockInv(s') && NumberInv(s.g, Holder(s), FlightCount(s.pc), initial)
    requires Step(s, s', t) && !Wakes(s, s', t)
    ensures NumberInv(s'.g, Holder(s'), FlightCount(s'.pc), initial)
  {
    FlightsMove(s.pc, t, s'.pc[t]);
    MoveKeepsNumbers(s.g, t, s.pc[t], Holder(s), FlightCount(s.pc),
                     s'.g, s'.pc[t], Holder(s'), FlightCount(s'.pc), initial);
  }

  lemma NumbersWake(s: State, s': State, t: Thread, initial: nat)
    requires LockInv(s) && NumberInv(s.g, Holder(s), FlightCount(s.pc), initial)
    requires t in s.pc && Wakes(s, s', t)
    ensures NumberInv(s'.g, Holder(s'), FlightCount(s'.pc), initial)
  {
    var w, ticket := s.pc[t].waiter, s.pc[t].ticket;
    FlightsMove(s.pc, w, Woken(ticket));
    FlightsMove(s.pc[w := Woken(ticket)], t, Idle);
  }

  lemma LockStep(s: State, s': State, t: Thread)
    requires LockInv(s) && Step(s, s', t)
    ensures LockInv(s')
  {
  }

  /** A step that neither parks nor takes a waiter in hand leaves the accounting of parked threads alone. */
  lemma QueueQuiet(s: State, s': State, t: Thread)
    requires QueueInv(s) && t in s.pc && t in s'.pc && s'.pc == s.pc[t := s'.pc[t]]
    requires Target(s'.pc[t]) == Target(s.pc[t]) && !s.pc[t].Parked? && !s'.pc[t].Parked? && s'.g.queue == s.g.queue
    ensures QueueInv(s')
  {
    assert forall u | u in s.pc :: Target(s'.pc[u]) == Target(s.pc[u]) && s'.pc[u].Parked? == s.pc[u].Parked?;
  }

  lemma QueueEnqueue(s: State, s': State, t: Thread)
    requires QueueInv(s) && t in s.pc && s.pc[t].Enqueue? && s'.pc == s.pc[t := Parked]
    requires s'.g.queue == s.g.queue + [t] || s'.g.queue == [t] + s.g.queue
    ensures QueueInv(s')
  {
    assert forall u | u in s.pc :: Target(s'.pc[u]) == Target(s.pc[u]) && (u != t ==> s'.pc[u] == s.pc[u]);
    assert forall w :: w in s'.g.queue <==> w == t || w in s.g.queue;
  }

  lemma QueueDequeue(s: State, s': State, t: Thread)
    requires QueueInv(s) && t in s.pc && s.pc[t].Dequeue? && s.g.queue != [] && s'.g.queue == s.g.queue[1..]
    requires s'.pc == s.pc[t := UnlockAndWake(s.pc[t].handoff, Some(s.g.queue[0]))]
    ensures QueueInv(s')
  {
    assert forall w :: w in s.g.queue <==> w == s.g.queue[0] || w in s'.g.queue;
    assert Target(s'.pc[t]) == Some(s.g.queue[0]);
    assert forall u | u in s.pc && u != t :: s'.pc[u] == s.pc[u];
  }

  lemma QueueWake(s: State, s': State, t: Thread)
    requires QueueInv(s) && t in s.pc && Wakes(s, s', t)
    ensures QueueInv(s')
  {
    var w := s.pc[t].waiter;
    assert Target(s.pc[t]) == Some(w) && InHand(s, w);
    assert Target(s'.pc[t]) == None && Target(s'.pc[w]) == None;
    forall u | u in s'.pc && Target(s'.pc[u]).Some?
      ensures u != t && u != w && s'.pc[u] == s.pc[u] && InHand(s', Target(s'.pc[u]).value)
    {
      assert InHand(s, Target(s.pc[u]).value);
    }
  }

  /** What a step can do to the queue. */
  lemma MoveQueues(g: Shared, t: Thread, p: Pc, g': Shared, q: Pc)
    requires Move(g, t, p, g', q)
    ensures
      || (Target(q) == Target(p) && !p.Parked? && !q.Parked? && g'.queue == g.queue)
      || (p.Enqueue? && q == Parked && (g'.queue == g.queue + [t] || g'.queue == [t] + g.queue))
      || (p.Dequeue? && g.queue != [] && g'.queue == g.queue[1..] && q == UnlockAndWake(p.handoff, Some(g.queue[0])))
  {
  }

  lemma QueueStep(s: State, s': State, t: Thread)
    requires QueueInv(s) && t in s.pc && t in s'.pc && s'.pc == s.pc[t := s'.pc[t]]
    requires Move(s.g, t, s.pc[t], s'.g, s'.pc[t])
    ensures QueueInv(s')
  {
    var p, q := s.pc[t], s'.pc[t];
    MoveQueues(s.g, t, p, s'.g, q);
    if p.Enqueue? {
      QueueEnqueue(s, s', t);
    } else if p.Dequeue? && s.g.queue != [] {
      QueueDequeue(s, s', t);
    } else {
      QueueQuiet(s, s', t);
    }
  }

  /** t keeps what it has in hand, if anything. */
  lemma ParkedStep(s: State, s': State, t: Thread)
    requires QueueInv(s) && ParkedInv(s) && t in s.pc && t in s'.pc && s'.pc == s.pc[t := s'.pc[t]]
    requires Move(s.g, t, s.pc[t], s'.g, s'.pc[t])
    ensures ParkedInv(s')
  {
    MoveQueues(s.g, t, s.pc[t], s'.g, s'.pc[t]);
    assert s'.pc[t].Parked? ==> t in s'.g.queue by {
      assert s'.g.queue == s.g.queue + [t] ==> s'.g.queue[|s.g.queue|] == t;
      assert s'.g.queue == [t] + s.g.queue ==> s'.g.queue[0] == t;
    }
    forall w | w in s'.pc && s'.pc[w].Parked? && w != t
      ensures w in s'.g.queue || Expected(s', w)
    {
      if w in s.g.queue {
        assert w in s'.g.queue || Target(s'.pc[t]) == Some(w);
      } else {
        var u :| u in s.pc && Target(s.pc[u]) == Some(w);
        assert Target(s'.pc[u]) == Some(w);
      }
    }
  }

  lemma ParkedWake(s: State, s': State, t: Thread)
    requires ParkedInv(s) && t in s.pc && Wakes(s, s', t)
    ensures ParkedInv(s')
  {
    forall w | w in s'.pc && s'.pc[w].Parked?
      ensures w in s'.g.queue || Expected(s', w)
    {
      if w !in s.g.queue {
        var u :| u in s.pc && Target(s.pc[u]) == Some(w);
        assert u != t && Target(s'.pc[u]) == Some(w);
      }
    }
  }

  /** A releaser got the token for the waiter it has in hand. */
  lemma TicketGiven(s: State, s': State, t: Thread, w: Thread)
    requires QueueInv(s) && TicketInv(s) && t in s.pc && s.pc[t].TryCas? && s.pc[t].stage == ForWaiter(w)
    requires s'.pc == s.pc[t := Ready(w, true)] && s'.g.queue == s.g.queue && s'.g.tickets == s.g.tickets + {w}
    ensures TicketInv(s')
  {
    assert Target(s.pc[t]) == Some(w) && InHand(s, w);
    assert forall u | u in s.pc && u != t :: s'.pc[u] == s.pc[u];
  }

  lemma TicketEnqueue(s: State, s': State, t: Thread)
    requires TicketInv(s) && t in s.pc && s.pc[t].Enqueue? && s'.pc == s.pc[t := Parked]
    requires s'.g.queue == s.g.queue + [t] || s'.g.queue == [t] + s.g.queue
    requires s'.g.tickets == s.g.tickets
    ensures TicketInv(s')
  {
    assert t !in s.g.tickets;
    assert forall w :: w in s'.g.queue <==> w == t || w in s.g.queue;
    assert forall u | u in s.pc && u != t :: s'.pc[u] == s.pc[u];
  }

  lemma TicketDequeue(s: State, s': State, t: Thread)
    requires TicketInv(s) && t in s.pc && s.pc[t].Dequeue? && s.g.queue != [] && s'.g.queue == s.g.queue[1..]
    requires s'.pc == s.pc[t := UnlockAndWake(s.pc[t].handoff, Some(s.g.queue[0]))]
    requires s'.g.tickets == s.g.tickets
    ensures TicketInv(s')
  {
    assert s.g.queue[0] in s.g.queue;
    assert Target(s'.pc[t]) == Some(s.g.queue[0]);
    assert forall u | u in s.pc && u != t :: s'.pc[u] == s.pc[u];
  }

  /** A waiter uses up its ticket. */
  lemma TicketUsed(s: State, s': State, t: Thread)
    requires QueueInv(s) && TicketInv(s) && t in s.pc && s.pc[t] == Woken(true) && s'.pc == s.pc[t := Got]
    requires s'.g.queue == s.g.queue && s'.g.tickets == s.g.tickets - {t}
    ensures TicketInv(s')
  {
    assert forall u | u in s.pc && u != t :: s'.pc[u] == s.pc[u];
    assert forall u | u in s.pc && Target(s.pc[u]).Some? :: InHand(s, Target(s.pc[u]).value);
  }

  /** Nobody's ticket changes, nor what t has in hand. */
  lemma TicketQuiet(s: State, s': State, t: Thread)
    requires QueueInv(s) && TicketInv(s) && t in s.pc && t in s'.pc && s'.pc == s.pc[t := s'.pc[t]]
    requires s'.g.tickets == s.g.tickets && !s'.pc[t].Woken? && s'.g.queue == s.g.queue
    requires !s.pc[t].Parked? && (s.pc[t].Woken? ==> !s.pc[t].ticket)
    requires Target(s'.pc[t]) == Target(s.pc[t]) && !s.pc[t].Ready? && (s'.pc[t].Ready? ==> !s'.pc[t].ticket)
    ensures TicketInv(s')
  {
    assert forall u | u in s.pc && u != t :: s'.pc[u] == s.pc[u];
  }

  /** What a step can do to the tickets. */
  lemma MoveTickets(g: Shared, t: Thread, p: Pc, g': Shared, q: Pc)
    requires Move(g, t, p, g', q)
    ensures
      || (&& g'.tickets == g.tickets && !q.Woken? && !p.Parked? && (p.Woken? ==> !p.ticket) && !p.Ready?
          && Target(q) == Target(p) && (q.Ready? ==> !q.ticket) && g'.queue == g.queue)
      || (p.Enqueue? && q == Parked && g'.tickets == g.tickets
          && (g'.queue == g.queue + [t] || g'.queue == [t] + g.queue))
      || (&& p.Dequeue? && g'.tickets == g.tickets && g.queue != [] && g'.queue == g.queue[1..]
          && q == UnlockAndWake(p.handoff, Some(g.queue[0])))
      || (p == Woken(true) && q == Got && g'.tickets == g.tickets - {t} && g'.queue == g.queue)
      || (&& p.TryCas? && p.stage.ForWaiter? && q == Ready(p.stage.waiter, true)
          && g'.tickets == g.tickets + {p.stage.waiter} && g'.queue == g.queue)
  {
  }

  lemma TicketStep(s: State, s': State, t: Thread)
    requires QueueInv(s) && TicketInv(s) && t in s.pc && t in s'.pc && s'.pc == s.pc[t := s'.pc[t]]
    requires Move(s.g, t, s.pc[t], s'.g, s'.pc[t])
    ensures TicketInv(s')
  {
    var p, q := s.pc[t], s'.pc[t];
    MoveTickets(s.g, t, p, s'.g, q);
    if p.Enqueue? {
      TicketEnqueue(s, s', t);
    } else if p.Dequeue? && s.g.queue != [] {
      TicketDequeue(s, s', t);
    } else if p == Woken(true) {
      TicketUsed(s, s', t);
    } else if q.Ready? && q.ticket {
      TicketGiven(s, s', t, q.waiter);
    } else {
      TicketQuiet(s, s', t);
    }
  }

  lemma TicketWake(s: State, s': State, t: Thread)
    requires QueueInv(s) && TicketInv(s) && t in s.pc && Wakes(s, s', t)
    ensures TicketInv(s')
  {
    var w := s.pc[t].waiter;
    assert Target(s.pc[t]) == Some(w) && InHand(s, w);
    assert Target(s'.pc[t]) == None && Target(s'.pc[w]) == None;
    forall u | u in s'.pc && Target(s'.pc[u]).Some?
      ensures u != t && u != w && s'.pc[u] == s.pc[u] && InHand(s', Target(s'.pc[u]).value)
    {
      assert InHand(s, Target(s.pc[u]).value);
    }
  }

  lemma StepInv(s: State, s': State, t: Thread, initial: nat)
    requires Inv(s, initial) && Step(s, s', t)
    ensures Inv(s', initial)
  {
    LockStep(s, s', t);
    if Wakes(s, s', t) {
      QueueWake(s, s', t);
      ParkedWake(s, s', t);
      TicketWake(s, s', t);
      NumbersWake(s, s', t, initial);
    } else {
      QueueStep(s, s', t);
      ParkedStep(s, s', t);
      TicketStep(s, s', t);
      NumbersStep(s, s', t, initial);
    }
  }

  lemma {:induction false} RunInv(run: seq<State>, i: nat, initial: nat)
    requires Run(run, initial) && i < |run|
    ensures Inv(run[i], initial)
  {
    if i == 0 {
      InitInv(run[0], initial);
    } else {
      RunInv(run, i - 1, initial);
      assert Next(run[i - 1], run[i - 1 + 1]);
      var t :| Step(run[i - 1], run[i], t);
      StepInv(run[i - 1], run[i], t, initial);
    }
  }

  // ---------------------------------------------------------------- what the invariant gives

  /** Tokens are conserved: what was there plus what was released is what is left plus what was taken. */
  lemma TokensConserved(run: seq<State>, i: nat, initial: nat)
    requires Run(run, initial) && i < |run|
    ensures run[i].g.value + run[i].g.acquired == initial + run[i].g.released
  {
    RunInv(run, i, initial);
  }

  /** While a waiter is queued, every token left has a release or a woken waiter still after it. */
  lemma NoLostWakeUp(run: seq<State>, i: nat, initial: nat)
    requires Run(run, initial) && i < |run| && run[i].g.queue != []
    ensures run[i].g.value <= FlightCount(run[i].pc)
  {
    RunInv(run, i, initial);
  }

  /** When every thread is idle, parked or waiting for nothing else, a parked thread means there is no token. */
  lemma QuietMeansEmpty(run: seq<State>, i: nat, initial: nat, t: Thread)
    requires Run(run, initial) && i < |run| && t in run[i].pc && run[i].pc[t].Parked?
    requires forall u | u in run[i].pc :: run[i].pc[u].Idle? || run[i].pc[u].Parked?
    ensures run[i].g.value == 0
  {
    RunInv(run, i, initial);
    CountZero(Flights(run[i].pc), true);
    assert t in run[i].g.queue;
  }

  /** A woken waiter was taken from the queue by one releaser only, and its ticket is a token of its own. */
  lemma OneWakerEach(run: seq<State>, i: nat, initial: nat, t: Thread, u: Thread)
    requires Run(run, initial) && i < |run| && t in run[i].pc && u in run[i].pc
    requires Target(run[i].pc[t]).Some? && Target(run[i].pc[t]) == Target(run[i].pc[u])
    ensures t == u
    ensures var w := Target(run[i].pc[t]).value;
            w in run[i].pc && run[i].pc[w].Parked? && w !in run[i].g.queue
  {
    RunInv(run, i, initial);
    assert InHand(run[i], Target(run[i].pc[t]).value);
  }

  /** Some run comes to this state. */
  ghost predicate Reachable(s: State, initial: nat) {
    exists run :: Run(run, initial) && run[|run| - 1] == s
  }

  lemma ReachableInv(s: State, initial: nat)
    requires Reachable(s, initial)
    ensures Inv(s, initial)
  {
    var run :| Run(run, initial) && run[|run| - 1] == s;
    RunInv(run, |run| - 1, initial);
  }

  lemma ReachableNext(s: State, s': State, t: Thread, initial: nat)
    requires Reachable(s, initial) && Step(s, s', t)
    ensures Reachable(s', initial)
  {
    var run :| Run(run, initial) && run[|run| - 1] == s;
    var longer := run + [s'];
    assert longer[|longer| - 1] == s';
    assert Next(s, s');
    forall i | 0 <= i < |longer| - 1
      ensures Next(longer[i], longer[i + 1])
    {
      assert i < |run| - 1 ==> Next(run[i], run[i + 1]);
    }
    assert Run(longer, initial);
  }

  // ---------------------------------------------------------------- refinement

  predicate IsWaiting(p: Pc) {
    match p
    case TryLoad(stage) => !stage.ForWaiter?
    case TryCas(stage, _) => !stage.ForWaiter?
    case WantLock => true
    case CountIn => true
    case Enqueue => true
    case Parked => true
    case Woken(ticket) => !ticket
    case _ => false
  }

  predicate IsGranted(p: Pc) {
    p.CountOut? || p.UnlockOut? || p.Got? || p == Woken(true)
  }

  /** The semaphore as its users see it. */
  ghost function View(s: State): Spec.Sem {
    Spec.Sem(s.g.value,
             set t | t in s.pc && IsWaiting(s.pc[t]) && t !in s.g.tickets,
             set t | t in s.pc && (IsGranted(s.pc[t]) || t in s.g.tickets))
  }

  /** Every step is a step of the specification, or changes nothing that users see. */
  lemma Refines(s: State, s': State, t: Thread, initial: nat)
    requires Inv(s, initial) && Step(s, s', t)
    ensures Spec.Next(View(s), View(s'))
  {
    var p, q := s.pc[t], s'.pc[t];
    if Wakes(s, s', t) {
      RefinesWake(s, s', t);
    } else if p.Idle? || p.Got? {
      RefinesCall(s, s', t);
    } else if s'.g.value != s.g.value {
      var w := if p.stage.ForWaiter? then p.stage.waiter else t;
      RefinesGrant(s, s', t, w);
    } else {
      RefinesQuiet(s, s', t);
    }
  }

  /** The steps at which a call begins or ends. */
  lemma RefinesCall(s: State, s': State, t: Thread)
    requires TicketInv(s) && t in s.pc && t in s'.pc && s'.pc == s.pc[t := s'.pc[t]]
    requires Move(s.g, t, s.pc[t], s'.g, s'.pc[t]) && (s.pc[t].Idle? || s.pc[t].Got?)
    ensures Spec.Next(View(s), View(s'))
  {
    var a, b := View(s), View(s');
    assert t !in s.g.tickets;
    if s.pc[t].Got? {
      assert b.waiting == a.waiting && b.granted == a.granted - {t};
      assert Spec.Leave(a, b, t);
    } else if s'.pc[t].Released? {
      assert b.waiting == a.waiting && b.granted == a.granted;
      assert Spec.Release(a, b);
    } else {
      assert b.waiting == a.waiting + {t} && b.granted == a.granted;
      assert Spec.Enter(a, b, t);
    }
  }

  /** Over a whole run: users see a run of the specification. */
  lemma RunRefines(run: seq<State>, i: nat, initial: nat)
    requires Run(run, initial) && i < |run| - 1
    ensures Spec.Next(View(run[i]), View(run[i + 1]))
  {
    RunInv(run, i, initial);
    assert Next(run[i], run[i + 1]);
    var t :| Step(run[i], run[i + 1], t);
    Refines(run[i], run[i + 1], t, initial);
  }

  lemma RefinesWake(s: State, s': State, t: Thread)
    requires QueueInv(s) && TicketInv(s) && t in s.pc && Wakes(s, s', t)
    ensures View(s') == View(s)
  {
    var w := s.pc[t].waiter;
    assert Target(s.pc[t]) == Some(w) && InHand(s, w);
    assert t !in s.g.tickets;
    assert View(s').waiting == View(s).waiting;
    assert View(s').granted == View(s).granted;
  }

  lemma RefinesGrant(s: State, s': State, t: Thread, w: Thread)
    requires QueueInv(s) && TicketInv(s) && t in s.pc && s.pc[t].TryCas?
    requires s.g.value > 0 && s'.g == Take(s.g, s.pc[t].stage)
    requires s'.pc == s.pc[t := HasToken(s.pc[t].stage)]
    requires w == if s.pc[t].stage.ForWaiter? then s.pc[t].stage.waiter else t
    ensures Spec.Grant(View(s), View(s'), w)
  {
    if s.pc[t].stage.ForWaiter? {
      assert Target(s.pc[t]) == Some(w) && InHand(s, w);
    }
    assert View(s').waiting == View(s).waiting - {w};
    assert View(s').granted == View(s).granted + {w};
  }

  lemma QuietMove(g: Shared, t: Thread, p: Pc, g': Shared, q: Pc)
    requires Move(g, t, p, g', q) && !p.Idle? && !p.Got? && g'.value == g.value
    ensures IsWaiting(p) == IsWaiting(q) && IsGranted(p) == IsGranted(q)
    ensures g'.tickets == g.tickets || (p == Woken(true) && g'.tickets == g.tickets - {t})
  {
  }

  lemma RefinesQuiet(s: State, s': State, t: Thread)
    requires TicketInv(s) && t in s.pc && t in s'.pc && s'.pc == s.pc[t := s'.pc[t]]
    requires Move(s.g, t, s.pc[t], s'.g, s'.pc[t])
    requires !s.pc[t].Idle? && !s.pc[t].Got? && s'.g.value == s.g.value
    ensures View(s') == View(s)
  {
    QuietMove(s.g, t, s.pc[t], s'.g, s'.pc[t]);
    assert View(s').waiting == View(s).waiting;
    assert View(s').granted == View(s).granted;
  }
}
