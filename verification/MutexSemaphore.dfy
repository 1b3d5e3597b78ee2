/**
 The mutex of kernel/sync/mutex.c running over the semaphore of kernel/sync/semaphore.c: the steps of
 both, in any interleaving. Everything MutexProtocol proves of a mutex with a pool of tokens holds of
 this system, whose threads queue, park and wake each other as the semaphore does.
*/
module MutexOverSemaphore {
  import M = MutexProtocol
  import S = SemaphoreProtocol
  import Spec = SemaphoreSpec
  import opened Counting

  type Thread = nat

  /** The mutex's word, where each thread is in the mutex, and the semaphore, with where each thread is in it. */
  datatype State = State(word: M.Word, pc: map<Thread, M.Pc>, sem: S.State)

  ghost predicate Init(s: State) {
    s.word == M.ZERO && S.Init(s.sem, 0) && s.pc.Keys == s.sem.pc.Keys && forall t | t in s.pc :: s.pc[t].Idle?
  }

  // ---------------------------------------------------------------- steps

  /** The thread is about to call the semaphore, or inside semaphore_acquire. */
  predicate AtSemaphore(p: M.Pc) {
    p.Acquire? || p.Wake? || p.HandOff?
  }

  function Shared(word: M.Word, s: State): M.Shared {
    M.Shared(word, s.sem.g.value)
  }

  /** A step of the mutex's own code; a thread that has to wait calls semaphore_acquire at once. */
  ghost predicate MutexStep(s: State, s': State, t: Thread)
    requires t in s.pc && t in s.sem.pc
  {
    && s.sem.pc[t].Idle? && !AtSemaphore(s.pc[t]) && !s.pc[t].Acquired?
    && t in s'.pc && s'.pc == s.pc[t := s'.pc[t]]
    && M.Move(Shared(s.word, s), s.pc[t], Shared(s'.word, s), s'.pc[t])
    && s'.sem == if s'.pc[t].Acquire? then s.sem.(pc := s.sem.pc[t := S.TryLoad(S.Easy)]) else s.sem
  }

  /** semaphore_acquire returns, and the thread reads the word. */
  ghost predicate ReturnStep(s: State, s': State, t: Thread)
    requires t in s.pc && t in s.sem.pc
  {
    && s.pc[t].Acquire? && s.sem.pc[t].Got? && s'.word == s.word
    && s'.sem == s.sem.(pc := s.sem.pc[t := S.Idle])
    && t in s'.pc && s'.pc == s.pc[t := s'.pc[t]]
    && M.ReadAfterWake(Shared(s.word, s), M.Acquired(s.pc[t].starving), Shared(s.word, s), s'.pc[t])
  }

  /** semaphore_release is called: to wake a waiter, or to hand the mutex over to it. */
  ghost predicate ReleaseStep(s: State, s': State, t: Thread)
    requires t in s.pc && t in s.sem.pc
  {
    && (s.pc[t].Wake? || s.pc[t].HandOff?) && s.sem.pc[t].Idle? && s'.word == s.word
    && s'.sem == S.State(s.sem.g.(value := s.sem.g.value + 1, released := s.sem.g.released + 1),
                         s.sem.pc[t := S.Released(s.pc[t].HandOff?)])
    && s'.pc == s.pc[t := M.Idle]
  }

  /** A step inside the semaphore. */
  ghost predicate InsideStep(s: State, s': State, t: Thread)
    requires t in s.pc && t in s.sem.pc
  {
    && !s.sem.pc[t].Idle? && !s.sem.pc[t].Got? && S.Step(s.sem, s'.sem, t) && s'.word == s.word && s'.pc == s.pc
  }

  ghost predicate Step(s: State, s': State, t: Thread) {
    && t in s.pc && t in s.sem.pc
    && (MutexStep(s, s', t) || ReturnStep(s, s', t) || ReleaseStep(s, s', t) || InsideStep(s, s', t))
  }

  ghost predicate Next(s: State, s': State) {
    exists t :: Step(s, s', t)
  }

  ghost predicate Run(run: seq<State>) {
    |run| > 0 && Init(run[0]) && forall i | 0 <= i < |run| - 1 :: Next(run[i], run[i + 1])
  }

  // ---------------------------------------------------------------- the mutex as its users see it

  /** A thread to which the semaphore has given a token has acquired it, whether it has noticed or not. */
  function PcOf(p: M.Pc, granted: bool): M.Pc {
    if p.Acquire? && granted then M.Acquired(p.starving) else p
  }

  ghost function View(s: State): M.State {
    M.State(Shared(s.word, s), map t | t in s.pc :: PcOf(s.pc[t], t in S.View(s.sem).granted))
  }

  /** A thread waits for a token, or has one and has not noticed, just while it is inside semaphore_acquire. */
  ghost predicate Agree(s: State, t: Thread)
    requires t in s.pc
  {
    s.pc[t].Acquire? <==> t in S.View(s.sem).waiting || t in S.View(s.sem).granted
  }

  ghost predicate Inv(s: State) {
    && S.Reachable(s.sem, 0) && s.pc.Keys == s.sem.pc.Keys
    && (forall t | t in s.pc :: Agree(s, t)) && (forall t | t in s.pc :: !s.pc[t].Acquired?)
  }

  // ---------------------------------------------------------------- what the semaphore's steps are to the mutex

  /** Inside the semaphore, nothing changes for its users, except when a waiting thread gets a token. */
  lemma InsideGrants(s: S.State, s': S.State, t: Thread)
    requires S.Reachable(s, 0) && S.Step(s, s', t) && !s.pc[t].Idle? && !s.pc[t].Got?
    ensures S.View(s') == S.View(s) || exists w :: Spec.Grant(S.View(s), S.View(s'), w)
  {
    S.ReachableInv(s, 0);
    var p := s.pc[t];
    if S.Wakes(s, s', t) {
      S.RefinesWake(s, s', t);
    } else if s'.g.value != s.g.value {
      var w := if p.stage.ForWaiter? then p.stage.waiter else t;
      S.RefinesGrant(s, s', t, w);
    } else {
      S.RefinesQuiet(s, s', t);
    }
  }

  /** A call of semaphore_acquire begins. */
  lemma CallEnters(s: S.State, t: Thread)
    requires S.Reachable(s, 0) && t in s.pc && s.pc[t].Idle?
    ensures var s' := s.(pc := s.pc[t := S.TryLoad(S.Easy)]);
            S.Reachable(s', 0) && S.View(s') == S.View(s).(waiting := S.View(s).waiting + {t})
  {
    S.ReachableInv(s, 0);
    var s' := s.(pc := s.pc[t := S.TryLoad(S.Easy)]);
    CallReaches(s, s', t);
    assert t !in s.g.tickets;
    assert S.View(s').waiting == S.View(s).waiting + {t} && S.View(s').granted == S.View(s).granted;
  }

  lemma CallLeaves(s: S.State, t: Thread)
    requires S.Reachable(s, 0) && t in s.pc && s.pc[t].Got?
    ensures t in S.View(s).granted && t !in S.View(s).waiting
    ensures var s' := s.(pc := s.pc[t := S.Idle]);
            S.Reachable(s', 0) && S.View(s') == S.View(s).(granted := S.View(s).granted - {t})
  {
    S.ReachableInv(s, 0);
    var s' := s.(pc := s.pc[t := S.Idle]);
    CallReaches(s, s', t);
    assert t !in s.g.tickets;
    assert S.View(s').waiting == S.View(s).waiting && S.View(s').granted == S.View(s).granted - {t};
  }

  lemma CallReleases(s: S.State, s': S.State, t: Thread, handoff: bool)
    requires S.Reachable(s, 0) && t in s.pc && s.pc[t].Idle?
    requires s' == S.State(s.g.(value := s.g.value + 1, released := s.g.released + 1), s.pc[t := S.Released(handoff)])
    ensures S.Reachable(s', 0) && S.View(s') == S.View(s).(tokens := s.g.value + 1)
  {
    S.ReachableInv(s, 0);
    CallReaches(s, s', t);
    assert t !in s.g.tickets;
    assert S.View(s').waiting == S.View(s).waiting && S.View(s').granted == S.View(s).granted;
  }

  /** The beginning and the end of a call are steps of the semaphore. */
  lemma CallReaches(s: S.State, s': S.State, t: Thread)
    requires S.Reachable(s, 0) && t in s.pc && t in s'.pc && s'.pc == s.pc[t := s'.pc[t]]
    requires S.Move(s.g, t, s.pc[t], s'.g, s'.pc[t])
    ensures S.Reachable(s', 0)
  {
    S.ReachableNext(s, s', t, 0);
  }

  // ---------------------------------------------------------------- simulation

  lemma MutexSimulates(s: State, s': State, t: Thread)
    requires Inv(s) && t in s.pc && t in s.sem.pc && MutexStep(s, s', t)
    ensures Inv(s') && M.Step(View(s), View(s'), t)
  {
    assert Agree(s, t);
    if s'.pc[t].Acquire? {
      CallEnters(s.sem, t);
    }
    assert View(s').pc == View(s).pc[t := s'.pc[t]];
    forall u | u in s'.pc
      ensures Agree(s', u)
    {
      assert Agree(s, u);
    }
    NotAcquired(Shared(s.word, s), s.pc[t], Shared(s'.word, s), s'.pc[t]);
  }

  lemma NotAcquired(g: M.Shared, p: M.Pc, g': M.Shared, q: M.Pc)
    requires M.Move(g, p, g', q) && g'.tokens == g.tokens
    ensures !q.Acquired?
  {
  }

  /** The agreement with the semaphore, when one thread enters or leaves it. */
  lemma AllAgree(s: State, s': State, t: Thread, q: M.Pc)
    requires Inv(s) && t in s.pc && s'.pc == s.pc[t := q] && Agree(s', t)
    requires forall u | u in s.pc && u != t ::
               && (u in S.View(s'.sem).waiting <==> u in S.View(s.sem).waiting)
               && (u in S.View(s'.sem).granted <==> u in S.View(s.sem).granted)
    ensures forall u | u in s'.pc :: Agree(s', u)
    ensures View(s').pc == View(s).pc[t := PcOf(q, t in S.View(s'.sem).granted)]
  {
    forall u | u in s'.pc
      ensures Agree(s', u)
    {
      assert u in s.pc && Agree(s, u);
    }
  }

  /** Two kinds of steps of the mutex, on states as its users see them. */
  lemma ReadsOrReleases(m: M.State, m': M.State, t: Thread, q: M.Pc)
    requires t in m.pc && m'.pc == m.pc[t := q]
    requires M.ReadAfterWake(m.shared, m.pc[t], m'.shared, q) || M.ReleaseToken(m.shared, m.pc[t], m'.shared, q)
    ensures M.Step(m, m', t)
  {
  }

  lemma ReturnSimulates(s: State, s': State, t: Thread)
    requires Inv(s) && t in s.pc && t in s.sem.pc && ReturnStep(s, s', t)
    ensures Inv(s') && M.Step(View(s), View(s'), t)
  {
    CallLeaves(s.sem, t);
    AllAgree(s, s', t, s'.pc[t]);
    assert View(s).pc[t] == M.Acquired(s.pc[t].starving);
    ReadsOrReleases(View(s), View(s'), t, s'.pc[t]);
  }

  lemma ReleaseSimulates(s: State, s': State, t: Thread)
    requires Inv(s) && t in s.pc && t in s.sem.pc && ReleaseStep(s, s', t)
    ensures Inv(s') && M.Step(View(s), View(s'), t)
  {
    CallReleases(s.sem, s'.sem, t, s.pc[t].HandOff?);
    assert Agree(s, t);
    AllAgree(s, s', t, M.Idle);
    ReadsOrReleases(View(s), View(s'), t, M.Idle);
  }

  lemma InsideSimulates(s: State, s': State, t: Thread)
    requires Inv(s) && t in s.pc && t in s.sem.pc && InsideStep(s, s', t)
    ensures Inv(s') && (View(s') == View(s) || exists u :: M.Step(View(s), View(s'), u))
  {
    S.ReachableNext(s.sem, s'.sem, t, 0);
    InsideGrants(s.sem, s'.sem, t);
    forall u | u in s'.pc
      ensures Agree(s', u)
    {
      assert Agree(s, u);
    }
    if S.View(s'.sem) == S.View(s.sem) {
      assert View(s').pc == View(s).pc;
    } else {
      var w :| Spec.Grant(S.View(s.sem), S.View(s'.sem), w);
      GrantSimulates(s, s', w);
    }
  }

  lemma GrantSimulates(s: State, s': State, w: Thread)
    requires Inv(s) && s'.pc == s.pc && s'.word == s.word && Spec.Grant(S.View(s.sem), S.View(s'.sem), w)
    ensures M.Step(View(s), View(s'), w)
  {
    assert w in s.sem.pc.Keys;
    assert Agree(s, w);
    WaitingIsNotGranted(s.sem, w);
    assert View(s).pc[w] == s.pc[w] && View(s').pc[w] == M.Acquired(s.pc[w].starving);
    assert View(s').pc == View(s).pc[w := View(s').pc[w]];
    assert M.TakeToken(View(s).shared, View(s).pc[w], View(s').shared, View(s').pc[w]);
  }

  lemma WaitingIsNotGranted(s: S.State, w: Thread)
    requires w in S.View(s).waiting
    ensures w !in S.View(s).granted
  {
  }

  /** Every step of the system is at most one step of the mutex over its pool of tokens. */
  lemma Simulates(s: State, s': State)
    requires Inv(s) && Next(s, s')
    ensures Inv(s') && (View(s') == View(s) || M.Next(View(s), View(s')))
  {
    var t :| Step(s, s', t);
    if MutexStep(s, s', t) {
      MutexSimulates(s, s', t);
    } else if ReturnStep(s, s', t) {
      ReturnSimulates(s, s', t);
    } else if ReleaseStep(s, s', t) {
      ReleaseSimulates(s, s', t);
    } else {
      InsideSimulates(s, s', t);
    }
  }

  lemma Begins(s: State)
    requires Init(s)
    ensures Inv(s) && M.Reachable(View(s))
  {
    assert S.Run([s.sem], 0);
    assert M.Run([View(s)]);
  }

  /** Every run of the system shows its users a run of the mutex. */
  lemma {:induction false} RunSimulates(run: seq<State>, i: nat)
    requires Run(run) && i < |run|
    ensures Inv(run[i]) && M.Reachable(View(run[i]))
  {
    if i == 0 {
      Begins(run[0]);
    } else {
      RunSimulates(run, i - 1);
      assert Next(run[i - 1], run[i - 1 + 1]);
      Simulates(run[i - 1], run[i]);
      if View(run[i]) != View(run[i - 1]) {
        var t :| M.Step(View(run[i - 1]), View(run[i]), t);
        M.ReachableNext(View(run[i - 1]), View(run[i]), t);
      }
    }
  }

  // ---------------------------------------------------------------- results

  /** No two threads hold the mutex, with its semaphore queueing, parking and waking as it does. */
  lemma MutualExclusion(run: seq<State>, i: nat, t: Thread, u: Thread)
    requires Run(run) && i < |run| && t in run[i].pc && u in run[i].pc && run[i].pc[t].Held? && run[i].pc[u].Held?
    ensures t == u
  {
    RunSimulates(run, i);
    var v := View(run[i]);
    var path :| M.Run(path) && path[|path| - 1] == v;
    M.MutualExclusion(path, |path| - 1);
    assert v.pc[t].Held? && v.pc[u].Held?;
  }

  /**
   A thread parked in the semaphore of an unlocked mutex is not forgotten: somebody has been woken, a
   hand-off is under way, or an unlocker is still looking.
  */
  lemma ParkedNotForgotten(run: seq<State>, i: nat, t: Thread)
    requires Run(run) && i < |run| && t in run[i].sem.pc && run[i].sem.pc[t].Parked? && !run[i].word.locked
    ensures || run[i].word.woken
            || M.HandOffs(View(run[i])) == 1
            || exists u :: u in run[i].pc && M.KindOf(run[i].pc[u]) == M.KLooking
  {
    RunSimulates(run, i);
    var s, v := run[i], View(run[i]);
    ParkedIsAcquiring(s, t);
    M.ReachableInv(v);
    CountShift(M.Kinds(v.pc), t, M.KindOf(v.pc[t]), M.KindOf(v.pc[t]));
    if !s.word.woken && M.HandOffs(v) != 1 {
      var path :| M.Run(path) && path[|path| - 1] == v;
      M.NoWaiterStranded(path, |path| - 1);
      var u :| u in v.pc && M.KindOf(v.pc[u]) == M.KLooking;
      assert u in s.pc && v.pc[u] == s.pc[u];
    }
  }

  lemma ParkedIsAcquiring(s: State, t: Thread)
    requires Inv(s) && t in s.sem.pc && s.sem.pc[t].Parked?
    ensures t in s.pc && s.pc[t].Acquire? && (View(s).pc[t].Acquire? || View(s).pc[t].Acquired?)
  {
    assert t in s.sem.pc.Keys;
    assert Agree(s, t);
    assert t in S.View(s.sem).waiting || t in S.View(s.sem).granted;
  }

  /** When every thread has left the mutex or sleeps in its semaphore, nobody sleeps there. */
  lemma NobodyLeftParked(run: seq<State>, i: nat, t: Thread)
    requires Run(run) && i < |run| && t in run[i].pc && t in run[i].sem.pc
    requires forall u | u in run[i].pc :: run[i].pc[u].Idle? || run[i].pc[u].Acquire?
    requires forall u | u in run[i].sem.pc :: run[i].sem.pc[u].Idle? || run[i].sem.pc[u].Parked?
    ensures !run[i].sem.pc[t].Parked?
  {
    RunSimulates(run, i);
    var s, v := run[i], View(run[i]);
    if s.sem.pc[t].Parked? {
      ParkedIsAcquiring(s, t);
      NobodyGranted(s.sem);
      var queue :| S.Run(queue, 0) && queue[|queue| - 1] == s.sem;
      S.QuietMeansEmpty(queue, |queue| - 1, 0, t);
      var path :| M.Run(path) && path[|path| - 1] == v;
      M.NoDeadlock(path, |path| - 1, t);
      assert false;
    }
  }

  lemma NobodyGranted(s: S.State)
    requires S.Reachable(s, 0) && forall u | u in s.pc :: s.pc[u].Idle? || s.pc[u].Parked?
    ensures S.View(s).granted == {}
  {
    S.ReachableInv(s, 0);
    forall w | w in s.g.tickets
      ensures false
    {
      assert false;
    }
  }
}
