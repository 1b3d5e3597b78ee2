/**
 What a semaphore promises, without queues or wake-ups: a pool of tokens, threads waiting for
 one, and threads that got one and have not noticed yet.
*/
module SemaphoreSpec {
  type Thread = nat

  datatype Sem = Sem(tokens: nat, waiting: set<Thread>, granted: set<Thread>)

  /** A release adds a token. */
  ghost predicate Release(a: Sem, b: Sem) {
    b == a.(tokens := a.tokens + 1)
  }

  /** A thread starts to wait. */
  ghost predicate Enter(a: Sem, b: Sem, t: Thread) {
    t !in a.waiting && t !in a.granted && b == a.(waiting := a.waiting + {t})
  }

  /** A waiting thread, any of them, gets a token; this is where the acquisition takes effect. */
  ghost predicate Grant(a: Sem, b: Sem, t: Thread) {
    t in a.waiting && a.tokens > 0 &&
    b == Sem(a.tokens - 1, a.waiting - {t}, a.granted + {t})
  }

  /** A thread with a token returns from semaphore_acquire. */
  ghost predicate Leave(a: Sem, b: Sem, t: Thread) {
    t in a.granted && b == a.(granted := a.granted - {t})
  }

  ghost predicate Next(a: Sem, b: Sem) {
    a == b || Release(a, b) || exists t :: Enter(a, b, t) || Grant(a, b, t) || Leave(a, b, t)
  }
}
