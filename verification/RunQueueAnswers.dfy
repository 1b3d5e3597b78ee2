/**
 What the queue operations of kernel/thread/scheduler.c answer while others put and steal: a get or a steal
 that comes back with nothing has found nothing, and run_queue_empty tells what was true at some moment.
*/
module RunQueueAnswers {
  import opened RunQueueProtocol

  predicate Empty(c: Cpu) {
    c.head == c.tail
  }

  /** Neither the ring nor next holds a thread. */
  predicate NothingIn(c: Cpu) {
    Empty(c) && c.next == None
  }

  // ---------------------------------------------------------------- one step

  /** Only the CPU that takes the step changes what it is doing. */
  lemma OthersGoOn(s: State, s': State, i: nat, v: nat, c: nat)
    requires i < |s.cpus| && v < |s.cpus| && Step(s, s', i, v) && c < |s.cpus| && c != i
    ensures s'.cpus[c].pc == s.cpus[c].pc && s'.cpus[c].first == s.cpus[c].first
    ensures s'.cpus[c].next == s.cpus[c].next || s'.cpus[c].next == None
  {
  }

  /** Nobody takes from an empty ring. */
  lemma EmptyStays(s: State, s': State, c: nat)
    requires Inv(s) && Next(s, s') && c < |s.cpus| && Empty(s.cpus[c])
    ensures |s'.cpus| == |s.cpus| && s'.cpus[c].head == s.cpus[c].head
  {
    var i: nat, v: nat :| i < |s.cpus| && v < |s.cpus| && Step(s, s', i, v);
    assert CpuOk(s.cpus[i]) && CpuOk(s.cpus[c]);
    if i != v {
      assert PairOk(s.cpus, i, v);
      OtherKeepsEmpty(s, s', i, v, c);
    } else if inn, out :| OwnStep(s, s', i, inn, out) {
      OwnKeepsEmpty(s.cpus[i], s'.cpus[i], inn, out);
    }
  }

  lemma OtherKeepsEmpty(s: State, s': State, i: nat, v: nat, c: nat)
    requires i < |s.cpus| && v < |s.cpus| && i != v && Step(s, s', i, v) && c < |s.cpus| && Empty(s.cpus[c])
    requires CpuOk(s.cpus[i]) && CpuOk(s.cpus[v]) && PairOk(s.cpus, i, v)
    ensures s'.cpus[c].head == s.cpus[c].head
  {
  }

  lemma OwnKeepsEmpty(c: Cpu, c': Cpu, inn: Option<Thread>, out: Option<Thread>)
    requires CpuOk(c) && Own(c, c', inn, out)
    ensures Empty(c) ==> c'.head == c.head
  {
  }

  // ---------------------------------------------------------------- get

  predicate InGet(pc: Pc) {
    pc.GetNext? || pc.GetNextCas? || InGetRing(pc)
  }

  predicate InGetRing(pc: Pc) {
    pc.GetHead? || pc.GetTail? || pc.GetSlot? || pc.GetCas?
  }

  /** A CPU that has begun to look into its ring has nothing in next: only it could put something there. */
  predicate NextGone(c: Cpu) {
    && (InGetRing(c.pc) ==> c.next == None)
    && (c.pc.GetNextCas? ==> c.next == Some(c.pc.t) || c.next == None)
  }

  lemma NextStaysGone(s: State, s': State, c: nat)
    requires Next(s, s') && c < |s.cpus| && NextGone(s.cpus[c])
    ensures |s'.cpus| == |s.cpus| && NextGone(s'.cpus[c])
  {
    var i: nat, v: nat :| i < |s.cpus| && v < |s.cpus| && Step(s, s', i, v);
    if i != c {
      OthersGoOn(s, s', i, v, c);
    } else if i != v {
      OtherLeavesGet(s.cpus[i], s.cpus[v], s'.cpus[i], s'.cpus[v], v);
    } else if inn, out :| OwnStep(s, s', i, inn, out) {
      OwnNextGone(s.cpus[i], s'.cpus[i], inn, out);
    } else {
      SharedEndsIdle(s.cpus[i], s.g, s'.cpus[i], s'.g, i, |s.cpus|);
    }
  }

  lemma OtherLeavesGet(c: Cpu, q: Cpu, c': Cpu, q': Cpu, w: nat)
    requires |c.ring| == 256 && |q.ring| == 256 && Other(c, q, c', q', w)
    ensures !InGet(c'.pc)
  {
  }

  lemma SharedEndsIdle(c: Cpu, g: Global, c': Cpu, g': Global, ci: nat, cpus: nat)
    requires cpus > 0 && Shared(c, g, c', g', ci, cpus)
    ensures c'.pc.Idle? && (c.pc.Idle? || c.pc.SlowList?)
  {
  }

  lemma OwnNextGone(c: Cpu, c': Cpu, inn: Option<Thread>, out: Option<Thread>)
    requires |c.ring| == 256 && Own(c, c', inn, out) && NextGone(c)
    ensures NextGone(c')
  {
  }

  /** A get that ends without handing out a thread has found nothing in next and nothing in the ring. */
  lemma GetStep(s: State, s': State, c: nat)
    requires Inv(s) && Next(s, s') && c < |s.cpus| == |s'.cpus| && NextGone(s.cpus[c])
    requires InGet(s.cpus[c].pc) && s'.cpus[c].pc.Idle? && s'.g.left == s.g.left
    ensures NothingIn(s.cpus[c])
  {
    var i: nat, v: nat :| i < |s.cpus| && v < |s.cpus| && Step(s, s', i, v);
    if i != c {
      OthersGoOn(s, s', i, v, c);
    }
    if i == c != v {
      OtherStaysOut(s.cpus[i], s.cpus[v], s'.cpus[i], s'.cpus[v], v);
    } else if inn, out :| OwnStep(s, s', c, inn, out) {
      assert CpuOk(s.cpus[c]);
      HandingOutShows(s, s', c, inn, out);
      OwnGets(s.cpus[c], s'.cpus[c], inn, out);
    } else {
      SharedEndsIdle(s.cpus[c], s.g, s'.cpus[c], s'.g, c, |s.cpus|);
    }
  }

  lemma OtherStaysOut(c: Cpu, q: Cpu, c': Cpu, q': Cpu, w: nat)
    requires |c.ring| == 256 && |q.ring| == 256 && Other(c, q, c', q', w)
    ensures !InGet(c.pc)
  {
  }

  lemma OwnGets(c: Cpu, c': Cpu, inn: Option<Thread>, out: Option<Thread>)
    requires CpuOk(c) && Own(c, c', inn, out) && InGet(c.pc) && c'.pc.Idle? && NextGone(c)
    ensures out.Some? || NothingIn(c)
  {
  }

  lemma HandingOutShows(s: State, s': State, c: nat, inn: Option<Thread>, out: Option<Thread>)
    requires c < |s.cpus| == |s'.cpus| && |s.cpus[c].ring| == 256 && OwnStep(s, s', c, inn, out)
    ensures out.Some? ==> s'.g.left != s.g.left
  {
    if out.Some? {
      assert s'.g.left[out.value] == s.g.left[out.value] + 1;
    }
  }

  // ---------------------------------------------------------------- steal

  predicate InGrab(pc: Pc, v: nat) {
    match pc
    case GrabHead(w, _) => w == v
    case GrabTail(w, _, _) => w == v
    case GrabRead(w, _, _, _, _) => w == v
    case GrabWrite(w, _, _, _, _, _) => w == v
    case GrabCas(w, _, _, _) => w == v
    case GrabNext(w, _) => w == v
    case GrabNextCas(w, _, _) => w == v
    case _ => false
  }

  /** A thief that has turned to the victim's next. */
  predicate AtNext(pc: Pc, v: nat) {
    match pc
    case GrabNext(w, sn) => w == v && sn
    case _ => false
  }

  /** A thief turns to next, or gives up, only when it finds the ring empty. */
  lemma GrabStep(s: State, s': State, c: nat, v: nat)
    requires Inv(s) && Next(s, s') && c < |s.cpus| == |s'.cpus| && v < |s.cpus| && c != v
    ensures AtNext(s'.cpus[c].pc, v) ==> AtNext(s.cpus[c].pc, v) || (InGrab(s.cpus[c].pc, v) && Empty(s.cpus[v]))
    ensures InGrab(s.cpus[c].pc, v) && s'.cpus[c].pc.Idle? ==>
            || (s.cpus[c].pc.GrabTail? && !s.cpus[c].pc.sn && Empty(s.cpus[v]))
            || (s.cpus[c].pc.GrabNext? && s.cpus[v].next == None)
  {
    var i: nat, w: nat :| i < |s.cpus| && w < |s.cpus| && Step(s, s', i, w);
    assert CpuOk(s.cpus[v]) && PairOk(s.cpus, c, v);
    if i != c {
      OthersGoOn(s, s', i, w, c);
    } else if i == w {
      OwnIsNoGrab(s, s', c, v);
    } else {
      OtherGrabs(s.cpus[c], s.cpus[w], s'.cpus[c], s'.cpus[w], w, v);
    }
  }

  lemma OwnIsNoGrab(s: State, s': State, c: nat, v: nat)
    requires c < |s.cpus| && Step(s, s', c, c)
    ensures !s'.cpus[c].pc.GrabNext?
    ensures InGrab(s.cpus[c].pc, v) ==> !s'.cpus[c].pc.Idle?
  {
    if inn, out :| OwnStep(s, s', c, inn, out) {
      OwnGrabs(s.cpus[c], s'.cpus[c], inn, out, v);
    } else {
      SharedEndsIdle(s.cpus[c], s.g, s'.cpus[c], s'.g, c, |s.cpus|);
    }
  }

  lemma OwnGrabs(c: Cpu, c': Cpu, inn: Option<Thread>, out: Option<Thread>, v: nat)
    requires |c.ring| == 256 && Own(c, c', inn, out)
    ensures !c'.pc.GrabNext? && (InGrab(c.pc, v) ==> !c'.pc.Idle?)
  {
  }

  lemma OtherGrabs(c: Cpu, q: Cpu, c': Cpu, q': Cpu, w: nat, v: nat)
    requires |c.ring| == 256 && CpuOk(q) && Other(c, q, c', q', w)
    requires w == v ==> ThiefOk(c, q, v)
    ensures AtNext(c'.pc, v) ==> w == v && InGrab(c.pc, v) && Empty(q)
    ensures InGrab(c.pc, v) && c'.pc.Idle? ==>
            w == v && ((c.pc.GrabTail? && !c.pc.sn && Empty(q)) || (c.pc.GrabNext? && q.next == None))
  {
  }

  // ---------------------------------------------------------------- run_queue_empty

  /** CPU c is looking whether the queue of CPU v, which may be its own, is empty. */
  predicate Probing(pc: Pc, c: nat, v: nat) {
    if c == v then pc.SelfTail? || pc.SelfNext? || pc.SelfCheck?
    else match pc
         case ProbeTail(w, _) => w == v
         case ProbeNext(w, _, _) => w == v
         case ProbeCheck(w, _, _, _, _) => w == v
         case _ => false
  }

  /** What has been read so far tells of an empty queue. */
  predicate LooksEmpty(pc: Pc, q: Cpu) {
    match pc
    case ProbeTail(_, h) => h == q.head == q.tail
    case ProbeNext(_, h, tl) => h == tl
    case ProbeCheck(_, h, tl, isNull, _) => h == tl && isNull
    case SelfTail(h) => h == q.head == q.tail
    case SelfNext(h, tl) => h == tl
    case SelfCheck(h, tl, isNull, _) => h == tl && isNull
    case _ => true
  }

  /** As long as the queue is empty at every moment, it looks empty. */
  lemma ProbeStep(s: State, s': State, c: nat, v: nat)
    requires Inv(s) && Next(s, s') && c < |s.cpus| == |s'.cpus| && v < |s.cpus|
    requires NothingIn(s.cpus[v]) && NothingIn(s'.cpus[v])
    requires Probing(s.cpus[c].pc, c, v) ==> LooksEmpty(s.cpus[c].pc, s.cpus[v])
    ensures Probing(s'.cpus[c].pc, c, v) ==> LooksEmpty(s'.cpus[c].pc, s'.cpus[v])
  {
    EmptyStays(s, s', v);
    var i: nat, w: nat :| i < |s.cpus| && w < |s.cpus| && Step(s, s', i, w);
    if i != c {
      OthersGoOn(s, s', i, w, c);
    } else if i == w {
      OwnProbes(s, s', c, v);
    } else {
      OtherProbes(s.cpus[c], s.cpus[w], s'.cpus[c], s'.cpus[w], w, c, v);
    }
  }

  lemma OwnProbes(s: State, s': State, c: nat, v: nat)
    requires c < |s.cpus| && v < |s.cpus| && Step(s, s', c, c) && NothingIn(s.cpus[v]) && NothingIn(s'.cpus[v])
    requires s'.cpus[v].head == s.cpus[v].head
    requires Probing(s.cpus[c].pc, c, v) ==> LooksEmpty(s.cpus[c].pc, s.cpus[v])
    ensures Probing(s'.cpus[c].pc, c, v) ==> LooksEmpty(s'.cpus[c].pc, s'.cpus[v])
  {
    if inn, out :| OwnStep(s, s', c, inn, out) {
      OwnLooks(s.cpus[c], s'.cpus[c], inn, out);
    } else {
      SharedEndsIdle(s.cpus[c], s.g, s'.cpus[c], s'.g, c, |s.cpus|);
    }
  }

  predicate Probes(pc: Pc) {
    pc.ProbeTail? || pc.ProbeNext? || pc.ProbeCheck?
  }

  lemma OwnLooks(c: Cpu, c': Cpu, inn: Option<Thread>, out: Option<Thread>)
    requires |c.ring| == 256 && Own(c, c', inn, out)
    ensures !Probes(c'.pc)
    ensures NothingIn(c) && NothingIn(c') && c'.head == c.head && LooksEmpty(c.pc, c) ==> LooksEmpty(c'.pc, c')
  {
  }

  lemma OtherProbes(p: Cpu, q: Cpu, p': Cpu, q': Cpu, w: nat, c: nat, v: nat)
    requires |p.ring| == 256 && |q.ring| == 256 && Other(p, q, p', q', w) && c != w
    requires w == v ==> NothingIn(q) && NothingIn(q') && (Probing(p.pc, c, v) ==> LooksEmpty(p.pc, q))
    ensures Probing(p'.pc, c, v) && w == v ==> LooksEmpty(p'.pc, q')
    ensures Probing(p'.pc, c, v) ==> w == v
  {
  }

  // ---------------------------------------------------------------- whole runs

  lemma StepOf(run: seq<State>, k: nat)
    requires Run(run) && k + 1 < |run|
    ensures Inv(run[k]) && Next(run[k], run[k + 1]) && |run[k + 1].cpus| == |run[k].cpus|
  {
    RunInv(run, k);
    assert Next(run[k], run[k + 1]);
  }

  predicate NextGoneAt(run: seq<State>, k: nat, c: nat) {
    k < |run| && c < |run[k].cpus| && NextGone(run[k].cpus[c])
  }

  lemma NextGoneStep(run: seq<State>, k: nat, c: nat)
    requires Run(run) && k + 1 < |run|
    ensures NextGoneAt(run, k, c) ==> NextGoneAt(run, k + 1, c)
  {
    StepOf(run, k);
    if NextGoneAt(run, k, c) {
      NextStaysGone(run[k], run[k + 1], c);
    }
  }

  predicate NextGoneHolds(run: seq<State>, k: nat, c: nat) {
    NextGoneAt(run, k, c) ==> NextGoneAt(run, k + 1, c)
  }

  lemma {:induction false} NextGoneAlong(run: seq<State>, k: nat, c: nat)
    requires NextGoneAt(run, 0, c) && forall i: nat | i < k :: NextGoneHolds(run, i, c)
    ensures NextGoneAt(run, k, c)
  {
    if k > 0 {
      NextGoneAlong(run, k - 1, c);
      assert NextGoneHolds(run, k - 1, c);
    }
  }

  lemma NextGoneThroughout(run: seq<State>, k: nat, c: nat)
    requires Run(run) && k < |run| && c < |run[0].cpus|
    ensures NextGoneAt(run, k, c)
  {
    forall i: nat | i < k
      ensures NextGoneHolds(run, i, c)
    {
      NextGoneStep(run, i, c);
    }
    NextGoneAlong(run, k, c);
  }

  /** The number of CPUs does not change. */
  lemma {:induction false} SameCpus(run: seq<State>, k: nat)
    requires Run(run) && k < |run|
    ensures |run[k].cpus| == |run[0].cpus|
  {
    if k > 0 {
      SameCpus(run, k - 1);
      StepOf(run, k - 1);
    }
  }

  /** A get that ends without a thread ends at a moment when there is none in next and none in the ring. */
  lemma GetComesBackEmpty(run: seq<State>, k: nat, c: nat)
    requires Run(run) && k + 1 < |run| && c < |run[k].cpus| == |run[k + 1].cpus|
    requires InGet(run[k].cpus[c].pc) && run[k + 1].cpus[c].pc.Idle? && run[k + 1].g.left == run[k].g.left
    ensures NothingIn(run[k].cpus[c])
  {
    SameCpus(run, k);
    NextGoneThroughout(run, k, c);
    StepOf(run, k);
    GetStep(run[k], run[k + 1], c);
  }

  predicate AtNextAt(run: seq<State>, k: nat, c: nat, v: nat) {
    k < |run| && c < |run[k].cpus| && AtNext(run[k].cpus[c].pc, v)
  }

  predicate GrabFoundEmpty(run: seq<State>, k: nat, c: nat, v: nat) {
    && k < |run| && c < |run[k].cpus| && v < |run[k].cpus|
    && InGrab(run[k].cpus[c].pc, v) && Empty(run[k].cpus[v])
  }

  predicate TurnsToNext(run: seq<State>, k: nat, c: nat, v: nat) {
    AtNextAt(run, k + 1, c, v) ==> AtNextAt(run, k, c, v) || GrabFoundEmpty(run, k, c, v)
  }

  lemma TurnsToNextAt(run: seq<State>, k: nat, c: nat, v: nat)
    requires Run(run) && k + 1 < |run| && c < |run[k].cpus| && v < |run[k].cpus| && c != v
    ensures TurnsToNext(run, k, c, v)
  {
    StepOf(run, k);
    GrabStep(run[k], run[k + 1], c, v);
  }

  lemma {:induction false} TurnedToNext(run: seq<State>, k: nat, c: nat, v: nat) returns (m: nat)
    requires AtNextAt(run, k, c, v) && !AtNextAt(run, 0, c, v)
    requires forall i: nat | i < k :: TurnsToNext(run, i, c, v)
    ensures m < k && GrabFoundEmpty(run, m, c, v) && forall i: nat | m < i <= k :: AtNextAt(run, i, c, v)
  {
    m := k - 1;
    assert TurnsToNext(run, m, c, v);
    if AtNextAt(run, m, c, v) {
      m := TurnedToNext(run, m, c, v);
    }
  }

  lemma StartsIdle(run: seq<State>, c: nat, v: nat)
    requires Run(run)
    ensures !AtNextAt(run, 0, c, v)
  {
  }

  /**
   A steal that ends without a thread has found the victim's ring empty at some moment m; if it was to take
   the next thread as well, it has come from there to the victim's next, and finds nothing there.
  */
  lemma StealComesBackEmpty(run: seq<State>, k: nat, c: nat, v: nat) returns (m: nat)
    requires Run(run) && k + 1 < |run| && c < |run[k].cpus| == |run[k + 1].cpus| && v < |run[k].cpus| && c != v
    requires InGrab(run[k].cpus[c].pc, v) && run[k + 1].cpus[c].pc.Idle?
    ensures m <= k && GrabFoundEmpty(run, m, c, v)
    ensures if m < k then run[k].cpus[v].next == None && forall i: nat | m < i <= k :: AtNextAt(run, i, c, v)
            else run[k].cpus[c].pc.GrabTail? && !run[k].cpus[c].pc.sn
  {
    GrabNextIsWanted(run, k, c);
    StepOf(run, k);
    GrabStep(run[k], run[k + 1], c, v);
    m := k;
    if run[k].cpus[c].pc.GrabNext? {
      SameCpus(run, k);
      forall i: nat | i < k
        ensures TurnsToNext(run, i, c, v)
      {
        SameCpus(run, i);
        TurnsToNextAt(run, i, c, v);
      }
      StartsIdle(run, c, v);
      m := TurnedToNext(run, k, c, v);
    }
  }

  predicate WantsNext(run: seq<State>, k: nat, c: nat) {
    k < |run| && c < |run[k].cpus| && (run[k].cpus[c].pc.GrabNext? ==> run[k].cpus[c].pc.sn)
  }

  /** Only a thief that was told to goes to the victim's next. */
  lemma GrabNextIsWanted(run: seq<State>, k: nat, c: nat)
    requires Run(run) && k < |run| && c < |run[k].cpus|
    ensures WantsNext(run, k, c)
  {
    if k > 0 {
      StepOf(run, k - 1);
      SameCpus(run, k - 1);
      SameCpus(run, k);
      GrabNextIsWanted(run, k - 1, c);
      WantedStep(run[k - 1], run[k], c);
    } else {
      StartsAnywhere(run, c);
    }
  }

  lemma StartsAnywhere(run: seq<State>, c: nat)
    requires Run(run) && c < |run[0].cpus|
    ensures WantsNext(run, 0, c)
  {
  }

  lemma WantedStep(s: State, s': State, c: nat)
    requires Next(s, s') && c < |s.cpus| == |s'.cpus| && (s.cpus[c].pc.GrabNext? ==> s.cpus[c].pc.sn)
    ensures s'.cpus[c].pc.GrabNext? ==> s'.cpus[c].pc.sn
  {
    var i: nat, w: nat :| i < |s.cpus| && w < |s.cpus| && Step(s, s', i, w);
    if i != c {
      OthersGoOn(s, s', i, w, c);
    } else if i == w {
      OwnIsNoGrab(s, s', c, 0);
    }
  }

  predicate ProbeAt(run: seq<State>, k: nat, c: nat, v: nat) {
    k < |run| && c < |run[k].cpus| && v < |run[k].cpus| && Probing(run[k].cpus[c].pc, c, v)
  }

  predicate NothingAt(run: seq<State>, k: nat, v: nat) {
    k < |run| && v < |run[k].cpus| && NothingIn(run[k].cpus[v])
  }

  predicate LooksEmptyAt(run: seq<State>, k: nat, c: nat, v: nat) {
    k < |run| && c < |run[k].cpus| && v < |run[k].cpus|
    && (Probing(run[k].cpus[c].pc, c, v) ==> LooksEmpty(run[k].cpus[c].pc, run[k].cpus[v]))
  }

  predicate StillLooksEmpty(run: seq<State>, k: nat, c: nat, v: nat) {
    NothingAt(run, k, v) && NothingAt(run, k + 1, v) && LooksEmptyAt(run, k, c, v) ==> LooksEmptyAt(run, k + 1, c, v)
  }

  lemma StillLooksEmptyAt(run: seq<State>, k: nat, c: nat, v: nat)
    requires Run(run) && k + 1 < |run|
    ensures StillLooksEmpty(run, k, c, v)
  {
    StepOf(run, k);
    if NothingAt(run, k, v) && NothingAt(run, k + 1, v) && LooksEmptyAt(run, k, c, v) {
      ProbeStep(run[k], run[k + 1], c, v);
    }
  }

  lemma {:induction false} LooksEmptyAlong(run: seq<State>, a: nat, k: nat, c: nat, v: nat)
    requires a <= k < |run| && LooksEmptyAt(run, a, c, v)
    requires forall i: nat | a <= i < k :: StillLooksEmpty(run, i, c, v)
    requires forall i: nat | a <= i <= k :: NothingAt(run, i, v)
    ensures LooksEmptyAt(run, k, c, v)
  {
    if a < k {
      LooksEmptyAlong(run, a, k - 1, c, v);
      assert StillLooksEmpty(run, k - 1, c, v) && NothingAt(run, k - 1, v) && NothingAt(run, k, v);
    }
  }

  /**
   When run_queue_empty is going to say that a queue is not empty, there was a moment since it was called
   at which the ring or next held a thread. (EmptyWasEmpty and SelfWasEmpty are the other direction.)
  */
  lemma NotEmptyWasNot(run: seq<State>, a: nat, k: nat, c: nat, v: nat)
    requires Run(run) && a < k < |run| && c < |run[a].cpus| && v < |run[a].cpus| && run[a].cpus[c].pc.Idle?
    requires ProbeAt(run, k, c, v) && !LooksEmpty(run[k].cpus[c].pc, run[k].cpus[v])
    requires run[k].cpus[c].pc.ProbeCheck? || run[k].cpus[c].pc.SelfCheck?
    ensures exists m: nat :: a <= m <= k && !NothingAt(run, m, v)
  {
    if forall m: nat | a <= m <= k :: NothingAt(run, m, v) {
      forall i: nat | a <= i < k
        ensures StillLooksEmpty(run, i, c, v)
      {
        StillLooksEmptyAt(run, i, c, v);
      }
      assert LooksEmptyAt(run, a, c, v);
      LooksEmptyAlong(run, a, k, c, v);
      assert false;
    }
  }
}
