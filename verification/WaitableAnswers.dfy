/**
 What the operations of kernel/thread/waitable.c answer: a receiver is told that a waitable is closed only when
 every token sent to it has been received, and an operation that may not block turns back only when
 none of its cases could go ahead.
*/
module WaitableAnswers {
  import opened WaitableProtocol
  import S = WaitableSafety

  /** The waitable is closed and its buffer is empty. */
  predicate Dry(s: State, w: Wid) {
    w in s.ws && s.ws[w].closed && s.ws[w].count == 0
  }

  /** If case i of an operation is a receive that is answered "closed", the waitable is dry. */
  predicate CaseDry(s: State, op: Op, i: int, ok: bool) {
    !ok && 0 <= i < |op.cases| && !op.cases[i].send ==> Dry(s, op.cases[i].w)
  }

  /** A thread that is told that a waitable is closed. */
  predicate ThreadDry(s: State, t: Tid)
    requires t in s.ts
  {
    match s.ts[t].pc
    case Unlock(op, after) => after.ToDone? ==> CaseDry(s, op, after.i, after.ok)
    case Done(op, i, ok) => CaseDry(s, op, i, ok)
    case Awake(op, base) =>
      s.ts[t].winner.Some? && s.ts[t].winner.value in s.wts ==>
        var d := s.wts[s.ts[t].winner.value];
        !d.success && !d.cs.send ==> Dry(s, d.cs.w)
    case _ => true
  }

  /** A receiver in the hand of the thread that closes its waitable. */
  predicate WtDry(s: State, x: WtId)
    requires x in s.wts
  {
    var d := s.wts[x];
    d.place.Held? && d.place.holder in s.ts && Closer(s.ts[d.place.holder].pc) && !d.cs.send ==> Dry(s, d.cs.w)
  }

  ghost predicate Told(s: State) {
    && (forall t {:trigger ThreadDry(s, t)} | t in s.ts :: ThreadDry(s, t))
    && (forall x {:trigger WtDry(s, x)} | x in s.wts :: WtDry(s, x))
  }

  // ---------------------------------------------------------------- frames

  /** A closed waitable with an empty buffer stays so. */
  ghost predicate StaysDry(s: State, s': State) {
    forall w :: Dry(s, w) ==> Dry(s', w)
  }

  lemma ThreadFrame(s: State, s': State, u: Tid)
    requires StaysDry(s, s') && u in s.ts && u in s'.ts && ThreadDry(s, u)
    requires s'.ts[u].pc == s.ts[u].pc
    requires s.ts[u].pc.Awake? ==>
               && s'.ts[u].winner == s.ts[u].winner
               && (s.ts[u].winner.Some? && s.ts[u].winner.value in s'.wts ==>
                     var x := s.ts[u].winner.value;
                     x in s.wts && s'.wts[x].cs == s.wts[x].cs && s'.wts[x].success == s.wts[x].success)
    ensures ThreadDry(s', u)
  {
  }

  lemma WtFrame(s: State, s': State, x: WtId)
    requires StaysDry(s, s') && x in s.wts && x in s'.wts && WtDry(s, x) && s'.wts[x].cs == s.wts[x].cs
    requires s'.wts[x].place.Held? ==>
               && s'.wts[x].place == s.wts[x].place && s.wts[x].place.holder in s.ts
               && (s.wts[x].place.holder in s'.ts && Closer(s'.ts[s.wts[x].place.holder].pc) ==>
                     Closer(s.ts[s.wts[x].place.holder].pc))
    ensures WtDry(s', x)
  {
  }

  /** A thread that has nobody in hand and does not begin to close anything. */
  lemma HolderOf(s: State, x: WtId)
    requires Inv(s) && x in s.wts && s.wts[x].place.Held?
    ensures s.wts[x].place.holder in s.ts && HoldsWt(s.ts[s.wts[x].place.holder].pc, x)
  {
    assert WtOk(s, x);
  }

  /** A step that leaves the descriptors alone, but for where they are queued, and tells thread t the truth. */
  lemma QuietStep(s: State, s': State, t: Tid)
    requires Inv(s) && Told(s) && t in s.ts && s'.ts.Keys == s.ts.Keys && StaysDry(s, s')
    requires forall u | u in s.ts && u != t :: s'.ts[u] == s.ts[u]
    requires forall x | x in s.wts :: x in s'.wts && s'.wts[x].cs == s.wts[x].cs
               && s'.wts[x].success == s.wts[x].success
    requires forall x | x in s'.wts && s'.wts[x].place.Held? :: x in s.wts && s'.wts[x].place == s.wts[x].place
    requires forall u | u in s.ts && u != t && s.ts[u].pc.Awake? && s.ts[u].winner.Some? ::
               s.ts[u].winner.value in s.wts
    requires forall x | HoldsWt(s.ts[t].pc, x) && Closer(s'.ts[t].pc) :: Closer(s.ts[t].pc)
    requires ThreadDry(s', t)
    ensures Told(s')
  {
    forall u | u in s'.ts
      ensures ThreadDry(s', u)
    {
      assert ThreadDry(s, u);
      if u != t {
        ThreadFrame(s, s', u);
      }
    }
    forall x | x in s'.wts
      ensures WtDry(s', x)
    {
      if s'.wts[x].place.Held? {
        assert WtDry(s, x);
        HolderOf(s, x);
        WtFrame(s, s', x);
      }
    }
  }

  lemma AwakeHasWinner(s: State)
    requires Inv(s)
    ensures forall u | u in s.ts && s.ts[u].pc.Awake? && s.ts[u].winner.Some? :: s.ts[u].winner.value in s.wts
  {
    forall u | u in s.ts && s.ts[u].pc.Awake?
      ensures s.ts[u].winner.Some? && s.ts[u].winner.value in s.wts
    {
      assert ThreadOk(s, u);
    }
  }

  // ---------------------------------------------------------------- the steps

  /** A look that ends a receive with "closed" has found the waitable closed and its buffer empty. */
  lemma LookTells(s: State, t: Tid, pc': Pc)
    requires Inv(s) && t in s.ts && Look(s, s.ts[t].pc, pc')
    ensures ThreadDry(SetPc(s, t, pc'), t)
  {
    assert ThreadOk(s, t);
    if S.Polling(s.ts[t].pc) {
      PollTells(s, t, pc');
    } else {
      PeekTells(s, t, pc');
    }
  }

  lemma PollTells(s: State, t: Tid, pc': Pc)
    requires Inv(s) && t in s.ts && ThreadOk(s, t) && Look(s, s.ts[t].pc, pc') && S.Polling(s.ts[t].pc)
    ensures ThreadDry(SetPc(s, t, pc'), t)
  {
  }

  lemma PeekTells(s: State, t: Tid, pc': Pc)
    requires Inv(s) && t in s.ts && ThreadOk(s, t) && Look(s, s.ts[t].pc, pc') && !S.Polling(s.ts[t].pc)
    ensures ThreadDry(SetPc(s, t, pc'), t)
  {
    if s.ts[t].pc.PeekEmptyAgain? {
      assert CountOk(s.ws[s.ts[t].pc.op.cases[0].w]);
    }
  }

  lemma LookTold(s: State, t: Tid, pc': Pc)
    requires Inv(s) && Told(s) && t in s.ts && Look(s, s.ts[t].pc, pc')
    ensures Told(SetPc(s, t, pc'))
  {
    assert ThreadOk(s, t);
    LookTells(s, t, pc');
    AwakeHasWinner(s);
    LookCloses(s, t, pc');
    QuietStep(s, SetPc(s, t, pc'), t);
  }

  lemma LookCloses(s: State, t: Tid, pc': Pc)
    requires t in s.ts && ThreadOk(s, t) && Look(s, s.ts[t].pc, pc')
    ensures forall x | HoldsWt(s.ts[t].pc, x) && Closer(pc') :: Closer(s.ts[t].pc)
  {
  }

  /** Locking and unlocking. */
  lemma LocksTold(s: State, s': State, t: Tid)
    requires Inv(s) && Told(s) && t in s.ts && (Lock(s, s', t) || Release(s, s', t))
    ensures Told(s')
  {
    assert ThreadOk(s, t) && ThreadDry(s, t);
    AwakeHasWinner(s);
    LocksDry(s, s', t);
    QuietStep(s, s', t);
  }

  lemma LocksDry(s: State, s': State, t: Tid)
    requires Inv(s) && t in s.ts && ThreadOk(s, t) && ThreadDry(s, t) && (Lock(s, s', t) || Release(s, s', t))
    ensures StaysDry(s, s') && s'.wts == s.wts && s'.ts.Keys == s.ts.Keys && ThreadDry(s', t)
    ensures forall u | u in s.ts && u != t :: s'.ts[u] == s.ts[u]
    ensures forall x | HoldsWt(s.ts[t].pc, x) && Closer(s'.ts[t].pc) :: Closer(s.ts[t].pc)
  {
    if Lock(s, s', t) {
      LockDry(s, s', t);
    } else {
      ReleaseDry(s, s', t);
    }
  }

  lemma LockDry(s: State, s': State, t: Tid)
    requires t in s.ts && Lock(s, s', t)
    ensures StaysDry(s, s') && s'.wts == s.wts && s'.ts.Keys == s.ts.Keys && ThreadDry(s', t)
    ensures forall u | u in s.ts && u != t :: s'.ts[u] == s.ts[u]
    ensures forall x :: !HoldsWt(s.ts[t].pc, x)
  {
  }

  lemma ReleaseDry(s: State, s': State, t: Tid)
    requires t in s.ts && ThreadDry(s, t) && Release(s, s', t)
    ensures StaysDry(s, s') && s'.wts == s.wts && s'.ts.Keys == s.ts.Keys && ThreadDry(s', t)
    ensures forall u | u in s.ts && u != t :: s'.ts[u] == s.ts[u]
    ensures Closer(s'.ts[t].pc) ==> Closer(s.ts[t].pc)
  {
  }

  /** No token comes into the buffer of a closed waitable. */
  lemma UseBufferTold(s: State, s': State, t: Tid)
    requires Inv(s) && Told(s) && t in s.ts && UseBuffer(s, s', t)
    ensures Told(s')
  {
    assert ThreadOk(s, t);
    AwakeHasWinner(s);
    QuietStep(s, s', t);
  }

  lemma JoinTold(s: State, s': State, t: Tid)
    requires Inv(s) && Told(s) && t in s.ts && Join(s, s', t)
    ensures Told(s')
  {
    assert ThreadOk(s, t);
    AwakeHasWinner(s);
    JoinKeeps(s, s', t);
    QuietStep(s, s', t);
  }

  lemma JoinKeeps(s: State, s': State, t: Tid)
    requires Inv(s) && t in s.ts && ThreadOk(s, t) && Join(s, s', t)
    ensures StaysDry(s, s') && s'.ts.Keys == s.ts.Keys && ThreadDry(s', t) && !Closer(s'.ts[t].pc)
    ensures forall u | u in s.ts && u != t :: s'.ts[u] == s.ts[u]
    ensures forall x | x in s.wts ::
              x in s'.wts && s'.wts[x].cs == s.wts[x].cs && s'.wts[x].success == s.wts[x].success
    ensures forall x | x in s'.wts && s'.wts[x].place.Held? :: x in s.wts && s'.wts[x].place == s.wts[x].place
  {
    if s.ts[t].pc.Barren? {
      forall x | x in s.wts
        ensures x < s.nextWt
      {
        assert WtOk(s, x);
      }
    }
  }

  /** A thread that wakes up is told what its waker found out. */
  lemma FinishTold(s: State, s': State, t: Tid)
    requires Inv(s) && Told(s) && t in s.ts && Finish(s, s', t)
    ensures Told(s')
  {
    assert ThreadOk(s, t) && ThreadDry(s, t);
    AwakeHasWinner(s);
    FinishKeeps(s, s', t);
    QuietStep(s, s', t);
  }

  lemma FinishKeeps(s: State, s': State, t: Tid)
    requires t in s.ts && ThreadOk(s, t) && ThreadDry(s, t) && Finish(s, s', t)
    ensures StaysDry(s, s') && s'.ts.Keys == s.ts.Keys && ThreadDry(s', t)
    ensures forall u | u in s.ts && u != t :: s'.ts[u] == s.ts[u]
    ensures forall x | x in s.wts ::
              x in s'.wts && s'.wts[x].cs == s.wts[x].cs && s'.wts[x].success == s.wts[x].success
    ensures forall x | x in s'.wts && s'.wts[x].place.Held? :: x in s.wts && s'.wts[x].place == s.wts[x].place
    ensures forall x :: !HoldsWt(s.ts[t].pc, x)
  {
    if s.ts[t].pc.Awake? && s.ts[t].pc.op.select {
      SelectKeeps(s, s', t);
    }
  }

  lemma SelectKeeps(s: State, s': State, t: Tid)
    requires t in s.ts && ThreadOk(s, t) && ThreadDry(s, t) && Finish(s, s', t)
    requires s.ts[t].pc.Awake? && s.ts[t].pc.op.select
    ensures StaysDry(s, s') && s'.ts.Keys == s.ts.Keys && ThreadDry(s', t)
    ensures forall x | x in s.wts ::
              x in s'.wts && s'.wts[x].cs == s.wts[x].cs && s'.wts[x].success == s.wts[x].success
    ensures forall x | x in s'.wts && s'.wts[x].place.Held? :: x in s.wts && s'.wts[x].place == s.wts[x].place
  {
    forall w | Dry(s, w)
      ensures Dry(s', w)
    {
    }
  }

  lemma PopStaleTold(s: State, s': State, t: Tid, c: Case, x: WtId)
    requires Inv(s) && Told(s) && PopStale(s, s', t, c, x)
    ensures Told(s')
  {
    assert ThreadOk(s, t) && ThreadDry(s, t);
    AwakeHasWinner(s);
    QuietStep(s, s', t);
  }

  /** The closing thread takes a receiver off its queue only from an empty buffer. */
  lemma PopWinTold(s: State, s': State, t: Tid, c: Case, x: WtId)
    requires Inv(s) && Told(s) && PopWin(s, s', t, c, x)
    ensures Told(s')
  {
    S.PopFacts(s, t, c, x);
    S.PoppedIsParked(s, t, c, x);
    assert ThreadOk(s, t) && LiveOk(s, c.w, c.send, x);
    PopWinKeeps(s, s', t, c, x);
    AwakeHasWinner(s);
    forall u | u in s'.ts
      ensures ThreadDry(s', u)
    {
      assert ThreadDry(s, u);
      if u != t && u != s.wts[x].thread {
        ThreadFrame(s, s', u);
      }
    }
    forall y | y in s'.wts
      ensures WtDry(s', y)
    {
      assert WtDry(s, y);
      if y != x {
        if s.wts[y].place.Held? {
          HolderOf(s, y);
        }
        WtFrame(s, s', y);
      }
    }
  }

  lemma PopWinKeeps(s: State, s': State, t: Tid, c: Case, x: WtId)
    requires PopWin(s, s', t, c, x) && ThreadOk(s, t) && s.wts[x].thread != t && s.wts[x].cs == c
    requires s.ts[s.wts[x].thread].pc.Parked? && LiveOk(s, c.w, c.send, x) && Live(s, x)
    ensures StaysDry(s, s') && s'.ts.Keys == s.ts.Keys && s'.wts == s.wts[x := s.wts[x].(place := Held(t))]
    ensures forall u | u in s.ts && u != t && u != s.wts[x].thread :: s'.ts[u] == s.ts[u]
    ensures s'.ts[s.wts[x].thread].pc == s.ts[s.wts[x].thread].pc
    ensures ThreadDry(s', t) && WtDry(s', x) && Closer(s'.ts[t].pc) == Closer(s.ts[t].pc)
  {
  }

  lemma ReadyTold(s: State, s': State, t: Tid, x: WtId)
    requires Inv(s) && Told(s) && Ready(s, s', t, x)
    ensures Told(s')
  {
    ReadyKeeps(s, s', t, x);
    AwakeHasWinner(s);
    forall u | u in s'.ts
      ensures ThreadDry(s', u)
    {
      assert ThreadDry(s, u);
      if u != t && u != s.wts[x].thread {
        if s.ts[u].pc.Awake? {
          OthersNotReadied(s, u, x);
        }
        ThreadFrame(s, s', u);
      }
    }
    ReadyWts(s, s', t, x);
  }

  lemma ReadyKeeps(s: State, s': State, t: Tid, x: WtId)
    requires Inv(s) && Told(s) && Ready(s, s', t, x)
    ensures s.wts[x].thread != t && s'.ts.Keys == s.ts.Keys && s'.wts.Keys == s.wts.Keys
    ensures forall u | u in s.ts && u != t && u != s.wts[x].thread :: s'.ts[u] == s.ts[u]
    ensures forall y | y in s.wts && y != x :: s'.wts[y] == s.wts[y]
    ensures s'.wts[x].place == Gone && HeldBy(s, x, t)
    ensures StaysDry(s, s') && ThreadDry(s', t) && ThreadDry(s', s.wts[x].thread)
    ensures Closer(s'.ts[t].pc) ==> Closer(s.ts[t].pc)
    ensures !Closer(s'.ts[s.wts[x].thread].pc)
  {
    assert ThreadOk(s, t) && WtDry(s, x);
    S.ReadyHolds(s, s', t, x);
    S.ReadyFindsParked(s, t, x);
    S.ReadyFacts(s, s', t, x);
    ReadyTells(s, s', t, x);
  }

  /** Nobody else was woken through x. */
  lemma OthersNotReadied(s: State, u: Tid, x: WtId)
    requires Inv(s) && u in s.ts && x in s.wts && s.wts[x].thread != u && s.ts[u].pc.Awake?
    ensures s.ts[u].winner != Some(x)
  {
    assert ThreadOk(s, u);
  }

  lemma ReadyWts(s: State, s': State, t: Tid, x: WtId)
    requires Inv(s) && Told(s) && t in s.ts && x in s.wts && s.wts[x].thread in s.ts && StaysDry(s, s')
    requires s'.ts.Keys == s.ts.Keys && s'.wts.Keys == s.wts.Keys && s'.wts[x].place == Gone
    requires forall u | u in s.ts && u != t && u != s.wts[x].thread :: s'.ts[u] == s.ts[u]
    requires forall y | y in s.wts && y != x :: s'.wts[y] == s.wts[y]
    requires Closer(s'.ts[t].pc) ==> Closer(s.ts[t].pc)
    requires !Closer(s'.ts[s.wts[x].thread].pc)
    ensures forall y {:trigger WtDry(s', y)} | y in s'.wts :: WtDry(s', y)
  {
    forall y | y in s'.wts
      ensures WtDry(s', y)
    {
      if y != x {
        assert WtDry(s, y);
        if s.wts[y].place.Held? {
          HolderOf(s, y);
        }
        WtFrame(s, s', y);
      }
    }
  }

  lemma ReadyTells(s: State, s': State, t: Tid, x: WtId)
    requires Inv(s) && Ready(s, s', t, x) && ThreadOk(s, t) && WtDry(s, x) && HeldBy(s, x, t)
    requires s.wts[x].thread != t && s.ts[s.wts[x].thread].pc.Parked? && s.ts[s.wts[x].thread].winner == Some(x)
    ensures StaysDry(s, s') && ThreadDry(s', t) && ThreadDry(s', s.wts[x].thread)
    ensures Closer(s'.ts[t].pc) ==> Closer(s.ts[t].pc)
  {
  }

  // ---------------------------------------------------------------- every run

  lemma NextTold(s: State, s': State)
    requires Inv(s) && Told(s) && Next(s, s')
    ensures Told(s')
  {
    var t :| Step(s, s', t);
    if pc' :| Look(s, s.ts[t].pc, pc') && s' == SetPc(s, t, pc') {
      LookTold(s, t, pc');
    } else if Lock(s, s', t) || Release(s, s', t) {
      LocksTold(s, s', t);
    } else if UseBuffer(s, s', t) {
      UseBufferTold(s, s', t);
    } else if Join(s, s', t) {
      JoinTold(s, s', t);
    } else if Finish(s, s', t) {
      FinishTold(s, s', t);
    } else if c, x :| PopStale(s, s', t, c, x) {
      PopStaleTold(s, s', t, c, x);
    } else if c, x :| PopWin(s, s', t, c, x) {
      PopWinTold(s, s', t, c, x);
    } else {
      var x :| Ready(s, s', t, x);
      ReadyTold(s, s', t, x);
    }
  }

  lemma {:induction false} RunTold(run: seq<State>, i: nat)
    requires Run(run) && i < |run|
    ensures Inv(run[i]) && Told(run[i])
  {
    S.RunInv(run, i);
    if i > 0 {
      RunTold(run, i - 1);
      assert Next(run[i - 1], run[i - 1 + 1]);
      NextTold(run[i - 1], run[i]);
    }
  }

  /**
   When a receive, plain or in a select, answers that a waitable is closed, everything that was ever sent
   to the waitable has been received.
  */
  lemma ClosedMeansReceived(run: seq<State>, i: nat, t: Tid)
    requires Run(run) && i < |run| && t in run[i].ts && run[i].ts[t].pc.Done?
    requires var pc := run[i].ts[t].pc; !pc.ok && pc.i != -1 && 0 <= pc.i < |pc.op.cases| && !pc.op.cases[pc.i].send
    ensures var s, w := run[i], run[i].ts[t].pc.op.cases[run[i].ts[t].pc.i].w;
            Dry(s, w) && s.ws[w].sends == s.ws[w].waits
  {
    RunTold(run, i);
    assert ThreadDry(run[i], t);
    assert CountOk(run[i].ws[run[i].ts[t].pc.op.cases[run[i].ts[t].pc.i].w]);
  }

  /** And so it has when the closing thread has taken a waiting receiver off the queue to wake it. */
  lemma CloserFindsDry(run: seq<State>, i: nat, t: Tid, x: WtId)
    requires Run(run) && i < |run| && t in run[i].ts && Closer(run[i].ts[t].pc) && HoldsWt(run[i].ts[t].pc, x)
    ensures var s := run[i];
            x in s.wts && (!s.wts[x].cs.send ==>
              var w := s.wts[x].cs.w; Dry(s, w) && s.ws[w].sends == s.ws[w].waits)
  {
    RunTold(run, i);
    S.ReadyFindsParked(run[i], t, x);
    assert WtDry(run[i], x);
    if !run[i].wts[x].cs.send {
      assert CountOk(run[i].ws[run[i].wts[x].cs.w]);
    }
  }

  // ---------------------------------------------------------------- nothing is sent after the close

  ghost predicate StaysClosed(s: State, s': State, w: Wid) {
    w in s.ws && w in s'.ws && (s.ws[w].closed ==> s'.ws[w].closed && s'.ws[w].sends == s.ws[w].sends)
  }

  lemma ClosedStep(s: State, s': State, w: Wid)
    requires Inv(s) && Next(s, s') && w in s.ws
    ensures StaysClosed(s, s', w)
  {
    var t :| Step(s, s', t);
    assert ThreadOk(s, t);
    if pc' :| Look(s, s.ts[t].pc, pc') && s' == SetPc(s, t, pc') {
    } else if Lock(s, s', t) || Release(s, s', t) {
      LocksClosed(s, s', t, w);
    } else if UseBuffer(s, s', t) {
      BufferClosed(s, s', t, w);
    } else if Join(s, s', t) || Finish(s, s', t) {
      WaitingClosed(s, s', t, w);
    } else if c, x :| PopStale(s, s', t, c, x) {
    } else if c, x :| PopWin(s, s', t, c, x) {
      PopClosed(s, s', t, c, x, w);
    } else {
      var x :| Ready(s, s', t, x);
    }
  }

  lemma LocksClosed(s: State, s': State, t: Tid, w: Wid)
    requires t in s.ts && (Lock(s, s', t) || Release(s, s', t)) && w in s.ws
    ensures StaysClosed(s, s', w)
  {
  }

  lemma BufferClosed(s: State, s': State, t: Tid, w: Wid)
    requires t in s.ts && ThreadOk(s, t) && UseBuffer(s, s', t) && w in s.ws
    ensures StaysClosed(s, s', w)
  {
  }

  lemma WaitingClosed(s: State, s': State, t: Tid, w: Wid)
    requires t in s.ts && (Join(s, s', t) || Finish(s, s', t)) && w in s.ws
    ensures StaysClosed(s, s', w)
  {
  }

  /** No partner is queued on a closed waitable, but for those that the closing thread takes off. */
  lemma PopClosed(s: State, s': State, t: Tid, c: Case, x: WtId, w: Wid)
    requires Inv(s) && PopWin(s, s', t, c, x) && ThreadOk(s, t) && w in s.ws
    ensures StaysClosed(s, s', w)
  {
    S.PopFacts(s, t, c, x);
    S.PoppedIsParked(s, t, c, x);
    assert LiveOk(s, c.w, c.send, x);
  }

  lemma StepOf(run: seq<State>, k: nat)
    requires Run(run) && k + 1 < |run|
    ensures Inv(run[k]) && Next(run[k], run[k + 1])
  {
    S.RunInv(run, k);
    assert Next(run[k], run[k + 1]);
  }

  lemma ClosedAt(run: seq<State>, k: nat, w: Wid)
    requires Run(run) && k + 1 < |run| && w in run[k].ws
    ensures StaysClosed(run[k], run[k + 1], w)
  {
    StepOf(run, k);
    ClosedStep(run[k], run[k + 1], w);
  }

  ghost predicate ClosedSince(s: State, s': State, w: Wid) {
    w in s.ws && w in s'.ws && s'.ws[w].closed && s'.ws[w].sends == s.ws[w].sends
  }

  /** In the k-th step of a run w stays closed if it was. */
  ghost predicate StepKeepsClosed(run: seq<State>, k: nat, w: Wid) {
    k + 1 < |run| && (w in run[k].ws ==> StaysClosed(run[k], run[k + 1], w))
  }

  lemma {:induction false} ClosedAlong(run: seq<State>, i: nat, j: nat, w: Wid)
    requires i <= j < |run| && w in run[i].ws && run[i].ws[w].closed
    requires forall k: nat | i <= k < j :: StepKeepsClosed(run, k, w)
    ensures ClosedSince(run[i], run[j], w)
  {
    if i < j {
      ClosedAlong(run, i, j - 1, w);
      assert StepKeepsClosed(run, j - 1, w);
    }
  }

  /** Once a waitable is closed it stays so, and no send to it is committed any more. */
  lemma NothingSentAfterClose(run: seq<State>, i: nat, j: nat, w: Wid)
    requires Run(run) && i <= j < |run| && w in run[i].ws && run[i].ws[w].closed
    ensures ClosedSince(run[i], run[j], w)
  {
    forall k: nat | i <= k < j
      ensures StepKeepsClosed(run, k, w)
    {
      if w in run[k].ws {
        ClosedAt(run, k, w);
      }
    }
    ClosedAlong(run, i, j, w);
  }

  // ---------------------------------------------------------------- operations that may not block

  /** Case c of thread t cannot go ahead: no partner waits for it, and the buffer is of no use. */
  ghost predicate CannotGo(s: State, c: Case, t: Tid) {
    && c.w in s.ws && s.ws[c.w].count == (if c.send then s.ws[c.w].size else 0)
    && forall x | x in Queue(s.ws[c.w], !c.send) && Live(s, x) :: s.wts[x].thread == t
  }

  ghost predicate NoneCanGo(s: State, op: Op, t: Tid) {
    forall i {:trigger op.cases[i]} | 0 <= i < |op.cases| :: CannotGo(s, op.cases[i], t)
  }

  /** The thread is going to answer, or perhaps to answer, that it would have to block. */
  predicate TurningBack(pc: Pc, op: Op) {
    match pc
    case PeekOpen(o) => o == op
    case Unlock(o, after) => o == op && after.ToDone? && after.i == -1
    case Done(o, i, ok) => o == op && i == -1
    case _ => false
  }

  /** The thread is carrying out op. */
  predicate Before(pc: Pc, op: Op) {
    match pc
    case PeekFull(o) => o == op
    case PeekEmpty(o) => o == op
    case Barren(o) => o == op
    case _ => false
  }

  /** A thread begins to turn back only at a moment when none of its cases can go ahead. */
  lemma TurnsBack(s: State, s': State, t: Tid, op: Op)
    requires Inv(s) && Next(s, s') && t in s'.ts && TurningBack(s'.ts[t].pc, op)
    ensures t in s.ts && (TurningBack(s.ts[t].pc, op) || (Before(s.ts[t].pc, op) && NoneCanGo(s, op, t)))
  {
    var u :| Step(s, s', u);
    assert ThreadOk(s, u);
    if exists pc' :: Look(s, s.ts[u].pc, pc') && s' == SetPc(s, u, pc') {
      LookTurns(s, s', u, t, op);
    } else if Lock(s, s', u) || Release(s, s', u) {
      LocksTurn(s, s', u, t, op);
    } else if UseBuffer(s, s', u) {
      BufferTurns(s, s', u, t, op);
    } else if Join(s, s', u) || Finish(s, s', u) {
      WaitingTurns(s, s', u, t, op);
    } else {
      PartnersTurn(s, s', u, t, op);
    }
  }

  lemma PartnersTurn(s: State, s': State, u: Tid, t: Tid, op: Op)
    requires u in s.ts && ThreadOk(s, u) && t in s'.ts && TurningBack(s'.ts[t].pc, op)
    requires (exists c, x :: PopStale(s, s', u, c, x)) || (exists c, x :: PopWin(s, s', u, c, x))
             || exists x :: Ready(s, s', u, x)
    ensures t in s.ts && TurningBack(s.ts[t].pc, op)
  {
    if c, x :| PopStale(s, s', u, c, x) {
    } else if c, x :| PopWin(s, s', u, c, x) {
      PopTurns(s, s', u, c, x, t, op);
    } else {
      var x :| Ready(s, s', u, x);
      ReadyTurns(s, s', u, x, t, op);
    }
  }

  lemma LookTurns(s: State, s': State, u: Tid, t: Tid, op: Op)
    requires Inv(s) && u in s.ts && ThreadOk(s, u) && t in s'.ts && TurningBack(s'.ts[t].pc, op)
    requires exists pc' :: Look(s, s.ts[u].pc, pc') && s' == SetPc(s, u, pc')
    ensures t in s.ts && (TurningBack(s.ts[t].pc, op) || (Before(s.ts[t].pc, op) && NoneCanGo(s, op, t)))
  {
    var pc' :| Look(s, s.ts[u].pc, pc') && s' == SetPc(s, u, pc');
    if u == t {
      LooksBack(s, t, pc', op);
    }
  }

  lemma LooksBack(s: State, t: Tid, pc': Pc, op: Op)
    requires Inv(s) && t in s.ts && ThreadOk(s, t) && Look(s, s.ts[t].pc, pc') && TurningBack(pc', op)
    ensures TurningBack(s.ts[t].pc, op) || (Before(s.ts[t].pc, op) && NoneCanGo(s, op, t))
  {
    var pc := s.ts[t].pc;
    if pc.PeekFull? || pc.PeekEmpty? {
      PeekStuck(s, t, op);
    } else if pc.Barren? {
      forall i | 0 <= i < |op.cases|
        ensures CannotGo(s, op.cases[i], t)
      {
        assert BarrenCase(s, op.cases[i]) && Lonely(s, op.cases[i], t);
      }
    }
  }

  lemma PeekStuck(s: State, t: Tid, op: Op)
    requires Inv(s) && t in s.ts && OpOk(s, op) && |op.cases| == 1
    requires if s.ts[t].pc.PeekFull? then IsFull(s.ws[op.cases[0].w]) && op.cases[0].send
             else IsEmpty(s.ws[op.cases[0].w]) && !op.cases[0].send
    ensures NoneCanGo(s, op, t)
  {
    var c := op.cases[0];
    assert CountOk(s.ws[c.w]);
    forall x | x in Queue(s.ws[c.w], !c.send)
      ensures !Live(s, x)
    {
      assert LiveOk(s, c.w, !c.send, x);
    }
  }

  lemma LocksTurn(s: State, s': State, u: Tid, t: Tid, op: Op)
    requires u in s.ts && (Lock(s, s', u) || Release(s, s', u)) && t in s'.ts && TurningBack(s'.ts[t].pc, op)
    ensures t in s.ts && TurningBack(s.ts[t].pc, op)
  {
  }

  lemma BufferTurns(s: State, s': State, u: Tid, t: Tid, op: Op)
    requires u in s.ts && UseBuffer(s, s', u) && t in s'.ts && TurningBack(s'.ts[t].pc, op)
    ensures t in s.ts && TurningBack(s.ts[t].pc, op)
  {
  }

  lemma WaitingTurns(s: State, s': State, u: Tid, t: Tid, op: Op)
    requires u in s.ts && ThreadOk(s, u) && (Join(s, s', u) || Finish(s, s', u))
    requires t in s'.ts && TurningBack(s'.ts[t].pc, op)
    ensures t in s.ts && TurningBack(s.ts[t].pc, op)
  {
  }

  lemma PopTurns(s: State, s': State, u: Tid, c: Case, x: WtId, t: Tid, op: Op)
    requires PopWin(s, s', u, c, x) && t in s'.ts && TurningBack(s'.ts[t].pc, op)
    ensures t in s.ts && TurningBack(s.ts[t].pc, op)
  {
  }

  lemma ReadyTurns(s: State, s': State, u: Tid, x: WtId, t: Tid, op: Op)
    requires Ready(s, s', u, x) && ThreadOk(s, u) && t in s'.ts && TurningBack(s'.ts[t].pc, op)
    ensures t in s.ts && TurningBack(s.ts[t].pc, op)
  {
  }

  predicate Turning(run: seq<State>, k: nat, t: Tid, op: Op) {
    k < |run| && t in run[k].ts && TurningBack(run[k].ts[t].pc, op)
  }

  /** At this moment thread t has not yet answered, and none of its cases can go ahead. */
  ghost predicate Stuck(run: seq<State>, k: nat, t: Tid, op: Op) {
    k < |run| && t in run[k].ts && Before(run[k].ts[t].pc, op) && NoneCanGo(run[k], op, t)
  }

  ghost predicate TurnsWhenStuck(run: seq<State>, k: nat, t: Tid, op: Op) {
    Turning(run, k + 1, t, op) ==> Turning(run, k, t, op) || Stuck(run, k, t, op)
  }

  lemma {:induction false} TurnedAlong(run: seq<State>, j: nat, t: Tid, op: Op) returns (i: nat)
    requires Turning(run, j, t, op) && !Turning(run, 0, t, op)
    requires forall k: nat | k < j :: TurnsWhenStuck(run, k, t, op)
    ensures i < j && Stuck(run, i, t, op) && forall k: nat | i < k <= j :: Turning(run, k, t, op)
  {
    i := j - 1;
    assert TurnsWhenStuck(run, i, t, op);
    if Turning(run, i, t, op) {
      i := TurnedAlong(run, i, t, op);
    }
  }

  lemma TurnsAt(run: seq<State>, k: nat, t: Tid, op: Op)
    requires Run(run) && k + 1 < |run|
    ensures TurnsWhenStuck(run, k, t, op)
  {
    if Turning(run, k + 1, t, op) {
      StepOf(run, k);
      TurnsBack(run[k], run[k + 1], t, op);
    }
  }

  lemma StartsIdle(run: seq<State>, t: Tid, op: Op)
    requires Run(run)
    ensures !Turning(run, 0, t, op)
  {
  }

  /**
   An operation that answers that it would have to block was, at some moment since it began, unable to go
   ahead with any of its cases.
  */
  lemma TurnedBackStuck(run: seq<State>, j: nat, t: Tid, op: Op) returns (i: nat)
    requires Run(run) && j < |run| && Turning(run, j, t, op)
    ensures i < j && Stuck(run, i, t, op) && forall k: nat | i < k <= j :: Turning(run, k, t, op)
  {
    StartsIdle(run, t, op);
    forall k: nat | k < j
      ensures TurnsWhenStuck(run, k, t, op)
    {
      TurnsAt(run, k, t, op);
    }
    i := TurnedAlong(run, j, t, op);
  }

  // ---------------------------------------------------------------- and never hide that a waitable is closed

  /** The thread is going to answer that it would have to block. */
  predicate Decided(pc: Pc, op: Op) {
    TurningBack(pc, op) && !pc.PeekOpen?
  }

  /** None of the waitables to receive from is closed. */
  predicate AllOpen(s: State, op: Op) {
    forall i | 0 <= i < |op.cases| && !op.cases[i].send :: op.cases[i].w in s.ws && !s.ws[op.cases[i].w].closed
  }

  lemma DecidesOpen(s: State, s': State, t: Tid, op: Op)
    requires Inv(s) && Next(s, s') && t in s'.ts && Decided(s'.ts[t].pc, op)
    ensures t in s.ts && (Decided(s.ts[t].pc, op) || AllOpen(s, op))
  {
    var u :| Step(s, s', u);
    assert ThreadOk(s, u);
    if exists pc' :: Look(s, s.ts[u].pc, pc') && s' == SetPc(s, u, pc') {
      LookDecides(s, s', u, t, op);
    } else {
      OthersDecide(s, s', u, t, op);
    }
  }

  lemma LookDecides(s: State, s': State, u: Tid, t: Tid, op: Op)
    requires Inv(s) && u in s.ts && ThreadOk(s, u) && t in s'.ts && Decided(s'.ts[t].pc, op)
    requires exists pc' :: Look(s, s.ts[u].pc, pc') && s' == SetPc(s, u, pc')
    ensures t in s.ts && (Decided(s.ts[t].pc, op) || AllOpen(s, op))
  {
    if u == t && s.ts[t].pc.Barren? {
      assert forall i | 0 <= i < |op.cases| :: BarrenCase(s, op.cases[i]);
    }
  }

  lemma OthersDecide(s: State, s': State, u: Tid, t: Tid, op: Op)
    requires u in s.ts && ThreadOk(s, u) && t in s'.ts && Decided(s'.ts[t].pc, op)
    requires Step(s, s', u) && !exists pc' :: Look(s, s.ts[u].pc, pc') && s' == SetPc(s, u, pc')
    ensures t in s.ts && Decided(s.ts[t].pc, op)
  {
    if Lock(s, s', u) || Release(s, s', u) {
      LocksTurn(s, s', u, t, op);
      if s.ts[t].pc.PeekOpen? {
        LocksDecide(s, s', u, t);
      }
    } else if UseBuffer(s, s', u) {
      BufferTurns(s, s', u, t, op);
    } else if Join(s, s', u) || Finish(s, s', u) {
      WaitingTurns(s, s', u, t, op);
      if s.ts[t].pc.PeekOpen? {
        WaitingDecides(s, s', u, t);
      }
    } else {
      PartnersTurn(s, s', u, t, op);
      if s.ts[t].pc.PeekOpen? {
        PartnersDecide(s, s', u, t);
      }
    }
  }

  lemma LocksDecide(s: State, s': State, u: Tid, t: Tid)
    requires u in s.ts && (Lock(s, s', u) || Release(s, s', u)) && t in s.ts && s.ts[t].pc.PeekOpen?
    ensures t in s'.ts && s'.ts[t].pc == s.ts[t].pc
  {
  }

  lemma WaitingDecides(s: State, s': State, u: Tid, t: Tid)
    requires u in s.ts && (Join(s, s', u) || Finish(s, s', u)) && t in s.ts && s.ts[t].pc.PeekOpen?
    ensures t in s'.ts && s'.ts[t].pc == s.ts[t].pc
  {
  }

  lemma PartnersDecide(s: State, s': State, u: Tid, t: Tid)
    requires u in s.ts && t in s.ts && s.ts[t].pc.PeekOpen?
    requires (exists c, x :: PopStale(s, s', u, c, x)) || (exists c, x :: PopWin(s, s', u, c, x))
             || exists x :: Ready(s, s', u, x)
    ensures t in s'.ts && s'.ts[t].pc == s.ts[t].pc
  {
    if c, x :| PopStale(s, s', u, c, x) {
    } else if c, x :| PopWin(s, s', u, c, x) {
      PopLeaves(s, s', u, c, x, t);
    } else {
      var x :| Ready(s, s', u, x);
      ReadyLeaves(s, s', u, x, t);
    }
  }

  lemma PopLeaves(s: State, s': State, u: Tid, c: Case, x: WtId, t: Tid)
    requires PopWin(s, s', u, c, x) && t in s.ts && s.ts[t].pc.PeekOpen?
    ensures t in s'.ts && s'.ts[t].pc == s.ts[t].pc
  {
  }

  lemma ReadyLeaves(s: State, s': State, u: Tid, x: WtId, t: Tid)
    requires Ready(s, s', u, x) && t in s.ts && s.ts[t].pc.PeekOpen?
    ensures t in s'.ts && s'.ts[t].pc == s.ts[t].pc
  {
  }

  predicate DecidedAt(run: seq<State>, k: nat, t: Tid, op: Op) {
    k < |run| && t in run[k].ts && Decided(run[k].ts[t].pc, op)
  }

  predicate OpenAt(run: seq<State>, k: nat, op: Op) {
    k < |run| && AllOpen(run[k], op)
  }

  predicate DecidesWhenOpen(run: seq<State>, k: nat, t: Tid, op: Op) {
    DecidedAt(run, k + 1, t, op) ==> DecidedAt(run, k, t, op) || OpenAt(run, k, op)
  }

  lemma DecidesAt(run: seq<State>, k: nat, t: Tid, op: Op)
    requires Run(run) && k + 1 < |run|
    ensures DecidesWhenOpen(run, k, t, op)
  {
    if DecidedAt(run, k + 1, t, op) {
      StepOf(run, k);
      DecidesOpen(run[k], run[k + 1], t, op);
    }
  }

  lemma {:induction false} DecidedAlong(run: seq<State>, j: nat, t: Tid, op: Op) returns (m: nat)
    requires DecidedAt(run, j, t, op) && !DecidedAt(run, 0, t, op)
    requires forall k: nat | k < j :: DecidesWhenOpen(run, k, t, op)
    ensures m < j && OpenAt(run, m, op) && forall k: nat | m < k <= j :: DecidedAt(run, k, t, op)
  {
    m := j - 1;
    assert DecidesWhenOpen(run, m, t, op);
    if DecidedAt(run, m, t, op) {
      m := DecidedAlong(run, m, t, op);
    }
  }

  /**
   An operation answers that it would have to block only if none of the waitables it is to receive from was
   closed at the moment it decided: a closed one is reported instead.
  */
  lemma TurnedBackOpen(run: seq<State>, j: nat, t: Tid, op: Op) returns (m: nat)
    requires Run(run) && j < |run| && DecidedAt(run, j, t, op)
    ensures m < j && OpenAt(run, m, op) && forall k: nat | m < k <= j :: DecidedAt(run, k, t, op)
  {
    StartsIdle(run, t, op);
    assert Turning(run, 0, t, op) || !DecidedAt(run, 0, t, op);
    forall k: nat | k < j
      ensures DecidesWhenOpen(run, k, t, op)
    {
      DecidesAt(run, k, t, op);
    }
    m := DecidedAlong(run, j, t, op);
  }
}
