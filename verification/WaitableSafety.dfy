/** Proof that every run of WaitableProtocol keeps its invariant, and what follows from it. */
module WaitableSafety {
  import opened WaitableProtocol
  import opened Permutation

  // ---------------------------------------------------------------- frames

  /** What a step may do to the waitables as far as thread u is concerned. */
  ghost predicate KeepsWs(s: State, s': State, u: Tid)
    requires u in s.ts
  {
    && s'.ws.Keys == s.ws.Keys
    && forall w | w in s.ws :: (s.ws[w].closed ==> s'.ws[w].closed) && (Holding(s.ts[u].pc, w) ==> s'.ws[w] == s.ws[w])
  }

  /** What a step may do to the descriptors that concern thread u: pass over its stale ones. */
  ghost predicate KeepsWts(s: State, s': State, u: Tid)
    requires u in s.ts
  {
    && s'.nextWt >= s.nextWt
    && forall x | x in s.wts && (s.wts[x].thread == u || s.wts[x].place == Held(u)) ::
         && x in s'.wts
         && (s'.wts[x] == s.wts[x]
             || (s.ts[u].winner.Some? && s.wts[x].place == Queued && s'.wts[x] == s.wts[x].(place := Gone)))
  }

  predicate Polling(pc: Pc) { pc.Poll? || pc.Pop? || pc.Buffer? }
  predicate Joining(pc: Pc) { pc.Barren? || pc.Enqueue? }
  predicate Waiting(pc: Pc) { pc.Parked? || pc.Awake? }

  lemma ThreadFrame(s: State, s': State, u: Tid)
    requires u in s.ts && ThreadOk(s, u) && u in s'.ts && s'.ts[u] == s.ts[u]
    requires KeepsWs(s, s', u) && KeepsWts(s, s', u)
    ensures ThreadOk(s', u)
  {
    if Polling(s.ts[u].pc) {
      PollingFrame(s, s', u);
    } else if Joining(s.ts[u].pc) {
      JoiningFrame(s, s', u);
    } else if s.ts[u].pc.Unlock? {
      UnlockFrame(s, s', u);
    } else if Waiting(s.ts[u].pc) {
      WaitingFrame(s, s', u);
    } else {
      OutsideFrame(s, s', u);
    }
  }

  lemma PollingFrame(s: State, s': State, u: Tid)
    requires u in s.ts && ThreadOk(s, u) && u in s'.ts && s'.ts[u] == s.ts[u]
    requires KeepsWs(s, s', u) && Polling(s.ts[u].pc)
    ensures ThreadOk(s', u)
  {
    var op := s.ts[u].pc.op;
    OpFrame(s, s', u, op);
    forall j {:trigger s.ts[u].pc.order[j]} | 0 <= j < s.ts[u].pc.o
      ensures var c := op.cases[s.ts[u].pc.order[j]]; BarrenCase(s', c) && Queue(s'.ws[c.w], !c.send) == []
    {
      assert BarrenCase(s, op.cases[s.ts[u].pc.order[j]]);
    }
  }

  lemma JoiningFrame(s: State, s': State, u: Tid)
    requires u in s.ts && ThreadOk(s, u) && u in s'.ts && s'.ts[u] == s.ts[u]
    requires KeepsWs(s, s', u) && KeepsWts(s, s', u) && Joining(s.ts[u].pc)
    ensures ThreadOk(s', u)
  {
    if s.ts[u].pc.Enqueue? {
      EnqueueThreadFrame(s, s', u);
    } else {
      BarrenThreadFrame(s, s', u);
    }
  }

  lemma EnqueueThreadFrame(s: State, s': State, u: Tid)
    requires u in s.ts && ThreadOk(s, u) && u in s'.ts && s'.ts[u] == s.ts[u]
    requires KeepsWs(s, s', u) && KeepsWts(s, s', u) && s.ts[u].pc.Enqueue?
    ensures ThreadOk(s', u)
  {
    var pc := s.ts[u].pc;
    EnqueueFrame(s, s', u, pc.op, pc.base, pc.order, pc.o);
  }

  lemma BarrenThreadFrame(s: State, s': State, u: Tid)
    requires u in s.ts && ThreadOk(s, u) && u in s'.ts && s'.ts[u] == s.ts[u]
    requires KeepsWs(s, s', u) && KeepsWts(s, s', u) && s.ts[u].pc.Barren?
    ensures ThreadOk(s', u)
  {
    BarrenFrame(s, s', u, s.ts[u].pc.op);
  }

  lemma WaitingFrame(s: State, s': State, u: Tid)
    requires u in s.ts && ThreadOk(s, u) && u in s'.ts && s'.ts[u] == s.ts[u]
    requires KeepsWs(s, s', u) && KeepsWts(s, s', u) && Waiting(s.ts[u].pc)
    ensures ThreadOk(s', u)
  {
    if s.ts[u].pc.Parked? {
      ParkedFrame(s, s', u, s.ts[u].pc.op, s.ts[u].pc.base);
    }
  }

  /** The waitables of an operation are the same while their locks are held. */
  lemma OpFrame(s: State, s': State, u: Tid, op: Op)
    requires u in s.ts && OpOk(s, op) && KeepsWs(s, s', u)
    requires forall w | InOp(op, w) :: Holding(s.ts[u].pc, w)
    ensures OpOk(s', op)
    ensures forall i | 0 <= i < |op.cases| :: s'.ws[op.cases[i].w] == s.ws[op.cases[i].w]
  {
    forall i | 0 <= i < |op.cases|
      ensures s'.ws[op.cases[i].w] == s.ws[op.cases[i].w]
    {
      assert InOp(op, op.cases[i].w);
    }
  }

  lemma BarrenFrame(s: State, s': State, u: Tid, op: Op)
    requires u in s.ts && OpOk(s, op) && KeepsWs(s, s', u) && KeepsWts(s, s', u) && AllBarren(s, op)
             && AllLonely(s, op, u)
    requires forall w | InOp(op, w) :: Holding(s.ts[u].pc, w)
    ensures OpOk(s', op) && AllBarren(s', op) && AllLonely(s', op, u)
  {
    OpFrame(s, s', u, op);
    forall i | 0 <= i < |op.cases|
      ensures BarrenCase(s', op.cases[i]) && Lonely(s', op.cases[i], u)
    {
      assert BarrenCase(s, op.cases[i]) && Lonely(s, op.cases[i], u);
    }
  }

  lemma EnqueueFrame(s: State, s': State, u: Tid, op: Op, base: nat, order: seq<int>, o: nat)
    requires u in s.ts && Fresh(s.ts[u]) && KeepsWs(s, s', u) && KeepsWts(s, s', u)
    requires OpOk(s, op) && EnqueueOk(s, u, op, base, order, o) && s.ts[u].pc == Enqueue(op, base, order, o)
    ensures OpOk(s', op) && EnqueueOk(s', u, op, base, order, o)
  {
    BarrenFrame(s, s', u, op);
    MineFrame(s, s', u, op, base);
    forall k | 0 <= k < |order|
      ensures base + order[k] in s'.wts && s'.wts[base + order[k]].place == s.wts[base + order[k]].place
    {
      assert s.wts[base + order[k]].thread == u;
    }
  }

  lemma MineFrame(s: State, s': State, u: Tid, op: Op, base: nat)
    requires u in s.ts && KeepsWts(s, s', u) && Mine(s, u, op, base)
    ensures Mine(s', u, op, base)
  {
  }

  lemma UnlockFrame(s: State, s': State, u: Tid)
    requires u in s.ts && ThreadOk(s, u) && u in s'.ts && s'.ts[u] == s.ts[u] && s.ts[u].pc.Unlock?
    requires KeepsWs(s, s', u) && KeepsWts(s, s', u)
    ensures ThreadOk(s', u)
  {
    var op, after := s.ts[u].pc.op, s.ts[u].pc.after;
    OpFrame(s, s', u, op);
    if after.ToPark? {
      ParkedFrame(s, s', u, op, after.base);
    }
  }

  lemma ParkedFrame(s: State, s': State, u: Tid, op: Op, base: nat)
    requires u in s.ts && ParkedOk(s, u, op, base) && u in s'.ts && s'.ts[u] == s.ts[u] && KeepsWts(s, s', u)
    ensures ParkedOk(s', u, op, base)
  {
  }

  lemma OutsideFrame(s: State, s': State, u: Tid)
    requires u in s.ts && ThreadOk(s, u) && u in s'.ts && s'.ts[u] == s.ts[u]
    requires KeepsWs(s, s', u) && KeepsWts(s, s', u)
    requires var pc := s.ts[u].pc;
             !pc.Poll? && !pc.Pop? && !pc.Buffer? && !pc.Barren? && !pc.Enqueue? && !pc.Unlock? && !pc.Parked?
                 && !pc.Awake?
    ensures ThreadOk(s', u)
  {
  }

  /** The queue, the thread and the holder of x, as far as x can tell, are as they were. */
  lemma WtFrame(s: State, s': State, x: WtId)
    requires x in s.wts && WtOk(s, x) && x in s'.wts && s'.nextWt >= s.nextWt
    requires var d, d' := s.wts[x], s'.wts[x];
             && d'.thread == d.thread && d'.cs == d.cs && d'.place == d.place
             && d.thread in s'.ts && d.cs.w in s'.ws && (s.ws[d.cs.w].closed ==> s'.ws[d.cs.w].closed)
             && (d.place == Queued ==>
                   && (s'.ts[d.thread].winner == Some(x) ==> s.ts[d.thread].winner == Some(x))
                   && (x in Queue(s.ws[d.cs.w], d.cs.send) ==> x in Queue(s'.ws[d.cs.w], d.cs.send))
                   && (Covers(s.ts[d.thread].pc, x) ==> Covers(s'.ts[d.thread].pc, x)))
             && (d.place.Held? ==>
                   && s'.ts[d.thread].winner == s.ts[d.thread].winner
                   && s'.ts[d.thread].pc == s.ts[d.thread].pc && s'.ts[d.thread].commits == s.ts[d.thread].commits
                   && d.place.holder in s'.ts && d.place.holder in s.ts
                   && Closer(s'.ts[d.place.holder].pc) == Closer(s.ts[d.place.holder].pc)
                   && (HoldsWt(s.ts[d.place.holder].pc, x) ==> HoldsWt(s'.ts[d.place.holder].pc, x)))
    ensures WtOk(s', x)
  {
  }

  // ---------------------------------------------------------------- looking

  lemma LookThread(s: State, t: Tid, pc': Pc)
    requires t in s.ts && ThreadOk(s, t) && Look(s, s.ts[t].pc, pc')
    requires forall w {:trigger CountOk(s.ws[w])} | w in s.ws :: CountOk(s.ws[w])
    ensures ThreadOk(SetPc(s, t, pc'), t)
  {
    if s.ts[t].pc.Poll? || s.ts[t].pc.Pop? {
      LookRegion(s, t, pc');
    } else if s.ts[t].pc.Buffer? {
      LookBuffer(s, t, pc');
    } else {
      LookOutside(s, t, pc');
    }
  }

  predicate Peeking(pc: Pc) {
    pc.Idle? || pc.PeekClosed? || pc.PeekFull? || pc.PeekEmpty? || pc.PeekOpen? || pc.PeekEmptyAgain?
  }

  lemma LookOutside(s: State, t: Tid, pc': Pc)
    requires t in s.ts && ThreadOk(s, t) && Look(s, s.ts[t].pc, pc') && !Polling(s.ts[t].pc)
    ensures ThreadOk(SetPc(s, t, pc'), t)
  {
    if Peeking(s.ts[t].pc) {
      LookPeeking(s, t, pc');
    } else {
      LookClose(s, t, pc');
    }
  }

  lemma LookPeeking(s: State, t: Tid, pc': Pc)
    requires t in s.ts && ThreadOk(s, t) && Look(s, s.ts[t].pc, pc') && Peeking(s.ts[t].pc)
    ensures ThreadOk(SetPc(s, t, pc'), t)
  {
  }

  lemma LookClose(s: State, t: Tid, pc': Pc)
    requires t in s.ts && ThreadOk(s, t) && Look(s, s.ts[t].pc, pc') && !Polling(s.ts[t].pc) && !Peeking(s.ts[t].pc)
    ensures ThreadOk(SetPc(s, t, pc'), t)
  {
  }

  lemma LookRegion(s: State, t: Tid, pc': Pc)
    requires t in s.ts && ThreadOk(s, t) && Look(s, s.ts[t].pc, pc') && (s.ts[t].pc.Poll? || s.ts[t].pc.Pop?)
    ensures ThreadOk(SetPc(s, t, pc'), t)
  {
  }

  lemma LookBuffer(s: State, t: Tid, pc': Pc)
    requires t in s.ts && ThreadOk(s, t) && Look(s, s.ts[t].pc, pc') && s.ts[t].pc.Buffer?
    requires forall w {:trigger CountOk(s.ws[w])} | w in s.ws :: CountOk(s.ws[w])
    ensures ThreadOk(SetPc(s, t, pc'), t)
  {
    var op, order, o := s.ts[t].pc.op, s.ts[t].pc.order, s.ts[t].pc.o;
    var c := op.cases[order[o]];
    assert CountOk(s.ws[c.w]);
    var s' := SetPc(s, t, pc');
    if !pc'.Unlock? {
      assert BarrenCase(s, c) && Queue(s.ws[c.w], !c.send) == [];
      PolledMore(s, s', op, order, o);
      if o + 1 == |order| {
        PolledAll(s', op, order, t);
      }
    }
  }

  lemma PolledMore(s: State, s': State, op: Op, order: seq<int>, o: nat)
    requires OpOk(s, op) && IsOrder(order, |op.cases|) && o < |order| && Polled(s, op, order, o) && s'.ws == s.ws
    requires var c := op.cases[order[o]]; BarrenCase(s, c) && Queue(s.ws[c.w], !c.send) == []
    ensures OpOk(s', op) && Polled(s', op, order, o + 1)
  {
    forall j {:trigger order[j]} | 0 <= j < o + 1
      ensures BarrenCase(s', op.cases[order[j]]) && Queue(s'.ws[op.cases[order[j]].w], !op.cases[order[j]].send) == []
    {
      assert j < o ==> BarrenCase(s, op.cases[order[j]]);
    }
  }

  lemma PolledAll(s: State, op: Op, order: seq<int>, t: Tid)
    requires OpOk(s, op) && IsOrder(order, |op.cases|) && Polled(s, op, order, |order|)
    ensures AllBarren(s, op) && AllLonely(s, op, t)
  {
    forall i | 0 <= i < |op.cases|
      ensures BarrenCase(s, op.cases[i]) && Lonely(s, op.cases[i], t)
    {
      assert i in order;
      var j :| 0 <= j < |order| && order[j] == i;
      assert BarrenCase(s, op.cases[order[j]]);
    }
  }

  lemma LookHolding(s: State, pc: Pc, pc': Pc, w: Wid)
    requires Look(s, pc, pc')
    ensures Holding(pc', w) == Holding(pc, w)
  {
    if Polling(pc) {
      PollingHolds(s, pc, pc', w);
    } else {
      OthersHold(s, pc, pc', w);
    }
  }

  lemma PollingHolds(s: State, pc: Pc, pc': Pc, w: Wid)
    requires Look(s, pc, pc') && Polling(pc)
    ensures Holding(pc', w) == Holding(pc, w)
  {
  }

  lemma OthersHold(s: State, pc: Pc, pc': Pc, w: Wid)
    requires Look(s, pc, pc') && !Polling(pc)
    ensures Holding(pc', w) == Holding(pc, w)
  {
  }

  lemma LookWts(s: State, t: Tid, pc': Pc, x: WtId)
    requires t in s.ts && ThreadOk(s, t) && Look(s, s.ts[t].pc, pc')
    ensures !Covers(s.ts[t].pc, x)
    ensures HoldsWt(s.ts[t].pc, x) ==> HoldsWt(pc', x) && Closer(pc') == Closer(s.ts[t].pc)
  {
  }

  /** Queues and counts of w, and who is closing it, are as they were; no more threads are live. */
  ghost predicate KeepsLive(s: State, s': State, w: Wid)
    requires w in s.ws && w in s'.ws
  {
    && s'.ws[w].count == s.ws[w].count && s'.ws[w].size == s.ws[w].size && s'.ws[w].closed == s.ws[w].closed
    && (forall x | x in s'.ws[w].recvq ::
        x in s.ws[w].recvq
        && (Live(s', x) ==> Live(s, x) && s'.wts[x].thread == s.wts[x].thread))
    && (forall x | x in s'.ws[w].sendq ::
        x in s.ws[w].sendq
        && (Live(s', x) ==> Live(s, x) && s'.wts[x].thread == s.wts[x].thread))
    && (forall send | Closing(s, w, send) :: Closing(s', w, send) || Queue(s'.ws[w], send) == [])
  }

  lemma LiveFrame(s: State, s': State, w: Wid)
    requires w in s.ws && w in s'.ws && KeepsLive(s, s', w)
    requires forall send, x {:trigger LiveOk(s, w, send, x)} :: LiveOk(s, w, send, x)
    requires forall x, y {:trigger PairOk(s, w, x, y)} :: PairOk(s, w, x, y)
    ensures forall send, x {:trigger LiveOk(s', w, send, x)} :: LiveOk(s', w, send, x)
    ensures forall x, y {:trigger PairOk(s', w, x, y)} :: PairOk(s', w, x, y)
  {
    forall send, x
      ensures LiveOk(s', w, send, x)
    {
      assert LiveOk(s, w, send, x);
    }
    forall x, y
      ensures PairOk(s', w, x, y)
    {
      assert PairOk(s, w, x, y);
    }
  }

  /** The parts of the invariant that are about single waitables. */
  ghost predicate WaitableInv(s: State, w: Wid)
    requires w in s.ws
  {
    && (forall send {:trigger QueueOk(s, w, send)} :: QueueOk(s, w, send))
    && (forall send, x {:trigger LiveOk(s, w, send, x)} :: LiveOk(s, w, send, x))
    && (forall x, y {:trigger PairOk(s, w, x, y)} :: PairOk(s, w, x, y))
    && CountOk(s.ws[w])
  }

  lemma WaitableFromInv(s: State, w: Wid)
    requires Inv(s) && w in s.ws
    ensures WaitableInv(s, w)
  {
  }

  /** A step that leaves the queues, counts and descriptors of w alone. */
  lemma WaitableFrame(s: State, s': State, w: Wid)
    requires w in s.ws && w in s'.ws && WaitableInv(s, w) && KeepsLive(s, s', w) && CountOk(s'.ws[w])
    requires s'.ws[w].recvq == s.ws[w].recvq && s'.ws[w].sendq == s.ws[w].sendq
    requires forall x | x in s.wts && s.wts[x].place == Queued && s.wts[x].cs.w == w ::
             x in s'.wts
             && s'.wts[x].place == Queued && s'.wts[x].cs == s.wts[x].cs
    ensures WaitableInv(s', w)
  {
    LiveFrame(s, s', w);
    forall send
      ensures QueueOk(s', w, send)
    {
      assert QueueOk(s, w, send);
    }
  }

  lemma Assemble(s: State)
    requires LocksInv(s)
    requires forall t {:trigger ThreadOk(s, t)} | t in s.ts :: ThreadOk(s, t)
    requires forall x {:trigger WtOk(s, x)} | x in s.wts :: WtOk(s, x)
    requires forall w {:trigger WaitableInv(s, w)} | w in s.ws :: WaitableInv(s, w)
    ensures Inv(s)
  {
    forall w | w in s.ws
      ensures (forall send {:trigger QueueOk(s, w, send)} :: QueueOk(s, w, send)) && CountOk(s.ws[w])
      ensures forall send, x {:trigger LiveOk(s, w, send, x)} :: LiveOk(s, w, send, x)
      ensures forall x, y {:trigger PairOk(s, w, x, y)} :: PairOk(s, w, x, y)
    {
      assert WaitableInv(s, w);
    }
  }

  lemma LookClosing(s: State, t: Tid, pc': Pc, w: Wid)
    requires t in s.ts && ThreadOk(s, t) && Look(s, s.ts[t].pc, pc') && w in s.ws
    ensures KeepsLive(s, SetPc(s, t, pc'), w)
  {
  }

  lemma LookLocks(s: State, t: Tid, pc': Pc, u: Tid, w: Wid)
    requires Inv(s) && t in s.ts && Look(s, s.ts[t].pc, pc') && u in s.ts && w in s.ws
    ensures LockOk(SetPc(s, t, pc'), u, w)
  {
    assert LockOk(s, u, w);
    assert ThreadOk(s, t);
    LookHolding(s, s.ts[t].pc, pc', w);
  }

  lemma LookThreads(s: State, t: Tid, pc': Pc, u: Tid)
    requires Inv(s) && t in s.ts && Look(s, s.ts[t].pc, pc') && u in s.ts
    ensures ThreadOk(SetPc(s, t, pc'), u)
  {
    assert ThreadOk(s, u);
    if u == t {
      LookThread(s, t, pc');
    } else {
      ThreadFrame(s, SetPc(s, t, pc'), u);
    }
  }

  lemma LookWt(s: State, t: Tid, pc': Pc, x: WtId)
    requires Inv(s) && t in s.ts && Look(s, s.ts[t].pc, pc') && x in s.wts
    ensures WtOk(SetPc(s, t, pc'), x)
  {
    assert WtOk(s, x) && ThreadOk(s, t);
    LookWts(s, t, pc', x);
    WtFrame(s, SetPc(s, t, pc'), x);
  }

  lemma LookWaitable(s: State, t: Tid, pc': Pc, w: Wid)
    requires Inv(s) && t in s.ts && Look(s, s.ts[t].pc, pc') && w in s.ws
    ensures WaitableInv(SetPc(s, t, pc'), w)
  {
    assert ThreadOk(s, t);
    WaitableFromInv(s, w);
    LookClosing(s, t, pc', w);
    WaitableFrame(s, SetPc(s, t, pc'), w);
  }

  lemma LookInv(s: State, t: Tid, pc': Pc)
    requires Inv(s) && t in s.ts && Look(s, s.ts[t].pc, pc')
    ensures Inv(SetPc(s, t, pc'))
  {
    var s' := SetPc(s, t, pc');
    forall u, w | u in s'.ts && w in s'.ws
      ensures LockOk(s', u, w)
    {
      LookLocks(s, t, pc', u, w);
    }
    forall u | u in s'.ts
      ensures ThreadOk(s', u)
    {
      LookThreads(s, t, pc', u);
    }
    forall x | x in s'.wts
      ensures WtOk(s', x)
    {
      LookWt(s, t, pc', x);
    }
    forall w | w in s'.ws
      ensures WaitableInv(s', w)
    {
      LookWaitable(s, t, pc', w);
    }
    Assemble(s');
  }

  // ---------------------------------------------------------------- locking and unlocking

  /** Only one thread holds a lock. */
  lemma HoldersApart(s: State, t: Tid, u: Tid, w: Wid)
    requires LocksInv(s) && t in s.ts && u in s.ts && w in s.ws && t != u
    requires s.ws[w].lock == None || Holding(s.ts[t].pc, w)
    ensures !Holding(s.ts[u].pc, w)
  {
    assert LockOk(s, t, w) && LockOk(s, u, w);
  }

  /** A step that changes locks, and the program counter of the thread that takes or gives them back. */
  ghost predicate LocksOnly(s: State, s': State, t: Tid)
    requires t in s.ts
  {
    && s'.wts == s.wts && s'.nextWt == s.nextWt && s'.ws.Keys == s.ws.Keys
    && t in s'.ts && s'.ts == s.ts[t := s.ts[t].(pc := s'.ts[t].pc)]
    && (forall w | w in s.ws :: s'.ws[w] == s.ws[w].(lock := s'.ws[w].lock))
    && (forall w | w in s.ws && s'.ws[w] != s.ws[w] :: s.ws[w].lock == None || Holding(s.ts[t].pc, w))
    && (forall x | Covers(s.ts[t].pc, x) :: Covers(s'.ts[t].pc, x))
    && (forall x | HoldsWt(s.ts[t].pc, x) :: HoldsWt(s'.ts[t].pc, x))
    && Closer(s'.ts[t].pc) == Closer(s.ts[t].pc)
    && !s.ts[t].pc.Parked? && !s.ts[t].pc.ClosePop?
  }

  lemma LocksOnlyInv(s: State, s': State, t: Tid)
    requires Inv(s) && t in s.ts && LocksOnly(s, s', t) && LocksInv(s') && ThreadOk(s', t)
    ensures Inv(s')
  {
    forall u | u in s'.ts
      ensures ThreadOk(s', u)
    {
      if u != t {
        LocksOnlyThread(s, s', t, u);
      }
    }
    forall x | x in s'.wts
      ensures WtOk(s', x)
    {
      LocksOnlyWt(s, s', t, x);
    }
    forall w | w in s'.ws
      ensures WaitableInv(s', w)
    {
      LocksOnlyWaitable(s, s', t, w);
    }
    Assemble(s');
  }

  lemma LocksOnlyThread(s: State, s': State, t: Tid, u: Tid)
    requires Inv(s) && t in s.ts && LocksOnly(s, s', t) && u in s.ts && u != t
    ensures ThreadOk(s', u)
  {
    assert ThreadOk(s, u);
    forall w | w in s.ws && s'.ws[w] != s.ws[w]
      ensures !Holding(s.ts[u].pc, w)
    {
      HoldersApart(s, t, u, w);
    }
    ThreadFrame(s, s', u);
  }

  lemma LocksOnlyWt(s: State, s': State, t: Tid, x: WtId)
    requires Inv(s) && t in s.ts && LocksOnly(s, s', t) && x in s.wts
    ensures WtOk(s', x)
  {
    assert WtOk(s, x);
    WtFrame(s, s', x);
  }

  lemma LocksOnlyWaitable(s: State, s': State, t: Tid, w: Wid)
    requires Inv(s) && t in s.ts && LocksOnly(s, s', t) && w in s.ws
    ensures WaitableInv(s', w)
  {
    WaitableFromInv(s, w);
    LocksOnlyLive(s, s', t, w);
    WaitableFrame(s, s', w);
  }

  lemma LocksOnlyLive(s: State, s': State, t: Tid, w: Wid)
    requires LocksInv(s) && t in s.ts && LocksOnly(s, s', t) && w in s.ws
    ensures KeepsLive(s, s', w)
  {
    assert LockOk(s, t, w);
  }

  lemma LockStep(s: State, s': State, t: Tid)
    requires Inv(s) && t in s.ts && Lock(s, s', t)
    ensures LocksOnly(s, s', t) && LocksInv(s') && ThreadOk(s', t)
  {
    assert ThreadOk(s, t);
    LockChanges(s, s', t);
    LockThread(s, s', t);
    forall u, w | u in s'.ts && w in s'.ws
      ensures LockOk(s', u, w)
    {
      assert LockOk(s, u, w) && LockOk(s, t, w);
    }
  }

  /** What taking and giving back locks amounts to. */
  ghost predicate LocksMoved(s: State, s': State, t: Tid)
    requires t in s.ts && t in s'.ts
  {
    forall w | w in s.ws :: w in s'.ws &&
      (if Holding(s.ts[t].pc, w) == Holding(s'.ts[t].pc, w) then s'.ws[w].lock == s.ws[w].lock
       else if Holding(s'.ts[t].pc, w) then s.ws[w].lock == None && s'.ws[w].lock == Some(t)
       else s'.ws[w].lock == None)
  }

  lemma LockChanges(s: State, s': State, t: Tid)
    requires t in s.ts && ThreadOk(s, t) && Lock(s, s', t)
    ensures LocksOnly(s, s', t) && LocksMoved(s, s', t)
  {
    if s.ts[t].pc.Want? {
      var op := s.ts[t].pc.op;
      var order :| IsOrder(order, |op.cases|) && s' == LockedAt(s, t, op, order);
      AllLocked(s, s', t, op, order);
    }
  }

  lemma AllLocked(s: State, s': State, t: Tid, op: Op, order: seq<int>)
    requires t in s.ts && s.ts[t].pc == Want(op) && OpOk(s, op) && IsOrder(order, |op.cases|)
    requires (forall w | w in s.ws && InOp(op, w) :: s.ws[w].lock == None) && s' == LockedAt(s, t, op, order)
    ensures LocksOnly(s, s', t) && LocksMoved(s, s', t)
  {
  }

  lemma LockThread(s: State, s': State, t: Tid)
    requires t in s.ts && ThreadOk(s, t) && Lock(s, s', t) && t in s'.ts
    ensures ThreadOk(s', t)
  {
  }

  lemma ReleaseStep(s: State, s': State, t: Tid)
    requires Inv(s) && t in s.ts && Release(s, s', t)
    ensures LocksOnly(s, s', t) && LocksInv(s') && ThreadOk(s', t)
  {
    assert ThreadOk(s, t);
    ReleaseChanges(s, s', t);
    ReleaseThread(s, s', t);
    forall u, w | u in s'.ts && w in s'.ws
      ensures LockOk(s', u, w)
    {
      assert LockOk(s, u, w) && LockOk(s, t, w);
    }
  }

  lemma ReleaseChanges(s: State, s': State, t: Tid)
    requires t in s.ts && ThreadOk(s, t) && Release(s, s', t)
    ensures LocksOnly(s, s', t) && LocksMoved(s, s', t)
  {
    if s.ts[t].pc.Unlock? {
      UnlockChanges(s, s', t);
    }
  }

  lemma UnlockChanges(s: State, s': State, t: Tid)
    requires t in s.ts && Release(s, s', t) && s.ts[t].pc.Unlock?
    ensures LocksOnly(s, s', t) && LocksMoved(s, s', t)
  {
    var op := s.ts[t].pc.op;
    assert s'.ws == SetLocks(s.ws, op, None);
    assert forall w | w in s.ws :: s'.ws[w] == if InOp(op, w) then s.ws[w].(lock := None) else s.ws[w];
    assert forall w :: Holding(s.ts[t].pc, w) == InOp(op, w) && !Holding(s'.ts[t].pc, w);
  }

  lemma ReleaseThread(s: State, s': State, t: Tid)
    requires t in s.ts && ThreadOk(s, t) && Release(s, s', t) && t in s'.ts
    ensures ThreadOk(s', t)
  {
  }

  // ---------------------------------------------------------------- the buffer

  lemma UseBufferInv(s: State, s': State, t: Tid)
    requires Inv(s) && t in s.ts && UseBuffer(s, s', t)
    ensures Inv(s')
  {
    assert ThreadOk(s, t);
    var op, i := s.ts[t].pc.op, s.ts[t].pc.order[s.ts[t].pc.o];
    var c := op.cases[i];
    UseBufferThread(s, s', t);
    WaitableFromInv(s, c.w);
    assert LockOk(s, t, c.w);
    BufferLive(s, s', t, c, i);
    RegionInv(s, s', t, c.w);
  }

  /** A step of thread t on the waitable w0, whose lock it holds and keeps. */
  ghost predicate Region(s: State, s': State, t: Tid, w0: Wid)
    requires t in s.ts
  {
    && t in s'.ts && w0 in s.ws && Holding(s.ts[t].pc, w0) && s'.ws.Keys == s.ws.Keys
    && (forall w :: Holding(s'.ts[t].pc, w) == Holding(s.ts[t].pc, w))
    && (forall w | w in s.ws && w != w0 :: s'.ws[w] == s.ws[w])
    && (s.ws[w0].closed ==> s'.ws[w0].closed) && s'.ws[w0].lock == s.ws[w0].lock
    && (forall x | HoldsWt(s.ts[t].pc, x) :: HoldsWt(s'.ts[t].pc, x))
    && (forall x :: !HoldsWt(s.ts[t].pc, x) || Closer(s'.ts[t].pc) == Closer(s.ts[t].pc))
  }

  lemma RegionInv(s: State, s': State, t: Tid, w0: Wid)
    requires Inv(s) && t in s.ts && Region(s, s', t, w0)
    requires s'.ts == s.ts[t := s'.ts[t]] && s'.wts == s.wts && s'.nextWt == s.nextWt
    requires s'.ts[t].winner == s.ts[t].winner && (forall x :: !Covers(s.ts[t].pc, x)) && !s.ts[t].pc.ClosePop?
    requires s'.ws[w0].recvq == s.ws[w0].recvq && s'.ws[w0].sendq == s.ws[w0].sendq
    requires ThreadOk(s', t) && WaitableInv(s', w0)
    ensures Inv(s')
  {
    SameLocks(s, s', t);
    forall u | u in s'.ts
      ensures ThreadOk(s', u)
    {
      if u != t {
        RegionOthers(s, s', t, w0, u);
      }
    }
    forall x | x in s'.wts
      ensures WtOk(s', x)
    {
      RegionWt(s, s', t, w0, x);
    }
    forall w | w in s'.ws
      ensures WaitableInv(s', w)
    {
      if w != w0 {
        WaitableFromInv(s, w);
        RegionLive(s, s', t, w0, w);
        WaitableFrame(s, s', w);
      }
    }
    Assemble(s');
  }

  lemma RegionWt(s: State, s': State, t: Tid, w0: Wid, x: WtId)
    requires Inv(s) && t in s.ts && Region(s, s', t, w0) && x in s.wts
    requires s'.ts == s.ts[t := s'.ts[t]] && s'.wts == s.wts && s'.nextWt == s.nextWt
    requires s'.ts[t].winner == s.ts[t].winner && (forall x :: !Covers(s.ts[t].pc, x))
    requires s'.ws[w0].recvq == s.ws[w0].recvq && s'.ws[w0].sendq == s.ws[w0].sendq
    ensures WtOk(s', x)
  {
    assert WtOk(s, x);
    WtFrame(s, s', x);
  }

  lemma RegionLive(s: State, s': State, t: Tid, w0: Wid, w: Wid)
    requires LocksInv(s) && t in s.ts && Region(s, s', t, w0) && w in s.ws && w != w0
    requires s'.ts == s.ts[t := s'.ts[t]] && s'.wts == s.wts && s'.ts[t].winner == s.ts[t].winner
             && !s.ts[t].pc.ClosePop?
    ensures KeepsLive(s, s', w)
  {
  }

  /** A step of thread t on a waitable whose lock it holds does not concern another thread. */
  lemma RegionOthers(s: State, s': State, t: Tid, w0: Wid, u: Tid)
    requires Inv(s) && t in s.ts && u in s.ts && t != u && u in s'.ts && s'.ts[u] == s.ts[u]
    requires Region(s, s', t, w0) && KeepsWts(s, s', u)
    ensures ThreadOk(s', u)
  {
    assert ThreadOk(s, u);
    HoldersApart(s, t, u, w0);
    ThreadFrame(s, s', u);
  }

  /** A step that neither takes nor gives back a lock. */
  lemma SameLocks(s: State, s': State, t: Tid)
    requires LocksInv(s) && t in s.ts && s'.ts.Keys == s.ts.Keys && s'.ws.Keys == s.ws.Keys
    requires forall w | w in s.ws :: s'.ws[w].lock == s.ws[w].lock
    requires forall u, w | u in s.ts && w in s.ws :: Holding(s'.ts[u].pc, w) == Holding(s.ts[u].pc, w)
    ensures LocksInv(s')
  {
    forall u, w | u in s'.ts && w in s'.ws
      ensures LockOk(s', u, w)
    {
      assert u in s.ts.Keys && w in s.ws.Keys;
      assert LockOk(s, u, w);
    }
    forall w | w in s'.ws
      ensures s'.ws[w].lock.Some? ==> s'.ws[w].lock.value in s'.ts
    {
      assert w in s.ws.Keys;
      assert s.ws[w].lock.Some? ==> s.ws[w].lock.value in s'.ts.Keys;
    }
  }

  lemma UseBufferThread(s: State, s': State, t: Tid)
    requires t in s.ts && ThreadOk(s, t) && UseBuffer(s, s', t) && t in s'.ts
    ensures ThreadOk(s', t)
  {
  }

  /** Nobody queued on the waitable could be woken by the token that goes in or out. */
  lemma BufferLive(s: State, s': State, t: Tid, c: Case, i: int)
    requires t in s.ts && ThreadOk(s, t) && UseBuffer(s, s', t) && s.ts[t].pc.Buffer?
    requires 0 <= s.ts[t].pc.o < |s.ts[t].pc.order| && i == s.ts[t].pc.order[s.ts[t].pc.o]
             && 0 <= i < |s.ts[t].pc.op.cases| && c == s.ts[t].pc.op.cases[i]
    requires c.w in s.ws && c.w in s'.ws && s.ws[c.w].lock == Some(t) && WaitableInv(s, c.w)
    ensures WaitableInv(s', c.w)
  {
    forall send
      ensures QueueOk(s', c.w, send)
    {
      assert QueueOk(s, c.w, send);
    }
    forall send, x
      ensures LiveOk(s', c.w, send, x)
    {
      assert LiveOk(s, c.w, send, x);
    }
    forall x, y
      ensures PairOk(s', c.w, x, y)
    {
      assert PairOk(s, c.w, x, y);
    }
  }

  lemma CloseMarkInv(s: State, s': State, t: Tid)
    requires Inv(s) && t in s.ts && Finish(s, s', t) && s.ts[t].pc.CloseMark?
    ensures Inv(s')
  {
    assert ThreadOk(s, t);
    var w := s.ts[t].pc.w;
    WaitableFromInv(s, w);
    assert LockOk(s, t, w);
    CloseMarkLive(s, s', t, w);
    RegionInv(s, s', t, w);
  }

  /** From now on it is the closing thread's task to empty the queues. */
  lemma CloseMarkLive(s: State, s': State, t: Tid, w: Wid)
    requires t in s.ts && ThreadOk(s, t) && Finish(s, s', t) && s.ts[t].pc == CloseMark(w) && WaitableInv(s, w)
             && s.ws[w].lock == Some(t)
    ensures t in s'.ts && ThreadOk(s', t) && WaitableInv(s', w)
  {
    forall send
      ensures QueueOk(s', w, send)
    {
      assert QueueOk(s, w, send);
    }
    forall send, x
      ensures LiveOk(s', w, send, x)
    {
      assert LiveOk(s, w, send, x);
    }
    forall x, y
      ensures PairOk(s', w, x, y)
    {
      assert PairOk(s, w, x, y);
    }
  }

  // ---------------------------------------------------------------- taking a descriptor off a queue

  /** What popping does to the waitable. */
  lemma PopFacts(s: State, t: Tid, c: Case, x: WtId)
    requires Inv(s) && CanPop(s, t, c, x)
    ensures Holding(s.ts[t].pc, c.w) && s.ws[c.w].lock == Some(t)
    ensures s.wts[x].place == Queued && s.wts[x].cs == c && WtOk(s, x) && Covers(s.ts[s.wts[x].thread].pc, x)
    ensures s.wts[x].thread != t && !Holding(s.ts[s.wts[x].thread].pc, c.w)
    ensures forall y :: !Covers(s.ts[t].pc, y)
  {
    assert ThreadOk(s, t) && QueueOk(s, c.w, c.send) && WtOk(s, x);
    assert Holding(s.ts[t].pc, c.w) by {
      if s.ts[t].pc.Pop? {
        assert InOp(s.ts[t].pc.op, c.w);
      }
    }
    assert LockOk(s, t, c.w);
    HoldersApart(s, t, s.wts[x].thread, c.w);
  }

  /** The thread of a descriptor that can be popped is parked or already awake. */
  lemma PoppedIsParked(s: State, t: Tid, c: Case, x: WtId)
    requires Inv(s) && CanPop(s, t, c, x)
    ensures var u := s.ts[s.wts[x].thread];
            && (u.pc.Parked? || u.pc.Awake?)
            && (Stale(s, x) ==> u.winner.Some?)
            && (!Stale(s, x) ==> u.pc.Parked? && u.winner == None && u.commits == [] && !u.selectDone)
  {
    PopFacts(s, t, c, x);
    CoveredIsLocked(s, x);
  }

  /** A thread that has not parked yet still holds the locks of the waitables it queues itself on. */
  lemma CoveredIsLocked(s: State, x: WtId)
    requires Inv(s) && x in s.wts && s.wts[x].thread in s.ts && Covers(s.ts[s.wts[x].thread].pc, x)
    ensures var u := s.ts[s.wts[x].thread];
            && (u.pc.Parked? || u.pc.Awake? || Holding(u.pc, s.wts[x].cs.w))
            && (u.pc.Parked? || u.pc.Awake? ==> u.selectDone == (u.winner.Some? && s.wts[x].isSelect))
            && (u.pc.Parked? && u.winner == None ==> u.commits == [])
            && (u.pc.Parked? && u.winner.Some? && !s.wts[x].isSelect ==> u.winner == Some(x))
            && (u.pc.Awake? ==> u.winner.Some? && (!s.wts[x].isSelect ==> u.winner == Some(x)))
  {
    var v := s.wts[x].thread;
    assert ThreadOk(s, v);
    var pc := s.ts[v].pc;
    if pc.Enqueue? {
      assert s.wts[x].cs == pc.op.cases[x - pc.base];
      assert InOp(pc.op, s.wts[x].cs.w);
    } else if pc.Unlock? {
      assert s.wts[x].cs == pc.op.cases[x - pc.after.base];
      assert InOp(pc.op, s.wts[x].cs.w);
    }
  }

  lemma PoppedQueue(s: State, s': State, c: Case, x: WtId, send: bool)
    requires c.w in s.ws && c.w in s'.ws && QueueOk(s, c.w, send) && Queue(s.ws[c.w], c.send) != []
             && x == Queue(s.ws[c.w], c.send)[0]
    requires QueueOk(s, c.w, c.send)
    requires Queue(s'.ws[c.w], send) == if send == c.send then Queue(s.ws[c.w], send)[1..] else Queue(s.ws[c.w], send)
    requires forall y | y in s.wts && y != x :: y in s'.wts && s'.wts[y] == s.wts[y]
    ensures QueueOk(s', c.w, send)
  {
    var q := Queue(s.ws[c.w], send);
    if send == c.send {
      forall y | y in q[1..]
        ensures y in q && y != x
      {
      }
    } else {
      assert x in Queue(s.ws[c.w], c.send);
    }
  }

  lemma PopStaleInv(s: State, s': State, t: Tid, c: Case, x: WtId)
    requires Inv(s) && PopStale(s, s', t, c, x)
    ensures Inv(s')
  {
    PopFacts(s, t, c, x);
    PoppedIsParked(s, t, c, x);
    assert ThreadOk(s, t);
    SameLocks(s, s', t);
    PopStaleThread(s, s', t, c, x);
    forall u | u in s'.ts
      ensures ThreadOk(s', u)
    {
      if u != t {
        PopStaleOthers(s, s', t, c, x, u);
      }
    }
    forall y | y in s'.wts
      ensures WtOk(s', y)
    {
      assert WtOk(s, y);
      PopStaleWt(s, s', t, c, x, y);
    }
    forall w | w in s'.ws
      ensures WaitableInv(s', w)
    {
      PopStaleWaitable(s, s', t, c, x, w);
    }
    Assemble(s');
  }

  lemma PopStaleOthers(s: State, s': State, t: Tid, c: Case, x: WtId, u: Tid)
    requires Inv(s) && PopStale(s, s', t, c, x) && u in s.ts && u != t && Holding(s.ts[t].pc, c.w)
    requires s.wts[x].place == Queued && s.ts[s.wts[x].thread].winner.Some?
    ensures ThreadOk(s', u)
  {
    RegionOthers(s, s', t, c.w, u);
  }

  lemma PopStaleWaitable(s: State, s': State, t: Tid, c: Case, x: WtId, w: Wid)
    requires Inv(s) && PopStale(s, s', t, c, x) && w in s.ws && s.wts[x].cs == c
    ensures WaitableInv(s', w)
  {
    WaitableFromInv(s, w);
    if w == c.w {
      PopStaleLive(s, s', t, c, x);
    } else {
      WaitableFrame(s, s', w);
    }
  }

  lemma PopStaleWt(s: State, s': State, t: Tid, c: Case, x: WtId, y: WtId)
    requires PopStale(s, s', t, c, x) && y in s.wts && WtOk(s, y)
    ensures WtOk(s', y)
  {
    if y != x {
      PoppedMembers(s, s', c, x, y);
      WtFrame(s, s', y);
    }
  }

  lemma PoppedMembers(s: State, s': State, c: Case, x: WtId, y: WtId)
    requires c.w in s.ws && c.w in s'.ws && Queue(s.ws[c.w], c.send) != [] && x == Queue(s.ws[c.w], c.send)[0] && y != x
    requires s'.ws == PopQueue(s, c)
             || (s'.ws.Keys == s.ws.Keys && (forall w | w in s.ws && w != c.w :: s'.ws[w] == s.ws[w])
               && Queue(s'.ws[c.w], c.send) == Queue(s.ws[c.w], c.send)[1..]
                   && Queue(s'.ws[c.w], !c.send) == Queue(s.ws[c.w], !c.send))
    ensures forall w, send | w in s.ws && y in Queue(s.ws[w], send) :: w in s'.ws && y in Queue(s'.ws[w], send)
  {
    var q := Queue(s.ws[c.w], c.send);
    assert q == [x] + q[1..];
    forall w, send | w in s.ws && y in Queue(s.ws[w], send)
      ensures w in s'.ws && y in Queue(s'.ws[w], send)
    {
      if w == c.w && send == c.send {
        assert y in q[1..];
      }
    }
  }

  lemma PopStaleThread(s: State, s': State, t: Tid, c: Case, x: WtId)
    requires PopStale(s, s', t, c, x) && ThreadOk(s, t) && s.wts[x].place == Queued
    ensures ThreadOk(s', t)
  {
    if s.ts[t].pc.Pop? {
      var op, order, o := s.ts[t].pc.op, s.ts[t].pc.order, s.ts[t].pc.o;
      forall j {:trigger order[j]} | 0 <= j < o
        ensures var d := op.cases[order[j]]; BarrenCase(s', d) && Queue(s'.ws[d.w], !d.send) == []
      {
        var d := op.cases[order[j]];
        assert BarrenCase(s, d) && Queue(s.ws[d.w], !d.send) == [];
      }
    }
  }

  lemma PopStaleLive(s: State, s': State, t: Tid, c: Case, x: WtId)
    requires PopStale(s, s', t, c, x) && WaitableInv(s, c.w)
    ensures WaitableInv(s', c.w)
  {
    var q := Queue(s.ws[c.w], c.send);
    assert q == [x] + q[1..];
    forall send
      ensures QueueOk(s', c.w, send)
    {
      assert QueueOk(s, c.w, send) && QueueOk(s, c.w, c.send);
      PoppedQueue(s, s', c, x, send);
    }
    LiveFrame(s, s', c.w);
  }

  /** What PopWin does to threads and descriptors, besides the program counter of the thread that pops. */
  ghost predicate WonThreads(s: State, s': State, t: Tid, x: WtId)
    requires t in s.ts && x in s.wts && s.wts[x].thread in s.ts && s.ts[s.wts[x].thread].pc.Parked?
  {
    var u, closing := s.wts[x].thread, s.ts[t].pc.ClosePop?;
    && t != u && s'.ts.Keys == s.ts.Keys && s'.nextWt == s.nextWt
    && s'.wts == s.wts[x := s.wts[x].(place := Held(t))]
    && (forall v | v in s.ts && v != t && v != u :: s'.ts[v] == s.ts[v])
    && s'.ts[u] == s.ts[u].(winner := Some(x), selectDone := s.wts[x].isSelect,
                            commits := if closing then [] else [x - s.ts[u].pc.base])
    && s'.ts[t] == s.ts[t].(pc := s'.ts[t].pc, commits := s'.ts[t].commits)
    && WonPc(s.ts[t].pc, s'.ts[t].pc, x)
  }

  /** What PopWin does to the program counter of the thread that pops. */
  ghost predicate WonPc(pc: Pc, pc': Pc, x: WtId) {
    && HoldsWt(pc', x) && Closer(pc') == pc.ClosePop?
    && (forall y | HoldsWt(pc, y) :: HoldsWt(pc', y))
    && (forall w :: Holding(pc', w) == Holding(pc, w))
    && (pc.ClosePop? ==> pc'.ClosePop? && pc'.w == pc.w && pc'.sending == pc.sending)
  }

  /** What PopWin does to the waitables. */
  ghost predicate WonQueue(s: State, s': State, c: Case, closing: bool)
    requires c.w in s.ws && Queue(s.ws[c.w], c.send) != []
  {
    && s'.ws.Keys == s.ws.Keys && (forall w | w in s.ws && w != c.w :: s'.ws[w] == s.ws[w])
    && var w, w' := s.ws[c.w], s'.ws[c.w];
    && w' == SetQueue(w, c.send, Queue(w, c.send)[1..]).(sends := w'.sends, waits := w'.waits)
    && w'.sends == (if closing then w.sends else w.sends + 1) && w'.waits == (if closing then w.waits else w.waits + 1)
  }

  ghost predicate Won(s: State, s': State, t: Tid, c: Case, x: WtId)
    requires CanPop(s, t, c, x) && s.ts[s.wts[x].thread].pc.Parked?
  {
    WonThreads(s, s', t, x) && WonQueue(s, s', c, s.ts[t].pc.ClosePop?)
  }

  lemma PopWinFacts(s: State, s': State, t: Tid, c: Case, x: WtId)
    requires PopWin(s, s', t, c, x) && ThreadOk(s, t) && s.wts[x].thread != t
    requires s.ts[s.wts[x].thread].pc.Parked? && s.ts[s.wts[x].thread].commits == []
    ensures Won(s, s', t, c, x)
  {
    PopWinQueue(s, s', t, c, x);
    if s.ts[t].pc.Pop? {
      WonByPop(s, s', t, c, x);
    } else {
      WonByClose(s, s', t, c, x);
    }
  }

  lemma PopWinQueue(s: State, s': State, t: Tid, c: Case, x: WtId)
    requires PopWin(s, s', t, c, x)
    ensures WonQueue(s, s', c, s.ts[t].pc.ClosePop?)
  {
  }

  lemma WonByPop(s: State, s': State, t: Tid, c: Case, x: WtId)
    requires PopWin(s, s', t, c, x) && s.ts[t].pc.Pop? && s.ts[t].pc.o < |s.ts[t].pc.order| && s.wts[x].thread != t
    requires s.ts[s.wts[x].thread].pc.Parked? && s.ts[s.wts[x].thread].commits == []
    ensures WonThreads(s, s', t, x)
  {
    var pc := s.ts[t].pc;
    var pc' := Unlock(pc.op, ToWake(x, pc.order[pc.o]));
    assert WonPc(pc, pc', x);
    assert s'.ts[t].pc == pc';
  }

  lemma WonByClose(s: State, s': State, t: Tid, c: Case, x: WtId)
    requires PopWin(s, s', t, c, x) && s.ts[t].pc.ClosePop? && s.wts[x].thread != t
    requires s.ts[s.wts[x].thread].pc.Parked? && s.ts[s.wts[x].thread].commits == []
    ensures WonThreads(s, s', t, x)
  {
    var pc := s.ts[t].pc;
    var pc' := ClosePop(pc.w, pc.sending, [x] + pc.list);
    assert WonPc(pc, pc', x);
    assert s'.ts[t].pc == pc';
  }

  lemma PopWinThread(s: State, s': State, t: Tid, c: Case, x: WtId)
    requires PopWin(s, s', t, c, x) && ThreadOk(s, t) && s.wts[x].place == Queued && s.wts[x].thread != t
             && c.w in s'.ws
    ensures ThreadOk(s', t)
  {
    if s.ts[t].pc.ClosePop? {
      var list := s.ts[t].pc.list;
      assert forall y | y in list :: HeldBy(s, y, t);
      assert x !in list;
      assert s'.ts[t].pc == ClosePop(s.ts[t].pc.w, s.ts[t].pc.sending, [x] + list);
      forall y | y in [x] + list
        ensures HeldBy(s', y, t)
      {
        assert y == x || y in list;
      }
    }
  }

  lemma PopWinInv(s: State, s': State, t: Tid, c: Case, x: WtId)
    requires Inv(s) && PopWin(s, s', t, c, x)
    ensures Inv(s')
  {
    PopFacts(s, t, c, x);
    PoppedIsParked(s, t, c, x);
    assert ThreadOk(s, t);
    PopWinFacts(s, s', t, c, x);
    PopWinThread(s, s', t, c, x);
    WonInv(s, s', t, c, x);
  }

  lemma WonInv(s: State, s': State, t: Tid, c: Case, x: WtId)
    requires Inv(s) && CanPop(s, t, c, x) && s.ts[s.wts[x].thread].pc.Parked? && Won(s, s', t, c, x) && ThreadOk(s', t)
    requires s.ts[s.wts[x].thread].winner == None
    ensures Inv(s')
  {
    PopFacts(s, t, c, x);
    SameLocks(s, s', t);
    WonPartner(s, s', t, c, x);
    WonAllThreads(s, s', t, c, x);
    WonAllWts(s, s', t, c, x);
    forall w | w in s'.ws
      ensures WaitableInv(s', w)
    {
      WonWaitable(s, s', t, c, x, w);
    }
    Assemble(s');
  }

  lemma WonAllThreads(s: State, s': State, t: Tid, c: Case, x: WtId)
    requires Inv(s) && CanPop(s, t, c, x) && s.ts[s.wts[x].thread].pc.Parked? && Won(s, s', t, c, x)
    requires s.wts[x].place == Queued && Holding(s.ts[t].pc, c.w)
    requires ThreadOk(s', t) && ThreadOk(s', s.wts[x].thread)
    ensures forall v {:trigger ThreadOk(s', v)} | v in s'.ts :: ThreadOk(s', v)
  {
    forall v | v in s'.ts
      ensures ThreadOk(s', v)
    {
      WonThread(s, s', t, c, x, v);
    }
  }

  lemma WonAllWts(s: State, s': State, t: Tid, c: Case, x: WtId)
    requires Inv(s) && CanPop(s, t, c, x) && s.ts[s.wts[x].thread].pc.Parked? && Won(s, s', t, c, x)
    requires s.ts[s.wts[x].thread].winner == None && (forall y :: !Covers(s.ts[t].pc, y))
             && Covers(s.ts[s.wts[x].thread].pc, x)
    requires s.wts[x].cs == c
    ensures forall y {:trigger WtOk(s', y)} | y in s'.wts :: WtOk(s', y)
  {
    forall y | y in s'.wts
      ensures WtOk(s', y)
    {
      WonWt(s, s', t, c, x, y);
    }
  }

  lemma WonThread(s: State, s': State, t: Tid, c: Case, x: WtId, v: Tid)
    requires Inv(s) && CanPop(s, t, c, x) && s.ts[s.wts[x].thread].pc.Parked? && Won(s, s', t, c, x) && v in s.ts
    requires s.wts[x].place == Queued && Holding(s.ts[t].pc, c.w)
    requires ThreadOk(s', t) && ThreadOk(s', s.wts[x].thread)
    ensures ThreadOk(s', v)
  {
    if v != t && v != s.wts[x].thread {
      RegionOthers(s, s', t, c.w, v);
    }
  }

  lemma WonWaitable(s: State, s': State, t: Tid, c: Case, x: WtId, w: Wid)
    requires Inv(s) && CanPop(s, t, c, x) && s.ts[s.wts[x].thread].pc.Parked? && Won(s, s', t, c, x) && w in s.ws
    requires s.ws[c.w].lock == Some(t) && s.wts[x].cs == c
    ensures WaitableInv(s', w)
  {
    WaitableFromInv(s, w);
    if w == c.w {
      WonLive(s, s', t, c, x);
    } else {
      WonElsewhere(s, s', t, c, x, w);
      WaitableFrame(s, s', w);
    }
  }

  lemma WonElsewhere(s: State, s': State, t: Tid, c: Case, x: WtId, w: Wid)
    requires CanPop(s, t, c, x) && s.ts[s.wts[x].thread].pc.Parked? && Won(s, s', t, c, x) && w in s.ws && w != c.w
    ensures KeepsLive(s, s', w)
  {
    forall send | Closing(s, w, send)
      ensures Closing(s', w, send)
    {
      var h := s.ws[w].lock.value;
      assert h in s'.ts.Keys && s'.ts[h] == s.ts[h];
    }
  }

  lemma WonPartner(s: State, s': State, t: Tid, c: Case, x: WtId)
    requires Inv(s) && CanPop(s, t, c, x) && s.ts[s.wts[x].thread].pc.Parked? && Won(s, s', t, c, x)
    requires Covers(s.ts[s.wts[x].thread].pc, x)
    ensures ThreadOk(s', s.wts[x].thread)
  {
    var u := s.wts[x].thread;
    assert ThreadOk(s, u);
    assert u in s'.ts.Keys;
    WonMine(s, s', u, s.ts[u].pc.op, s.ts[u].pc.base, x, t);
  }

  lemma WonMine(s: State, s': State, u: Tid, op: Op, base: nat, x: WtId, t: Tid)
    requires Mine(s, u, op, base) && s'.nextWt == s.nextWt && x in s.wts
             && s'.wts == s.wts[x := s.wts[x].(place := Held(t))]
    ensures Mine(s', u, op, base)
  {
  }

  lemma WonWt(s: State, s': State, t: Tid, c: Case, x: WtId, y: WtId)
    requires Inv(s) && CanPop(s, t, c, x) && s.ts[s.wts[x].thread].pc.Parked? && Won(s, s', t, c, x) && y in s.wts
    requires s.ts[s.wts[x].thread].winner == None && (forall y :: !Covers(s.ts[t].pc, y))
             && Covers(s.ts[s.wts[x].thread].pc, x)
    requires s.wts[x].cs == c
    ensures WtOk(s', y)
  {
    assert WtOk(s, y);
    if y == x {
      assert ThreadOk(s, t);
      var u' := s'.ts[s.wts[x].thread];
      if s.ts[t].pc.ClosePop? {
        assert s'.ws[c.w].closed;
        assert u'.commits == [];
      } else {
        assert u'.commits == [x - u'.pc.base];
      }
      assert s'.wts[y].thread == s.wts[x].thread && s'.wts[y].place == Held(t) && s'.wts[y].cs == c;
    } else {
      PoppedMembers(s, s', c, x, y);
      WtFrame(s, s', y);
    }
  }

  lemma WonLive(s: State, s': State, t: Tid, c: Case, x: WtId)
    requires CanPop(s, t, c, x) && s.ts[s.wts[x].thread].pc.Parked? && Won(s, s', t, c, x) && WaitableInv(s, c.w)
    requires s.ws[c.w].lock == Some(t)
    ensures WaitableInv(s', c.w)
  {
    var q := Queue(s.ws[c.w], c.send);
    assert q == [x] + q[1..];
    forall send
      ensures QueueOk(s', c.w, send)
    {
      assert QueueOk(s, c.w, send) && QueueOk(s, c.w, c.send);
      PoppedQueue(s, s', c, x, send);
    }
    WonKeepsLive(s, s', t, c, x);
    LiveFrame(s, s', c.w);
  }

  lemma WonKeepsLive(s: State, s': State, t: Tid, c: Case, x: WtId)
    requires CanPop(s, t, c, x) && s.ts[s.wts[x].thread].pc.Parked? && Won(s, s', t, c, x) && WaitableInv(s, c.w)
    requires s.ws[c.w].lock == Some(t)
    ensures KeepsLive(s, s', c.w)
  {
    var q := Queue(s.ws[c.w], c.send);
    assert q == [x] + q[1..];
    assert QueueOk(s, c.w, c.send) && QueueOk(s, c.w, !c.send);
  }

  // ---------------------------------------------------------------- queueing

  lemma JoinInv(s: State, s': State, t: Tid)
    requires Inv(s) && t in s.ts && Join(s, s', t)
    ensures Inv(s')
  {
    if s.ts[t].pc.Barren? {
      PrepareInv(s, s', t);
    } else {
      EnqueueInv(s, s', t);
    }
  }

  /** What making descriptors does. */
  ghost predicate Prepared(s: State, s': State, t: Tid)
    requires t in s.ts
  {
    && t in s'.ts && s'.ts == s.ts[t := s.ts[t].(pc := s'.ts[t].pc)] && s'.ws == s.ws && s'.nextWt >= s.nextWt
    && (forall x | x in s.wts :: x in s'.wts && s'.wts[x] == s.wts[x])
    && (forall x | x in s'.wts && x !in s.wts ::
        x < s'.nextWt && s'.wts[x].place == Gone && s'.wts[x].thread == t
        && s'.wts[x].cs.w in s.ws)
    && (forall y :: !Covers(s.ts[t].pc, y) && !HoldsWt(s.ts[t].pc, y))
    && (forall w :: Holding(s'.ts[t].pc, w) == Holding(s.ts[t].pc, w)) && !s.ts[t].pc.ClosePop?
  }

  lemma PrepareInv(s: State, s': State, t: Tid)
    requires Inv(s) && t in s.ts && Join(s, s', t) && s.ts[t].pc.Barren?
    ensures Inv(s')
  {
    assert ThreadOk(s, t);
    forall x | x in s.wts
      ensures x < s.nextWt
    {
      assert WtOk(s, x);
    }
    PrepareFacts(s, s', t);
    PrepareThread(s, s', t);
    PreparedInv(s, s', t);
  }

  lemma PrepareFacts(s: State, s': State, t: Tid)
    requires t in s.ts && ThreadOk(s, t) && Join(s, s', t) && s.ts[t].pc.Barren?
    requires forall x | x in s.wts :: x < s.nextWt
    ensures Prepared(s, s', t)
  {
  }

  lemma PreparedInv(s: State, s': State, t: Tid)
    requires Inv(s) && t in s.ts && Prepared(s, s', t) && ThreadOk(s', t)
    ensures Inv(s')
  {
    SameLocks(s, s', t);
    forall u | u in s'.ts
      ensures ThreadOk(s', u)
    {
      if u != t {
        PreparedThread(s, s', t, u);
      }
    }
    forall x | x in s'.wts
      ensures WtOk(s', x)
    {
      if x in s.wts {
        PreparedWt(s, s', t, x);
      }
    }
    forall w | w in s'.ws
      ensures WaitableInv(s', w)
    {
      PreparedWaitable(s, s', t, w);
    }
    Assemble(s');
  }

  lemma PreparedThread(s: State, s': State, t: Tid, u: Tid)
    requires Inv(s) && t in s.ts && Prepared(s, s', t) && u in s.ts && u != t
    ensures ThreadOk(s', u)
  {
    assert ThreadOk(s, u);
    ThreadFrame(s, s', u);
  }

  lemma PreparedWt(s: State, s': State, t: Tid, x: WtId)
    requires Inv(s) && t in s.ts && Prepared(s, s', t) && x in s.wts
    ensures x in s'.wts && WtOk(s', x)
  {
    assert WtOk(s, x);
    WtFrame(s, s', x);
  }

  lemma PrepareThread(s: State, s': State, t: Tid)
    requires t in s.ts && ThreadOk(s, t) && Join(s, s', t) && s.ts[t].pc.Barren? && Prepared(s, s', t)
    ensures ThreadOk(s', t)
  {
    var op := s.ts[t].pc.op;
    BarrenFrame(s, s', t, op);
    PrepareMine(s, s', t, op);
    if |op.cases| > 0 {
      PrepareEnqueue(s, s', t, op);
    }
  }

  lemma PrepareMine(s: State, s': State, t: Tid, op: Op)
    requires t in s.ts && Join(s, s', t) && s.ts[t].pc == Barren(op)
    ensures Mine(s', t, op, s.nextWt) && forall x | s.nextWt <= x < s.nextWt + |op.cases| ::
            x in s'.wts
            && s'.wts[x].place == Gone
  {
  }

  lemma PrepareEnqueue(s: State, s': State, t: Tid, op: Op)
    requires t in s.ts && ThreadOk(s, t) && Join(s, s', t) && s.ts[t].pc == Barren(op) && |op.cases| > 0 && t in s'.ts
    requires Mine(s', t, op, s.nextWt) && forall x | s.nextWt <= x < s.nextWt + |op.cases| ::
             x in s'.wts
             && s'.wts[x].place == Gone
    requires OpOk(s', op) && AllBarren(s', op) && AllLonely(s', op, t)
    ensures ThreadOk(s', t)
  {
    var order := s'.ts[t].pc.order;
    assert s'.ts[t].pc == Enqueue(op, s.nextWt, order, 0);
    assert EnqueueOk(s', t, op, s.nextWt, order, 0);
  }

  lemma PreparedWaitable(s: State, s': State, t: Tid, w: Wid)
    requires Inv(s) && t in s.ts && Prepared(s, s', t) && w in s.ws
    ensures WaitableInv(s', w)
  {
    WaitableFromInv(s, w);
    assert QueueOk(s, w, true) && QueueOk(s, w, false);
    WaitableFrame(s, s', w);
  }

  /** What joining one queue does. */
  ghost predicate Joined(s: State, s': State, t: Tid, c: Case, x: WtId)
    requires t in s.ts
  {
    && t in s'.ts && s'.ts == s.ts[t := s.ts[t].(pc := s'.ts[t].pc)] && s'.nextWt == s.nextWt
    && c.w in s.ws && s'.ws == s.ws[c.w := SetQueue(s.ws[c.w], c.send, Queue(s.ws[c.w], c.send) + [x])]
    && x in s.wts && s'.wts == s.wts[x := s.wts[x].(place := Queued)]
    && s.wts[x].place == Gone && s.wts[x].thread == t && s.wts[x].cs == c
    && (forall y | Covers(s.ts[t].pc, y) :: Covers(s'.ts[t].pc, y)) && Covers(s.ts[t].pc, x)
    && (forall y :: !HoldsWt(s.ts[t].pc, y))
    && (forall w :: Holding(s'.ts[t].pc, w) == Holding(s.ts[t].pc, w)) && Holding(s.ts[t].pc, c.w)
    && BarrenCase(s, c) && Lonely(s, c, t) && s.ts[t].winner == None
    && !s.ts[t].pc.ClosePop?
  }

  lemma EnqueueFacts(s: State, s': State, t: Tid)
    requires t in s.ts && ThreadOk(s, t) && Join(s, s', t) && s.ts[t].pc.Enqueue?
    ensures var pc := s.ts[t].pc;
            && 0 <= pc.order[pc.o] < |pc.op.cases|
            && Joined(s, s', t, pc.op.cases[pc.order[pc.o]], pc.base + pc.order[pc.o])
  {
    var pc := s.ts[t].pc;
    assert InOp(pc.op, pc.op.cases[pc.order[pc.o]].w);
  }

  lemma EnqueueInv(s: State, s': State, t: Tid)
    requires Inv(s) && t in s.ts && Join(s, s', t) && s.ts[t].pc.Enqueue?
    ensures Inv(s')
  {
    assert ThreadOk(s, t);
    EnqueueFacts(s, s', t);
    EnqueueThread(s, s', t);
    var pc := s.ts[t].pc;
    JoinedInv(s, s', t, pc.op.cases[pc.order[pc.o]], pc.base + pc.order[pc.o]);
  }

  lemma EnqueueThread(s: State, s': State, t: Tid)
    requires t in s.ts && ThreadOk(s, t) && Join(s, s', t) && s.ts[t].pc.Enqueue? && t in s'.ts
    requires var pc := s.ts[t].pc;
             && 0 <= pc.order[pc.o] < |pc.op.cases|
             && Joined(s, s', t, pc.op.cases[pc.order[pc.o]], pc.base + pc.order[pc.o])
    ensures ThreadOk(s', t)
  {
    var pc := s.ts[t].pc;
    if pc.o + 1 == |pc.order| {
      assert s'.ts[t].pc == Unlock(pc.op, ToPark(pc.base));
    } else {
      assert s'.ts[t].pc == Enqueue(pc.op, pc.base, pc.order, pc.o + 1);
    }
    EnqueuedOne(s, s', t, pc.op, pc.base, pc.order, pc.o);
  }

  lemma EnqueuedOne(s: State, s': State, t: Tid, op: Op, base: nat, order: seq<int>, o: nat)
    requires t in s.ts && Fresh(s.ts[t]) && OpOk(s, op) && EnqueueOk(s, t, op, base, order, o) && t in s'.ts
    requires 0 <= order[o] < |op.cases| && Joined(s, s', t, op.cases[order[o]], base + order[o])
    requires s'.ts[t].pc == if o + 1 == |order| then Unlock(op, ToPark(base)) else Enqueue(op, base, order, o + 1)
    ensures ThreadOk(s', t)
  {
    JoinedBarren(s, s', t, op, order[o], base);
    JoinedPlaces(s, s', op, base, order, o);
    JoinedMine(s, s', t, op, base, order[o]);
    if o + 1 == |order| {
      AllPlaced(s', op, base, order);
      LastJoined(s', t, op, base);
    } else {
      MoreToJoin(s', t, op, base, order, o + 1);
    }
  }

  lemma JoinedMine(s: State, s': State, t: Tid, op: Op, base: nat, i: int)
    requires Mine(s, t, op, base) && s'.nextWt == s.nextWt && base + i in s.wts
             && s'.wts == s.wts[base + i := s.wts[base + i].(place := Queued)]
    ensures Mine(s', t, op, base)
  {
  }

  lemma LastJoined(s: State, t: Tid, op: Op, base: nat)
    requires t in s.ts && s.ts[t].pc == Unlock(op, ToPark(base)) && Fresh(s.ts[t]) && OpOk(s, op) && op.block
             && Mine(s, t, op, base)
    requires forall x | base <= x < base + |op.cases| :: x in s.wts && s.wts[x].place == Queued
    ensures ThreadOk(s, t)
  {
  }

  lemma MoreToJoin(s: State, t: Tid, op: Op, base: nat, order: seq<int>, o: nat)
    requires t in s.ts && s.ts[t].pc == Enqueue(op, base, order, o) && Fresh(s.ts[t]) && OpOk(s, op) && op.block
             && Mine(s, t, op, base)
    requires IsOrder(order, |op.cases|) && o < |order| && AllBarren(s, op) && AllLonely(s, op, t)
    requires forall k | 0 <= k < |order| ::
             base + order[k] in s.wts
             && s.wts[base + order[k]].place == if k < o then Queued else Gone
    ensures ThreadOk(s, t)
  {
  }

  lemma JoinedBarren(s: State, s': State, t: Tid, op: Op, i: int, base: nat)
    requires t in s.ts && OpOk(s, op) && 0 <= i < |op.cases| && Joined(s, s', t, op.cases[i], base + i)
    requires AllBarren(s, op) && AllLonely(s, op, t)
    ensures OpOk(s', op) && AllBarren(s', op) && AllLonely(s', op, t)
  {
    forall j | 0 <= j < |op.cases|
      ensures BarrenCase(s', op.cases[j]) && Lonely(s', op.cases[j], t)
    {
      assert BarrenCase(s, op.cases[j]) && Lonely(s, op.cases[j], t);
    }
  }

  lemma JoinedPlaces(s: State, s': State, op: Op, base: nat, order: seq<int>, o: nat)
    requires IsOrder(order, |op.cases|) && o < |order|
    requires forall k | 0 <= k < |order| ::
             base + order[k] in s.wts
             && s.wts[base + order[k]].place == if k < o then Queued else Gone
    requires s'.wts == s.wts[base + order[o] := s.wts[base + order[o]].(place := Queued)]
    ensures forall k | 0 <= k < |order| ::
            base + order[k] in s'.wts
            && s'.wts[base + order[k]].place == if k < o + 1 then Queued else Gone
  {
    forall k | 0 <= k < |order|
      ensures base + order[k] in s'.wts && s'.wts[base + order[k]].place == if k < o + 1 then Queued else Gone
    {
      assert k != o ==> order[k] != order[o];
    }
  }

  lemma AllPlaced(s: State, op: Op, base: nat, order: seq<int>)
    requires IsOrder(order, |op.cases|)
    requires forall k | 0 <= k < |order| :: base + order[k] in s.wts && s.wts[base + order[k]].place == Queued
    ensures forall x | base <= x < base + |op.cases| :: x in s.wts && s.wts[x].place == Queued
  {
    forall x | base <= x < base + |op.cases|
      ensures x in s.wts && s.wts[x].place == Queued
    {
      assert x - base in order;
      var k :| 0 <= k < |order| && order[k] == x - base;
      assert base + order[k] in s.wts;
    }
  }

  lemma JoinedInv(s: State, s': State, t: Tid, c: Case, x: WtId)
    requires Inv(s) && t in s.ts && Joined(s, s', t, c, x) && ThreadOk(s', t)
    ensures Inv(s')
  {
    SameLocks(s, s', t);
    forall u | u in s'.ts
      ensures ThreadOk(s', u)
    {
      if u != t {
        JoinedOthers(s, s', t, c, x, u);
      }
    }
    forall y | y in s'.wts
      ensures WtOk(s', y)
    {
      JoinedWt(s, s', t, c, x, y);
    }
    forall w | w in s'.ws
      ensures WaitableInv(s', w)
    {
      JoinedWaitable(s, s', t, c, x, w);
    }
    Assemble(s');
  }

  lemma JoinedOthers(s: State, s': State, t: Tid, c: Case, x: WtId, u: Tid)
    requires Inv(s) && t in s.ts && Joined(s, s', t, c, x) && u in s.ts && u != t
    ensures ThreadOk(s', u)
  {
    RegionOthers(s, s', t, c.w, u);
  }

  lemma JoinedWt(s: State, s': State, t: Tid, c: Case, x: WtId, y: WtId)
    requires Inv(s) && t in s.ts && Joined(s, s', t, c, x) && y in s.wts
    ensures WtOk(s', y)
  {
    assert WtOk(s, y);
    if y == x {
      assert x in Queue(s'.ws[c.w], c.send);
    } else {
      WtFrame(s, s', y);
    }
  }

  lemma JoinedWaitable(s: State, s': State, t: Tid, c: Case, x: WtId, w: Wid)
    requires Inv(s) && t in s.ts && Joined(s, s', t, c, x) && w in s.ws
    ensures WaitableInv(s', w)
  {
    WaitableFromInv(s, w);
    if w == c.w {
      JoinedLive(s, s', t, c, x);
    } else {
      WaitableFrame(s, s', w);
    }
  }

  /** The new descriptor is alone with others of its thread, and waits for something that is not there. */
  lemma JoinedLive(s: State, s': State, t: Tid, c: Case, x: WtId)
    requires t in s.ts && Joined(s, s', t, c, x) && WaitableInv(s, c.w)
    ensures WaitableInv(s', c.w)
  {
    forall send
      ensures QueueOk(s', c.w, send)
    {
      assert QueueOk(s, c.w, send);
    }
    forall send, y
      ensures LiveOk(s', c.w, send, y)
    {
      assert LiveOk(s, c.w, send, y);
    }
    forall y, z
      ensures PairOk(s', c.w, y, z)
    {
      assert PairOk(s, c.w, y, z);
    }
  }

  // ---------------------------------------------------------------- waking

  /** The thread to be readied is parked, chosen through this very descriptor, and it is somebody else. */
  lemma ReadyFindsParked(s: State, t: Tid, x: WtId)
    requires Inv(s) && t in s.ts && HoldsWt(s.ts[t].pc, x)
    ensures HeldBy(s, x, t) && WtOk(s, x) && s.wts[x].thread in s.ts && s.wts[x].thread != t
    ensures s.ts[s.wts[x].thread].pc.Parked? && s.ts[s.wts[x].thread].winner == Some(x)
            && Covers(s.ts[s.wts[x].thread].pc, x)
  {
    assert ThreadOk(s, t);
    assert WtOk(s, x);
  }

  /** What readying a thread does. */
  ghost predicate Readied(s: State, s': State, t: Tid, x: WtId, ok: bool)
    requires t in s.ts && x in s.wts && s.wts[x].thread in s.ts && s.ts[s.wts[x].thread].pc.Parked?
  {
    var u := s.wts[x].thread;
    && u != t && s'.ts.Keys == s.ts.Keys && s'.ws == s.ws && s'.nextWt == s.nextWt
    && (forall v | v in s.ts && v != t && v != u :: s'.ts[v] == s.ts[v])
    && s'.ts[u] == s.ts[u].(waker := Some(x), pc := Awake(s.ts[u].pc.op, s.ts[u].pc.base))
    && s'.ts[t] == s.ts[t].(pc := s'.ts[t].pc)
    && s'.wts == s.wts[x := s.wts[x].(place := Gone, success := ok)]
    && ReadiedPc(s.ts[t].pc, s'.ts[t].pc, x) && ok == !Closer(s.ts[t].pc)
  }

  /** What Ready does to the program counter of the waker. */
  ghost predicate ReadiedPc(pc: Pc, pc': Pc, x: WtId) {
    && (forall y | HoldsWt(pc, y) && y != x :: HoldsWt(pc', y) && Closer(pc') == Closer(pc))
    && (forall y :: !Covers(pc, y)) && (forall w :: !Holding(pc, w) && !Holding(pc', w))
  }

  lemma ReadyFacts(s: State, s': State, t: Tid, x: WtId)
    requires t in s.ts && ThreadOk(s, t) && Ready(s, s', t, x) && s.wts[x].thread != t
             && s.ts[s.wts[x].thread].pc.Parked?
    ensures HoldsWt(s.ts[t].pc, x) && Readied(s, s', t, x, s.ts[t].pc.Wake?)
  {
    ReadyPcs(s, s', t, x);
  }

  lemma ReadyPcs(s: State, s': State, t: Tid, x: WtId)
    requires Ready(s, s', t, x) && s.wts[x].thread != t
    ensures var pc := s.ts[t].pc;
            && HoldsWt(pc, x) && (pc.Wake? || pc.CloseReady?) && t in s'.ts && ReadiedPc(pc, s'.ts[t].pc, x)
  {
    if s.ts[t].pc.CloseReady? {
      var list := s.ts[t].pc.list;
      assert list == [x] + list[1..];
      assert s'.ts[t].pc == CloseReady(list[1..]);
    }
  }

  lemma ReadyThread(s: State, s': State, t: Tid, x: WtId)
    requires t in s.ts && ThreadOk(s, t) && Ready(s, s', t, x) && s.wts[x].thread != t && t in s'.ts && HeldBy(s, x, t)
    ensures ThreadOk(s', t)
  {
    if s.ts[t].pc.CloseReady? {
      var list := s.ts[t].pc.list;
      assert list == [x] + list[1..];
      forall y | y in list[1..]
        ensures HeldBy(s', y, t)
      {
        assert y in list && HeldBy(s, y, t);
        var k :| 0 <= k < |list| - 1 && list[1..][k] == y;
        assert list[0] != list[k + 1];
      }
    }
  }

  lemma ReadyInv(s: State, s': State, t: Tid, x: WtId)
    requires Inv(s) && Ready(s, s', t, x)
    ensures Inv(s')
  {
    assert ThreadOk(s, t);
    ReadyHolds(s, s', t, x);
    ReadyFindsParked(s, t, x);
    ReadyFacts(s, s', t, x);
    ReadyThread(s, s', t, x);
    ReadiedPartner(s, s', t, x, s.ts[t].pc.Wake?);
    ReadiedInv(s, s', t, x, s.ts[t].pc.Wake?);
  }

  lemma ReadyHolds(s: State, s': State, t: Tid, x: WtId)
    requires Ready(s, s', t, x)
    ensures t in s.ts && HoldsWt(s.ts[t].pc, x)
  {
  }

  lemma ReadiedPartner(s: State, s': State, t: Tid, x: WtId, ok: bool)
    requires t in s.ts && x in s.wts && WtOk(s, x) && s.wts[x].place == Held(t) && s.ts[s.wts[x].thread].pc.Parked?
    requires ThreadOk(s, s.wts[x].thread) && Readied(s, s', t, x, ok)
    ensures s.wts[x].thread in s'.ts && ThreadOk(s', s.wts[x].thread)
  {
    var u := s.wts[x].thread;
    assert u in s'.ts.Keys;
  }

  lemma ReadiedInv(s: State, s': State, t: Tid, x: WtId, ok: bool)
    requires Inv(s) && t in s.ts && HeldBy(s, x, t) && WtOk(s, x) && s.ts[s.wts[x].thread].pc.Parked?
             && Readied(s, s', t, x, ok)
    requires t in s'.ts && ThreadOk(s', t) && s.wts[x].thread in s'.ts && ThreadOk(s', s.wts[x].thread)
    requires s.ts[s.wts[x].thread].winner == Some(x)
    ensures Inv(s')
  {
    SameLocks(s, s', t);
    forall v | v in s'.ts
      ensures ThreadOk(s', v)
    {
      if v != t && v != s.wts[x].thread {
        ReadiedOthers(s, s', t, x, ok, v);
      }
    }
    forall y | y in s'.wts
      ensures WtOk(s', y)
    {
      ReadiedWt(s, s', t, x, ok, y);
    }
    forall w | w in s'.ws
      ensures WaitableInv(s', w)
    {
      ReadiedWaitable(s, s', t, x, ok, w);
    }
    Assemble(s');
  }

  lemma ReadiedOthers(s: State, s': State, t: Tid, x: WtId, ok: bool, v: Tid)
    requires Inv(s) && t in s.ts && HeldBy(s, x, t) && s.wts[x].thread in s.ts && s.ts[s.wts[x].thread].pc.Parked?
             && Readied(s, s', t, x, ok)
    requires v in s.ts && v != t && v != s.wts[x].thread
    ensures ThreadOk(s', v)
  {
    assert v in s'.ts.Keys;
    assert ThreadOk(s, v);
    ThreadFrame(s, s', v);
  }

  lemma ReadiedWt(s: State, s': State, t: Tid, x: WtId, ok: bool, y: WtId)
    requires Inv(s) && t in s.ts && HeldBy(s, x, t) && WtOk(s, x) && s.ts[s.wts[x].thread].pc.Parked?
             && Readied(s, s', t, x, ok)
    requires s.ts[s.wts[x].thread].winner == Some(x) && y in s.wts
    ensures WtOk(s', y)
  {
    assert WtOk(s, y);
    assert s.wts[y].thread in s'.ts.Keys;
    if y != x {
      WtFrame(s, s', y);
    }
  }

  lemma ReadiedWaitable(s: State, s': State, t: Tid, x: WtId, ok: bool, w: Wid)
    requires Inv(s) && t in s.ts && HeldBy(s, x, t) && s.wts[x].thread in s.ts && s.ts[s.wts[x].thread].pc.Parked?
             && Readied(s, s', t, x, ok)
    requires w in s.ws
    ensures WaitableInv(s', w)
  {
    WaitableFromInv(s, w);
    forall send | Closing(s, w, send)
      ensures Closing(s', w, send)
    {
      var h := s.ws[w].lock.value;
      assert LockOk(s, h, w);
      assert h in s'.ts.Keys && s'.ts[h] == s.ts[h];
    }
    WaitableFrame(s, s', w);
  }

  // ---------------------------------------------------------------- finishing

  lemma {:induction false} DropMembers(q: seq<WtId>, base: nat, n: nat)
    ensures forall x :: x in Drop(q, base, n) <==> x in q && !(base <= x < base + n)
  {
    if q != [] {
      assert q == [q[0]] + q[1..];
      DropMembers(q[1..], base, n);
    }
  }

  lemma {:induction false} DropDistinct(q: seq<WtId>, base: nat, n: nat)
    requires Distinct(q)
    ensures Distinct(Drop(q, base, n))
  {
    if q != [] {
      var p := Drop(q[1..], base, n);
      DropDistinct(q[1..], base, n);
      DropMembers(q[1..], base, n);
      forall k | 0 <= k < |q[1..]|
        ensures q[1..][k] != q[0]
      {
        assert q[1..][k] == q[k + 1];
      }
      DistinctCons(q[0], p);
    }
  }

  lemma DistinctCons(x: WtId, p: seq<WtId>)
    requires Distinct(p)
    ensures x !in p ==> Distinct([x] + p)
  {
    var r := [x] + p;
    forall i, j | 0 <= i < j < |r| && x !in p
      ensures r[i] != r[j]
    {
      assert r[j] == p[j - 1] && p[j - 1] in p;
      assert i > 0 ==> r[i] == p[i - 1];
    }
  }

  /** What waking up and finishing does. */
  ghost predicate Finished(s: State, s': State, t: Tid, base: nat, n: nat)
    requires t in s.ts
  {
    && t in s'.ts && s'.ts == s.ts[t := s'.ts[t]] && s'.nextWt == s.nextWt && s'.ws.Keys == s.ws.Keys
        && s'.wts.Keys == s.wts.Keys
    && s'.ts[t].winner == None && FinishedPc(s.ts[t].pc, s'.ts[t].pc, base, n)
    && (forall x | x in s.wts :: s'.wts[x] == if base <= x < base + n then s.wts[x].(place := Gone) else s.wts[x])
    && (forall x | x in s.wts && base <= x < base + n :: s.wts[x].thread == t)
    && (forall w | w in s.ws :: s'.ws[w] == s.ws[w].(recvq := s'.ws[w].recvq, sendq := s'.ws[w].sendq))
    && (forall w | w in s.ws && s'.ws[w] != s.ws[w] :: s.ws[w].lock == None)
    && (forall w, send | w in s.ws ::
          Queue(s'.ws[w], send) == Queue(s.ws[w], send) || Queue(s'.ws[w], send) == Drop(Queue(s.ws[w], send), base, n))
    && NoneLeft(s, s', base, n)
  }

  /** No queue holds any of the n descriptors from base on. */
  ghost predicate NoneLeft(s: State, s': State, base: nat, n: nat)
    requires s'.ws.Keys == s.ws.Keys
  {
    forall w, send, x | w in s.ws && x in Queue(s'.ws[w], send) :: !(base <= x < base + n)
  }

  ghost predicate FinishedPc(pc: Pc, pc': Pc, base: nat, n: nat) {
    && (forall y :: Covers(pc, y) ==> base <= y < base + n) && (forall y :: !HoldsWt(pc, y))
    && (forall w :: !Holding(pc, w) && !Holding(pc', w)) && !pc.Parked?
  }

  lemma FinishedInv(s: State, s': State, t: Tid, base: nat, n: nat)
    requires Inv(s) && t in s.ts && Finished(s, s', t, base, n) && ThreadOk(s', t)
    ensures Inv(s')
  {
    SameLocks(s, s', t);
    forall u | u in s'.ts
      ensures ThreadOk(s', u)
    {
      if u != t {
        FinishedOthers(s, s', t, base, n, u);
      }
    }
    forall y | y in s'.wts
      ensures WtOk(s', y)
    {
      assert y in s.wts.Keys;
      FinishedWt(s, s', t, base, n, y);
    }
    forall w | w in s'.ws
      ensures WaitableInv(s', w)
    {
      assert w in s.ws.Keys;
      FinishedWaitable(s, s', t, base, n, w);
    }
    Assemble(s');
  }

  lemma FinishedOthers(s: State, s': State, t: Tid, base: nat, n: nat, u: Tid)
    requires Inv(s) && t in s.ts && Finished(s, s', t, base, n) && u in s.ts && u != t
    ensures ThreadOk(s', u)
  {
    assert ThreadOk(s, u);
    forall w | w in s.ws && Holding(s.ts[u].pc, w)
      ensures s'.ws[w] == s.ws[w]
    {
      assert LockOk(s, u, w);
    }
    forall x | x in s.wts && s.wts[x].place == Held(u)
      ensures s.wts[x].thread != t
    {
      assert WtOk(s, x);
    }
    assert forall x | x in s.wts :: x in s'.wts.Keys;
    ThreadFrame(s, s', u);
  }

  lemma FinishedWt(s: State, s': State, t: Tid, base: nat, n: nat, y: WtId)
    requires Inv(s) && t in s.ts && Finished(s, s', t, base, n) && y in s.wts
    ensures y in s'.wts.Keys && WtOk(s', y)
  {
    assert WtOk(s, y);
    var d := s.wts[y];
    assert y in s'.wts.Keys && d.cs.w in s'.ws.Keys;
    if !(base <= y < base + n) {
      DropMembers(Queue(s.ws[d.cs.w], d.cs.send), base, n);
      WtFrame(s, s', y);
    }
  }

  lemma FinishedWaitable(s: State, s': State, t: Tid, base: nat, n: nat, w: Wid)
    requires Inv(s) && t in s.ts && Finished(s, s', t, base, n) && w in s.ws
    ensures w in s'.ws.Keys && WaitableInv(s', w)
  {
    WaitableFromInv(s, w);
    assert w in s'.ws.Keys;
    DropMembers(s.ws[w].recvq, base, n);
    DropMembers(s.ws[w].sendq, base, n);
    assert Queue(s'.ws[w], false) == s'.ws[w].recvq && Queue(s'.ws[w], true) == s'.ws[w].sendq;
    FinishedLive(s, s', t, base, n, w);
    LiveFrame(s, s', w);
    forall send
      ensures QueueOk(s', w, send)
    {
      assert QueueOk(s, w, send);
      DropDistinct(Queue(s.ws[w], send), base, n);
      assert forall x | x in Queue(s'.ws[w], send) :: x in s.wts && x in s'.wts.Keys;
    }
  }

  lemma FinishedLive(s: State, s': State, t: Tid, base: nat, n: nat, w: Wid)
    requires Inv(s) && t in s.ts && Finished(s, s', t, base, n) && w in s.ws && w in s'.ws
    requires forall x :: x in Drop(s.ws[w].recvq, base, n) <==> x in s.ws[w].recvq && !(base <= x < base + n)
    requires forall x :: x in Drop(s.ws[w].sendq, base, n) <==> x in s.ws[w].sendq && !(base <= x < base + n)
    ensures KeepsLive(s, s', w)
  {
    assert Queue(s'.ws[w], false) == s'.ws[w].recvq && Queue(s'.ws[w], true) == s'.ws[w].sendq;
    forall send, x | x in Queue(s'.ws[w], send)
      ensures x in Queue(s.ws[w], send) && (Live(s', x) ==> Live(s, x) && s'.wts[x].thread == s.wts[x].thread)
    {
      assert QueueOk(s, w, send) && WtOk(s, x);
      assert !(base <= x < base + n);
    }
    assert forall x | x in s'.ws[w].recvq :: x in Queue(s'.ws[w], false);
    assert forall x | x in s'.ws[w].sendq :: x in Queue(s'.ws[w], true);
    forall send | Closing(s, w, send)
      ensures Closing(s', w, send)
    {
      assert LockOk(s, t, w);
    }
  }

  lemma FinishInv(s: State, s': State, t: Tid)
    requires Inv(s) && t in s.ts && Finish(s, s', t)
    ensures Inv(s')
  {
    assert ThreadOk(s, t);
    match s.ts[t].pc
    case CloseMark(w) => CloseMarkInv(s, s', t);
    case Awake(op, base) => AwakeInv(s, s', t, op, base);
    case Done(op, i, ok) =>
      assert Finished(s, s', t, 0, 0);
      FinishedInv(s, s', t, 0, 0);
    case _ =>
  }

  lemma AwakeInv(s: State, s': State, t: Tid, op: Op, base: nat)
    requires Inv(s) && t in s.ts && ThreadOk(s, t) && Finish(s, s', t) && s.ts[t].pc == Awake(op, base)
    ensures Inv(s')
  {
    if op.select {
      SelectFinished(s, s', t, op, base);
      SelectDoneOk(s, s', t, op, base);
      FinishedInv(s, s', t, base, |op.cases|);
    } else {
      PlainFinished(s, s', t, op, base);
      FinishedInv(s, s', t, base, 1);
    }
  }

  lemma OthersQueues(s: State, t: Tid, op: Op, base: nat, w: Wid, send: bool, x: WtId)
    requires w in s.ws && QueueOk(s, w, send) && Mine(s, t, op, base) && x in Queue(s.ws[w], send)
             && base <= x < base + |op.cases|
    ensures InOp(op, w)
  {
    assert s.wts[x].cs == op.cases[x - base];
  }

  lemma SelectFinished(s: State, s': State, t: Tid, op: Op, base: nat)
    requires Inv(s) && t in s.ts && ThreadOk(s, t) && Finish(s, s', t) && s.ts[t].pc == Awake(op, base) && op.select
    ensures Finished(s, s', t, base, |op.cases|)
  {
    SelectDrops(s, s', t, op, base);
    SelectLeavesNone(s, s', t, op, base);
    SelectPc(s, s', t, op, base);
  }

  lemma SelectLeavesNone(s: State, s': State, t: Tid, op: Op, base: nat)
    requires Inv(s) && t in s.ts && Mine(s, t, op, base) && s'.ws.Keys == s.ws.Keys
    requires forall w {:trigger Drops(s, s', op, base, w)} | w in s.ws :: w in s'.ws && Drops(s, s', op, base, w)
    ensures NoneLeft(s, s', base, |op.cases|)
  {
    forall w, send, x | w in s.ws && x in Queue(s'.ws[w], send)
      ensures !(base <= x < base + |op.cases|)
    {
      assert Drops(s, s', op, base, w);
      NotOurs(s, s', t, op, base, w, send, x);
    }
  }

  lemma SelectPc(s: State, s': State, t: Tid, op: Op, base: nat)
    requires t in s.ts && Finish(s, s', t) && s.ts[t].pc == Awake(op, base) && op.select
    ensures t in s'.ts && FinishedPc(s.ts[t].pc, s'.ts[t].pc, base, |op.cases|)
  {
    assert s'.ts[t].pc.Done?;
  }

  /** The select drops its descriptors from the queues of its own waitables. */
  ghost predicate Drops(s: State, s': State, op: Op, base: nat, w: Wid)
    requires w in s.ws && w in s'.ws
  {
    s'.ws[w] == if InOp(op, w)
        then s.ws[w].(recvq := Drop(s.ws[w].recvq, base, |op.cases|), sendq := Drop(s.ws[w].sendq, base, |op.cases|))
            else s.ws[w]
  }

  lemma SelectDrops(s: State, s': State, t: Tid, op: Op, base: nat)
    requires t in s.ts && Finish(s, s', t) && s.ts[t].pc == Awake(op, base) && op.select
    ensures s'.ws.Keys == s.ws.Keys && s'.wts.Keys == s.wts.Keys
    ensures forall w {:trigger Drops(s, s', op, base, w)} | w in s.ws :: w in s'.ws && Drops(s, s', op, base, w)
    ensures forall w | w in s.ws :: s'.ws[w] == s.ws[w].(recvq := s'.ws[w].recvq, sendq := s'.ws[w].sendq)
    ensures forall w | w in s.ws && s'.ws[w] != s.ws[w] :: s.ws[w].lock == None
    ensures forall w, send | w in s.ws ::
            Queue(s'.ws[w], send) == Queue(s.ws[w], send)
            || Queue(s'.ws[w], send) == Drop(Queue(s.ws[w], send), base, |op.cases|)
    ensures forall x | x in s.wts :: s'.wts[x] == if base <= x < base + |op.cases| then s.wts[x].(place := Gone)
            else s.wts[x]
  {
  }

  lemma NotOurs(s: State, s': State, t: Tid, op: Op, base: nat, w: Wid, send: bool, x: WtId)
    requires Inv(s) && t in s.ts && Mine(s, t, op, base) && w in s.ws && w in s'.ws && x in Queue(s'.ws[w], send)
             && Drops(s, s', op, base, w)
    ensures !(base <= x < base + |op.cases|)
  {
    assert QueueOk(s, w, send);
    DropMembers(Queue(s.ws[w], send), base, |op.cases|);
    if !InOp(op, w) && base <= x < base + |op.cases| {
      OthersQueues(s, t, op, base, w, send, x);
    }
  }

  lemma SelectDoneOk(s: State, s': State, t: Tid, op: Op, base: nat)
    requires t in s.ts && ThreadOk(s, t) && Finish(s, s', t) && s.ts[t].pc == Awake(op, base) && op.select
             && s'.ws.Keys == s.ws.Keys && t in s'.ts
    requires forall w | w in s.ws :: s'.ws[w].closed == s.ws[w].closed
    ensures ThreadOk(s', t)
  {
    assert forall i | 0 <= i < |op.cases| :: op.cases[i].w in s'.ws.Keys;
  }

  lemma PlainFinished(s: State, s': State, t: Tid, op: Op, base: nat)
    requires Inv(s) && t in s.ts && ThreadOk(s, t) && Finish(s, s', t) && s.ts[t].pc == Awake(op, base) && !op.select
    ensures Finished(s, s', t, base, 1) && ThreadOk(s', t)
  {
    forall w, send, x | w in s.ws && x in Queue(s.ws[w], send)
      ensures x != base
    {
      assert QueueOk(s, w, send);
    }
  }

  // ---------------------------------------------------------------- every run

  lemma NextInv(s: State, s': State)
    requires Inv(s) && Next(s, s')
    ensures Inv(s')
  {
    var t :| Step(s, s', t);
    if exists pc' :: Look(s, s.ts[t].pc, pc') && s' == SetPc(s, t, pc') {
      var pc' :| Look(s, s.ts[t].pc, pc') && s' == SetPc(s, t, pc');
      LookInv(s, t, pc');
    } else if Lock(s, s', t) {
      LockStep(s, s', t);
      LocksOnlyInv(s, s', t);
    } else if Release(s, s', t) {
      ReleaseStep(s, s', t);
      LocksOnlyInv(s, s', t);
    } else if UseBuffer(s, s', t) {
      UseBufferInv(s, s', t);
    } else if Join(s, s', t) {
      JoinInv(s, s', t);
    } else if Finish(s, s', t) {
      FinishInv(s, s', t);
    } else if exists c, x :: PopStale(s, s', t, c, x) {
      var c, x :| PopStale(s, s', t, c, x);
      PopStaleInv(s, s', t, c, x);
    } else if exists c, x :: PopWin(s, s', t, c, x) {
      var c, x :| PopWin(s, s', t, c, x);
      PopWinInv(s, s', t, c, x);
    } else {
      var x :| Ready(s, s', t, x);
      ReadyInv(s, s', t, x);
    }
  }

  lemma {:induction false} RunInv(run: seq<State>, i: nat)
    requires Run(run) && i < |run|
    ensures Inv(run[i])
  {
    if i == 0 {
      InitInv(run[0]);
    } else {
      RunInv(run, i - 1);
      assert Next(run[i - 1], run[i - 1 + 1]);
      NextInv(run[i - 1], run[i]);
    }
  }

  /**
   On every waitable, at every moment, committed sends minus committed waits are what the buffer holds, within
   its size.
  */
  lemma TokensBalance(run: seq<State>, i: nat, w: Wid)
    requires Run(run) && i < |run| && w in run[i].ws
    ensures var v := run[i].ws[w]; v.sends - v.waits == v.count && 0 <= v.count <= v.size
  {
    RunInv(run, i);
    assert CountOk(run[i].ws[w]);
  }

  /**
   An operation returns with success for a case exactly when that case, and no other, was committed,
   and was committed once. Without a case it returns only if it was not to block, and it reports
   failure for a case only if the waitable is closed.
  */
  lemma CommitsOnce(run: seq<State>, i: nat, t: Tid)
    requires Run(run) && i < |run| && t in run[i].ts && run[i].ts[t].pc.Done?
    ensures var th, s := run[i].ts[t], run[i];
            && th.commits == (if th.pc.ok then [th.pc.i] else [])
            && (th.pc.ok ==> 0 <= th.pc.i < |th.pc.op.cases|)
            && (!th.pc.ok && th.pc.i == -1 ==> !th.pc.op.block)
            && (!th.pc.ok && th.pc.i != -1 ==>
                  && 0 <= th.pc.i < |th.pc.op.cases| && th.pc.op.cases[th.pc.i].w in s.ws
                  && s.ws[th.pc.op.cases[th.pc.i].w].closed)
  {
    RunInv(run, i);
    assert ThreadOk(run[i], t);
  }

  /**
   A parked thread is readied exactly once: whoever is about to ready a thread finds it parked and
   chosen through the descriptor in hand, and no two threads have it in hand.
  */
  lemma ReadiedOnce(run: seq<State>, i: nat, t: Tid, x: WtId, t2: Tid, y: WtId)
    requires Run(run) && i < |run| && t in run[i].ts && HoldsWt(run[i].ts[t].pc, x)
    ensures x in run[i].wts && run[i].wts[x].thread in run[i].ts && run[i].ts[run[i].wts[x].thread].pc.Parked?
    ensures t2 in run[i].ts && HoldsWt(run[i].ts[t2].pc, y) && y in run[i].wts ==>
              (run[i].wts[y].thread == run[i].wts[x].thread ==> t == t2 && x == y)
  {
    RunInv(run, i);
    ReadyFindsParked(run[i], t, x);
    if t2 in run[i].ts && HoldsWt(run[i].ts[t2].pc, y) {
      ReadyFindsParked(run[i], t2, y);
    }
  }

  /** No parked thread is forgotten: it is queued for every one of its cases, or somebody has it in hand. */
  lemma ParkedIsReachable(run: seq<State>, i: nat, t: Tid)
    requires Run(run) && i < |run| && t in run[i].ts && run[i].ts[t].pc.Parked?
    ensures var s, pc := run[i], run[i].ts[t].pc;
            || (forall k | 0 <= k < |pc.op.cases| ::
                pc.op.cases[k].w in s.ws
                && pc.base + k in Queue(s.ws[pc.op.cases[k].w], pc.op.cases[k].send))
            || exists h, x :: h in s.ts && x in s.wts && s.wts[x].thread == t && HoldsWt(s.ts[h].pc, x)
  {
    RunInv(run, i);
    var s, th := run[i], run[i].ts[t];
    assert ThreadOk(s, t);
    if th.winner.Some? {
      var x := th.winner.value;
      assert WtOk(s, x);
      assert HoldsWt(s.ts[s.wts[x].place.holder].pc, x);
    } else {
      forall k | 0 <= k < |th.pc.op.cases|
        ensures th.pc.op.cases[k].w in s.ws && th.pc.base
                + k in Queue(s.ws[th.pc.op.cases[k].w], th.pc.op.cases[k].send)
      {
        assert s.wts[th.pc.base + k].cs == th.pc.op.cases[k];
        assert WtOk(s, th.pc.base + k);
      }
    }
  }

  /**
   A receiver that could still be chosen is never queued beside a token in the buffer, on a closed
   waitable, or beside a sender of another thread that could still be chosen. Only while the closing
   thread empties the queues, under the lock, are there receivers on a closed waitable.
  */
  lemma LiveReceiversWait(run: seq<State>, i: nat, w: Wid, x: WtId)
    requires Run(run) && i < |run| && w in run[i].ws && x in run[i].ws[w].recvq && Live(run[i], x)
    ensures var s, v := run[i], run[i].ws[w];
            && v.count == 0
            && (v.closed ==> Closing(s, w, false))
            && forall y | y in v.sendq && Live(s, y) :: s.wts[y].thread == s.wts[x].thread
  {
    RunInv(run, i);
    assert LiveOk(run[i], w, false, x);
    forall y | y in run[i].ws[w].sendq && Live(run[i], y)
      ensures run[i].wts[y].thread == run[i].wts[x].thread
    {
      assert PairOk(run[i], w, x, y);
    }
  }

  /** And a sender that could still be chosen is queued only while the buffer is full. */
  lemma LiveSendersWait(run: seq<State>, i: nat, w: Wid, y: WtId)
    requires Run(run) && i < |run| && w in run[i].ws && y in run[i].ws[w].sendq && Live(run[i], y)
    ensures var s, v := run[i], run[i].ws[w]; v.count == v.size && (v.closed ==> Closing(s, w, true))
  {
    RunInv(run, i);
    assert LiveOk(run[i], w, true, y);
  }

  /** The assertion at the end of waitable_select: the descriptor that woke the thread is one of its own. */
  lemma SelectFindsWaker(run: seq<State>, i: nat, t: Tid)
    requires Run(run) && i < |run| && t in run[i].ts && run[i].ts[t].pc.Awake?
    ensures var th := run[i].ts[t]; th.waker.Some? && th.pc.base <= th.waker.value < th.pc.base + |th.pc.op.cases|
  {
    RunInv(run, i);
    assert ThreadOk(run[i], t);
  }
}
