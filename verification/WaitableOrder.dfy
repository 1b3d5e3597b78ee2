/** First come, first served: the wait queues of kernel/thread/waitable.c, under all the steps of WaitableProtocol. */
module WaitableOrder {
  import opened WaitableProtocol
  import opened QueueOrder
  import S = WaitableSafety

  lemma {:induction false} DropOrder(q: seq<WtId>, base: nat, n: nat, x: WtId, y: WtId)
    requires Once(q) && Ahead(q, x, y) && x in Drop(q, base, n) && y in Drop(q, base, n)
    ensures Ahead(Drop(q, base, n), x, y)
  {
    var r := Drop(q, base, n);
    S.DropMembers(q, base, n);
    var i, j :| 0 <= i < j < |q| && q[i] == x && q[j] == y;
    S.DropMembers(q[1..], base, n);
    assert q[1..][j - 1] == y;
    if i > 0 {
      assert q[1..][i - 1] == x;
      DropOrder(q[1..], base, n, x, y);
      if r != Drop(q[1..], base, n) {
        PrependOrder(q[0], Drop(q[1..], base, n), x, y);
      }
    } else {
      assert r == [x] + Drop(q[1..], base, n);
      var k :| 0 <= k < |Drop(q[1..], base, n)| && Drop(q[1..], base, n)[k] == y;
      assert r[0] == x && r[k + 1] == y;
    }
  }

  // ---------------------------------------------------------------- one step

  /** What a step can do to a queue. */
  ghost predicate Moves(q: seq<WtId>, q': seq<WtId>) {
    || q' == q
    || (q != [] && q' == q[1..])
    || (exists z :: q' == q + [z])
    || (exists base: nat, n: nat :: q' == Drop(q, base, n))
  }

  lemma MovesKeepOrder(q: seq<WtId>, q': seq<WtId>, x: WtId, y: WtId)
    requires Moves(q, q') && Once(q) && Ahead(q, x, y) && x in q' && y in q'
    ensures Ahead(q', x, y)
  {
    if q != [] && q' == q[1..] {
      TailOrder(q, x, y);
    } else if z :| q' == q + [z] {
      AppendOrder(q, z, x, y);
    } else if base: nat, n: nat :| q' == Drop(q, base, n) {
      DropOrder(q, base, n, x, y);
    }
  }

  lemma StepMoves(s: State, s': State, w: Wid, send: bool)
    requires Inv(s) && Next(s, s') && w in s.ws
    ensures w in s'.ws && Moves(Queue(s.ws[w], send), Queue(s'.ws[w], send))
  {
    var t :| Step(s, s', t);
    assert ThreadOk(s, t);
    if pc' :| Look(s, s.ts[t].pc, pc') && s' == SetPc(s, t, pc') {
    } else if Lock(s, s', t) || Release(s, s', t) {
      LocksMove(s, s', t, w, send);
    } else if UseBuffer(s, s', t) {
      BufferMoves(s, s', t, w, send);
    } else if Join(s, s', t) {
      JoinMoves(s, s', t, w, send);
    } else if Finish(s, s', t) {
      FinishMoves(s, s', t, w, send);
    } else if c, x :| PopStale(s, s', t, c, x) {
    } else if c, x :| PopWin(s, s', t, c, x) {
      PopMoves(s, s', t, c, x, w, send);
    } else {
      var x :| Ready(s, s', t, x);
    }
  }

  lemma LocksMove(s: State, s': State, t: Tid, w: Wid, send: bool)
    requires t in s.ts && (Lock(s, s', t) || Release(s, s', t)) && w in s.ws
    ensures w in s'.ws && Queue(s'.ws[w], send) == Queue(s.ws[w], send)
  {
  }

  lemma BufferMoves(s: State, s': State, t: Tid, w: Wid, send: bool)
    requires t in s.ts && UseBuffer(s, s', t) && w in s.ws
    ensures w in s'.ws && Queue(s'.ws[w], send) == Queue(s.ws[w], send)
  {
  }

  lemma JoinMoves(s: State, s': State, t: Tid, w: Wid, send: bool)
    requires t in s.ts && Join(s, s', t) && w in s.ws
    ensures w in s'.ws && Moves(Queue(s.ws[w], send), Queue(s'.ws[w], send))
  {
  }

  lemma FinishMoves(s: State, s': State, t: Tid, w: Wid, send: bool)
    requires t in s.ts && Finish(s, s', t) && w in s.ws
    ensures w in s'.ws && Moves(Queue(s.ws[w], send), Queue(s'.ws[w], send))
  {
    if s.ts[t].pc.Awake? && s.ts[t].pc.op.select {
      S.SelectDrops(s, s', t, s.ts[t].pc.op, s.ts[t].pc.base);
    }
  }

  lemma PopMoves(s: State, s': State, t: Tid, c: Case, x: WtId, w: Wid, send: bool)
    requires PopWin(s, s', t, c, x) && w in s.ws
    ensures w in s'.ws && Moves(Queue(s.ws[w], send), Queue(s'.ws[w], send))
  {
  }

  // ---------------------------------------------------------------- whole runs

  /** Both descriptors are on the queue. */
  predicate BothAt(run: seq<State>, k: nat, w: Wid, send: bool, x: WtId, y: WtId) {
    k < |run| && w in run[k].ws && x in Queue(run[k].ws[w], send) && y in Queue(run[k].ws[w], send)
  }

  ghost predicate AheadAt(run: seq<State>, k: nat, w: Wid, send: bool, x: WtId, y: WtId) {
    k < |run| && w in run[k].ws && Ahead(Queue(run[k].ws[w], send), x, y)
  }

  ghost predicate OrderHolds(run: seq<State>, k: nat, w: Wid, send: bool, x: WtId, y: WtId) {
    AheadAt(run, k, w, send, x, y) && BothAt(run, k + 1, w, send, x, y) ==> AheadAt(run, k + 1, w, send, x, y)
  }

  lemma OrderAt(run: seq<State>, k: nat, w: Wid, send: bool, x: WtId, y: WtId)
    requires Run(run) && k + 1 < |run|
    ensures OrderHolds(run, k, w, send, x, y)
  {
    if AheadAt(run, k, w, send, x, y) && BothAt(run, k + 1, w, send, x, y) {
      S.RunInv(run, k);
      assert Next(run[k], run[k + 1]);
      StepMoves(run[k], run[k + 1], w, send);
      assert QueueOk(run[k], w, send);
      MovesKeepOrder(Queue(run[k].ws[w], send), Queue(run[k + 1].ws[w], send), x, y);
    }
  }

  lemma {:induction false} OrderAlong(run: seq<State>, i: nat, j: nat, w: Wid, send: bool, x: WtId, y: WtId)
    requires i <= j < |run| && AheadAt(run, i, w, send, x, y)
    requires forall k: nat | i <= k <= j :: BothAt(run, k, w, send, x, y)
    requires forall k: nat | i <= k < j :: OrderHolds(run, k, w, send, x, y)
    ensures AheadAt(run, j, w, send, x, y)
  {
    if i < j {
      OrderAlong(run, i, j - 1, w, send, x, y);
      assert OrderHolds(run, j - 1, w, send, x, y) && BothAt(run, j, w, send, x, y);
    }
  }

  /** Nobody is chosen from a queue while somebody who has been waiting there for longer is still on it. */
  lemma FirstComeFirstServed(run: seq<State>, i: nat, j: nat, w: Wid, send: bool, x: WtId, y: WtId, t: Tid)
    requires Run(run) && i <= j && j + 1 < |run| && AheadAt(run, i, w, send, x, y)
    requires forall k: nat | i <= k <= j :: BothAt(run, k, w, send, x, y)
    ensures !PopWin(run[j], run[j + 1], t, Case(w, send), y)
  {
    forall k: nat | i <= k < j
      ensures OrderHolds(run, k, w, send, x, y)
    {
      OrderAt(run, k, w, send, x, y);
    }
    OrderAlong(run, i, j, w, send, x, y);
    S.RunInv(run, j);
    FirstIsNotBehind(run[j], w, send, x, y);
  }

  lemma FirstIsNotBehind(s: State, w: Wid, send: bool, x: WtId, y: WtId)
    requires Inv(s) && w in s.ws && Ahead(Queue(s.ws[w], send), x, y)
    ensures Queue(s.ws[w], send) != [] && y != Queue(s.ws[w], send)[0]
  {
    assert QueueOk(s, w, send);
  }
}
