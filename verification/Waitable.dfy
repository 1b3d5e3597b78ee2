/**
 The waitables of kernel/thread/waitable.c as a transition system: any number of threads sending,
 waiting, closing and selecting on any number of waitables. The locks are explicit; inside a locked
 region every look at a queue, with its compare-and-swap on select_done, is a step of its own,
 because selects on other waitables compete for the same flag.

 A select takes its locks in one step. That it takes them in a global order and so cannot deadlock
 is the subject of SelectOrder.
*/
module WaitableProtocol {

  type Tid = int
  type Wid = int
  type WtId = int

  datatype Option<T> = None | Some(value: T)

  /** One case of a select; a plain send or wait is a single case. */
  datatype Case = Case(w: Wid, send: bool)

  datatype Op = Op(cases: seq<Case>, select: bool, block: bool)

  /** Where a waiting-thread descriptor is. */
  datatype Place = Queued | Held(holder: Tid) | Gone

  /** A waiting-thread descriptor. */
  datatype Wt = Wt(thread: Tid, isSelect: bool, cs: Case, success: bool, place: Place)

  /** A waitable. `sends` and `waits` count the operations committed on it. */
  datatype Waitable = Waitable(count: nat, size: nat, closed: bool, recvq: seq<WtId>, sendq: seq<WtId>,
                               lock: Option<Tid>, sends: nat, waits: nat)

  /** How a locked region goes on after the unlock. */
  datatype After = ToDone(i: int, ok: bool) | ToWake(x: WtId, k: int) | ToPark(base: nat)

  datatype Pc =
    | Idle
    // the unlocked fast paths of a non-blocking send and wait
    | PeekClosed(op: Op)
    | PeekFull(op: Op)
    | PeekEmpty(op: Op)
    | PeekOpen(op: Op)
    | PeekEmptyAgain(op: Op)
    // the locked region
    | Want(op: Op)
    | Poll(op: Op, order: seq<int>, o: nat)        // about to look at case order[o]
    | Pop(op: Op, order: seq<int>, o: nat)         // about to pop from the queue of the partners
    | Buffer(op: Op, order: seq<int>, o: nat)      // no partner; about to try the buffer
    | Barren(op: Op)                               // no case is ready
    | Enqueue(op: Op, base: nat, order: seq<int>, o: nat)
    | Unlock(op: Op, after: After)
    // and after it
    | Wake(op: Op, x: WtId, i: int)                // about to ready the partner
    | Parked(op: Op, base: nat)
    | Awake(op: Op, base: nat)
    | Done(op: Op, i: int, ok: bool)               // returns case i, or -1 when it would have to block
    // waitable_close
    | CloseWant(w: Wid)
    | CloseMark(w: Wid)
    | ClosePop(w: Wid, sending: bool, list: seq<WtId>)
    | CloseUnlock(w: Wid, list: seq<WtId>)
    | CloseReady(list: seq<WtId>)

  /**
   A thread. `winner` is the descriptor through which it was chosen, `commits` the cases committed for the
   current operation.
  */
  datatype Thread = Thread(pc: Pc, selectDone: bool, waker: Option<WtId>, winner: Option<WtId>, commits: seq<int>)

  datatype State = State(ts: map<Tid, Thread>, ws: map<Wid, Waitable>, wts: map<WtId, Wt>, nextWt: nat)

  ghost predicate Init(s: State) {
    && s.wts == map[] && s.nextWt == 0
    && (forall t | t in s.ts :: s.ts[t] == Thread(Idle, false, None, None, []))
    && (forall w | w in s.ws :: s.ws[w] == Waitable(0, s.ws[w].size, false, [], [], None, 0, 0))
  }

  // ---------------------------------------------------------------- vocabulary

  function Queue(w: Waitable, send: bool): seq<WtId> {
    if send then w.sendq else w.recvq
  }

  function SetQueue(w: Waitable, send: bool, q: seq<WtId>): Waitable {
    if send then w.(sendq := q) else w.(recvq := q)
  }

  predicate OpOk(s: State, op: Op) {
    && (forall i | 0 <= i < |op.cases| :: op.cases[i].w in s.ws)
    && (!op.select ==> |op.cases| == 1)
  }

  predicate InOp(op: Op, w: Wid) {
    exists i :: 0 <= i < |op.cases| && op.cases[i].w == w
  }

  /** An order of the cases: each once. */
  predicate IsOrder(order: seq<int>, n: nat) {
    && |order| == n && (forall k | 0 <= k < n :: 0 <= order[k] < n)
    && (forall i | 0 <= i < n :: i in order)
    && (forall j, k | 0 <= j < k < n :: order[j] != order[k])
  }

  /** The waitables whose locks a thread holds. */
  predicate Holding(pc: Pc, w: Wid) {
    match pc
    case Poll(op, order, o) => InOp(op, w)
    case Pop(op, order, o) => InOp(op, w)
    case Buffer(op, order, o) => InOp(op, w)
    case Barren(op) => InOp(op, w)
    case Enqueue(op, base, order, o) => InOp(op, w)
    case Unlock(op, after) => InOp(op, w)
    case CloseMark(v) => v == w
    case ClosePop(v, sending, list) => v == w
    case CloseUnlock(v, list) => v == w
    case _ => false
  }

  predicate IsFull(w: Waitable) {
    if w.size == 0 then w.recvq == [] else w.count == w.size
  }

  predicate IsEmpty(w: Waitable) {
    if w.size == 0 then w.sendq == [] else w.count == 0
  }

  function SetLocks(ws: map<Wid, Waitable>, op: Op, lock: Option<Tid>): map<Wid, Waitable> {
    map w | w in ws :: if InOp(op, w) then ws[w].(lock := lock) else ws[w]
  }

  /** A descriptor on a queue whose thread has already been chosen through another one. */
  predicate Stale(s: State, x: WtId) {
    x in s.wts && s.wts[x].thread in s.ts && s.wts[x].isSelect && s.ts[s.wts[x].thread].selectDone
  }

  function Drop(q: seq<WtId>, base: nat, n: nat): seq<WtId> {
    if q == [] then [] else if base <= q[0] < base + n then Drop(q[1..], base, n) else [q[0]] + Drop(q[1..], base, n)
  }

  // ---------------------------------------------------------------- steps

  /** Steps that change nothing but the program counter. */
  ghost predicate Look(s: State, pc: Pc, pc': Pc) {
    match pc
    case Idle =>
      || (exists op :: OpOk(s, op) && StartAt(op, pc'))
      || (exists w :: w in s.ws && pc' == CloseWant(w))
    case PeekClosed(op) =>
      OpOk(s, op) && |op.cases| == 1 && pc' == if s.ws[op.cases[0].w].closed then Want(op) else PeekFull(op)
    case PeekFull(op) =>
      OpOk(s, op) && |op.cases| == 1 && pc' == if IsFull(s.ws[op.cases[0].w]) then Done(op, -1, false) else Want(op)
    case PeekEmpty(op) =>
      OpOk(s, op) && |op.cases| == 1 && pc' == if IsEmpty(s.ws[op.cases[0].w]) then PeekOpen(op) else Want(op)
    case PeekOpen(op) =>
      OpOk(s, op) && |op.cases| == 1 && pc' == if s.ws[op.cases[0].w].closed then PeekEmptyAgain(op)
          else Done(op, -1, false)
    case PeekEmptyAgain(op) =>
      OpOk(s, op) && |op.cases| == 1 && pc' == if IsEmpty(s.ws[op.cases[0].w]) then Done(op, 0, false) else Want(op)
    case Poll(op, order, o) =>
      OpOk(s, op) && IsOrder(order, |op.cases|) && o < |order| &&
      var i := order[o];
      var w := s.ws[op.cases[i].w];
      pc' == if op.cases[i].send then (if w.closed then Unlock(op, ToDone(i, false)) else Pop(op, order, o))
             else if !op.select && w.closed
                 then (if w.count == 0 then Unlock(op, ToDone(i, false)) else Buffer(op, order, o))
             else Pop(op, order, o)
    case Pop(op, order, o) =>
      OpOk(s, op) && IsOrder(order, |op.cases|) && o < |order| &&
      var c := op.cases[order[o]];
      Queue(s.ws[c.w], !c.send) == [] && pc' == Buffer(op, order, o)
    case Buffer(op, order, o) =>
      OpOk(s, op) && IsOrder(order, |op.cases|) && o < |order| &&
      var i := order[o];
      var w := s.ws[op.cases[i].w];
      && !(if op.cases[i].send then w.count < w.size else w.count > 0)
      && pc' == if !op.cases[i].send && op.select && w.closed then Unlock(op, ToDone(i, false))
                else if o + 1 < |order| then Poll(op, order, o + 1) else Barren(op)
    case Barren(op) => !op.block && pc' == Unlock(op, ToDone(-1, false))
    case CloseMark(w) => w in s.ws && s.ws[w].closed && pc' == CloseUnlock(w, [])
    case ClosePop(w, sending, list) =>
      w in s.ws && Queue(s.ws[w], sending) == [] && pc' == if sending then CloseUnlock(w, list)
          else ClosePop(w, true, list)
    case CloseReady(list) => list == [] && pc' == Idle
    case _ => false
  }

  /** A non-blocking plain operation first looks without the lock. */
  predicate StartAt(op: Op, pc: Pc) {
    pc == if op.select || op.block || |op.cases| != 1 then Want(op) else if op.cases[0].send then PeekClosed(op)
        else PeekEmpty(op)
  }

  ghost predicate Lock(s: State, s': State, t: Tid)
    requires t in s.ts
  {
    match s.ts[t].pc
    case Want(op) =>
      && OpOk(s, op) && (forall w | w in s.ws && InOp(op, w) :: s.ws[w].lock == None)
      && exists order :: IsOrder(order, |op.cases|) && s' == LockedAt(s, t, op, order)
    case CloseWant(w) =>
      w in s.ws && s.ws[w].lock == None
          && s' == SetPc(s, t, CloseMark(w)).(ws := s.ws[w := s.ws[w].(lock := Some(t))])
    case _ => false
  }

  function LockedAt(s: State, t: Tid, op: Op, order: seq<int>): State
    requires t in s.ts
  {
    SetPc(s, t, if |op.cases| == 0 then Barren(op) else Poll(op, order, 0)).(ws := SetLocks(s.ws, op, Some(t)))
  }

  function SetPc(s: State, t: Tid, pc: Pc): State
    requires t in s.ts
  {
    s.(ts := s.ts[t := s.ts[t].(pc := pc)])
  }

  ghost predicate Release(s: State, s': State, t: Tid)
    requires t in s.ts
  {
    match s.ts[t].pc
    case Unlock(op, after) =>
      s' == SetPc(s, t, match after
                        case ToDone(i, ok) => Done(op, i, ok)
                        case ToWake(x, i) => Wake(op, x, i)
                        case ToPark(base) => Parked(op, base)).(ws := SetLocks(s.ws, op, None))
    case CloseUnlock(w, list) =>
      w in s.ws && s' == SetPc(s, t, CloseReady(list)).(ws := s.ws[w := s.ws[w].(lock := None)])
    case _ => false
  }

  /** A token goes into the buffer or comes out of it. */
  ghost predicate UseBuffer(s: State, s': State, t: Tid)
    requires t in s.ts
  {
    match s.ts[t].pc
    case Buffer(op, order, o) =>
      OpOk(s, op) && IsOrder(order, |op.cases|) && o < |order| &&
      var i := order[o];
      var c := op.cases[i];
      var w := s.ws[c.w];
      && (if c.send then w.count < w.size else w.count > 0)
      && s' == s.(ts := s.ts[t := s.ts[t].(pc := Unlock(op, ToDone(i, true)), commits := s.ts[t].commits + [i])],
                  ws := s.ws[c.w := if c.send then w.(count := w.count + 1, sends := w.sends + 1)
                                    else w.(count := w.count - 1, waits := w.waits + 1)])
    case _ => false
  }

  /** The queue a thread is popping from, and its waitable. */
  function Popping(s: State, pc: Pc): Option<Case> {
    match pc
    case Pop(op, order, o) =>
      if o < |order| && 0 <= order[o] < |op.cases| then Some(Case(op.cases[order[o]].w, !op.cases[order[o]].send))
          else None
    case ClosePop(w, sending, list) => Some(Case(w, sending))
    case _ => None
  }

  ghost predicate CanPop(s: State, t: Tid, c: Case, x: WtId) {
    && t in s.ts && Popping(s, s.ts[t].pc) == Some(c) && c.w in s.ws
    && Queue(s.ws[c.w], c.send) != [] && x == Queue(s.ws[c.w], c.send)[0]
    && x in s.wts && s.wts[x].thread in s.ts
  }

  function PopQueue(s: State, c: Case): map<Wid, Waitable>
    requires c.w in s.ws && Queue(s.ws[c.w], c.send) != []
  {
    s.ws[c.w := SetQueue(s.ws[c.w], c.send, Queue(s.ws[c.w], c.send)[1..])]
  }

  /** wait_queue_dequeue passes over a descriptor whose thread somebody else has chosen. */
  ghost predicate PopStale(s: State, s': State, t: Tid, c: Case, x: WtId) {
    CanPop(s, t, c, x) && Stale(s, x) && s' == s.(ws := PopQueue(s, c), wts := s.wts[x := s.wts[x].(place := Gone)])
  }

  /**
   wait_queue_dequeue wins the thread of a descriptor; a sender or waiter thereby commits its own case and the
   partner's.
  */
  ghost predicate PopWin(s: State, s': State, t: Tid, c: Case, x: WtId) {
    CanPop(s, t, c, x) && !Stale(s, x) &&
    var me, u := s.ts[t], s.wts[x].thread;
    var closing := me.pc.ClosePop?;
    var me' := match me.pc
               case Pop(op, order, o) =>
                 if o < |order| then me.(pc := Unlock(op, ToWake(x, order[o])), commits := me.commits + [order[o]])
                     else me
               case ClosePop(w, sending, list) => me.(pc := ClosePop(w, sending, [x] + list))
               case _ => me;
    var it := s.ts[u].(winner := Some(x), selectDone := s.wts[x].isSelect,
                       commits := if closing then s.ts[u].commits else s.ts[u].commits + [IndexOf(s.ts[u].pc, x)]);
    var ws1 := PopQueue(s, c);
    s' == s.(ts := s.ts[u := it][t := me'],
             ws := if closing then ws1
                 else ws1[c.w := ws1[c.w].(sends := ws1[c.w].sends + 1, waits := ws1[c.w].waits + 1)],
             wts := s.wts[x := s.wts[x].(place := Held(t))])
  }

  /** The case a descriptor stands for in the operation of its thread. */
  function IndexOf(pc: Pc, x: WtId): int {
    match pc
    case Parked(op, base) => x - base
    case _ => -1
  }

  /** Queue for one case, in the order of the locks; after the last the thread parks. */
  ghost predicate Join(s: State, s': State, t: Tid)
    requires t in s.ts
  {
    match s.ts[t].pc
    case Barren(op) =>
      op.block &&
      exists order :: IsOrder(order, |op.cases|) &&
        s' == SetPc(s, t, if |op.cases| == 0 then Unlock(op, ToPark(s.nextWt)) else Enqueue(op, s.nextWt, order, 0))
                .(nextWt := s.nextWt + |op.cases|, wts := s.wts + NewWts(t, op, s.nextWt))
    case Enqueue(op, base, order, o) =>
      OpOk(s, op) && IsOrder(order, |op.cases|) && o < |order| && base + order[o] in s.wts &&
      var c := op.cases[order[o]];
      var x := base + order[o];
      s' == SetPc(s, t, if o + 1 < |order| then Enqueue(op, base, order, o + 1) else Unlock(op, ToPark(base)))
              .(ws := s.ws[c.w := SetQueue(s.ws[c.w], c.send, Queue(s.ws[c.w], c.send) + [x])],
                wts := s.wts[x := s.wts[x].(place := Queued)])
    case _ => false
  }

  /** A descriptor for each case. */
  function NewWts(t: Tid, op: Op, base: nat): map<WtId, Wt> {
    map x | x in Range(base, |op.cases|) :: Wt(t, op.select, op.cases[x - base], false, Gone)
  }

  function Range(base: nat, n: nat): (r: set<int>)
    ensures forall x :: x in r <==> base <= x < base + n
  {
    if n == 0 then {} else Range(base, n - 1) + {base + n - 1}
  }

  /** scheduler_ready_thread, which asserts that the thread is parked. */
  function ReadyPc(pc: Pc): Pc {
    match pc
    case Parked(op, base) => Awake(op, base)
    case _ => pc
  }

  /** Tell the chosen thread how it was woken, and ready it. */
  ghost predicate Ready(s: State, s': State, t: Tid, x: WtId) {
    && t in s.ts && x in s.wts && s.wts[x].thread in s.ts
    && var me, u := s.ts[t], s.wts[x].thread;
    && (match me.pc
        case Wake(op, y, i) => y == x
        case CloseReady(list) => list != [] && x == list[0]
        case _ => false)
    && var pc' := match me.pc
                  case Wake(op, y, i) => Done(op, i, true)
                  case CloseReady(list) => if list != [] then CloseReady(list[1..]) else me.pc
                  case _ => me.pc;
    s' == s.(ts := s.ts[u := s.ts[u].(waker := Some(x), pc := ReadyPc(s.ts[u].pc))][t := me.(pc := pc')],
             wts := s.wts[x := s.wts[x].(place := Gone, success := me.pc.Wake?)])
  }

  /** After waking up: a select locks again and takes its other descriptors off their queues. */
  ghost predicate Finish(s: State, s': State, t: Tid)
    requires t in s.ts
  {
    match s.ts[t].pc
    case Awake(op, base) =>
      if op.select then
        && s.ts[t].waker.Some? && s.ts[t].waker.value in s.wts
        && (forall w | w in s.ws && InOp(op, w) :: s.ws[w].lock == None)
        && s' == s.(ts := s.ts[t := s.ts[t].(pc := Done(op, s.ts[t].waker.value - base,
            s.wts[s.ts[t].waker.value].success),
                                             selectDone := false, waker := None, winner := None)],
                    ws := map w | w in s.ws ::
                      if InOp(op, w) then s.ws[w].(recvq := Drop(s.ws[w].recvq, base, |op.cases|),
                          sendq := Drop(s.ws[w].sendq, base, |op.cases|))
                      else s.ws[w],
                    wts := map x | x in s.wts :: if base <= x < base + |op.cases| then s.wts[x].(place := Gone)
                        else s.wts[x])
      else
        && base in s.wts
        && s' == s.(ts := s.ts[t := s.ts[t].(pc := Done(op, 0, s.wts[base].success), waker := None, winner := None)])
    case Done(op, i, ok) => s' == s.(ts := s.ts[t := s.ts[t].(pc := Idle, commits := [])])
    case CloseMark(w) =>
      w in s.ws && !s.ws[w].closed &&
      s' == SetPc(s, t, ClosePop(w, false, [])).(ws := s.ws[w := s.ws[w].(closed := true)])
    case _ => false
  }

  ghost predicate Step(s: State, s': State, t: Tid) {
    && t in s.ts
    && (|| (exists pc' :: Look(s, s.ts[t].pc, pc') && s' == SetPc(s, t, pc'))
        || Lock(s, s', t) || Release(s, s', t) || UseBuffer(s, s', t) || Join(s, s', t) || Finish(s, s', t)
        || (exists c, x :: PopStale(s, s', t, c, x))
        || (exists c, x :: PopWin(s, s', t, c, x))
        || (exists x :: Ready(s, s', t, x)))
  }

  ghost predicate Next(s: State, s': State) {
    exists t :: Step(s, s', t)
  }

  ghost predicate Run(run: seq<State>) {
    |run| > 0 && Init(run[0]) && forall i | 0 <= i < |run| - 1 :: Next(run[i], run[i + 1])
  }

  // ---------------------------------------------------------------- the invariant

  ghost predicate LockOk(s: State, t: Tid, w: Wid)
    requires t in s.ts && w in s.ws
  {
    s.ws[w].lock == Some(t) <==> Holding(s.ts[t].pc, w)
  }

  ghost predicate LocksInv(s: State) {
    && (forall t, w {:trigger LockOk(s, t, w)} | t in s.ts && w in s.ws :: LockOk(s, t, w))
    && (forall w | w in s.ws :: s.ws[w].lock.Some? ==> s.ws[w].lock.value in s.ts)
  }

  /** The descriptors of an operation that waits, or is about to. */
  predicate Covers(pc: Pc, x: WtId) {
    match pc
    case Enqueue(op, base, order, o) => base <= x < base + |op.cases|
    case Unlock(op, after) => after.ToPark? && after.base <= x < after.base + |op.cases|
    case Parked(op, base) => base <= x < base + |op.cases|
    case Awake(op, base) => base <= x < base + |op.cases|
    case _ => false
  }

  /** Who has taken the descriptor x off its queue and will ready its thread. */
  predicate HoldsWt(pc: Pc, x: WtId) {
    match pc
    case Wake(op, y, i) => y == x
    case Unlock(op, after) => after.ToWake? && after.x == x
    case ClosePop(w, sending, list) => x in list
    case CloseUnlock(w, list) => x in list
    case CloseReady(list) => x in list
    case _ => false
  }

  predicate Closer(pc: Pc) {
    pc.ClosePop? || pc.CloseUnlock? || pc.CloseReady?
  }

  /** Nothing has been done for the current operation yet. */
  predicate Fresh(th: Thread) {
    !th.selectDone && th.winner == None && th.commits == []
  }

  /** A case that cannot go ahead. */
  predicate BarrenCase(s: State, c: Case)
    requires c.w in s.ws
  {
    var w := s.ws[c.w];
    !w.closed && (if c.send then w.count == w.size else w.count == 0)
  }

  predicate AllBarren(s: State, op: Op)
    requires OpOk(s, op)
  {
    forall i | 0 <= i < |op.cases| :: BarrenCase(s, op.cases[i])
  }

  /** No partner but thread t itself is queued for a case. */
  predicate Lonely(s: State, c: Case, t: Tid)
    requires c.w in s.ws
  {
    forall x | x in Queue(s.ws[c.w], !c.send) :: x in s.wts && s.wts[x].thread == t
  }

  predicate AllLonely(s: State, op: Op, t: Tid)
    requires OpOk(s, op)
  {
    forall i {:trigger op.cases[i]} | 0 <= i < |op.cases| :: Lonely(s, op.cases[i], t)
  }

  /** The cases looked at so far are barren, and nobody is queued for them. */
  predicate Polled(s: State, op: Op, order: seq<int>, o: nat)
    requires OpOk(s, op) && IsOrder(order, |op.cases|) && o <= |order|
  {
    forall j {:trigger order[j]} | 0 <= j < o ::
      BarrenCase(s, op.cases[order[j]]) && Queue(s.ws[op.cases[order[j]].w], !op.cases[order[j]].send) == []
  }

  /** Thread t's descriptors for an operation. */
  predicate Mine(s: State, t: Tid, op: Op, base: nat) {
    && base + |op.cases| <= s.nextWt
    && forall x | base <= x < base + |op.cases| ::
         x in s.wts && s.wts[x].thread == t && s.wts[x].isSelect == op.select && s.wts[x].cs == op.cases[x - base]
  }

  predicate DoneOk(s: State, th: Thread, op: Op, i: int, ok: bool)
    requires OpOk(s, op)
  {
    && !th.selectDone && th.winner == None && -1 <= i < |op.cases|
    && th.commits == (if ok then [i] else [])
    && (ok ==> i >= 0)
    && (i == -1 ==> !op.block)
    && (!ok && i >= 0 ==> s.ws[op.cases[i].w].closed)
  }

  predicate WakeOk(s: State, t: Tid, op: Op, x: WtId, i: int)
    requires t in s.ts
  {
    !s.ts[t].selectDone && s.ts[t].winner == None && 0 <= i < |op.cases| && s.ts[t].commits == [i] && HeldBy(s, x, t)
  }

  predicate HeldBy(s: State, x: WtId, t: Tid) {
    x in s.wts && s.wts[x].place == Held(t)
  }

  predicate ListOk(s: State, t: Tid, list: seq<WtId>)
    requires t in s.ts
  {
    Fresh(s.ts[t]) && (forall x | x in list :: HeldBy(s, x, t))
        && forall i, j | 0 <= i < j < |list| :: list[i] != list[j]
  }

  predicate ParkedOk(s: State, t: Tid, op: Op, base: nat)
    requires t in s.ts
  {
    var th := s.ts[t];
    && op.block && Mine(s, t, op, base) && th.selectDone == (th.winner.Some? && op.select)
    && (th.winner == None ==> th.commits == [] && forall x | base <= x < base + |op.cases| ::
        x in s.wts
        && s.wts[x].place == Queued)
    && (th.winner.Some? ==>
        base <= th.winner.value < base + |op.cases| && th.winner.value in s.wts
        && s.wts[th.winner.value].place.Held?)
  }

  predicate AwakeOk(s: State, t: Tid, op: Op, base: nat)
    requires t in s.ts
  {
    var th := s.ts[t];
    && op.block && Mine(s, t, op, base) && th.selectDone == op.select && th.winner.Some? && th.waker == th.winner
    && var x := th.winner.value;
    && base <= x < base + |op.cases| && x in s.wts && s.wts[x].place == Gone
    && (s.wts[x].success ==> th.commits == [x - base])
    && (!s.wts[x].success ==> th.commits == [] && s.wts[x].cs.w in s.ws && s.ws[s.wts[x].cs.w].closed)
  }

  /** Thread t is queueing its descriptors; the first o of the order are queued. */
  ghost predicate EnqueueOk(s: State, t: Tid, op: Op, base: nat, order: seq<int>, o: nat)
    requires OpOk(s, op)
  {
    && IsOrder(order, |op.cases|) && o < |order| && op.block
    && AllBarren(s, op) && AllLonely(s, op, t) && Mine(s, t, op, base)
    && forall k | 0 <= k < |order| ::
         base + order[k] in s.wts && s.wts[base + order[k]].place == if k < o then Queued else Gone
  }

  ghost predicate ThreadOk(s: State, t: Tid)
    requires t in s.ts
  {
    match s.ts[t].pc
    case Idle => Fresh(s.ts[t])
    case PeekClosed(op) => Fresh(s.ts[t]) && OpOk(s, op) && !op.block && !op.select && op.cases[0].send
    case PeekFull(op) => Fresh(s.ts[t]) && OpOk(s, op) && !op.block && !op.select && op.cases[0].send
    case PeekEmpty(op) => Fresh(s.ts[t]) && OpOk(s, op) && !op.block && !op.select && !op.cases[0].send
    case PeekOpen(op) => Fresh(s.ts[t]) && OpOk(s, op) && !op.block && !op.select && !op.cases[0].send
    case PeekEmptyAgain(op) =>
      Fresh(s.ts[t]) && OpOk(s, op) && !op.block && !op.select && !op.cases[0].send && s.ws[op.cases[0].w].closed
    case Want(op) => Fresh(s.ts[t]) && OpOk(s, op)
    case Poll(op, order, o) =>
      Fresh(s.ts[t]) && OpOk(s, op) && IsOrder(order, |op.cases|) && o < |order| && Polled(s, op, order, o)
    case Pop(op, order, o) =>
      && Fresh(s.ts[t]) && OpOk(s, op) && IsOrder(order, |op.cases|) && o < |order| && Polled(s, op, order, o)
      && (op.cases[order[o]].send || !op.select ==> !s.ws[op.cases[order[o]].w].closed)
    case Buffer(op, order, o) =>
      && Fresh(s.ts[t]) && OpOk(s, op) && IsOrder(order, |op.cases|) && o < |order| && Polled(s, op, order, o)
      && var c := op.cases[order[o]];
      && (c.send ==> !s.ws[c.w].closed)
      && (!op.select && s.ws[c.w].closed ==> s.ws[c.w].count > 0)
      && (Queue(s.ws[c.w], !c.send) == [] || (!op.select && s.ws[c.w].closed))
    case Barren(op) => Fresh(s.ts[t]) && OpOk(s, op) && AllBarren(s, op) && AllLonely(s, op, t)
    case Enqueue(op, base, order, o) => Fresh(s.ts[t]) && OpOk(s, op) && EnqueueOk(s, t, op, base, order, o)
    case Unlock(op, after) =>
      OpOk(s, op) &&
      (match after
       case ToDone(i, ok) => DoneOk(s, s.ts[t], op, i, ok)
       case ToWake(x, i) => WakeOk(s, t, op, x, i)
       case ToPark(base) => s.ts[t].winner == None && ParkedOk(s, t, op, base))
    case Wake(op, x, i) => OpOk(s, op) && WakeOk(s, t, op, x, i)
    case Parked(op, base) => OpOk(s, op) && ParkedOk(s, t, op, base)
    case Awake(op, base) => OpOk(s, op) && AwakeOk(s, t, op, base)
    case Done(op, i, ok) => OpOk(s, op) && DoneOk(s, s.ts[t], op, i, ok)
    case CloseWant(w) => Fresh(s.ts[t]) && w in s.ws
    case CloseMark(w) => Fresh(s.ts[t]) && w in s.ws
    case ClosePop(w, sending, list) =>
      ListOk(s, t, list) && w in s.ws && s.ws[w].closed && (sending ==> s.ws[w].recvq == [])
    case CloseUnlock(w, list) => ListOk(s, t, list) && w in s.ws && s.ws[w].closed
    case CloseReady(list) => ListOk(s, t, list)
  }

  /** The descriptor x agrees with its thread, with the queue it is on, and with whoever has taken it off. */
  ghost predicate WtOk(s: State, x: WtId)
    requires x in s.wts
  {
    var d := s.wts[x];
    && x < s.nextWt && d.thread in s.ts && d.cs.w in s.ws
    && var u := s.ts[d.thread];
    && (d.place == Queued ==> Covers(u.pc, x) && u.winner != Some(x) && x in Queue(s.ws[d.cs.w], d.cs.send))
    && (d.place.Held? ==>
          && d.place.holder in s.ts && d.place.holder != d.thread && HoldsWt(s.ts[d.place.holder].pc, x)
          && u.pc.Parked? && Covers(u.pc, x) && u.winner == Some(x)
          && (if Closer(s.ts[d.place.holder].pc) then u.commits == []
              && s.ws[d.cs.w].closed else u.commits == [x - u.pc.base]))
  }

  ghost predicate QueueOk(s: State, w: Wid, send: bool)
    requires w in s.ws
  {
    var q := Queue(s.ws[w], send);
    && (forall i, j | 0 <= i < j < |q| :: q[i] != q[j])
    && (forall x | x in q :: x in s.wts && s.wts[x].place == Queued && s.wts[x].cs == Case(w, send))
  }

  /** A queued descriptor whose thread has not been chosen yet. */
  predicate Live(s: State, x: WtId) {
    x in s.wts && s.wts[x].thread in s.ts && s.ts[s.wts[x].thread].winner == None
  }

  /** The thread closing w is still emptying its queues, at least from this one on. */
  predicate Closing(s: State, w: Wid, send: bool)
    requires w in s.ws
  {
    s.ws[w].lock.Some? && s.ws[w].lock.value in s.ts &&
    var pc := s.ts[s.ws[w].lock.value].pc;
    pc.ClosePop? && pc.w == w && (send || !pc.sending)
  }

  ghost predicate LiveOk(s: State, w: Wid, send: bool, x: WtId)
    requires w in s.ws
  {
    x in Queue(s.ws[w], send) && Live(s, x) ==>
      && s.ws[w].count == (if send then s.ws[w].size else 0)
      && (s.ws[w].closed ==> Closing(s, w, send))
  }

  ghost predicate PairOk(s: State, w: Wid, x: WtId, y: WtId)
    requires w in s.ws
  {
    x in s.ws[w].recvq && y in s.ws[w].sendq && Live(s, x) && Live(s, y) ==> s.wts[x].thread == s.wts[y].thread
  }

  ghost predicate CountOk(w: Waitable) {
    w.count <= w.size && w.sends == w.waits + w.count
  }

  ghost predicate Inv(s: State) {
    && LocksInv(s)
    && (forall t {:trigger ThreadOk(s, t)} | t in s.ts :: ThreadOk(s, t))
    && (forall x {:trigger WtOk(s, x)} | x in s.wts :: WtOk(s, x))
    && (forall w, send {:trigger QueueOk(s, w, send)} | w in s.ws :: QueueOk(s, w, send))
    && (forall w, send, x {:trigger LiveOk(s, w, send, x)} | w in s.ws :: LiveOk(s, w, send, x))
    && (forall w, x, y {:trigger PairOk(s, w, x, y)} | w in s.ws :: PairOk(s, w, x, y))
    && (forall w {:trigger CountOk(s.ws[w])} | w in s.ws :: CountOk(s.ws[w]))
  }

  lemma InitInv(s: State)
    requires Init(s)
    ensures Inv(s)
  {
  }
}
