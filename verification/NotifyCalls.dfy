/**
 What the calls of kernel/sync/notify_list.c have done when they return: notify_list_notify_all has notified
 every ticket taken before the call, and notify_list_notify_one one ticket more, if there was one.
*/
module NotifyCalls {
  import opened NotifyListProtocol

  // ---------------------------------------------------------------- one step

  /** Both counters only grow. */
  lemma CountersGrow(s: State, s': State)
    requires Inv(s) && Next(s, s')
    ensures s.wait <= s'.wait && s.notify <= s'.notify
  {
    var t :| t in s.pcs && Step(s, s', t);
    assert ThreadOk(s, t);
  }

  /** In notify_list_notify_all, before it has notified anybody; tickets below w were taken before the call. */
  predicate AllUnderWay(pc: Pc, w: nat) {
    match pc
    case AllPeek(v) => w <= v
    case AllLock => true
    case AllLoad(list) => true
    case AllStore(list, v) => w <= v
    case _ => false
  }

  predicate InNotifyAll(pc: Pc) {
    pc.AllPeek? || pc.AllLock? || pc.AllLoad? || pc.AllStore?
  }

  /** A notify_all that is under way goes on, or has notified all those tickets. */
  lemma AllStep(s: State, s': State, t: Tid, w: nat)
    requires Inv(s) && Next(s, s') && t in s.pcs && AllUnderWay(s.pcs[t], w) && w <= s.wait
    ensures t in s'.pcs && (AllUnderWay(s'.pcs[t], w) || (!InNotifyAll(s'.pcs[t]) && w <= s'.notify))
  {
    var u :| u in s.pcs && Step(s, s', u);
    assert ThreadOk(s, t) && ThreadOk(s, u);
    if u != t {
      OthersMove(s, s', u, t);
    }
  }

  /** A thread that is not parked is moved by nobody else. */
  lemma OthersMove(s: State, s': State, u: Tid, t: Tid)
    requires Inv(s) && u in s.pcs && Step(s, s', u) && t in s.pcs && t != u && !s.pcs[t].Parked?
    ensures t in s'.pcs && s'.pcs[t] == s.pcs[t]
  {
    if s.pcs[u].ReadyList? && s.pcs[u].list != [] {
      ReadyFindsParked(s, u);
    }
  }

  predicate InNotifyOne(pc: Pc) {
    pc.OnePeek? || pc.OneLock? || pc.OneCheck? || pc.OneStore?
  }

  /** In notify_list_notify_one, before it has notified anybody. */
  predicate OneUnderWay(pc: Pc, w: nat) {
    match pc
    case OnePeek(v) => w <= v
    case OneLock => true
    case OneCheck => true
    case OneStore(k) => true
    case _ => false
  }

  /** A notify_one goes on, finds nothing left to notify, or notifies the next ticket. */
  lemma OneStep(s: State, s': State, t: Tid, w: nat)
    requires Inv(s) && Next(s, s') && t in s.pcs && OneUnderWay(s.pcs[t], w) && w <= s.wait
    ensures t in s'.pcs
    ensures || OneUnderWay(s'.pcs[t], w)
            || (s'.pcs[t].Idle? && w <= s'.notify == s.notify)
            || (s'.pcs[t] == OneScan(s.notify) && s'.notify == s.notify + 1)
  {
    var u :| u in s.pcs && Step(s, s', u);
    assert ThreadOk(s, t) && ThreadOk(s, u);
    if u != t {
      OthersMove(s, s', u, t);
    }
  }

  // ---------------------------------------------------------------- whole runs

  lemma StepOf(run: seq<State>, k: nat)
    requires Run(run) && k + 1 < |run|
    ensures Inv(run[k]) && Next(run[k], run[k + 1])
  {
    RunInv(run, k);
    assert Next(run[k], run[k + 1]);
  }

  predicate Grows(run: seq<State>, k: nat) {
    k + 1 < |run| && run[k].wait <= run[k + 1].wait && run[k].notify <= run[k + 1].notify
  }

  lemma {:induction false} GrowsAlong(run: seq<State>, i: nat, j: nat)
    requires i <= j < |run| && forall k: nat | i <= k < j :: Grows(run, k)
    ensures run[i].wait <= run[j].wait && run[i].notify <= run[j].notify
  {
    if i < j {
      GrowsAlong(run, i, j - 1);
      assert Grows(run, j - 1);
    }
  }

  /** Both counters only grow, in every run. */
  lemma CountersOnlyGrow(run: seq<State>, i: nat, j: nat)
    requires Run(run) && i <= j < |run|
    ensures run[i].wait <= run[j].wait && run[i].notify <= run[j].notify
  {
    forall k: nat | i <= k < j
      ensures Grows(run, k)
    {
      StepOf(run, k);
      CountersGrow(run[k], run[k + 1]);
    }
    GrowsAlong(run, i, j);
  }

  predicate AllAt(run: seq<State>, k: nat, t: Tid) {
    k < |run| && t in run[k].pcs && InNotifyAll(run[k].pcs[t])
  }

  predicate OneAt(run: seq<State>, k: nat, t: Tid) {
    k < |run| && t in run[k].pcs && InNotifyOne(run[k].pcs[t])
  }

  /** In the i-th step thread t calls notify_list_notify_all, or notify_list_notify_one. */
  predicate Calls(run: seq<State>, i: nat, t: Tid, all: bool) {
    && i + 1 < |run| && t in run[i].pcs && run[i].pcs[t].Idle? && t in run[i + 1].pcs
    && if all then run[i + 1].pcs[t].AllPeek? else run[i + 1].pcs[t].OnePeek?
  }

  /** A call begins by loading the number of tickets taken so far. */
  lemma CallLoads(run: seq<State>, i: nat, t: Tid, all: bool)
    requires Run(run) && Calls(run, i, t, all)
    ensures run[i + 1].pcs[t] == (if all then AllPeek(run[i].wait) else OnePeek(run[i].wait))
    ensures run[i].wait <= run[i + 1].wait
  {
    StepOf(run, i);
    CountersGrow(run[i], run[i + 1]);
    var s, s' := run[i], run[i + 1];
    var u :| u in s.pcs && Step(s, s', u);
    if u != t {
      OthersMove(s, s', u, t);
    }
  }

  /** In the k-th step the notify_all of thread t goes on, or has notified the tickets below w. */
  predicate AllGoesOn(run: seq<State>, k: nat, t: Tid, w: nat) {
    k + 1 < |run| && (AllUnderWayAt(run, k, t, w) ==> AllUnderWayAt(run, k + 1, t, w) || AllDone(run, k + 1, t, w))
  }

  predicate AllUnderWayAt(run: seq<State>, k: nat, t: Tid, w: nat) {
    k < |run| && t in run[k].pcs && AllUnderWay(run[k].pcs[t], w) && w <= run[k].wait
  }

  predicate AllDone(run: seq<State>, k: nat, t: Tid, w: nat) {
    k < |run| && t in run[k].pcs && !InNotifyAll(run[k].pcs[t]) && w <= run[k].notify
  }

  lemma AllStepAt(run: seq<State>, k: nat, t: Tid, w: nat)
    requires Run(run) && k + 1 < |run|
    ensures AllGoesOn(run, k, t, w)
  {
    if AllUnderWayAt(run, k, t, w) {
      StepOf(run, k);
      CountersGrow(run[k], run[k + 1]);
      AllStep(run[k], run[k + 1], t, w);
    }
  }

  lemma {:induction false} AllAlong(run: seq<State>, i: nat, j: nat, t: Tid, w: nat)
    requires i < j < |run| && AllUnderWayAt(run, i + 1, t, w)
    requires forall k: nat | i < k < j :: AllAt(run, k, t) && AllGoesOn(run, k, t, w)
    ensures AllUnderWayAt(run, j, t, w) || AllDone(run, j, t, w)
  {
    if i + 1 < j {
      AllAlong(run, i, j - 1, t, w);
      assert AllAt(run, j - 1, t) && AllGoesOn(run, j - 1, t, w);
    }
  }

  /** When notify_all is done with the counters, every ticket taken before the call has been notified. */
  lemma AllNotifies(run: seq<State>, i: nat, j: nat, t: Tid)
    requires Run(run) && Calls(run, i, t, true) && i < j < |run|
    requires (forall k: nat | i < k < j :: AllAt(run, k, t)) && !AllAt(run, j, t)
    ensures run[i].wait <= run[j].notify
  {
    CallLoads(run, i, t, true);
    forall k: nat | i < k < j
      ensures AllGoesOn(run, k, t, run[i].wait)
    {
      AllStepAt(run, k, t, run[i].wait);
    }
    AllAlong(run, i, j, t, run[i].wait);
  }

  /**
   When notify_all has returned, the thread of every ticket taken before the call has gone through, will
   not park, or is in the hand of another notifier.
  */
  lemma NotifyAllWakes(run: seq<State>, i: nat, j: nat, n: nat, t: Tid, k: nat)
    requires Run(run) && Calls(run, i, t, true) && i < j <= n < |run|
    requires (forall m: nat | i < m < j :: AllAt(run, m, t)) && !AllAt(run, j, t)
    requires t in run[n].pcs && run[n].pcs[t].Idle? && k < run[i].wait
    ensures var s := run[n];
            k < |s.owner| && (k in s.past || (Handled(s, k, s.owner[k]) && !Holds(s.pcs[t], s.owner[k])))
  {
    AllNotifies(run, i, j, t);
    CountersOnlyGrow(run, j, n);
    NotifiedIsWoken(run, n, k);
  }

  predicate OneUnderWayAt(run: seq<State>, k: nat, t: Tid, w: nat) {
    k < |run| && t in run[k].pcs && OneUnderWay(run[k].pcs[t], w) && w <= run[k].wait
  }

  /** The notify_one of thread t has notified one ticket more, or found nothing left to notify. */
  predicate OneDone(run: seq<State>, k: nat, t: Tid, w: nat) {
    && 0 < k < |run| && t in run[k].pcs
    && (|| (run[k].pcs[t] == OneScan(run[k - 1].notify) && run[k].notify == run[k - 1].notify + 1)
        || (run[k].pcs[t].Idle? && w <= run[k].notify))
  }

  predicate OneGoesOn(run: seq<State>, k: nat, t: Tid, w: nat) {
    k + 1 < |run| && (OneUnderWayAt(run, k, t, w) ==> OneUnderWayAt(run, k + 1, t, w) || OneDone(run, k + 1, t, w))
  }

  lemma OneStepAt(run: seq<State>, k: nat, t: Tid, w: nat)
    requires Run(run) && k + 1 < |run|
    ensures OneGoesOn(run, k, t, w)
  {
    if OneUnderWayAt(run, k, t, w) {
      StepOf(run, k);
      CountersGrow(run[k], run[k + 1]);
      OneStep(run[k], run[k + 1], t, w);
    }
  }

  lemma {:induction false} OneAlong(run: seq<State>, i: nat, j: nat, t: Tid, w: nat)
    requires i < j < |run| && OneUnderWayAt(run, i + 1, t, w)
    requires forall k: nat | i < k < j :: OneAt(run, k, t) && OneGoesOn(run, k, t, w)
    ensures OneUnderWayAt(run, j, t, w) || OneDone(run, j, t, w)
  {
    if i + 1 < j {
      OneAlong(run, i, j - 1, t, w);
      assert OneAt(run, j - 1, t) && OneGoesOn(run, j - 1, t, w);
    }
  }

  /**
   notify_one notifies the next ticket and goes on to look for its thread, or returns because every
   ticket taken before the call has been notified already.
  */
  lemma OneNotifies(run: seq<State>, i: nat, j: nat, t: Tid)
    requires Run(run) && Calls(run, i, t, false) && i < j < |run|
    requires (forall k: nat | i < k < j :: OneAt(run, k, t)) && !OneAt(run, j, t)
    ensures OneDone(run, j, t, run[i].wait)
  {
    CallLoads(run, i, t, false);
    forall k: nat | i < k < j
      ensures OneGoesOn(run, k, t, run[i].wait)
    {
      OneStepAt(run, k, t, run[i].wait);
    }
    OneAlong(run, i, j, t, run[i].wait);
  }
}
