/**
 The ticketed notify list of kernel/sync/notify_list.c as a transition system: any number of threads
 taking tickets, waiting, and notifying one or all. Tickets count upwards without bound here;
 LessAgrees says when the program's 32-bit comparison gives the same answer.
*/
module NotifyListProtocol {
  import opened Permutation

  type Tid = int

  datatype Option<T> = None | Some(value: T)

  /** Where the descriptor of a parked thread is. */
  datatype Place = Listed | Held(holder: Tid)

  datatype Pc =
    | Idle
    | HasTicket(k: nat)                         // between notify_list_add and notify_list_wait
    | Parked(k: nat, place: Place)
    // notify_list_notify_all
    | AllPeek(w: nat)                           // has loaded wait without the lock
    | AllLock
    | AllLoad(list: seq<Tid>)                   // has taken the list, about to load wait
    | AllStore(list: seq<Tid>, w: nat)          // about to set notify to w, and to unlock
    | ReadyList(list: seq<Tid>)
    // notify_list_notify_one
    | OnePeek(w: nat)
    | OneLock
    | OneCheck                                  // has the lock, about to compare notify and wait
    | OneStore(k: nat)                          // about to set notify to k + 1
    | OneScan(k: nat)                           // about to look for ticket k, and to unlock

  /** `owner` says who took each ticket, `past` which tickets have gone through. */
  datatype State = State(wait: nat, notify: nat, lock: Option<Tid>, list: seq<Tid>, pcs: map<Tid, Pc>,
                         owner: seq<Tid>, past: set<nat>)

  ghost predicate Init(s: State) {
    s == State(0, 0, None, [], s.pcs, [], {}) && forall t | t in s.pcs :: s.pcs[t] == Idle
  }

  function Ticket(pc: Pc): Option<nat> {
    match pc
    case HasTicket(k) => Some(k)
    case Parked(k, place) => Some(k)
    case _ => None
  }

  predicate Locked(pc: Pc) {
    pc.AllLoad? || pc.AllStore? || pc.OneCheck? || pc.OneStore? || pc.OneScan?
  }

  /** The threads a notifier has taken off the list. */
  predicate Holds(pc: Pc, t: Tid) {
    match pc
    case AllLoad(list) => t in list
    case AllStore(list, w) => t in list
    case ReadyList(list) => t in list
    case _ => false
  }

  // ---------------------------------------------------------------- steps

  function SetPc(s: State, t: Tid, pc: Pc): State {
    s.(pcs := s.pcs[t := pc])
  }

  /** All threads of a list now belong to the holder. */
  function Take(pcs: map<Tid, Pc>, list: seq<Tid>, holder: Tid): map<Tid, Pc> {
    map t | t in pcs :: if t in list && pcs[t].Parked? then pcs[t].(place := Held(holder)) else pcs[t]
  }

  /** The position of the first listed thread with ticket k. */
  function Find(pcs: map<Tid, Pc>, list: seq<Tid>, k: nat): (i: nat)
    ensures i <= |list|
    ensures i < |list| ==> list[i] in pcs && Ticket(pcs[list[i]]) == Some(k)
    ensures forall j | 0 <= j < i :: list[j] in pcs ==> Ticket(pcs[list[j]]) != Some(k)
  {
    if list == [] then 0
    else if list[0] in pcs && Ticket(pcs[list[0]]) == Some(k) then 0
    else 1 + Find(pcs, list[1..], k)
  }

  ghost predicate Step(s: State, s': State, t: Tid)
    requires t in s.pcs
  {
    match s.pcs[t]
    case Idle =>
      || s' == SetPc(s, t, HasTicket(s.wait)).(wait := s.wait + 1, owner := s.owner + [t])
      || s' == SetPc(s, t, AllPeek(s.wait))
      || s' == SetPc(s, t, OnePeek(s.wait))
    // notify_list_wait
    case HasTicket(k) =>
      s.lock == None &&
      s' == if k < s.notify then SetPc(s, t, Idle).(past := s.past + {k})
            else SetPc(s, t, Parked(k, Listed)).(list := s.list + [t])
    case Parked(k, place) => false
    case AllPeek(w) => s' == SetPc(s, t, if w == s.notify then Idle else AllLock)
    case AllLock =>
      s.lock == None && s' == s.(lock := Some(t), list := [], pcs := Take(s.pcs, s.list, t)[t := AllLoad(s.list)])
    case AllLoad(list) => s' == SetPc(s, t, AllStore(list, s.wait))
    case AllStore(list, w) => s' == SetPc(s, t, ReadyList(list)).(notify := w, lock := None)
    case ReadyList(list) =>
      if list == [] then s' == SetPc(s, t, Idle)
      else list[0] in s.pcs && s' == ReadyFirst(s, t, list)
    case OnePeek(w) => s' == SetPc(s, t, if w == s.notify then Idle else OneLock)
    case OneLock => s.lock == None && s' == SetPc(s, t, OneCheck).(lock := Some(t))
    case OneCheck =>
      s' == if s.notify == s.wait then SetPc(s, t, Idle).(lock := None) else SetPc(s, t, OneStore(s.notify))
    case OneStore(k) => s' == SetPc(s, t, OneScan(k)).(notify := k + 1)
    case OneScan(k) =>
      var i := Find(s.pcs, s.list, k);
      s' == if i < |s.list| then
              s.(lock := None, list := s.list[..i] + s.list[i + 1..],
                  pcs := Take(s.pcs, [s.list[i]], t)[t := ReadyList([s.list[i]])])
            else SetPc(s, t, Idle).(lock := None)
  }

  /** scheduler_ready_thread of the first thread in hand, which asserts that it is parked. */
  function ReadyFirst(s: State, t: Tid, list: seq<Tid>): State
    requires t in s.pcs && list != [] && list[0] in s.pcs
  {
    var u := list[0];
    var k := Ticket(s.pcs[u]);
    s.(pcs := s.pcs[u := Idle][t := ReadyList(list[1..])], past := s.past + (if k.Some? then {k.value} else {}))
  }

  ghost predicate Next(s: State, s': State) {
    exists t :: t in s.pcs && Step(s, s', t)
  }

  ghost predicate Run(run: seq<State>) {
    |run| > 0 && Init(run[0]) && forall i | 0 <= i < |run| - 1 :: Next(run[i], run[i + 1])
  }

  // ---------------------------------------------------------------- the invariant

  /** What a thread knows. */
  ghost predicate ThreadOk(s: State, t: Tid)
    requires t in s.pcs
  {
    && (s.lock == Some(t) <==> Locked(s.pcs[t]))
    && match s.pcs[t]
       case HasTicket(k) => true
       case Parked(k, place) =>
         (match place
          case Listed =>
            t in s.list && (k >= s.notify
                || (s.lock.Some? && s.lock.value in s.pcs && s.pcs[s.lock.value] == OneScan(k)))
          case Held(h) => h in s.pcs && h != t && Holds(s.pcs[h], t) && (s.pcs[h].ReadyList? ==> k < s.notify))
       case AllLoad(list) => HandOk(s, t, list) && s.list == []
       case AllStore(list, w) =>
         HandOk(s, t, list) && s.list == [] && s.notify <= w <= s.wait && forall u | u in list :: TicketBelow(s, u, w)
       case ReadyList(list) => HandOk(s, t, list)
       case OneStore(k) => k == s.notify < s.wait
       case OneScan(k) => k + 1 == s.notify
       case _ => true
  }

  predicate TicketBelow(s: State, u: Tid, w: nat) {
    u in s.pcs && s.pcs[u].Parked? && s.pcs[u].k < w
  }

  predicate HandOk(s: State, t: Tid, list: seq<Tid>) {
    Distinct(list) && forall u | u in list :: u in s.pcs && s.pcs[u].Parked? && s.pcs[u].place == Held(t)
  }

  /** Every ticket that was taken has gone through, or is with the thread that took it. */
  ghost predicate TicketOk(s: State, k: nat)
    requires k < |s.owner|
  {
    k in s.past || (s.owner[k] in s.pcs && Ticket(s.pcs[s.owner[k]]) == Some(k))
  }

  ghost predicate OwnerOk(s: State, t: Tid)
    requires t in s.pcs
  {
    Ticket(s.pcs[t]).Some? ==> var k := Ticket(s.pcs[t]).value; k < |s.owner| && s.owner[k] == t && k !in s.past
  }

  ghost predicate ListOk(s: State) {
    Distinct(s.list) && forall u | u in s.list :: u in s.pcs && s.pcs[u].Parked? && s.pcs[u].place == Listed
  }

  ghost predicate Inv(s: State) {
    && s.notify <= s.wait == |s.owner| && ListOk(s)
    && (s.lock.Some? ==> s.lock.value in s.pcs)
    && (forall k | k in s.past :: k < s.notify)
    && (forall t {:trigger ThreadOk(s, t)} | t in s.pcs :: ThreadOk(s, t))
    && (forall t {:trigger OwnerOk(s, t)} | t in s.pcs :: OwnerOk(s, t))
    && (forall k {:trigger TicketOk(s, k)} | 0 <= k < |s.owner| :: TicketOk(s, k))
  }

  lemma InitInv(s: State)
    requires Init(s)
    ensures Inv(s)
  {
  }

  // ---------------------------------------------------------------- preservation

  /**
   A step that changes only the lock, and the program counter of a thread without ticket and without anything
   in hand.
  */
  ghost predicate Plain(s: State, s': State, t: Tid)
    requires t in s.pcs
  {
    && t in s'.pcs && s' == s.(lock := s'.lock, pcs := s.pcs[t := s'.pcs[t]])
    && Ticket(s.pcs[t]) == None && Ticket(s'.pcs[t]) == None
    && (forall u :: !Holds(s.pcs[t], u)) && !s.pcs[t].OneScan?
    && (s'.lock == s.lock || (s.lock == None && s'.lock == Some(t)) || (s.lock == Some(t) && s'.lock == None))
  }

  lemma PlainInv(s: State, s': State, t: Tid)
    requires Inv(s) && t in s.pcs && Plain(s, s', t) && ThreadOk(s', t)
    ensures Inv(s')
  {
    assert ThreadOk(s, t);
    forall u | u in s'.pcs
      ensures ThreadOk(s', u) && OwnerOk(s', u)
    {
      assert ThreadOk(s, u) && OwnerOk(s, u);
      if u != t {
        PlainOthers(s, s', t, u);
      }
    }
    PlainTickets(s, s', t);
  }

  lemma PlainOthers(s: State, s': State, t: Tid, u: Tid)
    requires t in s.pcs && u in s.pcs && t != u && Plain(s, s', t) && ThreadOk(s, t) && ThreadOk(s, u)
    requires s.lock.Some? ==> s.lock.value in s.pcs
    ensures ThreadOk(s', u)
  {
  }

  lemma PlainTickets(s: State, s': State, t: Tid)
    requires Inv(s) && t in s.pcs && Plain(s, s', t)
    ensures forall k {:trigger TicketOk(s', k)} | 0 <= k < |s'.owner| :: TicketOk(s', k)
  {
    forall k | 0 <= k < |s'.owner|
      ensures TicketOk(s', k)
    {
      assert TicketOk(s, k);
    }
  }

  /** notify_list_add */
  lemma AddInv(s: State, s': State, t: Tid)
    requires Inv(s) && t in s.pcs && Step(s, s', t) && s.pcs[t].Idle? && s'.wait == s.wait + 1
    ensures Inv(s')
  {
    assert ThreadOk(s, t);
    assert s' == SetPc(s, t, HasTicket(s.wait)).(wait := s.wait + 1, owner := s.owner + [t]);
    AddListOk(s, s', t);
    forall u | u in s'.pcs
      ensures ThreadOk(s', u) && OwnerOk(s', u)
    {
      AddOthers(s, s', t, u);
    }
    forall k | 0 <= k < |s'.owner|
      ensures TicketOk(s', k)
    {
      assert k < |s.owner| ==> TicketOk(s, k);
    }
  }

  lemma AddListOk(s: State, s': State, t: Tid)
    requires ListOk(s) && t in s.pcs && s.pcs[t].Idle? && s'.list == s.list && s'.pcs == s.pcs[t := HasTicket(s.wait)]
    ensures ListOk(s')
  {
  }

  lemma AddOthers(s: State, s': State, t: Tid, u: Tid)
    requires Inv(s) && t in s.pcs && s.pcs[t].Idle? && u in s.pcs
    requires s' == SetPc(s, t, HasTicket(s.wait)).(wait := s.wait + 1, owner := s.owner + [t])
    ensures ThreadOk(s', u) && OwnerOk(s', u)
  {
    assert ThreadOk(s, t) && ThreadOk(s, u) && OwnerOk(s, u);
  }

  /** notify_list_wait */
  lemma WaitInv(s: State, s': State, t: Tid)
    requires Inv(s) && t in s.pcs && Step(s, s', t) && s.pcs[t].HasTicket?
    ensures Inv(s')
  {
    assert ThreadOk(s, t) && OwnerOk(s, t);
    forall u | u in s'.pcs
      ensures ThreadOk(s', u) && OwnerOk(s', u)
    {
      assert ThreadOk(s, u) && OwnerOk(s, u);
    }
    forall k | 0 <= k < |s'.owner|
      ensures TicketOk(s', k)
    {
      assert TicketOk(s, k);
    }
  }

  lemma TakeInv(s: State, s': State, t: Tid)
    requires Inv(s) && t in s.pcs && Step(s, s', t) && s.pcs[t].AllLock?
    ensures Inv(s')
  {
    assert ThreadOk(s, t) && OwnerOk(s, t);
    forall u | u in s'.pcs
      ensures ThreadOk(s', u) && OwnerOk(s', u)
    {
      assert ThreadOk(s, u) && OwnerOk(s, u);
    }
    forall k | 0 <= k < |s'.owner|
      ensures TicketOk(s', k)
    {
      assert TicketOk(s, k);
    }
  }

  lemma AllInv(s: State, s': State, t: Tid)
    requires Inv(s) && t in s.pcs && Step(s, s', t) && (s.pcs[t].AllLoad? || s.pcs[t].AllStore?)
    ensures Inv(s')
  {
    assert ThreadOk(s, t) && OwnerOk(s, t);
    forall u | u in s.pcs[t].list
      ensures TicketBelow(s, u, s.wait)
    {
      assert u in s.pcs && OwnerOk(s, u);
    }
    forall u | u in s'.pcs
      ensures ThreadOk(s', u) && OwnerOk(s', u)
    {
      assert ThreadOk(s, u) && OwnerOk(s, u);
      if u == t && s.pcs[t].AllLoad? {
        forall v | v in s.pcs[t].list
          ensures TicketBelow(s', v, s.wait)
        {
          assert TicketBelow(s, v, s.wait);
        }
      }
      if s.pcs[t].AllStore? && u in s.pcs[t].list {
        assert TicketBelow(s, u, s.pcs[t].w);
      }
    }
    forall k | 0 <= k < |s'.owner|
      ensures TicketOk(s', k)
    {
      assert TicketOk(s, k);
    }
  }

  lemma OneStoreInv(s: State, s': State, t: Tid)
    requires Inv(s) && t in s.pcs && Step(s, s', t) && s.pcs[t].OneStore?
    ensures Inv(s')
  {
    assert ThreadOk(s, t) && OwnerOk(s, t);
    forall u | u in s'.pcs
      ensures ThreadOk(s', u) && OwnerOk(s', u)
    {
      assert ThreadOk(s, u) && OwnerOk(s, u);
    }
    forall k | 0 <= k < |s'.owner|
      ensures TicketOk(s', k)
    {
      assert TicketOk(s, k);
    }
  }

  /** The thread about to be readied is parked, is in nobody else's hand, and its ticket has been notified. */
  lemma ReadyFindsParked(s: State, t: Tid)
    requires Inv(s) && t in s.pcs && s.pcs[t].ReadyList? && s.pcs[t].list != []
    ensures var u := s.pcs[t].list[0];
            && u in s.pcs && s.pcs[u].Parked? && s.pcs[u].place == Held(t) && u != t && u !in s.list
            && s.pcs[u].k < s.notify && s.pcs[u].k !in s.past && u !in s.pcs[t].list[1..]
  {
    var list := s.pcs[t].list;
    assert ThreadOk(s, t);
    assert list[0] in list;
    assert ThreadOk(s, list[0]) && OwnerOk(s, list[0]);
    forall j | 0 <= j < |list[1..]|
      ensures list[1..][j] != list[0]
    {
      assert list[1..][j] == list[j + 1];
    }
  }

  lemma ReadyInv(s: State, s': State, t: Tid)
    requires Inv(s) && t in s.pcs && Step(s, s', t) && s.pcs[t].ReadyList? && s.pcs[t].list != []
    ensures Inv(s')
  {
    ReadyFindsParked(s, t);
    var list, v := s.pcs[t].list, s.pcs[t].list[0];
    assert list == [v] + list[1..];
    assert s' == s.(pcs := s.pcs[v := Idle][t := ReadyList(list[1..])], past := s.past + {s.pcs[v].k});
    forall u | u in s'.pcs
      ensures ThreadOk(s', u) && OwnerOk(s', u)
    {
      ReadyOthers(s, s', t, v, list, u);
    }
    forall k | 0 <= k < |s'.owner|
      ensures TicketOk(s', k)
    {
      assert TicketOk(s, k);
    }
  }

  lemma ReadyOthers(s: State, s': State, t: Tid, v: Tid, list: seq<Tid>, u: Tid)
    requires Inv(s) && t in s.pcs && v in s.pcs && u in s.pcs && v != t
    requires list != [] && s.pcs[t] == ReadyList(list) && list == [v] + list[1..] && v !in list[1..]
             && s.pcs[v].Parked? && s.pcs[v].place == Held(t)
    requires s' == s.(pcs := s.pcs[v := Idle][t := ReadyList(list[1..])], past := s.past + {s.pcs[v].k})
    ensures ThreadOk(s', u) && OwnerOk(s', u)
  {
    assert ThreadOk(s, t) && ThreadOk(s, u) && OwnerOk(s, u) && OwnerOk(s, v) && ThreadOk(s, v);
    if u == t {
      TailDistinct(list);
    }
  }

  lemma TailDistinct(list: seq<Tid>)
    requires Distinct(list) && list != []
    ensures Distinct(list[1..])
  {
    forall i, j | 0 <= i < j < |list[1..]|
      ensures list[1..][i] != list[1..][j]
    {
      assert list[1..][i] == list[i + 1] && list[1..][j] == list[j + 1];
    }
  }

  // notify_list_notify_one: the scan

  lemma NotFoundInv(s: State, s': State, t: Tid)
    requires Inv(s) && t in s.pcs && Step(s, s', t) && s.pcs[t].OneScan? && Find(s.pcs, s.list, s.pcs[t].k) == |s.list|
    ensures Inv(s')
  {
    assert ThreadOk(s, t);
    forall u | u in s'.pcs
      ensures ThreadOk(s', u) && OwnerOk(s', u)
    {
      assert ThreadOk(s, u) && OwnerOk(s, u);
    }
    forall k | 0 <= k < |s'.owner|
      ensures TicketOk(s', k)
    {
      assert TicketOk(s, k);
    }
  }

  lemma FoundInv(s: State, s': State, t: Tid)
    requires Inv(s) && t in s.pcs && Step(s, s', t) && s.pcs[t].OneScan? && Find(s.pcs, s.list, s.pcs[t].k) < |s.list|
    ensures Inv(s')
  {
    var k := s.pcs[t].k;
    var i := Find(s.pcs, s.list, k);
    var v := s.list[i];
    assert ThreadOk(s, t);
    assert v in s.list && ThreadOk(s, v) && OwnerOk(s, v);
    WithoutOne(s.list, i);
    assert s'.pcs == s.pcs[v := s.pcs[v].(place := Held(t))][t := ReadyList([v])];
    forall u | u in s'.pcs
      ensures ThreadOk(s', u) && OwnerOk(s', u)
    {
      FoundOthers(s, s', t, v, i, u);
    }
    forall k | 0 <= k < |s'.owner|
      ensures TicketOk(s', k)
    {
      assert TicketOk(s, k);
    }
  }

  lemma WithoutOne(list: seq<Tid>, i: nat)
    requires Distinct(list) && i < |list|
    ensures var r := list[..i] + list[i + 1..];
            Distinct(r) && forall u :: u in r <==> u in list && u != list[i]
  {
    var r := list[..i] + list[i + 1..];
    assert forall j | 0 <= j < |r| :: r[j] == if j < i then list[j] else list[j + 1];
    forall u | u in list && u != list[i]
      ensures u in r
    {
      var j :| 0 <= j < |list| && list[j] == u;
      assert r[if j < i then j else j - 1] == u;
    }
  }

  lemma FoundOthers(s: State, s': State, t: Tid, v: Tid, i: nat, u: Tid)
    requires Inv(s) && t in s.pcs && i < |s.list| && v == s.list[i] && u in s.pcs && v in s.pcs && s.pcs[t].OneScan?
    requires s.pcs[v].Parked? && s.pcs[v].k == s.pcs[t].k
    requires s' == s.(lock := None, list := s.list[..i] + s.list[i + 1..],
             pcs := s.pcs[v := s.pcs[v].(place := Held(t))][t := ReadyList([v])])
    requires forall u :: u in s'.list <==> u in s.list && u != v
    ensures ThreadOk(s', u) && OwnerOk(s', u)
  {
    assert ThreadOk(s, t) && ThreadOk(s, u) && OwnerOk(s, u) && OwnerOk(s, v) && ThreadOk(s, v);
  }

  // ---------------------------------------------------------------- every run

  predicate IsPlain(pc: Pc) {
    pc.Idle? || pc.AllPeek? || pc.OnePeek? || pc.OneLock? || pc.OneCheck? || (pc.ReadyList? && pc.list == [])
  }

  lemma PlainStep(s: State, s': State, t: Tid)
    requires Inv(s) && t in s.pcs && Step(s, s', t) && IsPlain(s.pcs[t]) && s'.wait == s.wait
    ensures Plain(s, s', t) && ThreadOk(s', t)
  {
    assert ThreadOk(s, t);
  }

  lemma StepInv(s: State, s': State, t: Tid)
    requires Inv(s) && t in s.pcs && Step(s, s', t)
    ensures Inv(s')
  {
    var pc := s.pcs[t];
    if IsPlain(pc) && s'.wait == s.wait {
      PlainStep(s, s', t);
      PlainInv(s, s', t);
    } else if pc.Idle? {
      AddInv(s, s', t);
    } else if pc.HasTicket? {
      WaitInv(s, s', t);
    } else if pc.AllLock? {
      TakeInv(s, s', t);
    } else if pc.AllLoad? || pc.AllStore? {
      AllInv(s, s', t);
    } else if pc.ReadyList? {
      ReadyInv(s, s', t);
    } else if pc.OneStore? {
      OneStoreInv(s, s', t);
    } else if Find(s.pcs, s.list, pc.k) < |s.list| {
      FoundInv(s, s', t);
    } else {
      NotFoundInv(s, s', t);
    }
  }

  lemma NextInv(s: State, s': State)
    requires Inv(s) && Next(s, s')
    ensures Inv(s')
  {
    var t :| t in s.pcs && Step(s, s', t);
    StepInv(s, s', t);
  }

  lemma {:induction false} RunInv(run: seq<State>, i: nat)
    requires Run(run) && i < |run|
    ensures Inv(run[i])
  {
    if i == 0 {
      InitInv(run[0]);
    } else {
      RunInv(run, i - 1);
      assert Next(run[i - 1], run[i - 1 + 1]);
      NextInv(run[i - 1], run[i]);
    }
  }

  /** Tickets are handed out once, and each goes through once: it has gone through, or exactly one thread has it. */
  lemma TicketsUnique(run: seq<State>, i: nat, k: nat, t: Tid)
    requires Run(run) && i < |run| && k < run[i].wait && t in run[i].pcs
    ensures var s := run[i];
            && k < |s.owner|
            && (k in s.past ==> Ticket(s.pcs[t]) != Some(k) && k < s.notify)
            && (k !in s.past ==> (Ticket(s.pcs[t]) == Some(k) <==> t == s.owner[k]))
  {
    RunInv(run, i);
    assert TicketOk(run[i], k) && OwnerOk(run[i], t);
  }

  /**
   When nobody has the lock, the threads on the list are exactly the parked ones whose tickets have not been
   notified.
  */
  lemma ListHoldsPending(run: seq<State>, i: nat, t: Tid)
    requires Run(run) && i < |run| && run[i].lock == None && t in run[i].pcs && run[i].pcs[t].Parked?
    ensures var s, k := run[i], run[i].pcs[t].k; (t in s.list <==> s.notify <= k < s.wait)
  {
    RunInv(run, i);
    var s := run[i];
    assert ThreadOk(s, t) && OwnerOk(s, t);
    if s.pcs[t].place.Held? {
      var h := s.pcs[t].place.holder;
      assert ThreadOk(s, h);
    }
  }

  /**
   No notified ticket is forgotten: its thread has gone through, will return from its wait without
   parking, is in the hand of a notifier that will ready it, or is about to be found by the notifier
   that has the lock.
  */
  lemma NotifiedIsWoken(run: seq<State>, i: nat, k: nat)
    requires Run(run) && i < |run| && k < run[i].notify
    ensures k < |run[i].owner| && (k in run[i].past || Handled(run[i], k, run[i].owner[k]))
  {
    RunInv(run, i);
    var s := run[i];
    assert TicketOk(s, k);
    if k !in s.past {
      assert ThreadOk(s, s.owner[k]);
    }
  }

  /** What becomes of thread t with the notified ticket k. */
  ghost predicate Handled(s: State, k: nat, t: Tid) {
    t in s.pcs &&
    match s.pcs[t]
    case HasTicket(j) => j == k                   // will see that its ticket has been notified
    case Parked(j, Held(h)) => j == k && h in s.pcs && Holds(s.pcs[h], t)
    case Parked(j, Listed) =>
      j == k && t in s.list && s.lock.Some? && s.lock.value in s.pcs && s.pcs[s.lock.value] == OneScan(k)
    case _ => false
  }

  /**
   notify_one goes through the tickets in order: it notifies ticket `notify`, and finds its thread wherever it
   is on the list.
  */
  lemma NotifyOneInOrder(run: seq<State>, i: nat, t: Tid)
    requires Run(run) && i < |run| && t in run[i].pcs && run[i].pcs[t].OneScan?
    ensures var s, k := run[i], run[i].pcs[t].k;
            && s.notify == k + 1 && k < |s.owner|
            && forall u | u in s.list && u in s.pcs && Ticket(s.pcs[u]) == Some(k) ::
                 Find(s.pcs, s.list, k) < |s.list| && s.list[Find(s.pcs, s.list, k)] == u
  {
    RunInv(run, i);
    var s, k := run[i], run[i].pcs[t].k;
    assert ThreadOk(s, t);
    var j := Find(s.pcs, s.list, k);
    forall u | u in s.list && u in s.pcs && Ticket(s.pcs[u]) == Some(k)
      ensures j < |s.list| && s.list[j] == u
    {
      var x :| 0 <= x < |s.list| && s.list[x] == u;
      assert OwnerOk(s, u);
      if j < |s.list| {
        assert OwnerOk(s, s.list[j]);
      }
    }
  }

  // ---------------------------------------------------------------- 32-bit tickets

  /** The difference of two 32-bit numbers, read as a signed number. */
  function SignedDifference(a: nat, b: nat): int
    requires a < 0x1_0000_0000 && b < 0x1_0000_0000
  {
    var d := (a - b) % 0x1_0000_0000;
    if d < 0x8000_0000 then d else d - 0x1_0000_0000
  }

  /** less */
  predicate Less(a: nat, b: nat)
    requires a < 0x1_0000_0000 && b < 0x1_0000_0000
  {
    SignedDifference(a, b) < 0
  }

  /**
   With fewer than 2^32 tickets between them, `less` is right exactly while the first ticket is less
   than 2^31 ahead and at most 2^31 behind.
  */
  lemma LessAgrees(a: nat, b: nat)
    requires -0x1_0000_0000 < a - b < 0x1_0000_0000
    ensures (Less(a % 0x1_0000_0000, b % 0x1_0000_0000) <==> a < b) <==> -0x8000_0000 <= a - b < 0x8000_0000
  {
    assert (a % 0x1_0000_0000 - b % 0x1_0000_0000) % 0x1_0000_0000 == (a - b) % 0x1_0000_0000;
  }

  /** From 2^31 ahead on, `less` takes the later ticket for the earlier one; further behind, the other way round. */
  lemma LessFails()
    ensures Less(0x8000_0005, 5) && !(0x8000_0005 < 5)
    ensures !Less(5, 0x8000_0006) && 5 < 0x8000_0006
  {
  }

  /** And equal counters modulo 2^32 are equal counters, as long as fewer than 2^32 tickets are outstanding. */
  lemma EqualAgrees(wait: nat, notify: nat)
    requires notify <= wait < notify + 0x1_0000_0000
    ensures wait % 0x1_0000_0000 == notify % 0x1_0000_0000 <==> wait == notify
  {
  }
}
