/** Exactly-once delivery for runs whose sends are all synchronous, and a condition
    on capability changes that guarantees it. */
module IpcSync {
  import opened Core
  import opened Sched
  import opened Ipc
  import opened IpcMachine
  import opened IpcInvariant
  import opened IpcLedger
  import opened IpcOnce

  // ---- Runs whose sends are all synchronous ----

  ghost predicate AllSync(events: seq<Event>) {
    forall j :: 0 <= j < |events| ==> !events[j].AsyncSend?
  }

  ghost predicate NoRetryDelivery(states: seq<Sys>, events: seq<Event>)
    requires IsRun(states, events)
  {
    forall j :: 0 <= j < |events| ==> !RetryDelivers(states[j], events[j])
  }

  /** Without asynchronous sends the queues stay empty, and a buffer holds either
      its task's own parked message or a delivery its receive has yet to pick up. */
  ghost predicate SyncOk(s: Sys, i: nat) {
    && QueueOf(s, i) == []
    && (BufferOf(s, i).Some? ==>
          i < |s.pcs| && (InReceive(s.pcs[i]) || (InSend(s.pcs[i]) && Holds(s, Buf(i), s.pcs[i].req.msg.serial))))
  }

  ghost predicate SyncInv(s: Sys) {
    forall i: nat :: SyncOk(s, i)
  }

  lemma SyncTry(s: Sys)
    requires Ledger(s) && SyncInv(s) && Enabled(s, TrySend) && !RetryDelivers(s, TrySend)
    ensures SyncInv(Next(s, TrySend))
  {
    var s' := Next(s, TrySend);
    var c := s.current.value;
    TryRecord(s);
    forall i: nat ensures SyncOk(s', i) {
      assert SyncOk(s, i) && SyncOk(s, c);
      TryMessages(s, Buf(i));
      TryMessages(s, Que(i, 0));
      if AttemptResult(s) == Ok(Delivered) && i == SendTarget(s) {
        assert TaskOk(s, i);
      }
    }
  }

  lemma SyncReceive(s: Sys, e: Event)
    requires Ledger(s) && SyncInv(s) && Enabled(s, e) && (e.TryReceive? || e.AsyncReceive?)
    ensures SyncInv(Next(s, e))
  {
    var s' := Next(s, e);
    var c := s.current.value;
    assert SyncOk(s, c);
    if TakenFrom(s).None? {
      ReceiveNone(s, e);
    } else {
      ReceiveMessages(s, e);
    }
    forall i: nat ensures SyncOk(s', i) {
      assert SyncOk(s, i);
      if TakenFrom(s).None? {
        assert MessageAt(s', Buf(i)) == MessageAt(s, Buf(i));
        assert MessageAt(s', Que(i, 0)) == MessageAt(s, Que(i, 0));
      }
    }
  }

  lemma SyncQuiet(s: Sys, s': Sys)
    requires SyncInv(s) && SameMessages(s, s') && |s'.pcs| == |s.pcs|
    requires forall i: nat :: i < |s.pcs| && (InSend(s.pcs[i]) || InReceive(s.pcs[i])) && BufferOf(s, i).Some? ==>
               && InSend(s'.pcs[i]) == InSend(s.pcs[i]) && InReceive(s'.pcs[i]) == InReceive(s.pcs[i])
               && (InSend(s.pcs[i]) ==> s'.pcs[i].req == s.pcs[i].req)
    ensures SyncInv(s')
  {
    forall i: nat ensures SyncOk(s', i) {
      assert SyncOk(s, i);
      assert MessageAt(s', Buf(i)) == MessageAt(s, Buf(i));
      assert MessageAt(s', Que(i, 0)) == MessageAt(s, Que(i, 0));
    }
  }

  lemma SyncClear(s: Sys)
    requires Ledger(s) && SyncInv(s) && Enabled(s, ClearGone)
    ensures SyncInv(Next(s, ClearGone))
  {
    forall i: nat ensures SyncOk(Next(s, ClearGone), i) {
      assert SyncOk(s, i);
      ClearMessages(s, Buf(i));
      ClearMessages(s, Que(i, 0));
    }
  }

  lemma SyncNext(s: Sys, e: Event)
    requires Ledger(s) && SyncInv(s) && Enabled(s, e) && !RetryDelivers(s, e) && !e.AsyncSend?
    ensures SyncInv(Next(s, e))
  {
    if e.TrySend? {
      SyncTry(s);
    } else if e.TryReceive? || e.AsyncReceive? {
      SyncReceive(s, e);
    } else if e.ClearGone? {
      SyncClear(s);
    } else if e.Yield? || e.Tick? || e.Exit? || e.Start? {
      SyncSwitch(s, e);
    } else {
      SyncLocal(s, e);
    }
  }

  lemma SyncSwitch(s: Sys, e: Event)
    requires Ledger(s) && SyncInv(s) && Enabled(s, e) && (e.Yield? || e.Tick? || e.Exit? || e.Start?)
    ensures SyncInv(Next(s, e))
  {
    SwitchLedger(s, e);
    StateMessages(s, Next(s, e));
    SyncQuiet(s, Next(s, e));
  }

  lemma SyncLocal(s: Sys, e: Event)
    requires Ledger(s) && SyncInv(s) && Enabled(s, e) && (e.StartSend? || e.StartReceive? || e.CheckSend? || e.SetCaps? || e.Load?)
    ensures SyncInv(Next(s, e))
  {
    LocalMessages(s, e);
    SyncQuiet(s, Next(s, e));
  }

  lemma {:induction false} SyncRun(states: seq<Sys>, events: seq<Event>, j: nat)
    requires IsRun(states, events) && AllSync(events) && j < |states|
    requires forall k :: 0 <= k < j ==> !RetryDelivers(states[k], events[k])
    ensures SyncInv(states[j])
  {
    if j > 0 {
      SyncRun(states, events, j - 1);
      RunLedger(states, events, j - 1);
      SyncNext(states[j - 1], events[j - 1]);
    }
  }

  /** With synchronous sends only, no inbound message is ever overwritten, so
      delivery is exactly-once if and only if no retry is delivered. */
  lemma SyncExactlyOnceIff(states: seq<Sys>, events: seq<Event>)
    requires IsRun(states, events) && AllSync(events)
    ensures (forall j :: 0 <= j < |states| ==> ExactlyOnce(states[j])) <==> NoRetryDelivery(states, events)
  {
    ExactlyOnceIff(states, events);
    if NoRetryDelivery(states, events) {
      forall j | 0 <= j < |events| ensures !Bad(states[j], events[j]) {
        SyncRun(states, events, j);
        if states[j].current.Some? {
          assert SyncOk(states[j], states[j].current.value);
        }
      }
    } else {
      var j :| 0 <= j < |events| && RetryDelivers(states[j], events[j]);
      assert Bad(states[j], events[j]);
    }
  }

  // ---- A condition on capability changes that rules retried deliveries out ----

  /** A capability change never points the slot of a send in progress at a task:
      it may revoke that slot, or leave it as it is. */
  ghost predicate KeepsRoutes(s: Sys, e: Event) {
    e.SetCaps? && |e.tables| == |s.tasks| && |s.pcs| == |s.tasks| ==>
      forall i: nat :: Occupied(s.tasks, i) && InSend(s.pcs[i]) ==>
        var k := s.pcs[i].req.capIdx;
        var c := GetCap(e.tables[i], k);
        c == GetCap(s.tasks[i].value.capTable, k) || c.None? || !c.value.resource.IpcChannel?
  }

  predicate IsDead(tasks: TaskTable, t: nat) {
    Occupied(tasks, t) && tasks[t].value.state == Terminated
  }

  /** A send whose own copy is parked is still routed to its addressee, if routed at
      all, and is either asleep on that task or was woken by its death. */
  ghost predicate RouteOk(s: Sys, i: nat) {
    i < |s.pcs| && Occupied(s.tasks, i) && InSend(s.pcs[i]) && Holds(s, Buf(i), s.pcs[i].req.msg.serial) ==>
      var n := s.pcs[i].req.msg.serial;
      && n < |s.sends| && s.sends[n].target.Some?
      && (ResolveTarget(s.tasks, i, s.pcs[i].req.capIdx).Ok? ==>
            ResolveTarget(s.tasks, i, s.pcs[i].req.capIdx) == Ok(s.sends[n].target.value))
      && (BlockedOn(s.tasks, i, s.sends[n].target.value) || IsDead(s.tasks, s.sends[n].target.value))
  }

  ghost predicate RouteInv(s: Sys) {
    forall i: nat :: RouteOk(s, i)
  }

  lemma RouteBlocksRetry(s: Sys)
    requires Ledger(s) && RouteInv(s) && Enabled(s, TrySend)
    ensures !RetryDelivers(s, TrySend)
  {
    var c := s.current.value;
    assert TaskOk(s, c) && RouteOk(s, c);
  }

  /** The dead stay dead. */
  lemma DeadStays(s: Sys, e: Event, t: nat)
    requires Inv(s) && Enabled(s, e) && IsDead(s.tasks, t)
    ensures IsDead(Next(s, e).tasks, t)
  {
    assert TaskOk(s, t);
    if s.current.Some? {
      assert TaskOk(s, s.current.value);
    }
    if e.Exit? {
      DeadStaysExit(s, t);
    } else if e.TryReceive? || e.AsyncReceive? {
      DeadStaysReceive(s, e, t);
    } else if e.TrySend? || e.AsyncSend? {
      DeadStaysSend(s, e, t);
    }
  }

  lemma DeadStaysSend(s: Sys, e: Event, t: nat)
    requires Inv(s) && Enabled(s, e) && (e.TrySend? || e.AsyncSend?) && IsDead(s.tasks, t)
    ensures IsDead(Next(s, e).tasks, t)
  {
  }

  lemma DeadStaysExit(s: Sys, t: nat)
    requires Inv(s) && Enabled(s, Exit) && IsDead(s.tasks, t)
    ensures IsDead(Next(s, Exit).tasks, t)
  {
  }

  lemma DeadStaysReceive(s: Sys, e: Event, t: nat)
    requires Inv(s) && Enabled(s, e) && (e.TryReceive? || e.AsyncReceive?) && IsDead(s.tasks, t)
    ensures IsDead(Next(s, e).tasks, t)
  {
  }

  /** A switch leaves a parked sender parked, or wakes it because its addressee died. */
  lemma SwitchParked(s: Sys, e: Event, i: nat, t: nat)
    requires Inv(s) && Enabled(s, e) && (e.Yield? || e.Tick? || e.Exit? || e.Start?) && BlockedOn(s.tasks, i, t)
    ensures BlockedOn(Next(s, e).tasks, i, t) || IsDead(Next(s, e).tasks, t)
  {
    assert TaskOk(s, i);
    if e.Exit? {
      var c := s.current.value;
      var woken := WakeSenders(SetState(s.tasks, c, Terminated), c);
      if t == c {
        assert IsDead(woken, t);
      } else {
        assert BlockedOn(woken, i, t);
      }
    }
  }

  lemma RouteSwitch(s: Sys, e: Event)
    requires Ledger(s) && RouteInv(s) && Enabled(s, e) && (e.Yield? || e.Tick? || e.Exit? || e.Start?)
    ensures RouteInv(Next(s, e))
  {
    var s' := Next(s, e);
    SwitchLedger(s, e);
    StateMessages(s, s');
    forall i: nat ensures RouteOk(s', i) {
      assert RouteOk(s, i);
      if i < |s'.pcs| && Occupied(s'.tasks, i) && InSend(s'.pcs[i]) && Holds(s', Buf(i), s'.pcs[i].req.msg.serial) {
        assert MessageAt(s', Buf(i)) == MessageAt(s, Buf(i));
        assert StateOnly(s.tasks[i].value, s'.tasks[i].value);
        var t := s.sends[s.pcs[i].req.msg.serial].target.value;
        if IsDead(s.tasks, t) {
          DeadStays(s, e, t);
        } else {
          SwitchParked(s, e, i, t);
        }
      }
    }
  }

  lemma RouteTry(s: Sys)
    requires Ledger(s) && RouteInv(s) && Enabled(s, TrySend)
    ensures RouteInv(Next(s, TrySend))
  {
    var s' := Next(s, TrySend);
    var c := s.current.value;
    TryRecord(s);
    assert TaskOk(s, c);
    forall i: nat ensures RouteOk(s', i) {
      assert RouteOk(s, i);
      TryMessages(s, Buf(i));
      if i != c && i < |s.pcs| && Occupied(s.tasks, i) && InSend(s.pcs[i]) && Holds(s', Buf(i), s.pcs[i].req.msg.serial) {
        assert TaskOk(s, i);
        var n := s.pcs[i].req.msg.serial;
        assert n != s.pcs[c].req.msg.serial;
        assert Holds(s, Buf(i), n);
        if IsDead(s.tasks, s.sends[n].target.value) {
          DeadStays(s, TrySend, s.sends[n].target.value);
        }
      }
    }
  }

  lemma RouteReceive(s: Sys, e: Event)
    requires Ledger(s) && RouteInv(s) && Enabled(s, e) && (e.TryReceive? || e.AsyncReceive?)
    ensures RouteInv(Next(s, e))
  {
    var s' := Next(s, e);
    if TakenFrom(s).None? {
      ReceiveNone(s, e);
    } else {
      ReceiveMessages(s, e);
    }
    forall i: nat ensures RouteOk(s', i) {
      assert RouteOk(s, i);
      if i < |s'.pcs| && Occupied(s'.tasks, i) && InSend(s'.pcs[i]) && Holds(s', Buf(i), s'.pcs[i].req.msg.serial) {
        assert MessageAt(s', Buf(i)) == MessageAt(s, Buf(i));
        ReceiveUnblocks(s, e, i);
        RouteReceiveAt(s, e, i);
      }
    }
  }

  /** A receive that does not take `i`'s message does not touch `i`, except as the receiver itself. */
  lemma RouteReceiveAt(s: Sys, e: Event, i: nat)
    requires Ledger(s) && Enabled(s, e) && (e.TryReceive? || e.AsyncReceive?)
    requires i < |s.pcs| && Occupied(s.tasks, i) && InSend(s.pcs[i]) && RouteOk(s, i)
    requires Holds(s, Buf(i), s.pcs[i].req.msg.serial) && BufferOf(Next(s, e), i).Some?
    ensures RouteOk(Next(s, e), i)
  {
    var s' := Next(s, e);
    assert i != s.current.value;
    assert s'.tasks[i] == s.tasks[i];
    var t := s.sends[s.pcs[i].req.msg.serial].target.value;
    if IsDead(s.tasks, t) {
      DeadStays(s, e, t);
    }
  }

  lemma RouteLocal(s: Sys, e: Event)
    requires Ledger(s) && RouteInv(s) && Enabled(s, e) && KeepsRoutes(s, e)
    requires e.StartSend? || e.CheckSend? || e.StartReceive? || e.SetCaps? || e.Load? || e.ClearGone? || e.AsyncSend?
    ensures RouteInv(Next(s, e))
  {
    var s' := Next(s, e);
    forall i: nat ensures RouteOk(s', i) {
      assert RouteOk(s, i);
      if i < |s'.pcs| && Occupied(s'.tasks, i) && InSend(s'.pcs[i]) && Holds(s', Buf(i), s'.pcs[i].req.msg.serial) {
        RouteLocalAt(s, e, i);
      }
    }
  }

  /** `i`'s send was already in progress with its copy parked, and its addressee is as before. */
  lemma RouteCarries(s: Sys, s': Sys, i: nat)
    requires Ledger(s) && RouteOk(s, i) && i < |s.pcs| && |s'.pcs| == |s.pcs| && |s.sends| <= |s'.sends|
    requires Occupied(s.tasks, i) && Occupied(s'.tasks, i) && InSend(s.pcs[i]) && InSend(s'.pcs[i])
    requires s'.pcs[i].req == s.pcs[i].req && MessageAt(s', Buf(i)) == MessageAt(s, Buf(i))
    requires s'.sends[s.pcs[i].req.msg.serial].target == s.sends[s.pcs[i].req.msg.serial].target
    requires var r := ResolveTarget(s'.tasks, i, s.pcs[i].req.capIdx);
             r.Ok? ==> r == ResolveTarget(s.tasks, i, s.pcs[i].req.capIdx)
    requires s'.tasks[i].value.state == s.tasks[i].value.state
    requires forall t: nat :: IsDead(s.tasks, t) ==> IsDead(s'.tasks, t)
    ensures RouteOk(s', i)
  {
  }

  lemma RouteLocalAt(s: Sys, e: Event, i: nat)
    requires Ledger(s) && RouteOk(s, i) && Enabled(s, e) && KeepsRoutes(s, e)
    requires e.StartSend? || e.CheckSend? || e.StartReceive? || e.SetCaps? || e.Load? || e.ClearGone? || e.AsyncSend?
    requires i < |Next(s, e).pcs| && Occupied(Next(s, e).tasks, i) && InSend(Next(s, e).pcs[i])
    requires Holds(Next(s, e), Buf(i), Next(s, e).pcs[i].req.msg.serial)
    ensures RouteOk(Next(s, e), i)
  {
    var s' := Next(s, e);
    NextLedger(s, e);
    forall t: nat | IsDead(s.tasks, t) ensures IsDead(s'.tasks, t) {
      DeadStays(s, e, t);
    }
    if e.AsyncSend? {
      AsyncMessages(s, e, Buf(i));
      RouteAsync(s, e, i);
    } else if e.ClearGone? {
      ClearMessages(s, Buf(i));
    } else {
      LocalMessages(s, e);
      assert MessageAt(s', Buf(i)) == MessageAt(s, Buf(i));
    }
    RouteBefore(s, e, i);
    RouteCarries(s, s', i);
  }

  /** An asynchronous send leaves the route and state of a send in progress alone. */
  lemma RouteAsync(s: Sys, e: Event, i: nat)
    requires Ledger(s) && Enabled(s, e) && e.AsyncSend? && i < |s.pcs| && Occupied(s.tasks, i) && InSend(s.pcs[i])
    ensures Next(s, e).pcs == s.pcs && Occupied(Next(s, e).tasks, i)
    ensures Next(s, e).tasks[i].value.state == s.tasks[i].value.state
    ensures Next(s, e).tasks[i].value.capTable == s.tasks[i].value.capTable
  {
  }

  /** A send that is in progress with a parked copy after one of these events was so before it. */
  lemma RouteBefore(s: Sys, e: Event, i: nat)
    requires Ledger(s) && Enabled(s, e) && KeepsRoutes(s, e)
    requires e.StartSend? || e.CheckSend? || e.StartReceive? || e.SetCaps? || e.Load? || e.ClearGone? || e.AsyncSend?
    requires i < |Next(s, e).pcs| && Occupied(Next(s, e).tasks, i) && InSend(Next(s, e).pcs[i])
    requires Holds(s, Buf(i), Next(s, e).pcs[i].req.msg.serial)
    ensures var s' := Next(s, e);
            && i < |s.pcs| && Occupied(s.tasks, i) && InSend(s.pcs[i]) && s'.pcs[i].req == s.pcs[i].req
            && |s.sends| <= |s'.sends|
            && s'.sends[s.pcs[i].req.msg.serial].target == s.sends[s.pcs[i].req.msg.serial].target
            && s'.tasks[i].value.state == s.tasks[i].value.state
            && var r := ResolveTarget(s'.tasks, i, s.pcs[i].req.capIdx);
               r.Ok? ==> r == ResolveTarget(s.tasks, i, s.pcs[i].req.capIdx)
  {
    if e.AsyncSend? {
      RouteAsync(s, e, i);
    }
  }

  lemma RouteNext(s: Sys, e: Event)
    requires Ledger(s) && RouteInv(s) && Enabled(s, e) && KeepsRoutes(s, e)
    ensures RouteInv(Next(s, e))
  {
    match e
    case TrySend => RouteTry(s);
    case TryReceive => RouteReceive(s, e);
    case AsyncReceive => RouteReceive(s, e);
    case Yield => RouteSwitch(s, e);
    case Tick => RouteSwitch(s, e);
    case Exit => RouteSwitch(s, e);
    case Start => RouteSwitch(s, e);
    case _ => RouteLocal(s, e);
  }

  lemma {:induction false} RouteRun(states: seq<Sys>, events: seq<Event>, j: nat)
    requires IsRun(states, events) && j < |states|
    requires forall k :: 0 <= k < |events| ==> KeepsRoutes(states[k], events[k])
    ensures RouteInv(states[j])
  {
    if j > 0 {
      RouteRun(states, events, j - 1);
      RunLedger(states, events, j - 1);
      RouteNext(states[j - 1], events[j - 1]);
    }
  }

  /** Synchronous traffic is exactly-once whenever capability changes never re-point
      the slot of a send in progress (revoking it is harmless). */
  lemma StableRoutesExactlyOnce(states: seq<Sys>, events: seq<Event>, j: nat)
    requires IsRun(states, events) && AllSync(events) && j < |states|
    requires forall k :: 0 <= k < |events| ==> KeepsRoutes(states[k], events[k])
    ensures ExactlyOnce(states[j])
  {
    forall k | 0 <= k < |events| ensures !RetryDelivers(states[k], events[k]) {
      RouteRun(states, events, k);
      RunLedger(states, events, k);
      if events[k].TrySend? {
        RouteBlocksRetry(states[k]);
      }
    }
    SyncExactlyOnceIff(states, events);
  }
}
