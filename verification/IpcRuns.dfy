/** Whole-run guarantees beyond delivery counts: every message carries its true
    sender, every received message was authorised when it left, and a ready task
    runs within one turn of the task table. */
module IpcRuns {
  import opened Core
  import opened Sched
  import opened Ipc
  import opened IpcMachine
  import opened IpcInvariant
  import opened IpcLedger
  import opened IpcOnce
  import opened IpcSync

  // ---- Senders cannot be forged ----

  ghost predicate Stamped(s: Sys) {
    forall loc :: MessageAt(s, loc).Some? ==>
      var m := MessageAt(s, loc).value;
      m.serial < |s.sends| && s.sends[m.serial].sender == m.sender
  }

  /** Records keep their sender. */
  lemma SendersFixed(s: Sys, e: Event, n: nat)
    requires Ledger(s) && Enabled(s, e) && n < |s.sends|
    ensures n < |Next(s, e).sends| && Next(s, e).sends[n].sender == s.sends[n].sender
  {
    if e.TrySend? {
      TryRecord(s);
    }
  }

  lemma StampedNext(s: Sys, e: Event)
    requires Ledger(s) && Stamped(s) && Enabled(s, e)
    ensures Stamped(Next(s, e))
  {
    var s' := Next(s, e);
    forall loc | MessageAt(s', loc).Some?
      ensures MessageAt(s', loc).value.serial < |s'.sends|
      ensures s'.sends[MessageAt(s', loc).value.serial].sender == MessageAt(s', loc).value.sender
    {
      StampedAt(s, e, loc);
    }
  }

  /** A message seen after a step was there before it, or was placed by the running task. */
  lemma StampedAt(s: Sys, e: Event, loc: Loc)
    requires Ledger(s) && Stamped(s) && Enabled(s, e) && MessageAt(Next(s, e), loc).Some?
    ensures var m := MessageAt(Next(s, e), loc).value;
            m.serial < |Next(s, e).sends| && Next(s, e).sends[m.serial].sender == m.sender
  {
    var s' := Next(s, e);
    var m := MessageAt(s', loc).value;
    var was := loc;
    if e.TrySend? {
      TryMessages(s, loc);
      TryRecord(s);
    } else if e.ClearGone? {
      ClearMessages(s, loc);
    } else if e.AsyncSend? {
      AsyncMessages(s, e, loc);
    } else if e.TryReceive? || e.AsyncReceive? {
      if TakenFrom(s).None? {
        ReceiveNone(s, e);
      } else {
        ReceiveTook(s, e);
        was := CameFrom(s, loc);
      }
    } else if e.Yield? || e.Tick? || e.Exit? || e.Start? {
      SwitchLedger(s, e);
      StateMessages(s, s');
    } else {
      LocalMessages(s, e);
    }
    if MessageAt(s, was) == Some(m) {
      SendersFixed(s, e, m.serial);
    }
  }

  lemma {:induction false} StampedRun(states: seq<Sys>, events: seq<Event>, j: nat)
    requires IsRun(states, events) && j < |states|
    ensures Stamped(states[j])
  {
    if j > 0 {
      StampedRun(states, events, j - 1);
      RunLedger(states, events, j - 1);
      StampedNext(states[j - 1], events[j - 1]);
    }
  }

  // ---- Authorisation ----

  /** The slot the running task's send names at this step. */
  function NamedSlot(s: Sys, e: Event): nat
    requires Executing(s) && ((e.TrySend? && s.pcs[s.current.value].SendTry?) || e.AsyncSend?)
  {
    if e.TrySend? then s.pcs[s.current.value].req.capIdx else e.capIdx
  }

  /** At this step the running task's message `n` is delivered to `t`, parked for it or queued for
      it, and the slot the send names holds a channel to `t`. */
  ghost predicate Leaves(s: Sys, e: Event, n: nat, t: nat) {
    && Enabled(s, e) && (e.TrySend? || e.AsyncSend?)
    && var c := s.current.value;
       && ResolveTarget(s.tasks, c, NamedSlot(s, e)) == Ok(t)
       && (e.TrySend? ==>
             && s.pcs[c].req.msg.serial == n
             && AttemptSend(s.tasks, c, s.pcs[c].req.capIdx, s.pcs[c].req.msg).1 in {Ok(Delivered), Ok(Blocked)})
       && (e.AsyncSend? ==> n == |s.sends| && n < |Next(s, e).sends| && Next(s, e).sends[n].status == SentOk)
  }

  /** A record gets its address only from a validated slot. */
  lemma AddressStep(s: Sys, e: Event, n: nat, t: nat)
    requires Ledger(s) && Enabled(s, e) && n < |Next(s, e).sends| && Next(s, e).sends[n].target == Some(t)
    ensures (n < |s.sends| && s.sends[n].target == Some(t)) || Leaves(s, e, n, t)
    ensures Leaves(s, e, n, t) ==> Next(s, e).sends[n].sender == s.current.value
  {
    if e.TrySend? {
      TryRecord(s);
    } else if e.AsyncSend? {
      AsyncMessages(s, e, Rcv(0));
    }
  }

  lemma {:induction false} AddressAuthorised(states: seq<Sys>, events: seq<Event>, j: nat, n: nat, t: nat) returns (k: nat)
    requires IsRun(states, events) && j < |states| && n < |states[j].sends| && states[j].sends[n].target == Some(t)
    ensures k < j && Leaves(states[k], events[k], n, t)
    ensures states[j].sends[n].sender == states[k].current.value
  {
    AddressAt(states, events, j - 1, n, t);
    if n < |states[j - 1].sends| && states[j - 1].sends[n].target == Some(t) {
      k := AddressAuthorised(states, events, j - 1, n, t);
    } else {
      k := j - 1;
    }
  }

  lemma AddressAt(states: seq<Sys>, events: seq<Event>, j: nat, n: nat, t: nat)
    requires IsRun(states, events) && j < |events| && n < |states[j + 1].sends| && states[j + 1].sends[n].target == Some(t)
    ensures n < |states[j].sends| && states[j].sends[n].target == Some(t) ==> states[j + 1].sends[n].sender == states[j].sends[n].sender
    ensures (n < |states[j].sends| && states[j].sends[n].target == Some(t))
            || (Leaves(states[j], events[j], n, t) && states[j].current == Some(states[j + 1].sends[n].sender))
  {
    RunLedger(states, events, j);
    AddressStep(states[j], events[j], n, t);
    if n < |states[j].sends| {
      SendersFixed(states[j], events[j], n);
    }
  }

  /** The task a place belongs to. */
  function Owner(s: Sys, loc: Loc): nat {
    match loc
    case Buf(t) => t
    case Que(t, _) => t
    case Rcv(i) => if i < |s.receipts| then s.receipts[i].receiver else 0
  }

  /** How a message came to be where it is after a step. */
  ghost predicate Placed(s: Sys, e: Event, s': Sys, loc: Loc, was: Loc)
    requires MessageAt(s', loc).Some?
  {
    var m, t := MessageAt(s', loc).value, Owner(s', loc);
    || m.sender == t                                                             // parked by its own sender
    || (MessageAt(s, was) == Some(m) && Owner(s, was) == t)                      // already there
    || (Leaves(s, e, m.serial, t) && s.current == Some(m.sender))                // delivered or queued just now
    || (MessageAt(s, was) == Some(m) && m.serial < |s.sends| && s.sends[m.serial].target == Some(t))  // taken from its parked sender
  }

  lemma PlacedBySend(s: Sys, e: Event, loc: Loc)
    requires Ledger(s) && Enabled(s, e) && (e.TrySend? || e.AsyncSend?) && MessageAt(Next(s, e), loc).Some?
    ensures Placed(s, e, Next(s, e), loc, loc)
  {
    if e.TrySend? {
      TryMessages(s, loc);
      TryRecord(s);
    } else {
      AsyncMessages(s, e, loc);
    }
  }

  lemma PlacedByReceive(s: Sys, e: Event, loc: Loc) returns (was: Loc)
    requires Ledger(s) && Enabled(s, e) && (e.TryReceive? || e.AsyncReceive?) && MessageAt(Next(s, e), loc).Some?
    ensures Placed(s, e, Next(s, e), loc, was)
  {
    was := loc;
    if TakenFrom(s).None? {
      ReceiveNone(s, e);
    } else {
      ReceiveMessages(s, e);
      ReceiveMoves(s, e, loc);
      was := CameFrom(s, loc);
      TakenParked(s);
    }
  }

  /** A message taken from another task's buffer was parked there for the receiver. */
  lemma TakenParked(s: Sys)
    requires Ledger(s) && Executing(s) && TakenFrom(s).Some?
    ensures var from := TakenFrom(s).value;
            Owner(s, from) != s.current.value ==>
              && MessageAt(s, from).Some?
              && var n := MessageAt(s, from).value.serial; n < |s.sends| && s.sends[n].target == s.current
  {
    var from := TakenFrom(s).value;
    if from.Buf? && from.task != s.current.value {
      assert TaskOk(s, from.task);
    }
  }

  lemma PlacedStep(s: Sys, e: Event, loc: Loc) returns (was: Loc)
    requires Ledger(s) && Enabled(s, e) && MessageAt(Next(s, e), loc).Some?
    ensures Placed(s, e, Next(s, e), loc, was)
  {
    was := loc;
    if e.TrySend? || e.AsyncSend? {
      PlacedBySend(s, e, loc);
    } else if e.TryReceive? || e.AsyncReceive? {
      was := PlacedByReceive(s, e, loc);
    } else if e.ClearGone? {
      ClearMessages(s, loc);
    } else if e.Yield? || e.Tick? || e.Exit? || e.Start? {
      SwitchLedger(s, e);
      StateMessages(s, Next(s, e));
    } else {
      LocalMessages(s, e);
    }
  }

  /** Before state `j`, its sender sent message `n` out through a slot that held a channel to `t`. */
  ghost predicate Sent(states: seq<Sys>, events: seq<Event>, j: nat, n: nat, sender: nat, t: nat)
    requires |states| == |events| + 1
  {
    exists k :: 0 <= k < j && k < |events| && Leaves(states[k], events[k], n, t) && states[k].current == Some(sender)
  }

  /** In every run, a message in a buffer, a queue or a receipt was sent there by its sender through a
      slot that then held a channel to that task, or is with its own sender. */
  lemma {:induction false} PlaceAuthorised(states: seq<Sys>, events: seq<Event>, j: nat, loc: Loc)
    requires IsRun(states, events) && j < |states| && MessageAt(states[j], loc).Some?
    ensures var m, t := MessageAt(states[j], loc).value, Owner(states[j], loc);
            m.sender == t || Sent(states, events, j, m.serial, m.sender, t)
  {
    if j > 0 {
      var s, e := states[j - 1], events[j - 1];
      RunLedger(states, events, j - 1);
      var was := PlacedStep(s, e, loc);
      var m, t := MessageAt(states[j], loc).value, Owner(states[j], loc);
      if MessageAt(s, was) == Some(m) {
        if Owner(s, was) == t {
          PlaceAuthorised(states, events, j - 1, was);
        } else if m.serial < |s.sends| && s.sends[m.serial].target == Some(t) {
          StampedRun(states, events, j - 1);
          var k := AddressAuthorised(states, events, j - 1, m.serial, t);
        }
      }
    }
  }

  /** In every run, a message received from another task was sent by the task it names as sender,
      through a slot that then held a channel to the receiver. */
  lemma ReceiptTraced(states: seq<Sys>, events: seq<Event>, j: nat, i: nat)
    requires IsRun(states, events) && j < |states| && i < |states[j].receipts|
    ensures var r := states[j].receipts[i];
            r.msg.sender == r.receiver || Sent(states, events, j, r.msg.serial, r.msg.sender, r.receiver)
  {
    assert MessageAt(states[j], Rcv(i)) == Some(states[j].receipts[i].msg);
    PlaceAuthorised(states, events, j, Rcv(i));
  }

  /** In a run without bad steps the same holds of every received message, from whomever. */
  lemma ReceiptAuthorised(states: seq<Sys>, events: seq<Event>, j: nat, i: nat)
    requires IsRun(states, events) && NoBadStep(states, events) && j < |states| && i < |states[j].receipts|
    ensures var r := states[j].receipts[i]; Sent(states, events, j, r.msg.serial, r.msg.sender, r.receiver)
  {
    var s := states[j];
    var n := s.receipts[i].msg.serial;
    RunLedger(states, events, j);
    StampedRun(states, events, j);
    GoodRunOnce(states, events, j);
    assert Holds(s, Rcv(i), n) && MessageAt(s, Rcv(i)) == Some(s.receipts[i].msg);
    assert OnceAt(s, n);
    OnlyCopy(s, n, Rcv(i));
    var k := AddressAuthorised(states, events, j, n, s.receipts[i].receiver);
  }

  /** Synchronous traffic over stable routes: besides being delivered exactly once, every received
      message left its sender through a slot that then held a channel to the receiver. */
  lemma StableRoutesAuthorised(states: seq<Sys>, events: seq<Event>, j: nat, i: nat)
    requires IsRun(states, events) && AllSync(events) && j < |states| && i < |states[j].receipts|
    requires forall k :: 0 <= k < |events| ==> KeepsRoutes(states[k], events[k])
    ensures var r := states[j].receipts[i]; Sent(states, events, j, r.msg.serial, r.msg.sender, r.receiver)
  {
    forall n | 0 <= n < |states| ensures ExactlyOnce(states[n]) {
      StableRoutesExactlyOnce(states, events, n);
    }
    ExactlyOnceIff(states, events);
    ReceiptAuthorised(states, events, j, i);
  }

  // ---- Bounded waiting ----

  /** A ready task stays ready until it is given the processor. */
  lemma ReadyStays(s: Sys, e: Event, r: nat)
    requires Inv(s) && Enabled(s, e) && IsReady(s.tasks, r) && s.current.Some?
    ensures IsReady(Next(s, e).tasks, r) || Next(s, e).current == Some(r)
  {
    assert TaskOk(s, r);
    if e.Exit? {
      var woken := WakeSenders(SetState(s.tasks, s.current.value, Terminated), s.current.value);
      assert IsReady(woken, r);
    } else if e.TryReceive? || e.AsyncReceive? {
      ReadyReceive(s, e, r);
    } else if e.TrySend? || e.AsyncSend? {
      ReadySend(s, e, r);
    }
  }

  lemma ReadyReceive(s: Sys, e: Event, r: nat)
    requires Inv(s) && Enabled(s, e) && (e.TryReceive? || e.AsyncReceive?) && IsReady(s.tasks, r) && r != s.current.value
    ensures IsReady(Next(s, e).tasks, r)
  {
  }

  lemma ReadySend(s: Sys, e: Event, r: nat)
    requires Inv(s) && Enabled(s, e) && (e.TrySend? || e.AsyncSend?) && IsReady(s.tasks, r) && r != s.current.value
    ensures IsReady(Next(s, e).tasks, r)
  {
  }

  /** Each step leaves the processor where it is, hands it to `r`, or brings it strictly nearer to `r`. */
  lemma StepApproaches(s: Sys, e: Event, r: nat)
    requires Inv(s) && Enabled(s, e) && IsReady(s.tasks, r) && s.current.Some?
    ensures var s' := Next(s, e);
            && s'.current.Some? && |s'.tasks| == |s.tasks| && s'.current.value < |s.tasks|
            && (s'.current == s.current || s'.current == Some(r)
                || Dist(s'.current.value, r, |s.tasks|) < Dist(s.current.value, r, |s.tasks|))
  {
    var c := s.current.value;
    assert TaskOk(s, r);
    if e.Yield? || e.Tick? {
      SwitchApproaches(s.tasks, c, r);
    } else if e.Exit? {
      ExitApproaches(s, r);
    } else {
      NoSwitch(s, e);
    }
  }

  lemma ExitApproaches(s: Sys, r: nat)
    requires Inv(s) && Enabled(s, Exit) && IsReady(s.tasks, r)
    ensures var s' := Next(s, Exit);
            && s'.current.Some? && |s'.tasks| == |s.tasks| && s'.current.value < |s.tasks|
            && (s'.current == Some(r) || Dist(s'.current.value, r, |s.tasks|) < Dist(s.current.value, r, |s.tasks|))
  {
    var c := s.current.value;
    assert TaskOk(s, r);
    var woken := WakeSenders(SetState(s.tasks, c, Terminated), c);
    assert IsReady(woken, r);
    SwitchApproaches(woken, c, r);
  }

  /** Other events leave the processor where it is. */
  lemma NoSwitch(s: Sys, e: Event)
    requires Inv(s) && Enabled(s, e) && !e.Yield? && !e.Tick? && !e.Exit? && !e.Start?
    ensures Next(s, e).current == s.current && |Next(s, e).tasks| == |s.tasks|
  {
  }

  /** One step of a run in which `r` stays ready and is not yet given the processor. */
  ghost predicate Nearer(s: Sys, s': Sys, r: nat) {
    && IsReady(s.tasks, r) && s.current.Some? && s.current.value < |s.tasks|
    && IsReady(s'.tasks, r) && s'.current.Some? && s'.current.value < |s'.tasks| && |s'.tasks| == |s.tasks|
    && (s'.current == s.current || Dist(s'.current.value, r, |s'.tasks|) < Dist(s.current.value, r, |s.tasks|))
  }

  lemma WaitStep(states: seq<Sys>, events: seq<Event>, j: nat, r: nat)
    requires IsRun(states, events) && j + 1 < |states|
    requires IsReady(states[j].tasks, r) && states[j].current.Some? && states[j + 1].current != Some(r)
    ensures Nearer(states[j], states[j + 1], r)
  {
    RunInv(states, events, j);
    ReadyStays(states[j], events[j], r);
    StepApproaches(states[j], events[j], r);
  }

  lemma {:induction false} StillReady(states: seq<Sys>, events: seq<Event>, lo: nat, hi: nat, r: nat)
    requires IsRun(states, events) && lo <= hi < |states|
    requires states[lo].current.Some? && IsReady(states[lo].tasks, r)
    requires forall j :: lo <= j <= hi ==> states[j].current != Some(r)
    ensures IsReady(states[hi].tasks, r) && states[hi].current.Some?
    decreases hi - lo
  {
    if lo < hi {
      StillReady(states, events, lo, hi - 1, r);
      WaitStep(states, events, hi - 1, r);
    }
  }

  /** As long as it is not given the processor, a ready task waits nearer and nearer. */
  lemma NearerAt(states: seq<Sys>, events: seq<Event>, lo: nat, hi: nat, j: nat, r: nat)
    requires IsRun(states, events) && lo <= j < hi < |states|
    requires states[lo].current.Some? && IsReady(states[lo].tasks, r)
    requires forall k :: lo <= k <= hi ==> states[k].current != Some(r)
    ensures Nearer(states[j], states[j + 1], r)
  {
    StillReady(states, events, lo, j, r);
    WaitStep(states, events, j, r);
  }

  /** Context switches between states lo and hi of a run. */
  ghost function Switches(states: seq<Sys>, lo: nat, hi: nat): nat
    requires lo <= hi < |states|
  {
    if lo == hi then 0
    else Switches(states, lo, hi - 1) + (if states[hi].current != states[hi - 1].current then 1 else 0)
  }

  /** The remaining distance, while `r` waits. */
  ghost function Away(s: Sys, r: nat): nat {
    if s.current.Some? && s.current.value < |s.tasks| && r < |s.tasks| then Dist(s.current.value, r, |s.tasks|) else 0
  }

  /** While a ready task waits, every context switch uses up part of its distance. */
  lemma {:induction false} WaitBound(states: seq<Sys>, lo: nat, hi: nat, r: nat)
    requires lo <= hi < |states| && forall j :: lo <= j < hi ==> Nearer(states[j], states[j + 1], r)
    ensures Switches(states, lo, hi) + Away(states[hi], r) <= Away(states[lo], r)
    decreases hi - lo
  {
    if lo < hi {
      WaitBound(states, lo, hi - 1, r);
      assert Nearer(states[hi - 1], states[hi], r);
    }
  }

  /** Somewhere in between there is at least one step left to go, and never more than a turn. */
  lemma AwayBounds(states: seq<Sys>, events: seq<Event>, j: nat, r: nat)
    requires IsRun(states, events) && j < |states|
    requires states[j].current.Some? && states[j].current != Some(r) && IsReady(states[j].tasks, r)
    ensures 1 <= Away(states[j], r) < |states[j].tasks|
  {
    RunInv(states, events, j);
  }

  /** A ready task is given the processor before as many switches as there are task slots. */
  lemma BoundedWaiting(states: seq<Sys>, events: seq<Event>, lo: nat, hi: nat, r: nat)
    requires IsRun(states, events) && lo <= hi < |states|
    requires states[lo].current.Some? && IsReady(states[lo].tasks, r)
    requires Switches(states, lo, hi) + 1 >= |states[lo].tasks|
    ensures exists j :: lo <= j <= hi && states[j].current == Some(r)
  {
    if forall j :: lo <= j <= hi ==> states[j].current != Some(r) {
      forall j | lo <= j < hi ensures Nearer(states[j], states[j + 1], r) {
        NearerAt(states, events, lo, hi, j, r);
      }
      StillReady(states, events, lo, hi, r);
      AwayBounds(states, events, lo, r);
      AwayBounds(states, events, hi, r);
      WaitBound(states, lo, hi, r);
    }
  }
}
