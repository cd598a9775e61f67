/** Where the copies of a message are, and the bookkeeping every run keeps between
    program counters, send records and the messages in the system. */
module IpcLedger {
  import opened Core
  import opened Sched
  import opened Ipc
  import opened IpcMachine
  import opened IpcInvariant

  /** A place that can hold a message: a buffer, a queue cell, or a completed receive. */
  datatype Loc = Buf(task: nat) | Que(task: nat, pos: nat) | Rcv(index: nat)

  ghost function QueueOf(s: Sys, t: nat): seq<Message> {
    if Occupied(s.tasks, t) && s.tasks[t].value.msgQueue.Valid() then s.tasks[t].value.msgQueue.Contents() else []
  }

  function BufferOf(s: Sys, t: nat): Option<Message> {
    if Occupied(s.tasks, t) then s.tasks[t].value.ipcBuffer else None
  }

  ghost function MessageAt(s: Sys, loc: Loc): Option<Message> {
    match loc
    case Buf(t) => BufferOf(s, t)
    case Que(t, k) => if k < |QueueOf(s, t)| then Some(QueueOf(s, t)[k]) else None
    case Rcv(i) => if i < |s.receipts| then Some(s.receipts[i].msg) else None
  }

  ghost predicate Holds(s: Sys, loc: Loc, n: nat) {
    MessageAt(s, loc).Some? && MessageAt(s, loc).value.serial == n
  }

  ghost predicate NoCopy(s: Sys, n: nat) {
    forall loc :: !Holds(s, loc, n)
  }

  ghost predicate OneCopy(s: Sys, n: nat, loc: Loc) {
    Holds(s, loc, n) && forall l :: Holds(s, l, n) ==> l == loc
  }

  /** The place belongs to `t`, or is a receive made by `t`. */
  predicate AtTask(s: Sys, loc: Loc, t: nat) {
    match loc
    case Buf(u) => u == t
    case Que(u, _) => u == t
    case Rcv(i) => i < |s.receipts| && s.receipts[i].receiver == t
  }

  // ---- Bookkeeping kept by every run ----

  ghost predicate SerialsKnown(s: Sys) {
    forall loc, n: nat :: Holds(s, loc, n) ==> n < |s.sends|
  }

  /** A send in progress has an open record naming its task and slot. */
  ghost predicate SendersRecorded(s: Sys) {
    forall i: nat :: i < |s.pcs| && InSend(s.pcs[i]) ==>
      var n := s.pcs[i].req.msg.serial;
      && Occupied(s.tasks, i)
      && n < |s.sends|
      && s.sends[n].sender == i && s.sends[n].capIdx == s.pcs[i].req.capIdx && s.sends[n].status == Pending
      && s.pcs[i].req.msg.sender == i
  }

  /** An open record belongs to a send in progress. */
  ghost predicate PendingActive(s: Sys) {
    forall n :: 0 <= n < |s.sends| && s.sends[n].status == Pending ==>
      var i := s.sends[n].sender;
      i < |s.pcs| && InSend(s.pcs[i]) && s.pcs[i].req.msg.serial == n
  }

  /** A parked send is addressed to the task it is parked on. */
  ghost predicate ParkedAddressed(s: Sys) {
    forall i: nat :: Occupied(s.tasks, i) && s.tasks[i].value.state.BlockedOnSend? && i < |s.pcs| && InSend(s.pcs[i]) ==>
      var n := s.pcs[i].req.msg.serial;
      n < |s.sends| && s.sends[n].target == Some(s.tasks[i].value.state.target)
  }

  ghost predicate Ledger(s: Sys) {
    Inv(s) && SerialsKnown(s) && SendersRecorded(s) && PendingActive(s) && ParkedAddressed(s)
  }

  lemma InitialLedger(n: nat)
    ensures Ledger(Initial(n))
  {
    InitialInv(n);
    forall loc ensures MessageAt(Initial(n), loc) == None {
    }
  }

  // ---- How each event moves messages ----

  /** Every message stays where it is. */
  ghost predicate SameMessages(s: Sys, s': Sys) {
    forall loc :: MessageAt(s', loc) == MessageAt(s, loc)
  }

  lemma SameMail(s: Sys, s': Sys)
    requires s'.receipts == s.receipts
    requires forall t: nat :: BufferOf(s', t) == BufferOf(s, t) && QueueOf(s', t) == QueueOf(s, t)
    ensures SameMessages(s, s')
  {
    forall loc ensures MessageAt(s', loc) == MessageAt(s, loc) {
      match loc
      case Buf(t) => assert BufferOf(s', t) == BufferOf(s, t);
      case Que(t, k) => assert QueueOf(s', t) == QueueOf(s, t);
      case Rcv(_) =>
    }
  }

  /** A change of task states alone moves no message. */
  lemma StateMessages(s: Sys, s': Sys)
    requires StatesOnly(s.tasks, s'.tasks) && s'.receipts == s.receipts
    ensures SameMessages(s, s')
  {
    forall t: nat ensures BufferOf(s', t) == BufferOf(s, t) && QueueOf(s', t) == QueueOf(s, t) {
      if Occupied(s.tasks, t) {
        assert StateOnly(s.tasks[t].value, s'.tasks[t].value);
      }
    }
    SameMail(s, s');
  }

  /** Nor do loads, capability changes and moves of a program counter. */
  lemma LocalMessages(s: Sys, e: Event)
    requires Inv(s) && Enabled(s, e) && (e.StartSend? || e.StartReceive? || e.CheckSend? || e.SetCaps? || e.Load?)
    ensures SameMessages(s, Next(s, e))
  {
    SameMail(s, Next(s, e));
  }

  /** A send attempt writes at most one buffer: the target's or the sender's. */
  lemma TryMessages(s: Sys, loc: Loc)
    requires Inv(s) && Enabled(s, TrySend)
    ensures var s' := Next(s, TrySend);
            var c := s.current.value;
            var req := s.pcs[c].req;
            var r := AttemptSend(s.tasks, c, req.capIdx, req.msg).1;
            && (r.Err? ==> MessageAt(s', loc) == if loc == Buf(c) then None else MessageAt(s, loc))
            && (r == Ok(Gone) ==> MessageAt(s', loc) == MessageAt(s, loc))
            && (r == Ok(Delivered) ==> SendTarget(s) != c && MessageAt(s, Buf(SendTarget(s))) == None
                                       && MessageAt(s', loc) == if loc == Buf(SendTarget(s)) then Some(req.msg) else MessageAt(s, loc))
            && (r == Ok(Blocked) ==> MessageAt(s', loc) == if loc == Buf(c) then Some(req.msg) else MessageAt(s, loc))
  {
    var c := s.current.value;
    assert TaskOk(s, c);
    if HasTask(s.tasks, SendTarget(s)) {
      assert TaskOk(s, SendTarget(s));
    }
  }

  lemma ClearMessages(s: Sys, loc: Loc)
    requires Inv(s) && Enabled(s, ClearGone)
    ensures MessageAt(Next(s, ClearGone), loc) == if loc == Buf(s.current.value) then None else MessageAt(s, loc)
  {
  }

  /** A successful asynchronous send appends to the target's queue. */
  lemma AsyncMessages(s: Sys, e: Event, loc: Loc)
    requires Inv(s) && Enabled(s, e) && e.AsyncSend?
    ensures var s' := Next(s, e);
            var rec := s'.sends[|s.sends|];
            && |s'.sends| == |s.sends| + 1
            && (rec.status == SentOk ==>
                  && rec.target.Some? && ResolveTarget(s.tasks, s.current.value, e.capIdx) == Ok(rec.target.value)
                  && var q := QueueOf(s, rec.target.value);
                     MessageAt(s', Que(rec.target.value, |q|)).Some?
                     && MessageAt(s', Que(rec.target.value, |q|)).value.serial == |s.sends|
                     && MessageAt(s', Que(rec.target.value, |q|)).value.sender == rec.sender
                     && (loc != Que(rec.target.value, |q|) ==> MessageAt(s', loc) == MessageAt(s, loc)))
            && (rec.status != SentOk ==> rec.status.SentErr? && MessageAt(s', loc) == MessageAt(s, loc))
  {
  }

  /** Where a receive's message was before, and where everything else came from. */
  ghost function TakenFrom(s: Sys): Option<Loc>
    requires Executing(s) && QueuesValid(s.tasks)
  {
    var c := s.current.value;
    if QueueOf(s, c) != [] then Some(Que(c, 0))
    else if BufferOf(s, c).Some? then Some(Buf(c))
    else
      var j := FindSender(s.tasks, c);
      if j.Some? then Some(Buf(j.value)) else None
  }

  /** The place in the old state of the message now at `loc`. */
  ghost function CameFrom(s: Sys, loc: Loc): Loc
    requires Executing(s) && QueuesValid(s.tasks) && TakenFrom(s).Some?
  {
    if loc == Rcv(|s.receipts|) then TakenFrom(s).value
    else if loc.Que? && loc.task == s.current.value && TakenFrom(s).value.Que? then Que(loc.task, loc.pos + 1)
    else loc
  }

  /** `s'` is `s` with one message moved into the receipts of the running task. */
  ghost predicate Received(s: Sys, s': Sys, from: Loc)
    requires Executing(s) && s.current.value < |s.pcs|
  {
    && MessageAt(s, from).Some?
    && s'.receipts == s.receipts + [Receipt(s.current.value, MessageAt(s, from).value)]
    && s'.pcs == s.pcs[s.current.value := User] && s'.sends == s.sends
    && (forall t: nat :: BufferOf(s', t) == if from == Buf(t) then None else BufferOf(s, t))
    && (forall t: nat :: QueueOf(s', t) == if from == Que(t, 0) && QueueOf(s, t) != [] then QueueOf(s, t)[1..] else QueueOf(s, t))
  }

  /** A receive that finds something moves exactly one message, into the receipts. */
  lemma ReceiveMessages(s: Sys, e: Event)
    requires Inv(s) && Enabled(s, e) && (e.TryReceive? || e.AsyncReceive?) && TakenFrom(s).Some?
    ensures Received(s, Next(s, e), TakenFrom(s).value)
  {
    var c := s.current.value;
    assert TaskOk(s, c);
    if TakenFrom(s).value == Que(c, 0) {
      var q := s.tasks[c].value.msgQueue.Dequeue();
      assert q.value.1.Contents() == QueueOf(s, c)[1..];
      assert Next(s, e).tasks == s.tasks[c := Some(s.tasks[c].value.(msgQueue := q.value.1))];
    } else if BufferOf(s, c).Some? {
      assert Next(s, e).tasks == SetBuffer(s.tasks, c, None);
    } else {
      assert TaskOk(s, TakenFrom(s).value.task);
      assert Next(s, e).tasks == SetState(ReleaseSender(s.tasks, TakenFrom(s).value.task), c, Running);
    }
  }

  lemma ReceiveMoves(s: Sys, e: Event, loc: Loc)
    requires Inv(s) && Enabled(s, e) && (e.TryReceive? || e.AsyncReceive?) && TakenFrom(s).Some?
    ensures MessageAt(Next(s, e), loc)
            == (if TakenFrom(s).value.Buf? && loc == TakenFrom(s).value then None else MessageAt(s, CameFrom(s, loc)))
  {
    ReceiveMessages(s, e);
    ReceivedMoves(s, Next(s, e), TakenFrom(s).value, loc);
  }

  lemma ReceivedMoves(s: Sys, s': Sys, from: Loc, loc: Loc)
    requires Executing(s) && s.current.value < |s.pcs| && QueuesValid(s.tasks) && TakenFrom(s) == Some(from) && Received(s, s', from)
    ensures MessageAt(s', loc) == (if from.Buf? && loc == from then None else MessageAt(s, CameFrom(s, loc)))
  {
  }

  /** A receive that finds nothing moves nothing. */
  lemma ReceiveNone(s: Sys, e: Event)
    requires Inv(s) && Enabled(s, e) && (e.TryReceive? || e.AsyncReceive?) && TakenFrom(s).None?
    ensures var s' := Next(s, e);
            SameMessages(s, s') && s'.sends == s.sends && s'.receipts == s.receipts
            && (s'.pcs == s.pcs || (s.pcs[s.current.value].RecvTry? && s'.pcs == s.pcs[s.current.value := RecvYield]))
  {
    SameMail(s, Next(s, e));
  }

  // ---- The bookkeeping is kept ----

  /** Events that leave records and the sends in progress alone. */
  lemma QuietLedger(s: Sys, s': Sys)
    requires Ledger(s) && Inv(s') && SerialsKnown(s') && s'.sends == s.sends
    requires |s'.pcs| == |s.pcs|
    requires forall i: nat :: i < |s.pcs| ==>
               InSend(s'.pcs[i]) == InSend(s.pcs[i]) && (InSend(s.pcs[i]) ==> s'.pcs[i].req == s.pcs[i].req)
    requires forall i: nat :: Occupied(s.tasks, i) ==> Occupied(s'.tasks, i)
    requires forall i: nat :: Occupied(s'.tasks, i) && s'.tasks[i].value.state.BlockedOnSend? ==>
               Occupied(s.tasks, i) && s.tasks[i].value.state == s'.tasks[i].value.state
    ensures Ledger(s')
  {
  }

  lemma SameSerials(s: Sys, s': Sys)
    requires SerialsKnown(s) && SameMessages(s, s') && |s.sends| <= |s'.sends|
    ensures SerialsKnown(s')
  {
    forall loc, n: nat | Holds(s', loc, n) ensures n < |s'.sends| {
      assert Holds(s, loc, n);
    }
  }

  /** A change of task states, with the yielding task's program counter moved past its yield. */
  lemma StateLedger(s: Sys, s': Sys, c: nat)
    requires Ledger(s) && Inv(s') && StatesOnly(s.tasks, s'.tasks) && s'.receipts == s.receipts && s'.sends == s.sends
    requires s'.pcs == s.pcs || (c < |s.pcs| && s'.pcs == s.pcs[c := AfterYield(s.pcs[c])])
    ensures Ledger(s')
  {
    StateMessages(s, s');
    SameSerials(s, s');
    forall i: nat | Occupied(s'.tasks, i) && s'.tasks[i].value.state.BlockedOnSend?
      ensures Occupied(s.tasks, i) && s.tasks[i].value.state == s'.tasks[i].value.state
    {
      assert StateOnly(s.tasks[i].value, s'.tasks[i].value);
    }
    QuietLedger(s, s');
  }

  lemma SwitchLedger(s: Sys, e: Event)
    requires Ledger(s) && Enabled(s, e) && (e.Yield? || e.Tick? || e.Exit? || e.Start?)
    ensures Ledger(Next(s, e))
    ensures StatesOnly(s.tasks, Next(s, e).tasks)
  {
    NextKeeps(s, e);
    SwitchStates(s.tasks, s.current);
    TerminateStates(s.tasks, s.current);
    StateLedger(s, Next(s, e), if s.current.Some? then s.current.value else 0);
  }

  lemma LocalLedger(s: Sys, e: Event)
    requires Ledger(s) && Enabled(s, e) && (e.StartReceive? || e.SetCaps? || e.Load?)
    ensures Ledger(Next(s, e))
  {
    NextKeeps(s, e);
    LocalMessages(s, e);
    SameSerials(s, Next(s, e));
    QuietLedger(s, Next(s, e));
  }

  lemma StartSendLedger(s: Sys, e: Event)
    requires Ledger(s) && Enabled(s, e) && e.StartSend?
    ensures Ledger(Next(s, e))
  {
    var s' := Next(s, e);
    NextKeeps(s, e);
    LocalMessages(s, e);
    SameSerials(s, s');
    assert forall n :: 0 <= n < |s.sends| ==> s'.sends[n] == s.sends[n];
  }

  /** Two sends in progress never share a serial. */
  lemma SerialOwner(s: Sys, i: nat, j: nat)
    requires SendersRecorded(s) && i < |s.pcs| && j < |s.pcs| && InSend(s.pcs[i]) && InSend(s.pcs[j])
    requires s.pcs[i].req.msg.serial == s.pcs[j].req.msg.serial
    ensures i == j
  {
  }

  /** The running send ends or stays open with a new address; no other send is affected. */
  lemma SenderLedger(s: Sys, s': Sys, c: nat, rec: SendRec, pc: Pc)
    requires Ledger(s) && Inv(s') && SerialsKnown(s') && c < |s.pcs| && InSend(s.pcs[c])
    requires s'.pcs == s.pcs[c := pc] && s'.sends == s.sends[s.pcs[c].req.msg.serial := rec]
    requires rec.sender == c && rec.capIdx == s.pcs[c].req.capIdx
    requires InSend(pc) ==> pc.req == s.pcs[c].req && rec.status == Pending
    requires !InSend(pc) ==> rec.status != Pending
    requires Occupied(s'.tasks, c)
    requires Occupied(s'.tasks, c) && s'.tasks[c].value.state.BlockedOnSend? && InSend(pc) ==>
               rec.target == Some(s'.tasks[c].value.state.target)
    requires forall i: nat :: i != c && Occupied(s.tasks, i) ==> Occupied(s'.tasks, i)
    requires forall i: nat :: i != c && Occupied(s'.tasks, i) && s'.tasks[i].value.state.BlockedOnSend? ==>
               Occupied(s.tasks, i) && s.tasks[i].value.state == s'.tasks[i].value.state
    ensures Ledger(s')
  {
    var n := s.pcs[c].req.msg.serial;
    forall i: nat | i < |s.pcs| && i != c && InSend(s.pcs[i]) ensures s.pcs[i].req.msg.serial != n {
      if s.pcs[i].req.msg.serial == n {
        SerialOwner(s, i, c);
      }
    }
  }

  lemma TrySerials(s: Sys)
    requires Ledger(s) && Enabled(s, TrySend)
    ensures SerialsKnown(Next(s, TrySend))
  {
    var s' := Next(s, TrySend);
    forall loc, m: nat | Holds(s', loc, m) ensures m < |s'.sends| {
      TryMessages(s, loc);
      if m != s.pcs[s.current.value].req.msg.serial {
        assert Holds(s, loc, m);
      }
    }
  }

  /** What an attempt does to the sender's record and program counter. */
  lemma TryRecord(s: Sys)
    requires Ledger(s) && Enabled(s, TrySend)
    ensures var s' := Next(s, TrySend);
            var c := s.current.value;
            var n := s.pcs[c].req.msg.serial;
            && Occupied(s'.tasks, c) && |s'.pcs| == |s.pcs|
            && s'.pcs == s.pcs[c := s'.pcs[c]] && |s'.sends| == |s.sends| && s'.sends == s.sends[n := s'.sends[n]]
            && s'.sends[n].sender == c && s'.sends[n].capIdx == s.sends[n].capIdx
            && (InSend(s'.pcs[c]) ==> s'.pcs[c].req == s.pcs[c].req && s'.sends[n].status == Pending)
            && (!InSend(s'.pcs[c]) ==> s'.sends[n].status != Pending)
            && (s'.pcs[c].SendYield? <==> s'.tasks[c].value.state.BlockedOnSend?)
            && (s'.pcs[c].SendYield? ==> s'.sends[n].target == Some(s'.tasks[c].value.state.target))
            && s'.receipts == s.receipts
            && (forall i: nat :: i != c && Occupied(s.tasks, i) ==> Occupied(s'.tasks, i))
            && (forall i: nat :: i != c && Occupied(s'.tasks, i) && s'.tasks[i].value.state.BlockedOnSend? ==>
                  Occupied(s.tasks, i) && s.tasks[i].value.state == s'.tasks[i].value.state)
  {
    assert TaskOk(s, s.current.value);
  }

  lemma TryLedger(s: Sys)
    requires Ledger(s) && Enabled(s, TrySend)
    ensures Ledger(Next(s, TrySend))
  {
    var c := s.current.value;
    var s' := Next(s, TrySend);
    NextKeeps(s, TrySend);
    TrySerials(s);
    TryRecord(s);
    SenderLedger(s, s', c, s'.sends[s.pcs[c].req.msg.serial], s'.pcs[c]);
  }

  lemma CheckLedger(s: Sys)
    requires Ledger(s) && Enabled(s, CheckSend)
    ensures Ledger(Next(s, CheckSend))
  {
    var c := s.current.value;
    var n := s.pcs[c].req.msg.serial;
    var s' := Next(s, CheckSend);
    NextKeeps(s, CheckSend);
    LocalMessages(s, CheckSend);
    SameSerials(s, s');
    assert s'.sends == s.sends[n := s'.sends[n]];
    SenderLedger(s, s', c, s'.sends[n], s'.pcs[c]);
  }

  lemma ClearLedger(s: Sys)
    requires Ledger(s) && Enabled(s, ClearGone)
    ensures Ledger(Next(s, ClearGone))
  {
    var c := s.current.value;
    var n := s.pcs[c].req.msg.serial;
    var s' := Next(s, ClearGone);
    NextKeeps(s, ClearGone);
    forall loc, m: nat | Holds(s', loc, m) ensures m < |s'.sends| {
      ClearMessages(s, loc);
      assert Holds(s, loc, m);
    }
    SenderLedger(s, s', c, s'.sends[n], s'.pcs[c]);
  }

  lemma AsyncSerials(s: Sys, e: Event)
    requires Ledger(s) && Enabled(s, e) && e.AsyncSend?
    ensures SerialsKnown(Next(s, e))
  {
    var s' := Next(s, e);
    forall loc, n: nat | Holds(s', loc, n) ensures n < |s'.sends| {
      AsyncMessages(s, e, loc);
      if n != |s.sends| {
        assert Holds(s, loc, n);
      }
    }
  }

  lemma AsyncLedger(s: Sys, e: Event)
    requires Ledger(s) && Enabled(s, e) && e.AsyncSend?
    ensures Ledger(Next(s, e))
  {
    NextKeeps(s, e);
    AsyncSerials(s, e);
    AsyncStates(s, e);
    AsyncMessages(s, e, Rcv(0));
    ClosedLedger(s, Next(s, e));
  }

  /** An asynchronous send parks nobody and leaves every program counter where it is. */
  lemma AsyncStates(s: Sys, e: Event)
    requires Inv(s) && Enabled(s, e) && e.AsyncSend?
    ensures var s' := Next(s, e);
            && s'.pcs == s.pcs && |s'.sends| == |s.sends| + 1 && s'.sends[..|s.sends|] == s.sends
            && forall i: nat :: (Occupied(s.tasks, i) <==> Occupied(s'.tasks, i))
                 && (Occupied(s'.tasks, i) && s'.tasks[i].value.state.BlockedOnSend? ==> s.tasks[i].value.state == s'.tasks[i].value.state)
  {
  }

  /** Adding a record that is already closed. */
  lemma ClosedLedger(s: Sys, s': Sys)
    requires Ledger(s) && Inv(s') && SerialsKnown(s') && s'.pcs == s.pcs
    requires |s'.sends| == |s.sends| + 1 && s'.sends[..|s.sends|] == s.sends && s'.sends[|s.sends|].status != Pending
    requires forall i: nat :: (Occupied(s.tasks, i) <==> Occupied(s'.tasks, i))
               && (Occupied(s'.tasks, i) && s'.tasks[i].value.state.BlockedOnSend? ==> s.tasks[i].value.state == s'.tasks[i].value.state)
    ensures Ledger(s')
  {
    assert forall n :: 0 <= n < |s.sends| ==> s'.sends[n] == s.sends[n];
  }

  lemma TakeSerials(s: Sys, e: Event)
    requires Ledger(s) && Enabled(s, e) && (e.TryReceive? || e.AsyncReceive?) && TakenFrom(s).Some?
    ensures SerialsKnown(Next(s, e))
  {
    var s' := Next(s, e);
    ReceiveMessages(s, e);
    forall loc, n: nat | Holds(s', loc, n) ensures n < |s'.sends| {
      ReceiveMoves(s, e, loc);
      assert Holds(s, CameFrom(s, loc), n);
    }
  }

  /** A receive unblocks; it parks nobody. */
  lemma ReceiveUnblocks(s: Sys, e: Event, i: nat)
    requires Inv(s) && Enabled(s, e) && (e.TryReceive? || e.AsyncReceive?)
    ensures Occupied(Next(s, e).tasks, i) <==> Occupied(s.tasks, i)
    ensures Occupied(s.tasks, i) && Next(s, e).tasks[i].value.state.BlockedOnSend? ==>
              s.tasks[i].value.state == Next(s, e).tasks[i].value.state
  {
  }

  lemma ReceiveLedger(s: Sys, e: Event)
    requires Ledger(s) && Enabled(s, e) && (e.TryReceive? || e.AsyncReceive?)
    ensures Ledger(Next(s, e))
  {
    var s' := Next(s, e);
    NextKeeps(s, e);
    if TakenFrom(s).None? {
      ReceiveNone(s, e);
      SameSerials(s, s');
    } else {
      ReceiveMessages(s, e);
      TakeSerials(s, e);
    }
    forall i: nat | Occupied(s.tasks, i) || Occupied(s'.tasks, i)
      ensures Occupied(s.tasks, i) && Occupied(s'.tasks, i)
      ensures s'.tasks[i].value.state.BlockedOnSend? ==> s.tasks[i].value.state == s'.tasks[i].value.state
    {
      ReceiveUnblocks(s, e, i);
    }
    QuietLedger(s, s');
  }

  lemma NextLedger(s: Sys, e: Event)
    requires Ledger(s) && Enabled(s, e)
    ensures Ledger(Next(s, e))
  {
    match e
    case StartSend(_, _, _, _) => StartSendLedger(s, e);
    case TrySend => TryLedger(s);
    case CheckSend => CheckLedger(s);
    case ClearGone => ClearLedger(s);
    case TryReceive => ReceiveLedger(s, e);
    case AsyncReceive => ReceiveLedger(s, e);
    case AsyncSend(_, _, _, _) => AsyncLedger(s, e);
    case Yield => SwitchLedger(s, e);
    case Tick => SwitchLedger(s, e);
    case Exit => SwitchLedger(s, e);
    case Start => SwitchLedger(s, e);
    case _ => LocalLedger(s, e);
  }

  lemma {:induction false} RunLedger(states: seq<Sys>, events: seq<Event>, j: nat)
    requires IsRun(states, events) && j < |states|
    ensures Ledger(states[j])
  {
    if j == 0 {
      var n :| states[0] == Initial(n);
      InitialLedger(n);
    } else {
      RunLedger(states, events, j - 1);
      NextLedger(states[j - 1], events[j - 1]);
    }
  }
}
