/** Exactly-once delivery, and exactly when it fails.

    A completed send should have one copy, at its target; a failed send none; a
    send in progress at most one, in its sender's own buffer or already received.
    The kernel keeps this except at two kinds of step, and a run keeps it
    throughout if and only if it contains neither. */
module IpcOnce {
  import opened Core
  import opened Sched
  import opened Ipc
  import opened IpcMachine
  import opened IpcInvariant
  import opened IpcLedger

  /** The message was returned by a receive of its addressee. */
  ghost predicate ReceivedOnce(s: Sys, n: nat)
    requires n < |s.sends|
  {
    s.sends[n].target.Some? && exists k :: OneCopy(s, n, Rcv(k)) && AtTask(s, Rcv(k), s.sends[n].target.value)
  }

  ghost predicate DeliveredOnce(s: Sys, n: nat)
    requires n < |s.sends|
  {
    s.sends[n].target.Some? && exists loc :: OneCopy(s, n, loc) && AtTask(s, loc, s.sends[n].target.value)
  }

  ghost predicate Settled(s: Sys, n: nat)
    requires n < |s.sends|
  {
    var rec := s.sends[n];
    match rec.status
    case SentOk => DeliveredOnce(s, n)
    case SentErr(_) => NoCopy(s, n)
    case Pending =>
      && (NoCopy(s, n) || OneCopy(s, n, Buf(rec.sender)) || ReceivedOnce(s, n))
      && (Occupied(s.tasks, rec.sender) && s.tasks[rec.sender].value.state.BlockedOnSend? ==>
            OneCopy(s, n, Buf(rec.sender)))
  }

  ghost predicate ExactlyOnce(s: Sys) {
    forall n: nat :: n < |s.sends| ==> Settled(s, n)
  }

  // ---- The two kinds of step that break it ----

  ghost function AttemptResult(s: Sys): Result<SendStep, IpcError>
    requires Executing(s) && s.pcs[s.current.value].SendTry?
  {
    AttemptSend(s.tasks, s.current.value, s.pcs[s.current.value].req.capIdx, s.pcs[s.current.value].req.msg).1
  }

  /** A retried send finds a waiting receiver while its own parked copy is still in
      its buffer. The delivery leaves that copy behind. */
  ghost predicate RetryDelivers(s: Sys, e: Event)
    requires Enabled(s, e)
  {
    e.TrySend? && AttemptResult(s) == Ok(Delivered)
    && Holds(s, Buf(s.current.value), s.pcs[s.current.value].req.msg.serial)
  }

  /** A send overwrites or clears its task's buffer while that buffer holds somebody else's message. */
  ghost predicate Clobbers(s: Sys, e: Event)
    requires Enabled(s, e)
  {
    && (e.ClearGone? || (e.TrySend? && (AttemptResult(s).Err? || AttemptResult(s) == Ok(Blocked))))
    && BufferOf(s, s.current.value).Some?
    && BufferOf(s, s.current.value).value.serial != s.pcs[s.current.value].req.msg.serial
  }

  ghost predicate Bad(s: Sys, e: Event)
    requires Enabled(s, e)
  {
    RetryDelivers(s, e) || Clobbers(s, e)
  }

  // ---- The inductive form ----

  predicate Parked(pc: Pc) { pc.SendYield? || pc.SendCheck? }

  /** A send in progress: parked copy, or not yet placed, or already received and not yet noticed. */
  ghost predicate Underway(s: Sys, n: nat)
    requires n < |s.sends|
  {
    var i := s.sends[n].sender;
    || OneCopy(s, n, Buf(i))
    || (NoCopy(s, n) && i < |s.pcs| && !Parked(s.pcs[i]))
    || (ReceivedOnce(s, n) && i < |s.pcs| && Parked(s.pcs[i]))
  }

  ghost predicate OnceAt(s: Sys, n: nat)
    requires n < |s.sends|
  {
    match s.sends[n].status
    case SentOk => DeliveredOnce(s, n)
    case SentErr(_) => NoCopy(s, n)
    case Pending => Underway(s, n)
  }

  ghost predicate Once(s: Sys) {
    forall n: nat :: n < |s.sends| ==> OnceAt(s, n)
  }

  lemma OnceSettles(s: Sys)
    requires Ledger(s) && Once(s)
    ensures ExactlyOnce(s)
  {
    forall n: nat | n < |s.sends| ensures Settled(s, n) {
      assert OnceAt(s, n);
      var i := s.sends[n].sender;
      if s.sends[n].status == Pending && Occupied(s.tasks, i) && s.tasks[i].value.state.BlockedOnSend? {
        assert TaskOk(s, i);
        assert Holds(s, Buf(i), n);
      }
    }
  }

  /** Serial `n` is held in the same places, and receives only accumulate. */
  ghost predicate SameCopies(s: Sys, s': Sys, n: nat) {
    s.receipts <= s'.receipts && forall loc :: Holds(s', loc, n) <==> Holds(s, loc, n)
  }

  lemma CarryCopies(s: Sys, s': Sys, n: nat)
    requires n < |s.sends| && n < |s'.sends| && SameCopies(s, s', n) && s'.sends[n].target == s.sends[n].target
    ensures NoCopy(s, n) <==> NoCopy(s', n)
    ensures forall loc :: OneCopy(s, n, loc) <==> OneCopy(s', n, loc)
    ensures DeliveredOnce(s, n) ==> DeliveredOnce(s', n)
    ensures ReceivedOnce(s, n) ==> ReceivedOnce(s', n)
  {
  }

  /** A send whose copies and record are untouched, and whose task has not crossed the park, stays as it is. */
  lemma Carry(s: Sys, s': Sys, n: nat)
    requires n < |s.sends| && n < |s'.sends| && OnceAt(s, n) && SameCopies(s, s', n) && s'.sends[n] == s.sends[n]
    requires |s.pcs| == |s'.pcs|
    requires s.sends[n].status == Pending && s.sends[n].sender < |s.pcs| ==>
               Parked(s'.pcs[s.sends[n].sender]) == Parked(s.pcs[s.sends[n].sender])
    ensures OnceAt(s', n)
  {
    CarryCopies(s, s', n);
  }

  // ---- Events that leave every message in place ----

  lemma SameMessagesCopies(s: Sys, s': Sys, n: nat)
    requires SameMessages(s, s') && s.receipts <= s'.receipts
    ensures SameCopies(s, s', n)
  {
  }

  lemma QuietOnce(s: Sys, s': Sys)
    requires Ledger(s) && Once(s) && SameMessages(s, s') && s'.receipts == s.receipts && s'.sends == s.sends
    requires |s.pcs| == |s'.pcs|
    requires forall i: nat :: i < |s.pcs| && InSend(s.pcs[i]) ==> Parked(s'.pcs[i]) == Parked(s.pcs[i])
    ensures Once(s')
  {
    forall n: nat | n < |s'.sends| ensures OnceAt(s', n) {
      assert OnceAt(s, n);
      SameMessagesCopies(s, s', n);
      Carry(s, s', n);
    }
  }

  lemma SwitchOnce(s: Sys, e: Event)
    requires Ledger(s) && Once(s) && Enabled(s, e) && (e.Yield? || e.Tick? || e.Exit? || e.Start?)
    ensures Once(Next(s, e))
  {
    SwitchLedger(s, e);
    StateMessages(s, Next(s, e));
    QuietOnce(s, Next(s, e));
  }

  lemma LocalOnce(s: Sys, e: Event)
    requires Ledger(s) && Once(s) && Enabled(s, e) && (e.StartReceive? || e.SetCaps? || e.Load?)
    ensures Once(Next(s, e))
  {
    LocalMessages(s, e);
    QuietOnce(s, Next(s, e));
  }

  lemma StartSendOnce(s: Sys, e: Event)
    requires Ledger(s) && Once(s) && Enabled(s, e) && e.StartSend?
    ensures Once(Next(s, e))
  {
    var s' := Next(s, e);
    LocalMessages(s, e);
    forall n: nat | n < |s'.sends| ensures OnceAt(s', n) {
      SameMessagesCopies(s, s', n);
      if n < |s.sends| {
        assert OnceAt(s, n);
        Carry(s, s', n);
      } else {
        assert NoCopy(s, n);
      }
    }
  }

  /** A parked sender that looks again: an empty buffer means its one copy was received. */
  lemma CheckOnce(s: Sys)
    requires Ledger(s) && Once(s) && Enabled(s, CheckSend)
    ensures Once(Next(s, CheckSend))
  {
    var s' := Next(s, CheckSend);
    var c := s.current.value;
    var own := s.pcs[c].req.msg.serial;
    LocalMessages(s, CheckSend);
    assert TaskOk(s, c);
    forall n: nat | n < |s'.sends| ensures OnceAt(s', n) {
      assert OnceAt(s, n);
      SameMessagesCopies(s, s', n);
      if n == own {
        CarryCopies(s, s', n);
        if BufferOf(s, c).Some? {
          assert Holds(s, Buf(c), n);
        }
      } else {
        Carry(s, s', n);
      }
    }
  }

  // ---- Attempts ----

  /** One place is overwritten with message `m`; it held nothing, or `m`'s only copy. */
  lemma Placed(s: Sys, s': Sys, at: Loc, m: Message)
    requires forall loc :: MessageAt(s', loc) == if loc == at then Some(m) else MessageAt(s, loc)
    requires NoCopy(s, m.serial) || OneCopy(s, m.serial, at)
    ensures OneCopy(s', m.serial, at)
  {
    forall loc ensures Holds(s', loc, m.serial) <==> loc == at {
      assert !Holds(s, loc, m.serial) || loc == at;
    }
  }

  /** One place is emptied; it held the only copy, or there was none. */
  lemma Withdrawn(s: Sys, s': Sys, at: Loc, n: nat)
    requires forall loc :: MessageAt(s', loc) == if loc == at then None else MessageAt(s, loc)
    requires NoCopy(s, n) || OneCopy(s, n, at)
    ensures NoCopy(s', n)
  {
    forall loc ensures !Holds(s', loc, n) {
      assert !Holds(s, loc, n) || loc == at;
    }
  }

  /** One place changes, and neither before nor after does it concern serial `n`. */
  lemma Elsewhere(s: Sys, s': Sys, at: Loc, n: nat)
    requires s.receipts <= s'.receipts
    requires forall loc :: loc != at ==> MessageAt(s', loc) == MessageAt(s, loc)
    requires !Holds(s, at, n) && !Holds(s', at, n)
    ensures SameCopies(s, s', n)
  {
  }

  /** An attempt that is not bad leaves every other send's copies alone. */
  lemma TryOthers(s: Sys, n: nat)
    requires Ledger(s) && Enabled(s, TrySend) && !Bad(s, TrySend)
    requires n != s.pcs[s.current.value].req.msg.serial
    ensures SameCopies(s, Next(s, TrySend), n)
  {
    var s' := Next(s, TrySend);
    var at := if AttemptResult(s) == Ok(Delivered) then Buf(SendTarget(s)) else Buf(s.current.value);
    forall loc ensures loc != at ==> MessageAt(s', loc) == MessageAt(s, loc) {
      TryMessages(s, loc);
    }
    TryMessages(s, at);
    if AttemptResult(s) == Ok(Gone) {
      SameMessagesCopies(s, s', n);
    } else {
      Elsewhere(s, s', at, n);
    }
  }

  /** The attempted send itself: placed once, or withdrawn. */
  lemma TryOwn(s: Sys, s': Sys)
    requires Ledger(s) && Once(s) && Enabled(s, TrySend) && !Bad(s, TrySend) && s' == Next(s, TrySend)
    ensures s.pcs[s.current.value].req.msg.serial < |s'.sends|
    ensures OnceAt(s', s.pcs[s.current.value].req.msg.serial)
  {
    var c := s.current.value;
    var m := s.pcs[c].req.msg;
    var r := AttemptResult(s);
    assert OnceAt(s, m.serial);
    TryRecord(s);
    if r.Err? {
      forall loc ensures MessageAt(s', loc) == if loc == Buf(c) then None else MessageAt(s, loc) {
        TryMessages(s, loc);
      }
      Withdrawn(s, s', Buf(c), m.serial);
    } else if r == Ok(Gone) {
      TryGone(s);
    } else {
      var at := if r == Ok(Delivered) then Buf(SendTarget(s)) else Buf(c);
      forall loc ensures MessageAt(s', loc) == if loc == at then Some(m) else MessageAt(s, loc) {
        TryMessages(s, loc);
      }
      Placed(s, s', at, m);
      assert AtTask(s', at, if r == Ok(Delivered) then SendTarget(s) else c);
    }
  }

  lemma TryGone(s: Sys)
    requires Ledger(s) && Once(s) && Enabled(s, TrySend) && AttemptResult(s) == Ok(Gone)
    ensures OnceAt(Next(s, TrySend), s.pcs[s.current.value].req.msg.serial)
  {
    var n := s.pcs[s.current.value].req.msg.serial;
    assert OnceAt(s, n);
    forall loc ensures MessageAt(Next(s, TrySend), loc) == MessageAt(s, loc) {
      TryMessages(s, loc);
    }
    SameMessagesCopies(s, Next(s, TrySend), n);
    CarryCopies(s, Next(s, TrySend), n);
  }

  lemma TryOnce(s: Sys)
    requires Ledger(s) && Once(s) && Enabled(s, TrySend) && !Bad(s, TrySend)
    ensures Once(Next(s, TrySend))
  {
    var s' := Next(s, TrySend);
    var c := s.current.value;
    TryRecord(s);
    TryOwn(s, s');
    forall n: nat | n < |s'.sends| ensures OnceAt(s', n) {
      if n != s.pcs[c].req.msg.serial {
        assert OnceAt(s, n);
        TryOthers(s, n);
        Carry(s, s', n);
      }
    }
  }

  lemma ClearOnce(s: Sys)
    requires Ledger(s) && Once(s) && Enabled(s, ClearGone) && !Bad(s, ClearGone)
    ensures Once(Next(s, ClearGone))
  {
    var s' := Next(s, ClearGone);
    var c := s.current.value;
    var own := s.pcs[c].req.msg.serial;
    forall n: nat | n < |s'.sends| ensures OnceAt(s', n) {
      assert OnceAt(s, n);
      forall loc ensures Holds(s', loc, n) <==> Holds(s, loc, n) && loc != Buf(c) {
        ClearMessages(s, loc);
      }
      if n != own {
        Carry(s, s', n);
      }
    }
  }

  // ---- Asynchronous sends and receives ----

  lemma AsyncOnce(s: Sys, e: Event)
    requires Ledger(s) && Once(s) && Enabled(s, e) && e.AsyncSend?
    ensures Once(Next(s, e))
  {
    var s' := Next(s, e);
    var born := |s.sends|;
    AsyncMessages(s, e, Rcv(0));
    var rec := s'.sends[born];
    forall n: nat | n < |s'.sends| ensures OnceAt(s', n) {
      if n < born {
        assert OnceAt(s, n);
        forall loc ensures Holds(s', loc, n) <==> Holds(s, loc, n) {
          AsyncMessages(s, e, loc);
          assert !Holds(s, loc, born);
        }
        Carry(s, s', n);
      } else if rec.status == SentOk {
        var at := Que(rec.target.value, |QueueOf(s, rec.target.value)|);
        forall loc ensures Holds(s', loc, born) <==> loc == at {
          AsyncMessages(s, e, loc);
          assert !Holds(s, loc, born);
        }
        assert OneCopy(s', born, at) && AtTask(s', at, rec.target.value);
      } else {
        forall loc ensures !Holds(s', loc, born) {
          AsyncMessages(s, e, loc);
          assert !Holds(s, loc, born);
        }
      }
    }
  }

  /** In a state that keeps the property, any copy found is the only one. */
  lemma OnlyCopy(s: Sys, n: nat, loc: Loc)
    requires n < |s.sends| && OnceAt(s, n) && Holds(s, loc, n)
    ensures OneCopy(s, n, loc)
    ensures s.sends[n].status == SentOk ==> s.sends[n].target.Some? && AtTask(s, loc, s.sends[n].target.value)
    ensures s.sends[n].status == Pending ==> loc == Buf(s.sends[n].sender) || (loc.Rcv? && ReceivedOnce(s, n))
    ensures !s.sends[n].status.SentErr?
  {
  }

  /** `s'` is `s` with the message at `from` moved to a new receipt of the running task. */
  ghost predicate Took(s: Sys, s': Sys, from: Loc)
    requires Executing(s) && QueuesValid(s.tasks)
  {
    && TakenFrom(s) == Some(from) && MessageAt(s, from).Some?
    && s'.receipts == s.receipts + [Receipt(s.current.value, MessageAt(s, from).value)]
    && s'.sends == s.sends && s'.pcs == s.pcs[s.current.value := User]
    && forall loc :: MessageAt(s', loc) == (if from.Buf? && loc == from then None else MessageAt(s, CameFrom(s, loc)))
  }

  lemma ReceiveTook(s: Sys, e: Event)
    requires Inv(s) && Enabled(s, e) && (e.TryReceive? || e.AsyncReceive?) && TakenFrom(s).Some?
    ensures Took(s, Next(s, e), TakenFrom(s).value)
  {
    ReceiveMessages(s, e);
    forall loc ensures MessageAt(Next(s, e), loc)
                       == (if TakenFrom(s).value.Buf? && loc == TakenFrom(s).value then None else MessageAt(s, CameFrom(s, loc)))
    {
      ReceiveMoves(s, e, loc);
    }
  }

  lemma TakenMoves(s: Sys, s': Sys, from: Loc, n: nat)
    requires Executing(s) && QueuesValid(s.tasks) && Took(s, s', from) && OneCopy(s, n, from)
    ensures OneCopy(s', n, Rcv(|s.receipts|)) && AtTask(s', Rcv(|s.receipts|), s.current.value)
  {
    var at := Rcv(|s.receipts|);
    assert CameFrom(s, at) == from;
    forall loc | Holds(s', loc, n) ensures loc == at {
      assert Holds(s, CameFrom(s, loc), n);
    }
  }

  /** The received message: its one copy moves into the receipts of its addressee. */
  lemma TakenOnce(s: Sys, s': Sys, from: Loc, n: nat)
    requires Ledger(s) && Executing(s) && !InSend(s.pcs[s.current.value]) && Took(s, s', from)
    requires n < |s.sends| && OnceAt(s, n) && Holds(s, from, n)
    ensures OnceAt(s', n)
  {
    var c := s.current.value;
    OnlyCopy(s, n, from);
    TakenMoves(s, s', from, n);
    if from.Buf? && from.task != c {
      assert TaskOk(s, from.task);
      assert s.pcs[from.task].req.msg.serial == n;
    } else {
      assert AtTask(s, from, c);
    }
  }

  /** Where a message other than the received one ends up. */
  ghost function MovesTo(s: Sys, loc: Loc): Loc
    requires Executing(s) && QueuesValid(s.tasks) && TakenFrom(s).Some?
  {
    if loc.Que? && loc.task == s.current.value && TakenFrom(s).value.Que? && loc.pos > 0 then Que(loc.task, loc.pos - 1) else loc
  }

  lemma OtherMoves(s: Sys, s': Sys, from: Loc, n: nat, loc: Loc)
    requires Executing(s) && QueuesValid(s.tasks) && Took(s, s', from)
    requires !Holds(s, from, n) && OneCopy(s, n, loc)
    ensures OneCopy(s', n, MovesTo(s, loc))
    ensures forall t: nat :: AtTask(s, loc, t) ==> AtTask(s', MovesTo(s, loc), t)
  {
    MovesBack(s, from, loc);
    assert MessageAt(s', MovesTo(s, loc)) == MessageAt(s, loc);
    forall l | Holds(s', l, n) ensures l == MovesTo(s, loc) {
      assert Holds(s, CameFrom(s, l), n);
      MovesForth(s, from, l);
    }
  }

  /** The two maps undo each other, away from the message taken. */
  lemma MovesBack(s: Sys, from: Loc, loc: Loc)
    requires Executing(s) && QueuesValid(s.tasks) && TakenFrom(s) == Some(from) && loc != from && MessageAt(s, loc).Some?
    ensures CameFrom(s, MovesTo(s, loc)) == loc && !(from.Buf? && MovesTo(s, loc) == from)
  {
  }

  lemma MovesForth(s: Sys, from: Loc, l: Loc)
    requires Executing(s) && QueuesValid(s.tasks) && TakenFrom(s) == Some(from) && CameFrom(s, l) != from
    ensures MovesTo(s, CameFrom(s, l)) == l
  {
  }

  lemma OthersOnce(s: Sys, s': Sys, from: Loc, n: nat)
    requires Ledger(s) && Executing(s) && !InSend(s.pcs[s.current.value]) && Took(s, s', from)
    requires n < |s.sends| && OnceAt(s, n) && !Holds(s, from, n)
    ensures OnceAt(s', n)
  {
    if NoCopy(s, n) {
      forall l ensures !Holds(s', l, n) {
        assert !Holds(s, CameFrom(s, l), n);
      }
    } else {
      var loc :| Holds(s, loc, n);
      OnlyCopy(s, n, loc);
      OtherMoves(s, s', from, n, loc);
      if s.sends[n].status == Pending && ReceivedOnce(s, n) {
        var k :| OneCopy(s, n, Rcv(k)) && AtTask(s, Rcv(k), s.sends[n].target.value);
        assert loc == Rcv(k) && MovesTo(s, loc) == loc;
      }
    }
  }

  lemma ReceiveOnce(s: Sys, e: Event)
    requires Ledger(s) && Once(s) && Enabled(s, e) && (e.TryReceive? || e.AsyncReceive?)
    ensures Once(Next(s, e))
  {
    var s' := Next(s, e);
    if TakenFrom(s).None? {
      ReceiveNone(s, e);
      QuietOnce(s, s');
    } else {
      var from := TakenFrom(s).value;
      ReceiveTook(s, e);
      forall n: nat | n < |s'.sends| ensures OnceAt(s', n) {
        assert OnceAt(s, n);
        if Holds(s, from, n) {
          TakenOnce(s, s', from, n);
        } else {
          OthersOnce(s, s', from, n);
        }
      }
    }
  }

  lemma NextOnce(s: Sys, e: Event)
    requires Ledger(s) && Once(s) && Enabled(s, e) && !Bad(s, e)
    ensures Once(Next(s, e))
  {
    match e
    case StartSend(_, _, _, _) => StartSendOnce(s, e);
    case TrySend => TryOnce(s);
    case CheckSend => CheckOnce(s);
    case ClearGone => ClearOnce(s);
    case TryReceive => ReceiveOnce(s, e);
    case AsyncReceive => ReceiveOnce(s, e);
    case AsyncSend(_, _, _, _) => AsyncOnce(s, e);
    case Yield => SwitchOnce(s, e);
    case Tick => SwitchOnce(s, e);
    case Exit => SwitchOnce(s, e);
    case Start => SwitchOnce(s, e);
    case _ => LocalOnce(s, e);
  }

  /** A retried delivery leaves a completed send with two copies. */
  lemma RetryBreaks(s: Sys, e: Event)
    requires Ledger(s) && Enabled(s, e) && RetryDelivers(s, e)
    ensures !ExactlyOnce(Next(s, e))
  {
    var s' := Next(s, e);
    var c := s.current.value;
    var own := s.pcs[c].req.msg.serial;
    TryRecord(s);
    TryMessages(s, Buf(c));
    TryMessages(s, Buf(SendTarget(s)));
    assert Holds(s', Buf(c), own) && Holds(s', Buf(SendTarget(s)), own);
    assert !Settled(s', own);
  }

  /** An overwritten inbound message leaves a completed send with none. */
  lemma ClobberBreaks(s: Sys, e: Event)
    requires Ledger(s) && ExactlyOnce(s) && Enabled(s, e) && Clobbers(s, e)
    ensures !ExactlyOnce(Next(s, e))
  {
    var s' := Next(s, e);
    var c := s.current.value;
    var lost := BufferOf(s, c).value.serial;
    assert Holds(s, Buf(c), lost);
    assert Settled(s, lost);
    assert s.sends[lost].status == SentOk && OneCopy(s, lost, Buf(c));
    if e.TrySend? {
      TryRecord(s);
    }
    forall loc ensures !Holds(s', loc, lost) {
      if e.TrySend? {
        TryMessages(s, loc);
      } else {
        ClearMessages(s, loc);
      }
      assert Holds(s, loc, lost) ==> loc == Buf(c);
    }
    assert s'.sends[lost] == s.sends[lost];
    assert !Settled(s', lost);
  }

  ghost predicate NoBadStep(states: seq<Sys>, events: seq<Event>)
    requires IsRun(states, events)
  {
    forall j :: 0 <= j < |events| ==> !Bad(states[j], events[j])
  }

  lemma {:induction false} GoodRunOnce(states: seq<Sys>, events: seq<Event>, j: nat)
    requires IsRun(states, events) && j < |states| && forall k :: 0 <= k < j ==> !Bad(states[k], events[k])
    ensures Once(states[j])
  {
    if j > 0 {
      GoodRunOnce(states, events, j - 1);
      RunLedger(states, events, j - 1);
      NextOnce(states[j - 1], events[j - 1]);
    }
  }

  /** Exactly-once delivery over every run of mixed synchronous and asynchronous
      traffic: it holds in all states of a run if and only if no step of the run
      is a retried delivery or an overwritten inbound message. */
  lemma ExactlyOnceIff(states: seq<Sys>, events: seq<Event>)
    requires IsRun(states, events)
    ensures (forall j :: 0 <= j < |states| ==> ExactlyOnce(states[j])) <==> NoBadStep(states, events)
  {
    if NoBadStep(states, events) {
      forall j | 0 <= j < |states| ensures ExactlyOnce(states[j]) {
        GoodRunOnce(states, events, j);
        RunLedger(states, events, j);
        OnceSettles(states[j]);
      }
    } else {
      var j :| 0 <= j < |events| && Bad(states[j], events[j]);
      RunLedger(states, events, j);
      if RetryDelivers(states[j], events[j]) {
        RetryBreaks(states[j], events[j]);
      } else if ExactlyOnce(states[j]) {
        ClobberBreaks(states[j], events[j]);
      }
      assert !ExactlyOnce(states[j]) || !ExactlyOnce(states[j + 1]);
    }
  }
}
