/** What a message says, over whole runs: every message anywhere in the system is, field by field,
    the one some send was called with, and queued messages are received in the order they were sent. */
module IpcContents {
  import opened Core
  import opened Sched
  import opened Ipc
  import opened IpcMachine
  import opened IpcInvariant
  import opened IpcLedger

  // ---- Which calls are accepted ----

  /** The discriminants of `IpcTag`. */
  function TagNumber(t: IpcTag): nat {
    match t
    case Raw => 0 case Log => 1 case Sensor => 2 case Ping => 3 case KVGet => 4 case KVSet => 5
    case LogPublish => 6 case LogRead => 7 case LogAck => 8 case FsOp => 9 case FsReply => 10
    case DevOp => 11 case DevReply => 12 case SyncOp => 13 case SyncReply => 14
  }

  predicate Acceptable(tag: nat, version: nat, payload: seq<Byte>) {
    |payload| <= 128 && tag < 15 && version != 0xFFFF
  }

  /** The errors a send reports before it touches anything. */
  predicate InputError(st: Status) {
    st.SentErr? && (st.error == PayloadTooLarge || st.error == InvalidTag || st.error == BadVersion)
  }

  /** Inputs are checked in order; exactly the acceptable ones pass, and the tag is the one the number names. */
  lemma CheckInputsExact(tag: nat, version: nat, payload: seq<Byte>)
    ensures var r := CheckInputs(tag, version, payload);
            && (r.Ok? <==> Acceptable(tag, version, payload))
            && (r.Ok? ==> TagNumber(r.value) == tag)
            && (r == Err(PayloadTooLarge) <==> |payload| > 128)
            && (r == Err(InvalidTag) <==> |payload| <= 128 && tag >= 15)
            && (r == Err(BadVersion) <==> |payload| <= 128 && tag < 15 && version == 0xFFFF)
            && (r.Err? ==> InputError(SentErr(r.error)))
  {
  }

  // ---- Every message is one that was sent ----

  /** The event is the call that opened record `m.serial`, and `m` carries what it was given. */
  ghost predicate Opens(s: Sys, e: Event, m: Message) {
    && (e.StartSend? || e.AsyncSend?) && Acceptable(e.tag, e.version, e.payload)
    && m.serial == |s.sends| && Some(m.sender) == s.current
    && TagNumber(m.tag) == e.tag && m.version == e.version && m.payload == e.payload
  }

  ghost predicate Opened(states: seq<Sys>, events: seq<Event>, j: nat, m: Message)
    requires |states| == |events| + 1
  {
    exists k :: 0 <= k < j && k < |events| && Opens(states[k], events[k], m)
  }

  /** A send in progress after a step was in progress before it, or starts with it. */
  lemma RequestStep(s: Sys, e: Event, i: nat)
    requires Ledger(s) && Enabled(s, e) && i < |Next(s, e).pcs| && InSend(Next(s, e).pcs[i])
    ensures var m := Next(s, e).pcs[i].req.msg;
            (i < |s.pcs| && InSend(s.pcs[i]) && s.pcs[i].req.msg == m) || Opens(s, e, m)
  {
    if e.StartSend? {
      CheckInputsExact(e.tag, e.version, e.payload);
    } else if e.TrySend? {
      TryRecord(s);
    }
  }

  lemma {:induction false} RequestOpened(states: seq<Sys>, events: seq<Event>, j: nat, i: nat)
    requires IsRun(states, events) && j < |states| && i < |states[j].pcs| && InSend(states[j].pcs[i])
    ensures Opened(states, events, j, states[j].pcs[i].req.msg)
  {
    if j > 0 {
      var s, e := states[j - 1], events[j - 1];
      RunLedger(states, events, j - 1);
      RequestStep(s, e, i);
      if !Opens(s, e, states[j].pcs[i].req.msg) {
        RequestOpened(states, events, j - 1, i);
      }
    }
  }

  /** The message an accepted asynchronous send makes, and where it goes. */
  lemma AsyncContents(s: Sys, e: Event, loc: Loc)
    requires Ledger(s) && Enabled(s, e) && e.AsyncSend? && MessageAt(Next(s, e), loc).Some?
    ensures MessageAt(s, loc) == MessageAt(Next(s, e), loc) || Opens(s, e, MessageAt(Next(s, e), loc).value)
  {
    CheckInputsExact(e.tag, e.version, e.payload);
    AsyncMessages(s, e, loc);
    var s' := Next(s, e);
    var rec := s'.sends[|s.sends|];
    if rec.status == SentOk {
      var t := rec.target.value;
      var m := MakeMessage(s, TagOf(e.tag).value, e.version, e.payload);
      var q := s.tasks[t].value.msgQueue.Enqueue(m);
      assert s'.tasks[t].value.msgQueue == q.value;
      assert QueueOf(s', t) == QueueOf(s, t) + [m];
    }
  }

  /** Where a message seen after a step was before it: in some place, in the running send, or nowhere. */
  lemma ContentStep(s: Sys, e: Event, loc: Loc) returns (was: Loc)
    requires Ledger(s) && Enabled(s, e) && MessageAt(Next(s, e), loc).Some?
    ensures var m := MessageAt(Next(s, e), loc).value;
            || MessageAt(s, was) == Some(m)
            || (e.TrySend? && s.pcs[s.current.value].req.msg == m)
            || Opens(s, e, m)
  {
    was := loc;
    if e.TrySend? {
      TryMessages(s, loc);
    } else if e.AsyncSend? {
      AsyncContents(s, e, loc);
    } else if e.TryReceive? || e.AsyncReceive? {
      if TakenFrom(s).None? {
        ReceiveNone(s, e);
      } else {
        ReceiveMoves(s, e, loc);
        was := CameFrom(s, loc);
      }
    } else if e.ClearGone? {
      ClearMessages(s, loc);
    } else if e.Yield? || e.Tick? || e.Exit? || e.Start? {
      SwitchLedger(s, e);
      StateMessages(s, Next(s, e));
    } else {
      LocalMessages(s, e);
    }
  }

  /** In every state of every run, a message in a buffer, a queue or a receipt is the one an earlier
      accepted call of its sender was given: same payload, version and tag, under that call's record. */
  lemma {:induction false} MessageOpened(states: seq<Sys>, events: seq<Event>, j: nat, loc: Loc)
    requires IsRun(states, events) && j < |states| && MessageAt(states[j], loc).Some?
    ensures Opened(states, events, j, MessageAt(states[j], loc).value)
  {
    EmptyAtStart(states, events, j, loc);
    var was, m := ContentAt(states, events, j - 1, loc);
    if MessageAt(states[j - 1], was) == Some(m) {
      MessageOpened(states, events, j - 1, was);
    }
  }

  lemma EmptyAtStart(states: seq<Sys>, events: seq<Event>, j: nat, loc: Loc)
    requires IsRun(states, events) && j < |states| && MessageAt(states[j], loc).Some?
    ensures j > 0
  {
  }

  lemma ContentAt(states: seq<Sys>, events: seq<Event>, j: nat, loc: Loc) returns (was: Loc, m: Message)
    requires IsRun(states, events) && j < |events| && MessageAt(states[j + 1], loc).Some?
    ensures MessageAt(states[j + 1], loc) == Some(m)
    ensures MessageAt(states[j], was) == Some(m) || Opened(states, events, j + 1, m)
  {
    m := MessageAt(states[j + 1], loc).value;
    RunLedger(states, events, j);
    was := ContentStep(states[j], events[j], loc);
    if MessageAt(states[j], was) != Some(m) && !Opens(states[j], events[j], m) {
      RequestOpened(states, events, j, states[j].current.value);
    }
  }

  /** So a receive returns what some task sent. */
  lemma ReceivedIsSent(states: seq<Sys>, events: seq<Event>, j: nat, i: nat)
    requires IsRun(states, events) && j < |states| && i < |states[j].receipts|
    ensures Opened(states, events, j, states[j].receipts[i].msg)
  {
    assert MessageAt(states[j], Rcv(i)) == Some(states[j].receipts[i].msg);
    MessageOpened(states, events, j, Rcv(i));
  }

  // ---- Every record is one call ----

  /** The event opened record `n`, which names its task and slot. */
  ghost predicate Records(s: Sys, e: Event, n: nat, rec: SendRec) {
    && (e.StartSend? || e.AsyncSend?)
    && n == |s.sends| && Some(rec.sender) == s.current && rec.capIdx == e.capIdx
    && (InputError(rec.status) <==> !Acceptable(e.tag, e.version, e.payload))
  }

  /** A call whose inputs fail a check has no other effect than its record. */
  lemma RefusedCall(s: Sys, e: Event)
    requires Enabled(s, e) && (e.StartSend? || e.AsyncSend?) && !Acceptable(e.tag, e.version, e.payload)
    ensures Next(s, e) == s.(sends := Next(s, e).sends)
  {
    CheckInputsExact(e.tag, e.version, e.payload);
  }

  lemma RecordStep(s: Sys, e: Event, n: nat)
    requires Ledger(s) && Enabled(s, e) && n < |Next(s, e).sends|
    ensures var rec := Next(s, e).sends[n];
            if n < |s.sends| then
              && rec.sender == s.sends[n].sender && rec.capIdx == s.sends[n].capIdx
              && InputError(rec.status) == InputError(s.sends[n].status)
            else Records(s, e, n, rec)
  {
    if e.StartSend? || e.AsyncSend? {
      CheckInputsExact(e.tag, e.version, e.payload);
    } else if e.TrySend? {
      TryRecord(s);
    }
  }

  /** In every run, each record belongs to the call that opened it, and that call was refused for its
      inputs if and only if they were not acceptable. */
  lemma {:induction false} RecordOpened(states: seq<Sys>, events: seq<Event>, j: nat, n: nat) returns (k: nat)
    requires IsRun(states, events) && j < |states| && n < |states[j].sends|
    ensures k < j && Records(states[k], events[k], n, states[j].sends[n])
  {
    NoneAtStart(states, events, j, n);
    RecordAt(states, events, j - 1, n);
    if n < |states[j - 1].sends| {
      k := RecordOpened(states, events, j - 1, n);
      RecordsSame(states[k], events[k], n, states[j - 1].sends[n], states[j].sends[n]);
    } else {
      k := j - 1;
    }
  }

  lemma NoneAtStart(states: seq<Sys>, events: seq<Event>, j: nat, n: nat)
    requires IsRun(states, events) && j < |states| && n < |states[j].sends|
    ensures j > 0
  {
  }

  lemma RecordsSame(s: Sys, e: Event, n: nat, a: SendRec, b: SendRec)
    requires Records(s, e, n, a) && Follows(a, b)
    ensures Records(s, e, n, b)
  {
  }

  predicate Follows(a: SendRec, b: SendRec) {
    b.sender == a.sender && b.capIdx == a.capIdx && InputError(b.status) == InputError(a.status)
  }

  lemma RecordAt(states: seq<Sys>, events: seq<Event>, j: nat, n: nat)
    requires IsRun(states, events) && j < |events| && n < |states[j + 1].sends|
    ensures n < |states[j].sends| ==> Follows(states[j].sends[n], states[j + 1].sends[n])
    ensures n >= |states[j].sends| ==> Records(states[j], events[j], n, states[j + 1].sends[n])
  {
    RunLedger(states, events, j);
    RecordStep(states[j], events[j], n);
  }

  lemma {:induction false} SendsGrow(states: seq<Sys>, events: seq<Event>, a: nat, b: nat)
    requires IsRun(states, events) && a <= b < |states|
    ensures |states[a].sends| <= |states[b].sends|
    decreases b - a
  {
    if a < b {
      SendsGrow(states, events, a, b - 1);
      RunLedger(states, events, b - 1);
      GrowStep(states[b - 1], events[b - 1]);
    }
  }

  lemma GrowStep(s: Sys, e: Event)
    requires Ledger(s) && Enabled(s, e)
    ensures |s.sends| <= |Next(s, e).sends|
    ensures e.StartSend? || e.AsyncSend? ==> |Next(s, e).sends| == |s.sends| + 1
  {
    if e.TrySend? {
      TryRecord(s);
    }
  }

  /** A record has one opening call. */
  lemma OpenerUnique(states: seq<Sys>, events: seq<Event>, k: nat, l: nat, m: Message, n: Message)
    requires IsRun(states, events) && k < |events| && l < |events| && m.serial == n.serial
    requires Opens(states[k], events[k], m) && Opens(states[l], events[l], n)
    ensures k == l
  {
    var a, b := if k < l then k else l, if k < l then l else k;
    if a < b {
      RunLedger(states, events, a);
      GrowStep(states[a], events[a]);
      SendsGrow(states, events, a + 1, b);
    }
  }

  lemma TagNumberInjective(t: IpcTag, u: IpcTag)
    requires TagNumber(t) == TagNumber(u)
    ensures t == u
  {
  }

  /** Two copies under one serial number are the same message, in every field. */
  lemma CopiesAgree(states: seq<Sys>, events: seq<Event>, j: nat, a: Loc, b: Loc)
    requires IsRun(states, events) && j < |states| && MessageAt(states[j], a).Some? && MessageAt(states[j], b).Some?
    requires MessageAt(states[j], a).value.serial == MessageAt(states[j], b).value.serial
    ensures MessageAt(states[j], a) == MessageAt(states[j], b)
  {
    var m, n := MessageAt(states[j], a).value, MessageAt(states[j], b).value;
    MessageOpened(states, events, j, a);
    MessageOpened(states, events, j, b);
    var k :| 0 <= k < j && k < |events| && Opens(states[k], events[k], m);
    var l :| 0 <= l < j && l < |events| && Opens(states[l], events[l], n);
    OpenerUnique(states, events, k, l, m, n);
    TagNumberInjective(m.tag, n.tag);
  }

  // ---- Queued messages keep their order ----

  /** The message this step queues for `t`, if it queues one. */
  ghost function Arrival(s: Sys, e: Event, t: nat): seq<Message>
    requires Enabled(s, e)
  {
    if e.AsyncSend? && Acceptable(e.tag, e.version, e.payload) && ResolveTarget(s.tasks, s.current.value, e.capIdx) == Ok(t)
       && |Next(s, e).sends| == |s.sends| + 1 && Next(s, e).sends[|s.sends|].status == SentOk
    then [MakeMessage(s, TAGS[e.tag], e.version, e.payload)] else []
  }

  /** The message `t` receives at this step while its queue is not empty. */
  ghost function Departure(s: Sys, e: Event, t: nat): seq<Message>
    requires Enabled(s, e)
  {
    if (e.TryReceive? || e.AsyncReceive?) && s.current == Some(t) && QueueOf(s, t) != [] && Next(s, e).receipts != []
    then [Next(s, e).receipts[|Next(s, e).receipts| - 1].msg] else []
  }

  lemma QueueAsync(s: Sys, e: Event, t: nat)
    requires Ledger(s) && Enabled(s, e) && e.AsyncSend?
    ensures QueueOf(Next(s, e), t) == QueueOf(s, t) + Arrival(s, e, t)
  {
    CheckInputsExact(e.tag, e.version, e.payload);
    var s', c := Next(s, e), s.current.value;
    if Acceptable(e.tag, e.version, e.payload) {
      var m := MakeMessage(s, TAGS[e.tag], e.version, e.payload);
      var target := ResolveTarget(s.tasks, c, e.capIdx);
      if EnqueueTo(s.tasks, c, e.capIdx, m).1.Ok? && target == Ok(t) {
        assert s'.tasks[t].value.msgQueue == s.tasks[t].value.msgQueue.Enqueue(m).value;
      }
    }
  }

  lemma QueueReceive(s: Sys, e: Event, t: nat)
    requires Ledger(s) && Enabled(s, e) && (e.TryReceive? || e.AsyncReceive?)
    ensures QueueOf(s, t) == Departure(s, e, t) + QueueOf(Next(s, e), t)
  {
    if TakenFrom(s).None? {
      ReceiveNone(s, e);
      SameQueue(s, Next(s, e), t);
    } else {
      ReceiveMessages(s, e);
      ReceivedQueue(s, Next(s, e), TakenFrom(s).value, t);
    }
  }

  lemma ReceivedQueue(s: Sys, s': Sys, from: Loc, t: nat)
    requires Executing(s) && s.current.value < |s.pcs| && QueuesValid(s.tasks) && TakenFrom(s) == Some(from) && Received(s, s', from)
    ensures s'.receipts != []
    ensures QueueOf(s, t) ==
            (if s.current == Some(t) && QueueOf(s, t) != [] then [s'.receipts[|s'.receipts| - 1].msg] else []) + QueueOf(s', t)
  {
    var c := s.current.value;
    if t == c && QueueOf(s, c) != [] {
      assert from == Que(c, 0) && MessageAt(s, from) == Some(QueueOf(s, c)[0]);
      assert QueueOf(s', c) == QueueOf(s, c)[1..];
    } else {
      assert QueueOf(s', t) == QueueOf(s, t);
    }
  }

  /** A queue changes at its back by what is sent to it, at its front by what its task receives. */
  lemma QueueStep(s: Sys, e: Event, t: nat)
    requires Ledger(s) && Enabled(s, e)
    ensures QueueOf(s, t) + Arrival(s, e, t) == Departure(s, e, t) + QueueOf(Next(s, e), t)
  {
    var s' := Next(s, e);
    if e.AsyncSend? {
      QueueAsync(s, e, t);
    } else if e.TryReceive? || e.AsyncReceive? {
      QueueReceive(s, e, t);
    } else if e.Yield? || e.Tick? || e.Exit? || e.Start? {
      SwitchLedger(s, e);
      StateMessages(s, s');
      SameQueue(s, s', t);
    } else {
      QueueOther(s, e, t);
    }
  }

  lemma SameQueue(s: Sys, s': Sys, t: nat)
    requires forall k: nat :: MessageAt(s', Que(t, k)) == MessageAt(s, Que(t, k))
    ensures QueueOf(s', t) == QueueOf(s, t)
  {
    var a, b := QueueOf(s, t), QueueOf(s', t);
    assert MessageAt(s', Que(t, |a|)) == MessageAt(s, Que(t, |a|));
    assert MessageAt(s', Que(t, |b|)) == MessageAt(s, Que(t, |b|));
    forall i | 0 <= i < |a| ensures a[i] == b[i] {
      assert MessageAt(s', Que(t, i)) == MessageAt(s, Que(t, i));
    }
  }

  lemma QueueOther(s: Sys, e: Event, t: nat)
    requires Ledger(s) && Enabled(s, e) && !e.AsyncSend? && !e.TryReceive? && !e.AsyncReceive?
    requires !e.Yield? && !e.Tick? && !e.Exit? && !e.Start?
    ensures QueueOf(Next(s, e), t) == QueueOf(s, t)
  {
    if e.TrySend? {
      forall k: nat ensures MessageAt(Next(s, e), Que(t, k)) == MessageAt(s, Que(t, k)) {
        TryMessages(s, Que(t, k));
      }
    } else if e.ClearGone? {
      forall k: nat ensures MessageAt(Next(s, e), Que(t, k)) == MessageAt(s, Que(t, k)) {
        ClearMessages(s, Que(t, k));
      }
    } else {
      LocalMessages(s, e);
    }
    SameQueue(s, Next(s, e), t);
  }

  ghost function Arrivals(states: seq<Sys>, events: seq<Event>, j: nat, t: nat): seq<Message>
    requires IsRun(states, events) && j <= |events|
  {
    if j == 0 then [] else Arrivals(states, events, j - 1, t) + Arrival(states[j - 1], events[j - 1], t)
  }

  ghost function Departures(states: seq<Sys>, events: seq<Event>, j: nat, t: nat): seq<Message>
    requires IsRun(states, events) && j <= |events|
  {
    if j == 0 then [] else Departures(states, events, j - 1, t) + Departure(states[j - 1], events[j - 1], t)
  }

  /** First in, first out, over every run: what was sent to a task asynchronously is, in order, what it
      has received from its queue followed by what is still queued. Nothing is lost, doubled or reordered. */
  lemma {:induction false} QueueFifo(states: seq<Sys>, events: seq<Event>, j: nat, t: nat)
    requires IsRun(states, events) && j < |states|
    ensures Arrivals(states, events, j, t) == Departures(states, events, j, t) + QueueOf(states[j], t)
  {
    if j == 0 {
      assert QueueOf(states[0], t) == [];
    } else {
      QueueFifo(states, events, j - 1, t);
      RunLedger(states, events, j - 1);
      var s, e, s' := states[j - 1], events[j - 1], states[j];
      QueueStep(s, e, t);
      FifoGlue(Arrivals(states, events, j - 1, t), Departures(states, events, j - 1, t), QueueOf(s, t),
               Arrival(s, e, t), Departure(s, e, t), QueueOf(s', t));
    }
  }

  lemma FifoGlue(a: seq<Message>, d: seq<Message>, q: seq<Message>, x: seq<Message>, y: seq<Message>, q': seq<Message>)
    requires a == d + q && q + x == y + q'
    ensures a + x == d + y + q'
  {
    assert a + x == d + (q + x);
    assert d + (y + q') == d + y + q';
  }

  // ---- What a send reports ----

  /** The record of a synchronous send follows its attempts: delivered means success, a failed check its
      error, a dead target an error once the buffer is cleared, and a parked send stays open until its
      buffer is found empty. */
  lemma AttemptReports(s: Sys)
    requires Ledger(s) && Enabled(s, TrySend)
    ensures var c := s.current.value; var req := s.pcs[c].req; var s' := Next(s, TrySend);
            var r := AttemptSend(s.tasks, c, req.capIdx, req.msg).1; var n := req.msg.serial;
            && n < |s'.sends| && |s'.pcs| == |s.pcs|
            && s'.sends[n].status == (if r.Err? then SentErr(r.error) else if r.value == Delivered then SentOk else Pending)
            && s'.pcs[c] == (if r.Err? || r.value == Delivered then User else if r.value == Gone then SendGone(req) else SendYield(req))
  {
  }

  lemma LaterReports(s: Sys, e: Event)
    requires Ledger(s) && Enabled(s, e) && (e.CheckSend? || e.ClearGone?)
    ensures var c := s.current.value; var n := s.pcs[c].req.msg.serial; var s' := Next(s, e);
            var parked := s.tasks[c].value.ipcBuffer.Some?;
            && n < |s'.sends| && |s'.pcs| == |s.pcs|
            && (e.ClearGone? ==> s'.sends[n].status == SentErr(TargetGone) && s'.pcs[c] == User)
            && (e.CheckSend? && !parked ==> s'.sends[n].status == SentOk && s'.pcs[c] == User)
            && (e.CheckSend? && parked ==> s'.sends[n].status == Pending && s'.pcs[c] == SendTry(s.pcs[c].req))
  {
  }

  /** An asynchronous send is closed at once, with the outcome of its enqueue. */
  lemma AsyncReports(s: Sys, e: Event)
    requires Ledger(s) && Enabled(s, e) && e.AsyncSend? && Acceptable(e.tag, e.version, e.payload)
    ensures var c := s.current.value; var s' := Next(s, e);
            var r := EnqueueTo(s.tasks, c, e.capIdx, MakeMessage(s, TAGS[e.tag], e.version, e.payload)).1;
            && |s'.sends| == |s.sends| + 1 && s'.pcs == s.pcs
            && s'.sends[|s.sends|].status == (if r.Ok? then SentOk else SentErr(r.error))
  {
    CheckInputsExact(e.tag, e.version, e.payload);
  }
}
