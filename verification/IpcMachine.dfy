/** The kernel as a transition system over its lock-protected sections.

    Each task carries a program counter saying where in a send or receive it will
    resume. One event is one locked section of the running task, one context
    switch, or one timer tick; ticks may fall between any two events. `sends` and
    `receipts` are history: every send ever started and every message ever
    returned by a receive. */
module IpcMachine {
  import opened Core
  import opened Sched
  import opened Ipc

  /** A send in progress. */
  datatype Req = Req(capIdx: nat, msg: Message)

  datatype Pc =
    | User                  // outside the IPC paths
    | SendTry(req: Req)     // about to validate and use
    | SendYield(req: Req)   // parked, about to yield
    | SendCheck(req: Req)   // back from the yield, about to look at the buffer
    | SendGone(req: Req)    // target found dead, about to clear the buffer
    | RecvTry               // about to look for a message
    | RecvYield             // blocked, about to yield

  datatype Status = Pending | SentOk | SentErr(error: IpcError)

  /** `target` is the task the message was last addressed to by a validated capability. */
  datatype SendRec = SendRec(sender: nat, capIdx: nat, target: Option<nat>, status: Status)

  datatype Receipt = Receipt(receiver: nat, msg: Message)

  datatype Sys = Sys(tasks: TaskTable, pcs: seq<Pc>, current: Option<nat>, sends: seq<SendRec>, receipts: seq<Receipt>)

  datatype Event =
    | StartSend(capIdx: nat, tag: nat, version: nat, payload: seq<Byte>)
    | TrySend
    | CheckSend
    | ClearGone
    | StartReceive
    | TryReceive
    | AsyncSend(capIdx: nat, tag: nat, version: nat, payload: seq<Byte>)
    | AsyncReceive
    | Yield                          // a voluntary yield, wherever the code makes one
    | Tick                           // a timer preemption
    | Exit                           // the running task terminates
    | SetCaps(tables: seq<CapTable>) // the running task's grants and revocations
    | Load(t: nat, task: Task)       // a new task in an empty slot
    | Start                          // the first dispatch

  predicate InSend(pc: Pc) { pc.SendTry? || pc.SendYield? || pc.SendCheck? || pc.SendGone? }
  predicate InReceive(pc: Pc) { pc.RecvTry? || pc.RecvYield? }

  predicate WellFormed(s: Sys) {
    && |s.pcs| == |s.tasks|
    && IdsMatch(s.tasks)
    && (s.current.Some? ==> HasTask(s.tasks, s.current.value))
  }

  /** A task is on the processor and has not terminated. */
  predicate Executing(s: Sys) {
    WellFormed(s) && s.current.Some? && s.tasks[s.current.value].value.state != Terminated
  }

  ghost predicate FreshTask(t: nat, task: Task) {
    task.id == t && task.state == Ready && task.ipcBuffer == None && task.msgQueue.Valid() && task.msgQueue.Contents() == []
  }

  ghost predicate Enabled(s: Sys, e: Event) {
    && WellFormed(s) && QueuesValid(s.tasks)
    && (!e.Load? && !e.Start? ==> Executing(s))
    && match e
       case TrySend => s.pcs[s.current.value].SendTry?
       case CheckSend => s.pcs[s.current.value].SendCheck?
       case ClearGone => s.pcs[s.current.value].SendGone?
       case TryReceive => s.pcs[s.current.value].RecvTry?
       case Yield => s.pcs[s.current.value].User? || s.pcs[s.current.value].SendYield? || s.pcs[s.current.value].RecvYield?
       case Tick => true
       case SetCaps(tables) => s.pcs[s.current.value].User? && |tables| == |s.tasks|
       case Load(t, task) =>
         && t < |s.tasks| && s.tasks[t].None? && FreshTask(t, task)
         && (s.current.Some? ==> Executing(s) && s.pcs[s.current.value].User?)
       case Start => s.current.None?
       case _ => s.pcs[s.current.value].User?
  }

  function SetPc(s: Sys, i: nat, pc: Pc): Sys
    requires i < |s.pcs|
  {
    s.(pcs := s.pcs[i := pc])
  }

  /** Close the record of a send. */
  function Finish(s: Sys, n: nat, st: Status): Sys {
    if n < |s.sends| then s.(sends := s.sends[n := s.sends[n].(status := st)]) else s
  }

  function Address(s: Sys, n: nat, target: nat): Sys {
    if n < |s.sends| then s.(sends := s.sends[n := s.sends[n].(target := Some(target))]) else s
  }

  function MakeMessage(s: Sys, tag: IpcTag, version: nat, payload: seq<Byte>): Message
    requires s.current.Some?
  {
    Message(|s.sends|, s.current.value, tag, version, payload)
  }

  /** A task that yields inside a send or receive resumes after the yield. */
  function AfterYield(pc: Pc): Pc {
    match pc
    case SendYield(req) => SendCheck(req)
    case RecvYield => RecvTry
    case _ => pc
  }

  function DoStartSend(s: Sys, capIdx: nat, tag: nat, version: nat, payload: seq<Byte>): Sys
    requires Executing(s)
  {
    var c := s.current.value;
    var checked := CheckInputs(tag, version, payload);
    if checked.Err? then
      s.(sends := s.sends + [SendRec(c, capIdx, None, SentErr(checked.error))])
    else
      SetPc(s.(sends := s.sends + [SendRec(c, capIdx, None, Pending)]),
            c, SendTry(Req(capIdx, MakeMessage(s, checked.value, version, payload))))
  }

  /** The task the running send's slot names now. */
  function SendTarget(s: Sys): nat
    requires Executing(s) && s.pcs[s.current.value].SendTry?
  {
    var r := ResolveTarget(s.tasks, s.current.value, s.pcs[s.current.value].req.capIdx);
    if r.Ok? then r.value else 0
  }

  function DoTrySend(s: Sys): Sys
    requires Executing(s) && s.pcs[s.current.value].SendTry?
  {
    var c := s.current.value;
    var req := s.pcs[c].req;
    var n := req.msg.serial;
    var (tasks', r) := AttemptSend(s.tasks, c, req.capIdx, req.msg);
    var s' := s.(tasks := tasks');
    match r
    case Err(e) => Finish(SetPc(s', c, User), n, SentErr(e))
    case Ok(Gone) => SetPc(s', c, SendGone(req))
    case Ok(Delivered) => Finish(SetPc(Address(s', n, SendTarget(s)), c, User), n, SentOk)
    case Ok(Blocked) => SetPc(Address(s', n, SendTarget(s)), c, SendYield(req))
  }

  function DoCheckSend(s: Sys): Sys
    requires Executing(s) && s.pcs[s.current.value].SendCheck?
  {
    var c := s.current.value;
    var req := s.pcs[c].req;
    if s.tasks[c].value.ipcBuffer.None? then Finish(SetPc(s, c, User), req.msg.serial, SentOk)
    else SetPc(s, c, SendTry(req))
  }

  function DoClearGone(s: Sys): Sys
    requires Executing(s) && s.pcs[s.current.value].SendGone?
  {
    var c := s.current.value;
    Finish(SetPc(s.(tasks := SetBuffer(s.tasks, c, None)), c, User), s.pcs[c].req.msg.serial, SentErr(TargetGone))
  }

  /** A receive pass; only the blocking form sleeps when nothing is there. */
  function DoReceive(s: Sys, blocking: bool): Sys
    requires Executing(s) && QueuesValid(s.tasks)
  {
    var c := s.current.value;
    var (tasks', r) := TakeMessage(s.tasks, c);
    match r
    case Got(m) => SetPc(s.(tasks := tasks', receipts := s.receipts + [Receipt(c, m)]), c, User)
    case Failed(_) => SetPc(s.(tasks := tasks'), c, User)
    case Nothing => if blocking then SetPc(s.(tasks := SetState(s.tasks, c, BlockedOnReceive)), c, RecvYield) else s
  }

  function DoAsyncSend(s: Sys, capIdx: nat, tag: nat, version: nat, payload: seq<Byte>): Sys
    requires Executing(s) && QueuesValid(s.tasks)
  {
    var c := s.current.value;
    var checked := CheckInputs(tag, version, payload);
    if checked.Err? then
      s.(sends := s.sends + [SendRec(c, capIdx, None, SentErr(checked.error))])
    else
      var (tasks', r) := EnqueueTo(s.tasks, c, capIdx, MakeMessage(s, checked.value, version, payload));
      var target := ResolveTarget(s.tasks, c, capIdx);
      s.(tasks := tasks',
         sends := s.sends + [SendRec(c, capIdx, if r.Ok? then Some(target.value) else None,
                                     if r.Ok? then SentOk else SentErr(r.error))])
  }

  function DoSwitch(s: Sys, next: (TaskTable, Option<nat>)): Sys {
    s.(tasks := next.0, current := next.1)
  }

  function DoSetCaps(s: Sys, tables: seq<CapTable>): Sys
    requires |tables| == |s.tasks|
  {
    s.(tasks := seq(|s.tasks|, i requires 0 <= i < |s.tasks| =>
         if s.tasks[i].None? then None else Some(s.tasks[i].value.(capTable := tables[i]))))
  }

  ghost function Next(s: Sys, e: Event): Sys
    requires Enabled(s, e)
  {
    match e
    case StartSend(capIdx, tag, version, payload) => DoStartSend(s, capIdx, tag, version, payload)
    case TrySend => DoTrySend(s)
    case CheckSend => DoCheckSend(s)
    case ClearGone => DoClearGone(s)
    case StartReceive => SetPc(s, s.current.value, RecvTry)
    case TryReceive => DoReceive(s, true)
    case AsyncSend(capIdx, tag, version, payload) => DoAsyncSend(s, capIdx, tag, version, payload)
    case AsyncReceive => DoReceive(s, false)
    case Yield =>
      var c := s.current.value;
      DoSwitch(SetPc(s, c, AfterYield(s.pcs[c])), YieldCpu(s.tasks, s.current))
    case Tick => DoSwitch(s, PreemptReschedule(s.tasks, s.current))
    case Exit => DoSwitch(s, Terminate(s.tasks, s.current))
    case SetCaps(tables) => DoSetCaps(s, tables)
    case Load(t, task) => SetPc(s.(tasks := s.tasks[t := Some(task)]), t, User)
    case Start => DoSwitch(s, YieldCpu(s.tasks, s.current))
  }

  /** An empty machine with `n` task slots. */
  function Initial(n: nat): Sys {
    Sys(seq(n, _ => None), seq(n, _ => User), None, [], [])
  }

  /** A run is a sequence of states, each reached from the one before by an enabled event. */
  ghost predicate IsRun(states: seq<Sys>, events: seq<Event>) {
    && |states| == |events| + 1
    && (exists n :: states[0] == Initial(n))
    && forall j :: 0 <= j < |events| ==> Enabled(states[j], events[j]) && states[j + 1] == Next(states[j], events[j])
  }
}
