/** Rendezvous and queued IPC on values: what each lock-protected section of the
    send and receive paths does to the task table. */
module Ipc {
  import opened Core
  import opened Sched

  datatype IpcError =
    | NoCapability | TargetGone | PayloadTooLarge | InvalidTag | BadVersion | NoContext | QueueFull | NoMessage

  const MAX_PAYLOAD: nat := 128
  const BAD_VERSION: nat := 0xFFFF

  const TAGS: seq<IpcTag> :=
    [Raw, Log, Sensor, Ping, KVGet, KVSet, LogPublish, LogRead, LogAck, FsOp, FsReply, DevOp, DevReply, SyncOp, SyncReply]

  /** `IpcTag::from_u16`. */
  function TagOf(v: nat): Option<IpcTag> {
    if v < |TAGS| then Some(TAGS[v]) else None
  }

  /** The checks a send makes before touching shared state. */
  function CheckInputs(tag: nat, version: nat, payload: seq<Byte>): Result<IpcTag, IpcError> {
    if |payload| > MAX_PAYLOAD then Err(PayloadTooLarge)
    else if TagOf(tag).None? then Err(InvalidTag)
    else if version == BAD_VERSION then Err(BadVersion)
    else Ok(TagOf(tag).value)
  }

  /** `resolve_target_locked`: the task named by the channel in the sender's slot. */
  function ResolveTarget(tasks: TaskTable, cur: nat, capIdx: nat): Result<nat, IpcError> {
    if !HasTask(tasks, cur) then Err(NoContext)
    else
      var cap := GetCap(tasks[cur].value.capTable, capIdx);
      if cap.Some? && cap.value.resource.IpcChannel? then Ok(cap.value.resource.targetTask) else Err(NoCapability)
  }

  function SetBuffer(tasks: TaskTable, i: nat, b: Option<Message>): TaskTable
    requires Occupied(tasks, i)
  {
    tasks[i := Some(tasks[i].value.(ipcBuffer := b))]
  }

  datatype SendStep = Delivered | Gone | Blocked

  /** One validate-and-use region of `sys_send_typed`. */
  function AttemptSend(tasks: TaskTable, cur: nat, capIdx: nat, msg: Message): (TaskTable, Result<SendStep, IpcError>) {
    var target := ResolveTarget(tasks, cur, capIdx);
    if target.Err? then (if HasTask(tasks, cur) then SetBuffer(tasks, cur, None) else tasks, Err(target.error))
    else
      var t := target.value;
      if !HasTask(tasks, t) || tasks[t].value.state == Terminated then (tasks, Ok(Gone))
      else if tasks[t].value.state == BlockedOnReceive then
        (tasks[t := Some(tasks[t].value.(ipcBuffer := Some(msg), state := Ready))], Ok(Delivered))
      else
        (tasks[cur := Some(tasks[cur].value.(state := BlockedOnSend(t), ipcBuffer := Some(msg)))], Ok(Blocked))
  }

  predicate BlockedOn(tasks: TaskTable, i: nat, target: nat) {
    i < |tasks| && tasks[i].Some? && tasks[i].value.state == BlockedOnSend(target)
  }

  /** The lowest-numbered task blocked sending to `target`. */
  function FindSender(tasks: TaskTable, target: nat, from: nat := 0): (r: Option<nat>)
    ensures r.Some? ==> from <= r.value && BlockedOn(tasks, r.value, target)
                        && forall j :: from <= j < r.value ==> !BlockedOn(tasks, j, target)
    ensures r.None? ==> forall j :: from <= j ==> !BlockedOn(tasks, j, target)
    decreases |tasks| - from
  {
    if from >= |tasks| then None
    else if BlockedOn(tasks, from, target) then Some(from)
    else FindSender(tasks, target, from + 1)
  }

  ghost predicate QueuesValid(tasks: TaskTable) {
    forall i :: 0 <= i < |tasks| && tasks[i].Some? ==> tasks[i].value.msgQueue.Valid()
  }

  datatype RecvStep = Got(msg: Message) | Failed(error: IpcError) | Nothing

  /** Release a blocked sender: empty its buffer and make it ready. */
  function ReleaseSender(tasks: TaskTable, i: nat): TaskTable
    requires Occupied(tasks, i)
  {
    tasks[i := Some(tasks[i].value.(ipcBuffer := None, state := Ready))]
  }

  /** One pass of a receive: queue first, then the buffer, then a blocked sender. */
  function TakeMessage(tasks: TaskTable, cur: nat): (TaskTable, RecvStep)
    requires HasTask(tasks, cur) && QueuesValid(tasks)
  {
    var me := tasks[cur].value;
    var front := me.msgQueue.Dequeue();
    if front.Some? then (tasks[cur := Some(me.(msgQueue := front.value.1))], Got(front.value.0))
    else if me.ipcBuffer.Some? then (SetBuffer(tasks, cur, None), Got(me.ipcBuffer.value))
    else
      var sender := FindSender(tasks, cur);
      if sender.None? then (tasks, Nothing)
      else
        var msg := tasks[sender.value].value.ipcBuffer;
        (SetState(ReleaseSender(tasks, sender.value), cur, Running),
         if msg.Some? then Got(msg.value) else Failed(TargetGone))
  }

  /** The locked section of `sys_send_async`. */
  function EnqueueTo(tasks: TaskTable, cur: nat, capIdx: nat, msg: Message): (TaskTable, Result<(), IpcError>)
    requires QueuesValid(tasks)
  {
    var target := ResolveTarget(tasks, cur, capIdx);
    if target.Err? then (tasks, Err(target.error))
    else
      var t := target.value;
      if !HasTask(tasks, t) || tasks[t].value.state == Terminated then (tasks, Err(TargetGone))
      else
        var task := tasks[t].value;
        var q := task.msgQueue.Enqueue(msg);
        if q.Err? then (tasks, Err(QueueFull))
        else
          (tasks[t := Some(task.(msgQueue := q.value,
                                 state := if task.state == BlockedOnReceive then Ready else task.state))],
           Ok(()))
  }

  // ---- The sections, case by case ----

  /** The sender's slot holds a channel to `t`. */
  predicate HoldsChannel(tasks: TaskTable, cur: nat, capIdx: nat, t: nat) {
    && HasTask(tasks, cur) && capIdx < |tasks[cur].value.capTable| && tasks[cur].value.capTable[capIdx].Some?
    && tasks[cur].value.capTable[capIdx].value.resource == IpcChannel(t)
  }

  /** A slot resolves to a task exactly if it holds a channel to it, whatever the channel's rights. */
  lemma ResolveExact(tasks: TaskTable, cur: nat, capIdx: nat, t: nat)
    ensures var r := ResolveTarget(tasks, cur, capIdx);
            && (r == Ok(t) <==> HoldsChannel(tasks, cur, capIdx, t))
            && (r == Err(NoContext) <==> !HasTask(tasks, cur))
            && (r == Err(NoCapability) <==> HasTask(tasks, cur) && forall u :: !HoldsChannel(tasks, cur, capIdx, u))
            && (r.Err? ==> r.error == NoContext || r.error == NoCapability)
  {
    if HasTask(tasks, cur) {
      var cap := GetCap(tasks[cur].value.capTable, capIdx);
      assert cap.Some? && cap.value.resource.IpcChannel? ==> HoldsChannel(tasks, cur, capIdx, cap.value.resource.targetTask);
    }
  }

  /** A send attempt through a channel to `t`: it delivers exactly to a task asleep in receive, finds
      nobody exactly if the task is missing or dead, parks otherwise; one slot changes, or none. */
  lemma AttemptExact(tasks: TaskTable, cur: nat, capIdx: nat, msg: Message, t: nat, i: nat)
    requires HoldsChannel(tasks, cur, capIdx, t) && i < |tasks|
    ensures var (tasks', r) := AttemptSend(tasks, cur, capIdx, msg);
            var alive := HasTask(tasks, t) && tasks[t].value.state != Terminated;
            var asleep := HasTask(tasks, t) && tasks[t].value.state == BlockedOnReceive;
            && r.Ok? && |tasks'| == |tasks|
            && (r.value == Gone <==> !alive) && (r.value == Delivered <==> asleep)
            && tasks'[i] == if asleep && i == t then Some(tasks[t].value.(ipcBuffer := Some(msg), state := Ready))
                            else if alive && !asleep && i == cur then Some(tasks[cur].value.(ipcBuffer := Some(msg), state := BlockedOnSend(t)))
                            else tasks[i]
  {
    ResolveExact(tasks, cur, capIdx, t);
  }

  /** Without a channel the attempt fails, and a message parked by the sender is withdrawn. */
  lemma AttemptRefused(tasks: TaskTable, cur: nat, capIdx: nat, msg: Message, i: nat)
    requires (forall t :: !HoldsChannel(tasks, cur, capIdx, t)) && i < |tasks|
    ensures var (tasks', r) := AttemptSend(tasks, cur, capIdx, msg);
            && r == Err(if HasTask(tasks, cur) then NoCapability else NoContext) && |tasks'| == |tasks|
            && tasks'[i] == if HasTask(tasks, cur) && i == cur then Some(tasks[cur].value.(ipcBuffer := None)) else tasks[i]
  {
    var r := ResolveTarget(tasks, cur, capIdx);
    ResolveExact(tasks, cur, capIdx, if r.Ok? then r.value else 0);
  }

  /** An asynchronous send succeeds exactly if the slot holds a channel to a live task whose queue is
      not full; then the message is last in that queue and a sleeping task is ready; otherwise the
      error says which failed and nothing changes. */
  lemma EnqueueExact(tasks: TaskTable, cur: nat, capIdx: nat, msg: Message, t: nat, i: nat)
    requires QueuesValid(tasks) && HoldsChannel(tasks, cur, capIdx, t) && i < |tasks|
    ensures var (tasks', r) := EnqueueTo(tasks, cur, capIdx, msg);
            var alive := HasTask(tasks, t) && tasks[t].value.state != Terminated;
            var full := alive && |tasks[t].value.msgQueue.Contents()| == |tasks[t].value.msgQueue.buffer|;
            && (r == Ok(()) <==> alive && !full) && (r == Err(TargetGone) <==> !alive) && (r == Err(QueueFull) <==> full)
            && |tasks'| == |tasks| && (!r.Ok? || i != t ==> tasks'[i] == tasks[i])
            && (r.Ok? && i == t ==>
                  && tasks'[t].Some? && tasks'[t].value.msgQueue.Valid()
                  && tasks'[t].value.msgQueue.Contents() == tasks[t].value.msgQueue.Contents() + [msg]
                  && tasks'[t].value == tasks[t].value.(
                       msgQueue := tasks'[t].value.msgQueue,
                       state := if tasks[t].value.state == BlockedOnReceive then Ready else tasks[t].value.state))
  {
    ResolveExact(tasks, cur, capIdx, t);
  }

  /** A receive takes the front of the queue if there is one, else the buffer, and touches only its
      own slot for that; it finds nothing exactly if both are empty and nobody is parked on it. */
  lemma TakeExact(tasks: TaskTable, cur: nat, i: nat)
    requires HasTask(tasks, cur) && QueuesValid(tasks) && i < |tasks|
    ensures var (tasks', r) := TakeMessage(tasks, cur);
            var me := tasks[cur].value;
            var queued := me.msgQueue.Contents();
            && |tasks'| == |tasks| && tasks'[cur].Some?
            && (r == Nothing <==> queued == [] && me.ipcBuffer.None? && forall j :: !BlockedOn(tasks, j, cur))
            && (r == Nothing ==> tasks' == tasks)
            && (queued != [] ==>
                  && r == Got(queued[0]) && (i != cur ==> tasks'[i] == tasks[i])
                  && tasks'[cur].value == me.(msgQueue := tasks'[cur].value.msgQueue)
                  && tasks'[cur].value.msgQueue.Valid() && tasks'[cur].value.msgQueue.Contents() == queued[1..])
            && (queued == [] && me.ipcBuffer.Some? ==>
                  r == Got(me.ipcBuffer.value) && tasks'[i] == if i == cur then Some(me.(ipcBuffer := None)) else tasks[i])
  {
  }

  /** With queue and buffer empty it takes the message of the lowest task parked on it, wakes that task
      and is itself running. */
  lemma TakeParked(tasks: TaskTable, cur: nat, j: nat, i: nat)
    requires HasTask(tasks, cur) && QueuesValid(tasks) && i < |tasks|
    requires tasks[cur].value.msgQueue.Contents() == [] && tasks[cur].value.ipcBuffer.None?
    requires BlockedOn(tasks, j, cur) && forall l: nat :: l < j ==> !BlockedOn(tasks, l, cur)
    ensures var (tasks', r) := TakeMessage(tasks, cur);
            && r == (if tasks[j].value.ipcBuffer.Some? then Got(tasks[j].value.ipcBuffer.value) else Failed(TargetGone))
            && |tasks'| == |tasks|
            && tasks'[i] == if i == cur then Some(tasks[cur].value.(state := Running))
                            else if i == j then Some(tasks[j].value.(ipcBuffer := None, state := Ready))
                            else tasks[i]
  {
    assert FindSender(tasks, cur) == Some(j);
  }
}
