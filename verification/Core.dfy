/** The kernel's shared data: resources, capabilities, messages, the per-task
    message ring, task control blocks and the task table.

    The records the kernel copies by value are datatypes here. Table sizes
    (`MAX_TASKS`, `MAX_CAPS`, the ring capacity) are not fixed: every statement
    holds for a task table, a capability table and a ring of any length. */
module Core {
  import opened Arith

  datatype Option<+T> = None | Some(value: T)

  datatype Result<+T, +E> = Ok(value: T) | Err(error: E)

  const U64_MAX: nat := 0xFFFF_FFFF_FFFF_FFFF

  type Byte = b: int | 0 <= b < 256

  datatype Resource =
    | Serial
    | IpcChannel(targetTask: nat)
    | MemoryMapping(startVaddr: nat, size: nat, writeable: bool)
    | Service(svc: nat)
    | KVEntry(slot: nat, readable: bool, writable: bool)
    | LogChannel(kind: Byte, readable: bool, writable: bool)
    | FsNode(mount: Byte, readable: bool, writable: bool)
    | Device(dev: Byte, readable: bool, writable: bool)
    | SyncObj(obj: Byte)

  datatype RightsMask = RightsMask(read: bool, write: bool, grant: bool)

  datatype Capability = Capability(
    resource: Resource,
    read: bool, write: bool, grant: bool,
    sealed: bool,
    id: nat,              // 0 until the capability is installed in a slot
    origin: Option<nat>)  // id of the donor capability; None for kernel-minted roots

  type CapTable = seq<Option<Capability>>

  datatype IpcTag =
    | Raw | Log | Sensor | Ping | KVGet | KVSet | LogPublish | LogRead | LogAck
    | FsOp | FsReply | DevOp | DevReply | SyncOp | SyncReply

  /** `serial` is a history variable: it tells one send from another. */
  datatype Message = Message(serial: nat, sender: nat, tag: IpcTag, version: nat, payload: seq<Byte>)

  datatype TaskState = Ready | Running | BlockedOnReceive | BlockedOnSend(target: nat) | Terminated

  datatype Task = Task(
    id: nat,
    state: TaskState,
    rsp: nat, kstackTop: nat, cr3: nat,
    capTable: CapTable,
    ipcBuffer: Option<Message>,
    msgQueue: MessageQueue)

  type TaskTable = seq<Option<Task>>

  /** Every occupied slot holds the task whose id is the slot's index. */
  predicate IdsMatch(tasks: TaskTable) {
    forall i :: 0 <= i < |tasks| && tasks[i].Some? ==> tasks[i].value.id == i
  }

  predicate HasTask(tasks: TaskTable, id: nat) {
    id < |tasks| && tasks[id].Some? && tasks[id].value.id == id
  }

  /** `CapTable::get`. */
  function GetCap(table: CapTable, idx: nat): Option<Capability> {
    if idx < |table| then table[idx] else None
  }

  /** The fixed ring behind asynchronous IPC. */
  datatype MessageQueue = MessageQueue(buffer: seq<Option<Message>>, head: nat, tail: nat, count: nat) {

    ghost predicate Valid() {
      && 0 < |buffer|
      && head < |buffer|
      && count <= |buffer|
      && tail == (head + count) % |buffer|
      && (forall k :: 0 <= k < count ==> buffer[Slot(k)].Some?)
    }

    /** Position of the k-th oldest entry. */
    ghost function Slot(k: nat): (i: nat)
      requires 0 < |buffer|
      ensures i < |buffer|
    {
      (head + k) % |buffer|
    }

    /** The queued messages, oldest first. */
    ghost function Contents(): seq<Message>
      requires Valid()
    {
      seq(count, k requires 0 <= k < count => buffer[Slot(k)].value)
    }

    predicate IsFull() { count == |buffer| }

    /** Appends at the back, or reports a full ring and changes nothing. */
    function Enqueue(msg: Message): (r: Result<MessageQueue, ()>)
      requires Valid()
      ensures r.Err? <==> |Contents()| == |buffer|
      ensures r.Ok? ==> r.value.Valid() && |r.value.buffer| == |buffer|
                        && r.value.Contents() == Contents() + [msg]
    {
      if IsFull() then Err(())
      else
        assert tail < |buffer|;
        var q := MessageQueue(buffer[tail := Some(msg)], head, (tail + 1) % |buffer|, count + 1);
        EnqueueFacts(msg, q);
        Ok(q)
    }

    lemma EnqueueFacts(msg: Message, q: MessageQueue)
      requires Valid() && count < |buffer|
      requires q == MessageQueue(buffer[tail := Some(msg)], head, (tail + 1) % |buffer|, count + 1)
      ensures q.Valid() && q.Contents() == Contents() + [msg]
    {
      var n := |buffer|;
      ModWrap(head + count, n);
      ModWrap(head + count + 1, n);
      ModWrap(tail + 1, n);
      forall k | 0 <= k < count
        ensures Slot(k) != tail && q.Slot(k) == Slot(k)
      {
        ModWrap(head + k, n);
      }
    }

    /** Removes and returns the oldest message, or reports an empty ring. */
    function Dequeue(): (r: Option<(Message, MessageQueue)>)
      requires Valid()
      ensures r.None? <==> Contents() == []
      ensures r.Some? ==> r.value.1.Valid() && |r.value.1.buffer| == |buffer|
                          && Contents() == [r.value.0] + r.value.1.Contents()
    {
      if count == 0 then None
      else
        assert Slot(0) == head by { ModWrap(head, |buffer|); }
        var q := MessageQueue(buffer[head := None], (head + 1) % |buffer|, tail, count - 1);
        DequeueFacts(q);
        Some((buffer[head].value, q))
    }

    lemma DequeueFacts(q: MessageQueue)
      requires Valid() && 0 < count
      requires q == MessageQueue(buffer[head := None], (head + 1) % |buffer|, tail, count - 1)
      ensures buffer[head].Some? && q.Valid() && Contents() == [buffer[head].value] + q.Contents()
    {
      var n := |buffer|;
      ModWrap(head, n);
      ModWrap(head + 1, n);
      ModWrap(head + count, n);
      assert Slot(0) == head;
      ModWrap(q.head + q.count, n);
      forall k | 0 <= k < count - 1
        ensures q.Slot(k) == Slot(k + 1) && q.Slot(k) != head
      {
        ModWrap(head + (k + 1), n);
        ModWrap(q.head + k, n);
      }
    }
  }

  /** A fresh ring of the given capacity. */
  function EmptyQueue(capacity: nat): (q: MessageQueue)
    requires 0 < capacity
    ensures q.Valid() && q.Contents() == [] && |q.buffer| == capacity
  {
    MessageQueue(seq(capacity, _ => None), 0, 0, 0)
  }
}
