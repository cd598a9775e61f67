/** The synchronization service as it runs: objects with a ring of waiters, and the message
    handler. */
module SyncService {
  import opened Arith
  import opened Core
  import opened SyncRuns

  const MAX_OBJECTS: nat := 8

  /** What a ring holds, oldest first. */
  function Ring(buf: seq<nat>, head: nat, len: nat): (q: seq<nat>)
    requires |buf| == MAX_WAIT
    ensures |q| == len
  {
    seq(len, k requires 0 <= k < len => buf[(head + k) % MAX_WAIT])
  }

  lemma RingPush(buf: seq<nat>, head: nat, len: nat, x: nat)
    requires |buf| == MAX_WAIT && len < MAX_WAIT
    ensures Ring(buf[(head + len) % MAX_WAIT := x], head, len + 1) == Ring(buf, head, len) + [x]
  {
    var buf' := buf[(head + len) % MAX_WAIT := x];
    forall k | 0 <= k < len ensures Ring(buf', head, len + 1)[k] == Ring(buf, head, len)[k] {
      ModApart(head + k, head + len, MAX_WAIT);
    }
  }

  lemma RingPop(buf: seq<nat>, head: nat, len: nat)
    requires |buf| == MAX_WAIT && head < MAX_WAIT && len > 0
    ensures Ring(buf, (head + 1) % MAX_WAIT, len - 1) == Ring(buf, head, len)[1..] && Ring(buf, head, len)[0] == buf[head]
  {
    var before, after := Ring(buf, head, len), Ring(buf, (head + 1) % MAX_WAIT, len - 1);
    forall k | 0 <= k < len - 1 ensures after[k] == before[k + 1] {
      assert ((head + 1) % MAX_WAIT + k) % MAX_WAIT == (head + (k + 1)) % MAX_WAIT;
    }
  }

  class SyncObject {
    var used: bool
    var isMutex: bool
    var count: nat
    const waiters: array<nat>
    var head: nat
    var tail: nat
    var len: nat

    ghost predicate Valid()
      reads this
    {
      waiters.Length == MAX_WAIT && head < MAX_WAIT && len <= MAX_WAIT && tail == (head + len) % MAX_WAIT
    }

    /** The waiting tasks, longest wait first. */
    ghost function Queue(): seq<nat>
      requires Valid()
      reads this, waiters
    {
      Ring(waiters[..], head, len)
    }

    ghost function Abstract(): Obj
      requires Valid()
      reads this, waiters
    {
      Obj(isMutex, count, Queue())
    }

    constructor ()
      ensures Valid() && !used && fresh(waiters)
    {
      used, isMutex, count, head, tail, len := false, false, 0, 0, 0, 0;
      waiters := new nat[MAX_WAIT](_ => 0);
    }

    /** `enqueue`. */
    method Enqueue(task: nat) returns (ok: bool)
      requires Valid()
      modifies this`tail, this`len, waiters
      ensures Valid() && ok == (|old(Queue())| < MAX_WAIT)
      ensures Queue() == if ok then old(Queue()) + [task] else old(Queue())
    {
      if len < MAX_WAIT {
        RingPush(waiters[..], head, len, task);
        ghost var before := waiters[..];
        waiters[tail] := task;
        assert waiters[..] == before[(head + len) % MAX_WAIT := task];
        tail := (tail + 1) % MAX_WAIT;
        len := len + 1;
        ok := true;
      } else {
        ok := false;
      }
    }

    /** `dequeue`. */
    method Dequeue() returns (r: Option<nat>)
      requires Valid()
      modifies this`head, this`len
      ensures Valid()
      ensures var q := old(Queue());
              if q == [] then r == None && Queue() == q else r == Some(q[0]) && Queue() == q[1..]
    {
      if len > 0 {
        RingPop(waiters[..], head, len);
        r := Some(waiters[head]);
        head := (head + 1) % MAX_WAIT;
        len := len - 1;
      } else {
        r := None;
      }
    }

    /** The acquire branch of the handler. */
    method Acquire(task: nat) returns (out: Outcome)
      requires Valid()
      modifies this, waiters
      ensures Valid() && used == old(used) && (Abstract(), out) == Apply(old(Abstract()), SyncRuns.Acquire(task))
    {
      if count > 0 {
        count := count - 1;
        out := Granted;
      } else {
        var ok := Enqueue(task);
        out := if ok then Queued else Full;
      }
    }

    /** The release branch of the handler. */
    method Release(task: nat) returns (out: Outcome)
      requires Valid()
      modifies this, waiters
      ensures Valid() && used == old(used) && (Abstract(), out) == Apply(old(Abstract()), SyncRuns.Release(task))
    {
      var woken := Dequeue();
      if woken.None? {
        if !isMutex && count == I32_MAX {
          return Halted;
        }
        count := if isMutex then 1 else count + 1;
      }
      out := Released(woken);
    }

    /** The create branch of the handler, on an unused object. */
    method Create(mutex: bool, initial: nat)
      requires Valid()
      modifies this
      ensures Valid() && used && Abstract() == Obj(mutex, initial, [])
    {
      used, isMutex, count := true, mutex, initial;
      head, tail, len := 0, 0, 0;
    }
  }

  // ---- The handler ----

  /** `sync_check_cap`: the sender holds a capability to the object. */
  ghost predicate MayUse(tasks: TaskTable, id: nat, obj: Byte) {
    HasTask(tasks, id) && exists c :: c in tasks[id].value.capTable && NamesObject(c, obj)
  }

  predicate NamesObject(c: Option<Capability>, obj: Byte) {
    c.Some? && c.value.resource.SyncObj? && c.value.resource.obj == obj
  }

  method CheckCap(tasks: TaskTable, id: nat, obj: Byte) returns (ok: bool)
    ensures ok <==> MayUse(tasks, id, obj)
  {
    if !HasTask(tasks, id) {
      return false;
    }
    var table := tasks[id].value.capTable;
    for i := 0 to |table|
      invariant forall j :: 0 <= j < i ==> !NamesObject(table[j], obj)
    {
      if NamesObject(table[i], obj) {
        return true;
      }
    }
    ok := false;
  }

  /** A byte of the fixed payload buffer: zero past the end of the message. */
  function PayloadByte(msg: Message, i: nat): Byte {
    if i < |msg.payload| then msg.payload[i] else 0
  }

  /** The reply code for the sender, if it is answered now, and the task woken with a permit. */
  datatype Answer = Answer(code: Option<nat>, woken: Option<nat>)

  function Answered(out: Outcome): Answer {
    match out
    case Granted => Answer(Some(0), None)
    case Queued => Answer(None, None)
    case Full => Answer(Some(4), None)
    case Released(woken) => Answer(Some(0), woken)
    case Halted => Answer(None, None)
  }

  /** What the answers mean: an acquirer is told 0 exactly if a permit was free and is now taken, 4 exactly
      if none was free and sixteen wait, and nothing while it waits its turn; a releaser is told 0 and the
      longest waiter is woken, unless the count would overflow. */
  lemma AnswerExact(o: Obj, task: nat)
    ensures var (o', out) := Apply(o, Acquire(task)); var a := Answered(out);
            && (a.code == Some(0) <==> o.count > 0) && (a.code == Some(0) ==> o'.count == o.count - 1 && o'.waiters == o.waiters)
            && (a.code == Some(4) <==> o.count == 0 && |o.waiters| >= 16) && (a.code == Some(4) ==> o' == o)
            && (a.code == None <==> o.count == 0 && |o.waiters| < 16)
            && (a.code == None ==> o'.count == 0 && o'.waiters == o.waiters + [task])
            && a.woken == None && o'.isMutex == o.isMutex
    ensures var (o', out) := Apply(o, Release(task)); var a := Answered(out);
            && (a.woken.Some? <==> o.waiters != []) && (a.woken.Some? ==> a.woken == Some(o.waiters[0]) && o'.waiters == o.waiters[1..])
            && (a.woken.Some? ==> o'.count == o.count) && (a.woken.None? ==> o'.waiters == [])
            && (a.code == Some(0) <==> o.waiters != [] || o.isMutex || o.count != 0x7FFF_FFFF)
            && (a.code == Some(0) && a.woken.None? ==> o'.count == if o.isMutex then 1 else o.count + 1)
            && (a.code != Some(0) ==> a.code == None && o' == o) && o'.isMutex == o.isMutex
  {
  }

  /** The object a well-formed message names. */
  predicate WellFormed(msg: Message) {
    msg.tag == SyncOp && |msg.payload| >= 2 && msg.payload[1] < MAX_OBJECTS && msg.payload[0] <= 2
  }

  /** One turn of the service loop on the object the message names: it is created once, and after
      that changed only by acquires and releases of tasks that hold a capability to it. */
  method Handle(obj: SyncObject, tasks: TaskTable, msg: Message) returns (a: Answer)
    requires obj.Valid()
    modifies obj, obj.waiters
    ensures obj.Valid()
    ensures !WellFormed(msg) ==>
              a == Answer(Some(2), None) && obj.used == old(obj.used) && obj.Abstract() == old(obj.Abstract())
    ensures WellFormed(msg) && msg.payload[0] == 0 ==>
              && obj.used && a == Answer(Some(if old(obj.used) then 2 else 0), None)
              && obj.Abstract() == if old(obj.used) then old(obj.Abstract())
                                   else Obj(PayloadByte(msg, 2) != 0, PayloadByte(msg, 3), [])
    ensures WellFormed(msg) && msg.payload[0] != 0 && (!MayUse(tasks, msg.sender, msg.payload[1]) || !old(obj.used)) ==>
              && a == Answer(Some(if MayUse(tasks, msg.sender, msg.payload[1]) then 2 else 1), None)
              && obj.used == old(obj.used) && obj.Abstract() == old(obj.Abstract())
    ensures WellFormed(msg) && msg.payload[0] != 0 && MayUse(tasks, msg.sender, msg.payload[1]) && old(obj.used) ==>
              var op := if msg.payload[0] == 1 then Acquire(msg.sender) else Release(msg.sender);
              && obj.used && obj.Abstract() == Apply(old(obj.Abstract()), op).0
              && a == Answered(Apply(old(obj.Abstract()), op).1)
  {
    if !WellFormed(msg) {
      return Answer(Some(2), None);
    }
    var op := msg.payload[0];
    if op == 0 {
      if obj.used {
        return Answer(Some(2), None);
      }
      obj.Create(PayloadByte(msg, 2) != 0, PayloadByte(msg, 3));
      return Answer(Some(0), None);
    }
    var ok := CheckCap(tasks, msg.sender, msg.payload[1]);
    if !ok {
      return Answer(Some(1), None);
    }
    if !obj.used {
      return Answer(Some(2), None);
    }
    var out;
    if op == 1 {
      out := obj.Acquire(msg.sender);
    } else {
      out := obj.Release(msg.sender);
    }
    a := Answered(out);
  }

  // ---- The store ----

  /** Eight objects, no two of which share anything. */
  ghost predicate StoreValid(store: seq<SyncObject>)
    reads store
  {
    && |store| == MAX_OBJECTS
    && (forall i, j :: 0 <= i < j < |store| ==> store[i] != store[j] && store[i].waiters != store[j].waiters)
    && (forall i :: 0 <= i < |store| ==> store[i].Valid())
  }

  /** What one message does to the object it names, and the answer. */
  ghost function Turn(used: bool, o: Obj, allowed: bool, msg: Message): (bool, Obj, Answer)
    requires WellFormed(msg)
  {
    if msg.payload[0] == 0 then
      if used then (used, o, Answer(Some(2), None)) else (true, Obj(PayloadByte(msg, 2) != 0, PayloadByte(msg, 3), []), Answer(Some(0), None))
    else if !allowed then (used, o, Answer(Some(1), None))
    else if !used then (used, o, Answer(Some(2), None))
    else
      var (o', out) := Apply(o, if msg.payload[0] == 1 then Acquire(msg.sender) else Release(msg.sender));
      (used, o', Answered(out))
  }

  /** The service loop's turn on the whole store: the named object takes its turn and every other
      object, with its waiters, is untouched. */
  method HandleMessage(store: seq<SyncObject>, tasks: TaskTable, msg: Message) returns (a: Answer)
    requires StoreValid(store)
    modifies store, set o | o in store :: o.waiters
    ensures StoreValid(store)
    ensures !WellFormed(msg) ==> a == Answer(Some(2), None)
    ensures WellFormed(msg) ==>
              var o := store[msg.payload[1]];
              (o.used, o.Abstract(), a) == Turn(old(o.used), old(o.Abstract()), MayUse(tasks, msg.sender, msg.payload[1]), msg)
    ensures forall i :: 0 <= i < |store| && !(WellFormed(msg) && i == msg.payload[1]) ==>
              store[i].used == old(store[i].used) && store[i].Abstract() == old(store[i].Abstract())
  {
    if !WellFormed(msg) {
      return Answer(Some(2), None);
    }
    var obj := store[msg.payload[1]];
    a := Handle(obj, tasks, msg);
    assert forall i :: 0 <= i < |store| && i != msg.payload[1] ==> store[i] != obj && store[i].waiters != obj.waiters;
  }
}
