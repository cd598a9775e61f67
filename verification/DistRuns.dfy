/** Service routing, migration and failover on values, and what they keep over whole runs. */
module DistRuns {
  import opened Core
  import Derivation
  import opened Ipc
  import opened Slots
  import opened Snapshot

  datatype Location = Local(task: nat) | Remote(node: nat)

  /** The simulated remote node: its inbox and the checkpoints hosted there. */
  datatype Host = Host(id: nat, inbox: MessageQueue, services: Entries<Checkpoint>, delivered: nat)

  datatype Dist = Dist(registry: Entries<Location>, remote: Host, tasks: TaskTable, current: Option<nat>)

  datatype Routed = ToLocal(task: nat) | ToRemote(node: nat) | Unknown

  ghost predicate Valid(s: Dist) {
    && Compact(s.registry) && OneEach(s.registry) && Compact(s.remote.services)
    && s.remote.inbox.Valid() && QueuesValid(s.tasks)
    && forall i :: 0 <= i < |s.remote.services| && s.remote.services[i].Some? ==> s.remote.services[i].value.1.msgQueue.Valid()
  }

  // ---- The operations ----

  /** The message a routed send carries; a send outside any task has the largest id as sender. */
  function Wrap(current: Option<nat>, payload: seq<Byte>, serial: nat): Message {
    Message(serial, if current.Some? then current.value else U64_MAX, Raw, 1,
            if |payload| <= MAX_PAYLOAD then payload else payload[..MAX_PAYLOAD])
  }

  /** The routed message names the running task as its sender and carries the payload's first 128 bytes. */
  lemma WrapExact(current: Option<nat>, payload: seq<Byte>, serial: nat)
    ensures var m := Wrap(current, payload, serial);
            && m.serial == serial && m.tag == Raw && m.version == 1
            && (current.Some? ==> m.sender == current.value) && (current.None? ==> m.sender == 0xFFFF_FFFF_FFFF_FFFF)
            && m.payload <= payload && |m.payload| <= 128 && (|m.payload| == 128 || m.payload == payload)
  {
  }

  /** A full queue drops the message. */
  function Offer(q: MessageQueue, m: Message): (r: MessageQueue)
    requires q.Valid()
    ensures r.Valid() && |r.buffer| == |q.buffer|
    ensures r.Contents() == if |q.Contents()| < |q.buffer| then q.Contents() + [m] else q.Contents()
  {
    if q.Enqueue(m).Ok? then q.Enqueue(m).value else q
  }

  function Deliver(tasks: TaskTable, id: nat, m: Message): (r: TaskTable)
    requires QueuesValid(tasks)
    ensures QueuesValid(r) && |r| == |tasks|
  {
    if HasTask(tasks, id) then tasks[id := Some(tasks[id].value.(msgQueue := Offer(tasks[id].value.msgQueue, m)))] else tasks
  }

  function RouteSend(s: Dist, cap: Capability, payload: seq<Byte>, serial: nat): (Dist, Routed)
    requires Valid(s)
  {
    var loc := if cap.resource.Service? then Find(s.registry, cap.resource.svc) else None;
    if loc.None? then (s, Unknown)
    else
      var m := Wrap(s.current, payload, serial);
      if loc.value.Local? then (s.(tasks := Deliver(s.tasks, loc.value.task, m)), ToLocal(loc.value.task))
      else
        (if s.remote.id == loc.value.node then s.(remote := s.remote.(inbox := Offer(s.remote.inbox, m))) else s,
         ToRemote(loc.value.node))
  }

  function Filled(t: CapTable): set<nat> {
    set i: nat | i < |t| && t[i].Some?
  }

  /** The count reported across a move is the number of occupied slots. */
  lemma {:induction false} CountCapsExact(t: CapTable)
    ensures Derivation.TableCount(t) == |Filled(t)|
  {
    if t != [] {
      var n := |t| - 1;
      CountCapsExact(t[..n]);
      assert Filled(t) == if t[n].Some? then Filled(t[..n]) + {n} else Filled(t[..n]);
    }
  }

  /** The task behind a service that is local and alive. */
  function Backing(s: Dist, svc: nat): Option<nat> {
    var loc := Find(s.registry, svc);
    if loc.Some? && loc.value.Local? && HasTask(s.tasks, loc.value.task) then Some(loc.value.task) else None
  }

  function Migrate(s: Dist, svc: nat, dest: nat): (Dist, Result<nat, ()>) {
    var tid := Backing(s, svc);
    if tid.None? then (s, Err(()))
    else
      var cp := CheckpointOf(s.tasks[tid.value]).value;
      (s.(remote := s.remote.(services := Fill(s.remote.services, svc, cp)),
          registry := Set(s.registry, svc, Remote(dest)),
          tasks := s.tasks[tid.value := None]),
       Ok(Derivation.TableCount(cp.capTable)))
  }

  /** Taking messages until the queue is empty. */
  function Drain(q: MessageQueue): (r: (MessageQueue, nat))
    requires q.Valid()
    ensures r.0.Valid() && r.0.Contents() == [] && r.1 == |q.Contents()|
    decreases q.count
  {
    var d := q.Dequeue();
    if d.None? then (q, 0)
    else
      assert d.value.1.count == q.count - 1;
      var (rest, n) := Drain(d.value.1);
      (rest, n + 1)
  }

  function PumpRemote(s: Dist): (Dist, nat)
    requires Valid(s)
  {
    var (q, n) := Drain(s.remote.inbox);
    (s.(remote := s.remote.(inbox := q, delivered := s.remote.delivered + n)), n)
  }

  function Failover(s: Dist, svc: nat, replica: nat): (Dist, Result<nat, ()>) {
    var cp := Find(s.remote.services, svc);
    if cp.None? || !HasTask(s.tasks, replica) then (s, Err(()))
    else
      var t := s.tasks[replica].value.(capTable := cp.value.capTable, ipcBuffer := cp.value.ipcBuffer, msgQueue := cp.value.msgQueue);
      (s.(tasks := s.tasks[replica := Some(t)], registry := Set(s.registry, svc, Local(replica))),
       Ok(Derivation.TableCount(cp.value.capTable)))
  }

  // ---- Runs ----

  /** `Kernel` stands for anything the rest of the kernel does to the tasks in between. */
  datatype Op =
    | Register(svc: nat, loc: Location)
    | Send(cap: Capability, payload: seq<Byte>, serial: nat)
    | MoveOut(svc: nat, dest: nat)
    | Pump
    | FailOver(svc: nat, replica: nat)
    | Kernel(tasks: TaskTable, current: Option<nat>)

  ghost predicate Enabled(op: Op) {
    op.Kernel? ==> QueuesValid(op.tasks)
  }

  function Do(s: Dist, op: Op): Dist
    requires Valid(s)
  {
    match op
    case Register(svc, loc) => s.(registry := Set(s.registry, svc, loc))
    case Send(cap, payload, serial) => RouteSend(s, cap, payload, serial).0
    case MoveOut(svc, dest) => Migrate(s, svc, dest).0
    case Pump => PumpRemote(s).0
    case FailOver(svc, replica) => Failover(s, svc, replica).0
    case Kernel(tasks, current) => s.(tasks := tasks, current := current)
  }

  lemma {:induction false} FoundQueue(es: Entries<Checkpoint>, k: nat)
    requires forall i :: 0 <= i < |es| && es[i].Some? ==> es[i].value.1.msgQueue.Valid()
    ensures Find(es, k).Some? ==> Find(es, k).value.msgQueue.Valid()
  {
    if es != [] {
      FoundQueue(es[1..], k);
    }
  }

  lemma FillQueues(es: Entries<Checkpoint>, key: nat, cp: Checkpoint)
    requires cp.msgQueue.Valid() && forall i :: 0 <= i < |es| && es[i].Some? ==> es[i].value.1.msgQueue.Valid()
    ensures var r := Fill(es, key, cp); forall i :: 0 <= i < |r| && r[i].Some? ==> r[i].value.1.msgQueue.Valid()
  {
  }

  lemma StepValid(s: Dist, op: Op)
    requires Valid(s) && Enabled(op)
    ensures Valid(Do(s, op)) && |Do(s, op).registry| == |s.registry|
  {
    match op
    case Register(svc, loc) => SetFinds(s.registry, svc, loc, svc);
    case Send(_, _, _) =>
    case MoveOut(svc, dest) =>
      if Backing(s, svc).Some? {
        var cp := CheckpointOf(s.tasks[Backing(s, svc).value]).value;
        SetFinds(s.registry, svc, Remote(dest), svc);
        FillFinds(s.remote.services, svc, cp, svc);
        FillQueues(s.remote.services, svc, cp);
      }
    case Pump =>
    case FailOver(svc, replica) =>
      FoundQueue(s.remote.services, svc);
      SetFinds(s.registry, svc, Local(replica), svc);
    case Kernel(_, _) =>
  }

  /** From `a` to `b`, a service that resolves keeps resolving and a hosted checkpoint is not replaced. */
  ghost predicate Keeps(a: Dist, b: Dist, svc: nat) {
    && (Find(a.registry, svc).Some? ==> Find(b.registry, svc).Some?)
    && (Find(a.remote.services, svc).Some? ==> Find(b.remote.services, svc) == Find(a.remote.services, svc))
  }

  lemma StepKeeps(s: Dist, op: Op, svc: nat)
    requires Valid(s) && Enabled(op)
    ensures Keeps(s, Do(s, op), svc)
  {
    match op
    case Register(k, loc) => SetFinds(s.registry, k, loc, svc);
    case Send(_, _, _) =>
    case MoveOut(k, dest) =>
      if Backing(s, k).Some? {
        SetFinds(s.registry, k, Remote(dest), svc);
        FillFinds(s.remote.services, k, CheckpointOf(s.tasks[Backing(s, k).value]).value, svc);
      }
    case Pump =>
    case FailOver(k, replica) => SetFinds(s.registry, k, Local(replica), svc);
    case Kernel(_, _) =>
  }

  ghost predicate AllEnabled(ops: seq<Op>) {
    forall i :: 0 <= i < |ops| ==> Enabled(ops[i])
  }

  /** The state after the first `n` operations of a run: in particular the registry never holds two
      entries for one service. */
  ghost function StateAt(s: Dist, ops: seq<Op>, n: nat): (r: Dist)
    requires Valid(s) && AllEnabled(ops) && n <= |ops|
    ensures Valid(r) && OneEach(r.registry) && |r.registry| == |s.registry|
  {
    if n == 0 then s
    else
      StepValid(StateAt(s, ops, n - 1), ops[n - 1]);
      Do(StateAt(s, ops, n - 1), ops[n - 1])
  }

  /** Over any stretch of a run, a registered service stays resolvable and a hosted checkpoint stays
      the one that is found. */
  lemma {:induction false} RunKeeps(s: Dist, ops: seq<Op>, m: nat, n: nat, svc: nat)
    requires Valid(s) && AllEnabled(ops) && m <= n <= |ops|
    ensures Keeps(StateAt(s, ops, m), StateAt(s, ops, n), svc)
    decreases n
  {
    if m < n {
      RunKeeps(s, ops, m, n - 1, svc);
      OneMore(s, ops, n, svc);
    }
  }

  lemma OneMore(s: Dist, ops: seq<Op>, n: nat, svc: nat)
    requires Valid(s) && AllEnabled(ops) && 0 < n <= |ops|
    ensures Keeps(StateAt(s, ops, n - 1), StateAt(s, ops, n), svc)
  {
    StepKeeps(StateAt(s, ops, n - 1), ops[n - 1], svc);
  }

  function LocationOf(s: Dist, cap: Capability): Option<Location> {
    if cap.resource.Service? then Find(s.registry, cap.resource.svc) else None
  }

  /** The contents of a queue that was offered a message, or not. */
  ghost function Appended(q: MessageQueue, m: Message, offered: bool): seq<Message>
    requires q.Valid()
  {
    if offered && |q.Contents()| < |q.buffer| then q.Contents() + [m] else q.Contents()
  }

  lemma DeliverExact(tasks: TaskTable, id: nat, m: Message, i: nat)
    requires QueuesValid(tasks) && i < |tasks| && tasks[i].Some?
    ensures var t := Deliver(tasks, id, m)[i];
            t.Some? && t.value.msgQueue.Contents() == Appended(tasks[i].value.msgQueue, m, i == id && HasTask(tasks, id))
  {
  }

  /** A routed send changes nothing but the one queue the service's location names, and appends the
      message there if there is room: the sender's call is the same for local and remote. */
  lemma SendExact(s: Dist, cap: Capability, payload: seq<Byte>, serial: nat, i: nat)
    requires Valid(s) && i < |s.tasks|
    ensures var (s', r) := RouteSend(s, cap, payload, serial);
            var loc, m := LocationOf(s, cap), Wrap(s.current, payload, serial);
            && r == (if loc.None? then Unknown else if loc.value.Local? then ToLocal(loc.value.task) else ToRemote(loc.value.node))
            && s'.registry == s.registry && s'.current == s.current && |s'.tasks| == |s.tasks|
            && s'.remote == s.remote.(inbox := s'.remote.inbox) && s'.tasks[i].Some? == s.tasks[i].Some?
            && s'.remote.inbox.Valid()
            && (s.tasks[i].Some? ==>
                  && s'.tasks[i].value == s.tasks[i].value.(msgQueue := s'.tasks[i].value.msgQueue)
                  && s'.tasks[i].value.msgQueue.Valid()
                  && s'.tasks[i].value.msgQueue.Contents() ==
                     Appended(s.tasks[i].value.msgQueue, m, loc == Some(Local(i)) && HasTask(s.tasks, i)))
            && s'.remote.inbox.Contents() == Appended(s.remote.inbox, m, loc == Some(Remote(s.remote.id)))
  {
    var loc := LocationOf(s, cap);
    var m := Wrap(s.current, payload, serial);
    if loc.Some? && loc.value.Local? {
      if s.tasks[i].Some? {
        DeliverExact(s.tasks, loc.value.task, m, i);
      }
      assert QueuesValid(Deliver(s.tasks, loc.value.task, m));
    } else if loc.Some? {
      assert Offer(s.remote.inbox, m).Contents() == Appended(s.remote.inbox, m, true);
    }
  }

  // ---- Migration and failover ----

  /** A service is backed by the task its route names, if that is local and alive. */
  lemma BackingIff(s: Dist, svc: nat, t: nat)
    ensures Backing(s, svc) == Some(t) <==> Find(s.registry, svc) == Some(Local(t)) && HasTask(s.tasks, t)
  {
  }

  /** Migration succeeds exactly for a live local service; then the route points at the node, the
      local task is gone, and every other service and task is as before. */
  lemma MigrateExact(s: Dist, svc: nat, dest: nat, k: nat, i: nat)
    requires Valid(s) && i < |s.tasks|
    ensures var (s', r) := Migrate(s, svc, dest); var tid := Backing(s, svc);
            && (r.Ok? <==> tid.Some?)
            && (r.Err? ==> s' == s)
            && (r.Ok? ==>
                  && r.value == |Filled(s.tasks[tid.value].value.capTable)|
                  && Find(s'.registry, k) == (if k == svc then Some(Remote(dest)) else Find(s.registry, k))
                  && s'.remote == s.remote.(services := s'.remote.services) && s'.current == s.current
                  && Find(s'.remote.services, k) ==
                     (if k == svc && Find(s.remote.services, svc).None? && HasFree(s.remote.services)
                      then CheckpointOf(s.tasks[tid.value]) else Find(s.remote.services, k))
                  && |s'.tasks| == |s.tasks| && s'.tasks[i] == (if i == tid.value then None else s.tasks[i]))
  {
    if Backing(s, svc).Some? {
      SetFinds(s.registry, svc, Remote(dest), k);
      FillFinds(s.remote.services, svc, CheckpointOf(s.tasks[Backing(s, svc).value]).value, k);
      CountCapsExact(s.tasks[Backing(s, svc).value].value.capTable);
    }
  }

  /** The checkpoint found for a service after it migrated is the one just taken exactly when none
      was hosted before and a slot was free, or an equal one was hosted already. */
  lemma HostedIff(s: Dist, svc: nat, dest: nat)
    requires Valid(s) && Backing(s, svc).Some?
    ensures var cp := CheckpointOf(s.tasks[Backing(s, svc).value]).value;
            Find(Migrate(s, svc, dest).0.remote.services, svc) == Some(cp) <==>
            (Find(s.remote.services, svc) == None && HasFree(s.remote.services)) || Find(s.remote.services, svc) == Some(cp)
  {
    FillFinds(s.remote.services, svc, CheckpointOf(s.tasks[Backing(s, svc).value]).value, svc);
  }

  /** Failover exactly: it needs a hosted checkpoint and a live replica; then the replica has the
      checkpoint's capabilities, buffer and queue on its own stack, and the service resolves to it
      if it was registered or a slot was free. */
  lemma FailoverExact(s: Dist, svc: nat, replica: nat)
    requires Valid(s)
    ensures var (s', r) := Failover(s, svc, replica); var cp := Find(s.remote.services, svc);
            && (r.Ok? <==> cp.Some? && HasTask(s.tasks, replica))
            && (r.Err? ==> s' == s)
            && (r.Ok? ==>
                  && r.value == |Filled(cp.value.capTable)| && s'.remote == s.remote && s'.current == s.current
                  && s'.tasks == s.tasks[replica := s'.tasks[replica]] && s'.tasks[replica].Some?
                  && s'.tasks[replica].value == s.tasks[replica].value.(
                       capTable := cp.value.capTable, ipcBuffer := cp.value.ipcBuffer, msgQueue := cp.value.msgQueue)
                  && (Find(s.registry, svc).Some? || HasFree(s.registry) ==> Find(s'.registry, svc) == Some(Local(replica))))
  {
    SetFinds(s.registry, svc, Local(replica), svc);
    if Find(s.remote.services, svc).Some? {
      CountCapsExact(Find(s.remote.services, svc).value.capTable);
    }
  }

  /** A pump delivers every waiting message, counts each once, and touches nothing else. */
  lemma PumpExact(s: Dist)
    requires Valid(s)
    ensures var (s', n) := PumpRemote(s);
            && n == |s.remote.inbox.Contents()| && s'.remote.delivered == s.remote.delivered + n
            && s'.remote.inbox.Valid() && s'.remote.inbox.Contents() == []
            && s' == s.(remote := s.remote.(inbox := s'.remote.inbox, delivered := s'.remote.delivered))
  {
  }

  /** Migration then failover preserves the service: whatever sends, pumps, registrations, other
      moves and task changes happen in between, a failover onto a live replica gives it the
      capabilities, buffer and queue contents the backing task had when it migrated, provided no
      checkpoint was hosted before and a slot was free. */
  lemma MigrationSurvives(s: Dist, ops: seq<Op>, m: nat, n: nat, svc: nat, dest: nat, replica: nat)
    requires Valid(s) && AllEnabled(ops) && m < n < |ops| && ops[m] == MoveOut(svc, dest) && ops[n] == FailOver(svc, replica)
    requires Backing(StateAt(s, ops, m), svc).Some? && HasTask(StateAt(s, ops, n).tasks, replica)
    requires Find(StateAt(s, ops, m).remote.services, svc) == None && HasFree(StateAt(s, ops, m).remote.services)
    ensures var a, b := StateAt(s, ops, m), StateAt(s, ops, n + 1);
            var was := a.tasks[Backing(a, svc).value].value;
            && HasTask(b.tasks, replica) && Find(b.registry, svc) == Some(Local(replica))
            && b.tasks[replica].value.capTable == was.capTable
            && b.tasks[replica].value.ipcBuffer == was.ipcBuffer
            && was.msgQueue.Valid() && b.tasks[replica].value.msgQueue.Valid()
            && b.tasks[replica].value.msgQueue.Contents() == was.msgQueue.Contents()
  {
    var a, c := StateAt(s, ops, m), StateAt(s, ops, n);
    HostedIff(a, svc, dest);
    MigrateExact(a, svc, dest, svc, Backing(a, svc).value);
    assert StateAt(s, ops, m + 1) == Migrate(a, svc, dest).0;
    RunKeeps(s, ops, m + 1, n, svc);
    FailoverExact(c, svc, replica);
    assert StateAt(s, ops, n + 1) == Failover(c, svc, replica).0;
  }

  /** The two tasks hold the same capabilities, pending message and queue. */
  predicate Carries(t: Task, was: Task) {
    t.capTable == was.capTable && t.ipcBuffer == was.ipcBuffer && t.msgQueue == was.msgQueue
  }

  /** The operation moves no instance of the service out. */
  predicate Stays(s: Dist, op: Op, svc: nat) {
    op.MoveOut? && op.svc == svc ==> Backing(s, svc).None?
  }

  ghost predicate StaysAt(s: Dist, ops: seq<Op>, j: nat, svc: nat)
    requires Valid(s) && AllEnabled(ops) && j < |ops|
  {
    Stays(StateAt(s, ops, j), ops[j], svc)
  }

  lemma StepHosts(s: Dist, op: Op, svc: nat)
    requires Valid(s) && Stays(s, op, svc)
    ensures Find(Do(s, op).remote.services, svc) == Find(s.remote.services, svc)
  {
    if op.MoveOut? && Backing(s, op.svc).Some? {
      FillFinds(s.remote.services, op.svc, CheckpointOf(s.tasks[Backing(s, op.svc).value]).value, svc);
    }
  }

  /** Between migrations of a service, the checkpoint found for it does not change. */
  lemma {:induction false} HostedStays(s: Dist, ops: seq<Op>, m: nat, n: nat, svc: nat)
    requires Valid(s) && AllEnabled(ops) && m <= n <= |ops|
    requires forall j :: m <= j < n ==> StaysAt(s, ops, j, svc)
    ensures Find(StateAt(s, ops, n).remote.services, svc) == Find(StateAt(s, ops, m).remote.services, svc)
    decreases n
  {
    if m < n {
      HostedStays(s, ops, m, n - 1, svc);
      HostedOne(s, ops, n - 1, svc);
    }
  }

  lemma HostedOne(s: Dist, ops: seq<Op>, j: nat, svc: nat)
    requires Valid(s) && AllEnabled(ops) && j < |ops| && StaysAt(s, ops, j, svc)
    ensures Find(StateAt(s, ops, j + 1).remote.services, svc) == Find(StateAt(s, ops, j).remote.services, svc)
  {
    StepHosts(StateAt(s, ops, j), ops[j], svc);
  }

  /** A migration immediately followed by a failover, on the state that matters. */
  lemma ReplayedIff(a: Dist, c: Dist, svc: nat, dest: nat, replica: nat)
    requires Valid(a) && Valid(c) && Backing(a, svc).Some? && HasTask(c.tasks, replica)
    requires Find(c.remote.services, svc) == Find(Migrate(a, svc, dest).0.remote.services, svc)
    ensures var was := a.tasks[Backing(a, svc).value].value;
            var (b, r) := Failover(c, svc, replica);
            var held := Find(a.remote.services, svc);
            r.Ok? && HasTask(b.tasks, replica) && Carries(b.tasks[replica].value, was) <==>
            if held.None? then HasFree(a.remote.services)
            else held.value.capTable == was.capTable && held.value.ipcBuffer == was.ipcBuffer && held.value.msgQueue == was.msgQueue
  {
    MigrateExact(a, svc, dest, svc, Backing(a, svc).value);
    FailoverExact(c, svc, replica);
  }

  /** Failover replays the last migration exactly when the remote node could take that checkpoint or
      already held an equal one. Over any run: if the last migration of the service was operation `m`
      and operation `n` fails it over onto a live replica, the replica ends with the capabilities,
      message and queue the task had at `m` if and only if, at `m`, nothing was hosted for the service
      and a slot was free, or what was hosted had the same capabilities, message and queue. */
  lemma FailoverReplaysIff(s: Dist, ops: seq<Op>, m: nat, n: nat, svc: nat, dest: nat, replica: nat)
    requires Valid(s) && AllEnabled(ops) && m < n < |ops| && ops[m] == MoveOut(svc, dest) && ops[n] == FailOver(svc, replica)
    requires Backing(StateAt(s, ops, m), svc).Some? && HasTask(StateAt(s, ops, n).tasks, replica)
    requires forall j :: m < j < n ==> StaysAt(s, ops, j, svc)
    ensures var a, c, b := StateAt(s, ops, m), StateAt(s, ops, n), StateAt(s, ops, n + 1);
            var was := a.tasks[Backing(a, svc).value].value;
            var held := Find(a.remote.services, svc);
            Failover(c, svc, replica).1.Ok? && HasTask(b.tasks, replica) && Carries(b.tasks[replica].value, was) <==>
            if held.None? then HasFree(a.remote.services)
            else held.value.capTable == was.capTable && held.value.ipcBuffer == was.ipcBuffer && held.value.msgQueue == was.msgQueue
  {
    var a, c := StateAt(s, ops, m), StateAt(s, ops, n);
    assert StateAt(s, ops, m + 1) == Migrate(a, svc, dest).0;
    assert StateAt(s, ops, n + 1) == Failover(c, svc, replica).0;
    HostedStays(s, ops, m + 1, n, svc);
    ReplayedIff(a, c, svc, dest, replica);
  }

  // ---- A failover that restores old state ----

  function Worker(id: nat, buf: Option<Message>): Option<Task> {
    Some(Task(id, Ready, 0, 0, 0, [], buf, EmptyQueue(1)))
  }

  const LATE: Message := Message(0, 0, Raw, 1, [])

  function Node(registry: Entries<Location>, services: Entries<Checkpoint>, tasks: TaskTable): Dist {
    Dist(registry, Host(9, EmptyQueue(1), services, 0), tasks, None)
  }

  function Saved(id: nat, buf: Option<Message>): Option<(nat, Checkpoint)> {
    Some((7, CheckpointOf(Worker(id, buf)).value))
  }

  const StaleOps: seq<Op> := [
    Register(7, Local(0)), MoveOut(7, 9), FailOver(7, 1),
    Kernel([None, Worker(1, Some(LATE)), Worker(2, None)], None),
    MoveOut(7, 9), FailOver(7, 2)]

  const Fresh: Dist := Node([None], [None, None], [Worker(0, None), Worker(1, None), Worker(2, None)])

  lemma FirstMove()
    ensures Valid(Fresh) && AllEnabled(StaleOps)
    ensures StateAt(Fresh, StaleOps, 2) ==
            Node([Some((7, Remote(9)))], [Saved(0, None), None], [None, Worker(1, None), Worker(2, None)])
  {
    var s1 := Node([Some((7, Local(0)))], [None, None], Fresh.tasks);
    assert StateAt(Fresh, StaleOps, 1) == s1;
    assert Backing(s1, 7) == Some(0);
    assert Do(s1, StaleOps[1]) == Node([Some((7, Remote(9)))], [Saved(0, None), None], [None, Worker(1, None), Worker(2, None)]);
  }

  lemma SecondMove()
    ensures Valid(Fresh) && AllEnabled(StaleOps)
    ensures StateAt(Fresh, StaleOps, 4) ==
            Node([Some((7, Local(1)))], [Saved(0, None), None], [None, Worker(1, Some(LATE)), Worker(2, None)])
    ensures StateAt(Fresh, StaleOps, 5) ==
            Node([Some((7, Remote(9)))], [Saved(0, None), Saved(1, Some(LATE))], [None, None, Worker(2, None)])
  {
    FirstMove();
    var s3 := Node([Some((7, Local(1)))], [Saved(0, None), None], [None, Worker(1, None), Worker(2, None)]);
    assert StateAt(Fresh, StaleOps, 3) == s3;
    var s4 := Node([Some((7, Local(1)))], [Saved(0, None), None], [None, Worker(1, Some(LATE)), Worker(2, None)]);
    assert StateAt(Fresh, StaleOps, 4) == s4;
    assert Backing(s4, 7) == Some(1);
    assert Fill(s4.remote.services, 7, CheckpointOf(Worker(1, Some(LATE))).value) == [Saved(0, None), Saved(1, Some(LATE))];
  }

  /** Register, migrate, fail over, receive a message, migrate again, fail over again: both moves and
      both failovers succeed, and the second replica is given the state of the first migration. */
  lemma StaleFailover()
    ensures Valid(Fresh) && AllEnabled(StaleOps)
    ensures var a, c, b := StateAt(Fresh, StaleOps, 4), StateAt(Fresh, StaleOps, 5), StateAt(Fresh, StaleOps, 6);
            && Migrate(a, 7, 9).1.Ok? && Failover(c, 7, 2).1.Ok?
            && Backing(a, 7) == Some(1) && a.tasks[1].value.ipcBuffer == Some(LATE)
            && HasTask(b.tasks, 2) && b.tasks[2].value.ipcBuffer == None && Backing(b, 7) == Some(2)
  {
    SecondMove();
    var c := StateAt(Fresh, StaleOps, 5);
    assert StateAt(Fresh, StaleOps, 6) == Failover(c, 7, 2).0;
  }

  /** With no host slot free, migration reports success but the service's state is gone: failover
      finds nothing. */
  lemma FullHostLosesState(s: Dist, svc: nat, dest: nat, replica: nat)
    requires Valid(s) && Backing(s, svc).Some? && Find(s.remote.services, svc) == None && !HasFree(s.remote.services)
    ensures var (s', r) := Migrate(s, svc, dest); r.Ok? && Failover(s', svc, replica).1.Err?
  {
    FillFinds(s.remote.services, svc, CheckpointOf(s.tasks[Backing(s, svc).value]).value, svc);
  }
}
