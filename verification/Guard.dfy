/** The guarded send paths at the grain of single memory operations, with a timer
    tick allowed between any two of them, and their reduction to a kernel in which
    validate-and-use is one indivisible step. */
module Guard {
  import opened Core
  import opened Sched
  import opened Ipc
  import opened Preempt

  datatype Kind = Sync | Async

  datatype Req = Req(kind: Kind, capIdx: nat, msg: Message)

  /** What a send region reports. */
  datatype Outcome = SyncDone(step: Result<SendStep, IpcError>) | AsyncDone(result: Result<(), IpcError>)

  datatype Pc =
    | Idle                                       // anywhere outside a locked or guarded section
    | Entering(req: Req)                         // about to raise the preempt count
    | Marking(req: Req)                          // about to open the window (synchronous sends)
    | Locking(req: Req)                          // about to take the scheduler lock
    | Validating(req: Req)                       // about to resolve the capability
    | Using(req: Req, v: Result<nat, IpcError>)  // resolved; nothing written yet
    | Half(req: Req, t: nat, deliver: bool)      // first of two writes done
    | Unlocking(req: Req, out: Outcome)
    | Unmarking(req: Req, out: Outcome)
    | Leaving(req: Req, out: Outcome)            // about to lower the preempt count
    | OtherLock                                  // any other locked section, before its lock
    | OtherBody
    | OtherUnlock

  /** `log` lists the outcomes of completed sends with the task that made them. */
  datatype Micro = Micro(tasks: TaskTable, current: nat, pcs: seq<Pc>, policy: Policy, locked: bool, log: seq<(nat, Outcome)>)

  datatype Event =
    | Op                                  // the running task's next operation
    | BeginSend(req: Req)
    | BeginOther
    | Body(table: TaskTable)              // another section's effect: any new table
    | YieldNow                            // voluntary, outside every section
    | Tick
    | Arm(on: bool)
    | ArmAdversaryAt(task: nat, slot: nat)

  ghost predicate WellFormed(g: Micro) {
    && |g.pcs| == |g.tasks| && HasTask(g.tasks, g.current) && IdsMatch(g.tasks) && QueuesValid(g.tasks)
  }

  ghost predicate Enabled(g: Micro, e: Event) {
    && WellFormed(g)
    && var pc := g.pcs[g.current];
       match e
       case Op => !pc.Idle? && !pc.OtherBody? && ((pc.Locking? || pc.OtherLock?) ==> !g.locked)
       case BeginSend(_) => pc.Idle?
       case BeginOther => pc.Idle?
       case Body(table) => pc.OtherBody? && |table| == |g.tasks| && HasTask(table, g.current) && IdsMatch(table) && QueuesValid(table)
       case YieldNow => pc.Idle?
       case Tick => true
       case Arm(_) => pc.Idle?
       case ArmAdversaryAt(_, _) => pc.Idle?
  }

  function SetPc(g: Micro, pc: Pc): Micro
    requires g.current < |g.pcs|
  {
    g.(pcs := g.pcs[g.current := pc])
  }

  /** The first write of a use that needs two: the half-done table. */
  function FirstWrite(tasks: TaskTable, cur: nat, req: Req, t: nat): TaskTable
    requires HasTask(tasks, cur) && HasTask(tasks, t) && tasks[t].value.msgQueue.Valid()
  {
    if req.kind.Async? then
      var q := tasks[t].value.msgQueue.Enqueue(req.msg);
      if q.Ok? then tasks[t := Some(tasks[t].value.(msgQueue := q.value))] else tasks
    else if tasks[t].value.state == BlockedOnReceive then SetBuffer(tasks, t, Some(req.msg))
    else SetState(tasks, cur, BlockedOnSend(t))
  }

  /** The second write, and what the region reports. A synchronous send decided at its
      first read of the target's state; an asynchronous one reads it now. */
  function SecondWrite(tasks: TaskTable, cur: nat, req: Req, t: nat, deliver: bool): (TaskTable, Outcome)
    requires HasTask(tasks, cur) && HasTask(tasks, t)
  {
    if req.kind.Async? then
      (if tasks[t].value.state == BlockedOnReceive then SetState(tasks, t, Ready) else tasks, AsyncDone(Ok(())))
    else if deliver then (SetState(tasks, t, Ready), SyncDone(Ok(Delivered)))
    else (SetBuffer(tasks, cur, Some(req.msg)), SyncDone(Ok(Blocked)))
  }

  /** A use that ends without a second write: failed validation, dead target, full queue. */
  function ShortUse(tasks: TaskTable, cur: nat, req: Req, v: Result<nat, IpcError>): Option<(TaskTable, Outcome)>
    requires HasTask(tasks, cur) && QueuesValid(tasks)
  {
    if v.Err? then
      if req.kind.Sync? then Some((SetBuffer(tasks, cur, None), SyncDone(Err(v.error)))) else Some((tasks, AsyncDone(Err(v.error))))
    else if !HasTask(tasks, v.value) || tasks[v.value].value.state == Terminated then
      Some((tasks, if req.kind.Sync? then SyncDone(Ok(Gone)) else AsyncDone(Err(TargetGone))))
    else if req.kind.Async? && tasks[v.value].value.msgQueue.Enqueue(req.msg).Err? then Some((tasks, AsyncDone(Err(QueueFull))))
    else None
  }

  /** The running task's next operation. */
  ghost function DoOp(g: Micro): Micro
    requires Enabled(g, Op)
  {
    var c := g.current;
    match g.pcs[c]
    case Entering(req) =>
      SetPc(g.(policy := Raise(g.policy)), if req.kind.Sync? then Marking(req) else Locking(req))
    case Marking(req) => SetPc(g.(policy := Mark(g.policy)), Locking(req))
    case Locking(req) => SetPc(g.(locked := true), Validating(req))
    case Validating(req) => SetPc(g, Using(req, ResolveTarget(g.tasks, c, req.capIdx)))
    case Using(req, v) =>
      var short := ShortUse(g.tasks, c, req, v);
      if short.Some? then SetPc(g.(tasks := short.value.0), Unlocking(req, short.value.1))
      else
        SetPc(g.(tasks := FirstWrite(g.tasks, c, req, v.value)),
              Half(req, v.value, g.tasks[v.value].value.state == BlockedOnReceive))
    case Half(req, t, deliver) =>
      if HasTask(g.tasks, t) then
        var (tasks', out) := SecondWrite(g.tasks, c, req, t, deliver);
        SetPc(g.(tasks := tasks'), Unlocking(req, out))
      else g
    case Unlocking(req, out) => SetPc(g.(locked := false), if req.kind.Sync? then Unmarking(req, out) else Leaving(req, out))
    case Unmarking(req, out) => SetPc(g.(policy := Unmark(g.policy)), Leaving(req, out))
    case Leaving(_, out) => SetPc(g.(policy := Drop(g.policy), log := g.log + [(c, out)]), Idle)
    case OtherLock => SetPc(g.(locked := true), OtherBody)
    case OtherUnlock => SetPc(g.(locked := false), Idle)
    case _ => g
  }

  function SwitchedTo(g: Micro, tasks: TaskTable, next: Option<nat>): Micro {
    g.(tasks := tasks, current := if next.Some? then next.value else g.current)
  }

  ghost function Next(g: Micro, e: Event): Micro
    requires Enabled(g, e)
  {
    match e
    case Op => DoOp(g)
    case BeginSend(req) => SetPc(g, Entering(req))
    case BeginOther => SetPc(g, OtherLock)
    case Body(table) => SetPc(g.(tasks := table), OtherUnlock)
    case YieldNow => var (tasks', next) := YieldCpu(g.tasks, Some(g.current)); SwitchedTo(g, tasks', next)
    case Tick =>
      var (p, tasks', next) := TimerInterrupt(g.policy, g.tasks, Some(g.current), g.locked);
      SwitchedTo(g.(policy := p), tasks', next)
    case Arm(on) => g.(policy := g.policy.(armed := on))
    case ArmAdversaryAt(task, slot) => g.(policy := ArmFor(g.policy, (task, slot)))
  }

  // ---- The invariant ----

  predicate InRegion(pc: Pc) {
    pc.Marking? || pc.Locking? || pc.Validating? || pc.Using? || pc.Half? || pc.Unlocking? || pc.Unmarking? || pc.Leaving?
  }

  predicate HoldsLock(pc: Pc) {
    pc.Validating? || pc.Using? || pc.Half? || pc.Unlocking? || pc.OtherBody? || pc.OtherUnlock?
  }

  predicate InWindow(pc: Pc) {
    (pc.Locking? || pc.Validating? || pc.Using? || pc.Half? || pc.Unlocking? || pc.Unmarking?) && pc.req.kind.Sync?
  }

  /** A task off the processor is outside every region and section. */
  predicate Switchable(pc: Pc) { pc.Idle? || pc.Entering? || pc.OtherLock? }

  /** After validation, the local result is still what the table says; after the first
      write of two, the second is still the right one. */
  ghost predicate LocalOk(g: Micro)
    requires WellFormed(g)
  {
    match g.pcs[g.current]
    case Using(req, v) => v == ResolveTarget(g.tasks, g.current, req.capIdx)
    case Half(req, t, _) => HasTask(g.tasks, t) && ResolveTarget(g.tasks, g.current, req.capIdx) == Ok(t)
    case Unlocking(req, out) => out.SyncDone? == req.kind.Sync?
    case Unmarking(req, out) => req.kind.Sync?
    case Marking(req) => req.kind.Sync?
    case _ => true
  }

  ghost predicate Inv(g: Micro) {
    && WellFormed(g)
    && (forall i :: 0 <= i < |g.pcs| && i != g.current ==> Switchable(g.pcs[i]))
    && var pc := g.pcs[g.current];
       && g.policy.count == (if InRegion(pc) then 1 else 0)
       && g.policy.window == InWindow(pc)
       && g.locked == HoldsLock(pc)
       && !g.policy.fired
       && LocalOk(g)
  }

  /** A quiet machine: everyone outside, nothing held. */
  ghost predicate Initial(g: Micro) {
    && WellFormed(g) && (forall i :: 0 <= i < |g.pcs| ==> g.pcs[i] == Idle)
    && g.policy.count == 0 && !g.policy.window && !g.policy.fired && !g.locked && g.log == []
  }

  lemma SwitchWellFormed(tasks: TaskTable, c: nat)
    requires HasTask(tasks, c) && IdsMatch(tasks) && QueuesValid(tasks)
    ensures var (tasks', next) := Reschedule(tasks, c);
            |tasks'| == |tasks| && IdsMatch(tasks') && QueuesValid(tasks') && next.Some? && HasTask(tasks', next.value)
  {
  }

  lemma OpKeeps(g: Micro)
    requires Inv(g) && Enabled(g, Op)
    ensures Inv(Next(g, Op))
  {
    if g.pcs[g.current].Using? {
      UseKeeps(g);
    } else if g.pcs[g.current].Half? {
      HalfKeeps(g);
    } else {
      PlainOpKeeps(g);
    }
  }

  lemma UseKeeps(g: Micro)
    requires Inv(g) && Enabled(g, Op) && g.pcs[g.current].Using?
    ensures Inv(Next(g, Op))
  {
  }

  lemma HalfKeeps(g: Micro)
    requires Inv(g) && Enabled(g, Op) && g.pcs[g.current].Half?
    ensures Inv(Next(g, Op))
  {
  }

  lemma PlainOpKeeps(g: Micro)
    requires Inv(g) && Enabled(g, Op) && !g.pcs[g.current].Using? && !g.pcs[g.current].Half?
    ensures Inv(Next(g, Op))
  {
  }

  /** A tick that finds the running task in a region or a locked section changes nothing but counters. */
  lemma TickInside(g: Micro)
    requires Inv(g) && (InRegion(g.pcs[g.current]) || HoldsLock(g.pcs[g.current]))
    ensures var g' := Next(g, Tick);
            && g'.tasks == g.tasks && g'.current == g.current && g'.pcs == g.pcs && g'.locked == g.locked && g'.log == g.log
            && g'.policy.count == g.policy.count && g'.policy.window == g.policy.window && !g'.policy.fired
            && g'.policy.preemptions == g.policy.preemptions
            && g'.policy.deferred == g.policy.deferred + (if g.policy.armed then 1 else 0)
  {
  }

  lemma TickKeeps(g: Micro)
    requires Inv(g)
    ensures Inv(Next(g, Tick))
  {
    if InRegion(g.pcs[g.current]) || HoldsLock(g.pcs[g.current]) {
      TickInside(g);
    } else {
      SwitchWellFormed(g.tasks, g.current);
    }
  }

  lemma NextKeeps(g: Micro, e: Event)
    requires Inv(g) && Enabled(g, e)
    ensures Inv(Next(g, e))
  {
    match e
    case Op => OpKeeps(g);
    case Tick => TickKeeps(g);
    case YieldNow => SwitchWellFormed(g.tasks, g.current);
    case _ =>
  }

  ghost predicate IsRun(gs: seq<Micro>, es: seq<Event>) {
    && |gs| == |es| + 1 && Initial(gs[0])
    && forall j :: 0 <= j < |es| ==> Enabled(gs[j], es[j]) && gs[j + 1] == Next(gs[j], es[j])
  }

  lemma {:induction false} RunInv(gs: seq<Micro>, es: seq<Event>, j: nat)
    requires IsRun(gs, es) && j < |gs|
    ensures Inv(gs[j])
  {
    if j > 0 {
      RunInv(gs, es, j - 1);
      NextKeeps(gs[j - 1], es[j - 1]);
    }
  }

  // ---- The indivisible kernel ----

  datatype Atomic = Atomic(tasks: TaskTable, current: nat, log: seq<(nat, Outcome)>)

  datatype Action = SendAt(req: Req) | Effect(table: TaskTable) | Switch

  /** Validate and use in one step. */
  function WholeSend(tasks: TaskTable, cur: nat, req: Req): (TaskTable, Outcome)
    requires QueuesValid(tasks)
  {
    if req.kind.Sync? then
      var (tasks', r) := AttemptSend(tasks, cur, req.capIdx, req.msg);
      (tasks', SyncDone(r))
    else
      var (tasks', r) := EnqueueTo(tasks, cur, req.capIdx, req.msg);
      (tasks', AsyncDone(r))
  }

  ghost predicate CanAct(a: Atomic, act: Action) {
    && (act.SendAt? ==> QueuesValid(a.tasks))
    && (act.Switch? ==> Occupied(a.tasks, a.current))
  }

  ghost function Act(a: Atomic, act: Action): Atomic
    requires CanAct(a, act)
  {
    match act
    case SendAt(req) =>
      var (tasks', out) := WholeSend(a.tasks, a.current, req);
      a.(tasks := tasks', log := a.log + [(a.current, out)])
    case Effect(table) => a.(tasks := table)
    case Switch =>
      var (tasks', next) := Reschedule(a.tasks, a.current);
      a.(tasks := tasks', current := if next.Some? then next.value else a.current)
  }

  /** `acts` leads from `a` to `b`, one indivisible action at a time. */
  ghost predicate Leads(a: Atomic, acts: seq<Action>, b: Atomic)
    decreases |acts|
  {
    if |acts| == 0 then a == b
    else
      var n := |acts| - 1;
      exists m :: Leads(a, acts[..n], m) && CanAct(m, acts[n]) && Act(m, acts[n]) == b
  }

  // ---- The abstraction ----

  /** What is left of a use, done at once. */
  ghost function FinishUse(tasks: TaskTable, cur: nat, req: Req, v: Result<nat, IpcError>): (TaskTable, Outcome)
    requires HasTask(tasks, cur) && QueuesValid(tasks)
  {
    var short := ShortUse(tasks, cur, req, v);
    if short.Some? then short.value
    else
      var half := FirstWrite(tasks, cur, req, v.value);
      SecondWrite(half, cur, req, v.value, tasks[v.value].value.state == BlockedOnReceive)
  }

  /** A send counts as done from its validation on. */
  ghost function Abstract(g: Micro): Atomic
    requires WellFormed(g)
  {
    var c := g.current;
    match g.pcs[c]
    case Using(req, v) =>
      var (tasks', out) := FinishUse(g.tasks, c, req, v);
      Atomic(tasks', c, g.log + [(c, out)])
    case Half(req, t, deliver) =>
      if HasTask(g.tasks, t) then
        var (tasks', out) := SecondWrite(g.tasks, c, req, t, deliver);
        Atomic(tasks', c, g.log + [(c, out)])
      else Atomic(g.tasks, c, g.log)
    case Unlocking(_, out) => Atomic(g.tasks, c, g.log + [(c, out)])
    case Unmarking(_, out) => Atomic(g.tasks, c, g.log + [(c, out)])
    case Leaving(_, out) => Atomic(g.tasks, c, g.log + [(c, out)])
    case _ => Atomic(g.tasks, c, g.log)
  }

  /** The indivisible action a step stands for, if any. */
  function Label(g: Micro, e: Event): Option<Action> {
    match e
    case Op => if g.current < |g.pcs| && g.pcs[g.current].Validating? then Some(SendAt(g.pcs[g.current].req)) else None
    case Body(table) => Some(Effect(table))
    case YieldNow => Some(Switch)
    case Tick => if g.policy.armed && g.policy.count == 0 && !g.locked then Some(Switch) else None
    case _ => None
  }

  /** The writes of a region, taken together, are the indivisible send. */
  lemma UseIsWhole(tasks: TaskTable, cur: nat, req: Req)
    requires HasTask(tasks, cur) && IdsMatch(tasks) && QueuesValid(tasks)
    ensures FinishUse(tasks, cur, req, ResolveTarget(tasks, cur, req.capIdx)) == WholeSend(tasks, cur, req)
  {
    var v := ResolveTarget(tasks, cur, req.capIdx);
    if v.Ok? && HasTask(tasks, v.value) && ShortUse(tasks, cur, req, v).None? {
      var t := v.value;
      var fin := FinishUse(tasks, cur, req, v).0;
      var i := if req.kind.Sync? && tasks[t].value.state != BlockedOnReceive then cur else t;
      assert fin == tasks[i := fin[i]];
    }
  }

  lemma OpSimulates(g: Micro)
    requires Inv(g) && Enabled(g, Op)
    ensures WellFormed(Next(g, Op))
    ensures var act := Label(g, Op);
            if act.None? then Abstract(Next(g, Op)) == Abstract(g)
            else CanAct(Abstract(g), act.value) && Abstract(Next(g, Op)) == Act(Abstract(g), act.value)
  {
    NextKeeps(g, Op);
    if g.pcs[g.current].Validating? {
      UseIsWhole(g.tasks, g.current, g.pcs[g.current].req);
    }
  }

  /** Each step of the interruptible kernel is one indivisible action or none. */
  lemma Simulates(g: Micro, e: Event)
    requires Inv(g) && Enabled(g, e)
    ensures WellFormed(Next(g, e))
    ensures var act := Label(g, e);
            if act.None? then Abstract(Next(g, e)) == Abstract(g)
            else CanAct(Abstract(g), act.value) && Abstract(Next(g, e)) == Act(Abstract(g), act.value)
  {
    NextKeeps(g, e);
    match e
    case Op => OpSimulates(g);
    case Tick => TickSimulates(g);
    case _ =>
  }

  lemma TickSimulates(g: Micro)
    requires Inv(g) && WellFormed(Next(g, Tick))
    ensures var act := Label(g, Tick);
            if act.None? then Abstract(Next(g, Tick)) == Abstract(g)
            else CanAct(Abstract(g), act.value) && Abstract(Next(g, Tick)) == Act(Abstract(g), act.value)
  {
  }

  // ---- Main results ----

  ghost predicate Quiet(g: Micro) {
    g.current < |g.pcs| && Switchable(g.pcs[g.current])
  }

  /** The indivisible actions the first `n` steps of a run stand for, in order: a send at
      its validation, another section at its effect, a switch at its switch. */
  function Labels(gs: seq<Micro>, es: seq<Event>, n: nat): seq<Action>
    requires n <= |es| < |gs|
  {
    if n == 0 then []
    else
      var act := Label(gs[n - 1], es[n - 1]);
      if act.Some? then Labels(gs, es, n - 1) + [act.value] else Labels(gs, es, n - 1)
  }

  lemma LeadsOn(a: Atomic, acts: seq<Action>, m: Atomic, act: Action, b: Atomic)
    requires Leads(a, acts, m) && CanAct(m, act) && Act(m, act) == b
    ensures Leads(a, acts + [act], b)
  {
    assert (acts + [act])[..|acts|] == acts;
  }

  lemma RunSimulates(gs: seq<Micro>, es: seq<Event>, n: nat)
    requires IsRun(gs, es) && n < |es|
    ensures WellFormed(gs[n]) && WellFormed(gs[n + 1])
    ensures var act := Label(gs[n], es[n]);
            if act.None? then Abstract(gs[n + 1]) == Abstract(gs[n])
            else CanAct(Abstract(gs[n]), act.value) && Abstract(gs[n + 1]) == Act(Abstract(gs[n]), act.value)
  {
    RunInv(gs, es, n);
    Simulates(gs[n], es[n]);
  }

  /** Reduction: whatever ticks fell between its operations, a run of the guarded
      kernel leads where its indivisible actions lead, with the same outcomes in the
      same order. */
  lemma {:induction false} Reduction(gs: seq<Micro>, es: seq<Event>, n: nat)
    requires IsRun(gs, es) && n < |gs|
    ensures WellFormed(gs[0]) && WellFormed(gs[n])
    ensures Leads(Abstract(gs[0]), Labels(gs, es, n), Abstract(gs[n]))
    decreases n
  {
    if n == 0 {
      RunInv(gs, es, 0);
    } else {
      Reduction(gs, es, n - 1);
      RunSimulates(gs, es, n - 1);
      var act := Label(gs[n - 1], es[n - 1]);
      if act.Some? {
        LeadsOn(Abstract(gs[0]), Labels(gs, es, n - 1), Abstract(gs[n - 1]), act.value, Abstract(gs[n]));
      }
    }
  }

  /** Whenever the running task is outside a region, the table and the log are exactly
      those of the indivisible kernel after the same actions. */
  lemma QuietReduction(gs: seq<Micro>, es: seq<Event>, n: nat)
    requires IsRun(gs, es) && n < |gs| && Quiet(gs[n])
    ensures Leads(Atomic(gs[0].tasks, gs[0].current, []), Labels(gs, es, n), Atomic(gs[n].tasks, gs[n].current, gs[n].log))
  {
    Reduction(gs, es, n);
  }

  /** From validation to the last write of its use, the capability the sender named still
      resolves to the task it is using: no revocation falls in between. */
  lemma ValidAtUse(gs: seq<Micro>, es: seq<Event>, j: nat)
    requires IsRun(gs, es) && j < |gs| && gs[j].current < |gs[j].pcs|
    ensures var g := gs[j];
            var pc := g.pcs[g.current];
            && (pc.Using? ==> ResolveTarget(g.tasks, g.current, pc.req.capIdx) == pc.v)
            && (pc.Half? ==> ResolveTarget(g.tasks, g.current, pc.req.capIdx) == Ok(pc.t))
  {
    RunInv(gs, es, j);
  }

  /** A context switch happens only at preempt count zero, with the lock free and the window
      shut; and the modelled adversary never fires. */
  lemma SwitchesOutside(gs: seq<Micro>, es: seq<Event>, j: nat)
    requires IsRun(gs, es) && j < |es|
    ensures gs[j + 1].current != gs[j].current ==>
              gs[j].policy.count == 0 && !gs[j].policy.window && !gs[j].locked && Quiet(gs[j])
    ensures !gs[j + 1].policy.fired
  {
    RunInv(gs, es, j);
    RunInv(gs, es, j + 1);
    var g := gs[j];
    if es[j].Tick? && (InRegion(g.pcs[g.current]) || HoldsLock(g.pcs[g.current])) {
      TickInside(g);
    }
  }

  /** Without the guard the same tick is a revoker's chance: an armed tick that lands in an
      open window at count zero removes the capability that was just validated. */
  lemma UnguardedTickRevokes(g: Micro, req: Req)
    requires WellFormed(g) && g.policy.armed && g.policy.count == 0 && g.policy.window && !g.locked
    requires g.policy.pending == Some((g.current, req.capIdx)) && ResolveTarget(g.tasks, g.current, req.capIdx).Ok?
    ensures Next(g, Tick).policy.fired
    ensures ResolveTarget(Next(g, Tick).tasks, g.current, req.capIdx) == Err(NoCapability)
  {
  }
}
