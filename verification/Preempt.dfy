/** The preemption policy: a nesting counter, the validate-and-use window flag, the
    modelled adversary, and what a timer tick decides. */
module Preempt {
  import opened Core
  import opened Derivation
  import opened Sched

  /** The nesting counter is one machine word. */
  type Count = n: nat | n <= U64_MAX

  datatype Policy = Policy(
    count: Count,                     // nesting depth of non-preemptible regions
    window: bool,                     // between validation and use
    armed: bool,                      // may the timer switch tasks at all
    pending: Option<(nat, nat)>,      // slot the adversary will revoke
    fired: bool,
    ticks: nat, windowTicks: nat, deferred: nat, preemptions: nat)

  /** `enter_critical` and `exit_critical` add and subtract without a check: the counter wraps. */
  function Raise(p: Policy): Policy { p.(count := if p.count == U64_MAX then 0 else p.count + 1) }

  function Drop(p: Policy): Policy { p.(count := if p.count == 0 then U64_MAX else p.count - 1) }

  function Mark(p: Policy): Policy { p.(window := true) }

  function Unmark(p: Policy): Policy { p.(window := false) }

  /** `arm_adversary`. */
  function ArmFor(p: Policy, slot: SlotRef): Policy { p.(pending := Some(slot), fired := false) }

  /** The counting half of a tick. */
  function CountTick(p: Policy): Policy {
    p.(ticks := p.ticks + 1, windowTicks := if p.window then p.windowTicks + 1 else p.windowTicks)
  }

  /** `maybe_fire_adversary`: a pending revocation happens only if the lock is free. */
  function FireAdversary(p: Policy, tasks: TaskTable, locked: bool): (Policy, TaskTable) {
    if p.pending.None? || locked || !HasTask(tasks, p.pending.value.0) then (p, tasks)
    else
      (p.(fired := true, pending := None),
       if LiveAt(tasks, p.pending.value) then ClearSlot(tasks, p.pending.value) else tasks)
  }

  /** `on_tick_should_switch`: the updated policy and table, and whether a switch may follow. */
  function OnTick(p: Policy, tasks: TaskTable, locked: bool): (Policy, TaskTable, bool) {
    var q := CountTick(p);
    if !q.armed then (q, tasks, false)
    else if q.count != 0 then (q.(deferred := q.deferred + 1), tasks, false)
    else
      var (r, tasks') := if q.window then FireAdversary(q, tasks, locked) else (q, tasks);
      (r, tasks', true)
  }

  /** The whole timer interrupt: policy, then the reschedule if it gets the lock. */
  function TimerInterrupt(p: Policy, tasks: TaskTable, current: Option<nat>, locked: bool): (Policy, TaskTable, Option<nat>) {
    var (q, tasks', go) := OnTick(p, tasks, locked);
    if !go then (q, tasks', current)
    else if locked then (q.(deferred := q.deferred + 1), tasks', current)
    else
      var (tasks'', next) := PreemptReschedule(tasks', current);
      (if next != current then q.(preemptions := q.preemptions + 1) else q, tasks'', next)
  }

  /** The adversary gets to act on a tick. */
  predicate AdversaryActs(p: Policy, tasks: TaskTable, locked: bool) {
    p.armed && p.count == 0 && p.window && !locked && p.pending.Some? && HasTask(tasks, p.pending.value.0)
  }

  /** A timer interrupt, exactly: it always counts; it is deferred exactly if preemption is armed
      and the interrupted code is in a region or holds the lock; it switches only if armed at count
      zero with the lock free, and then counts a preemption; the adversary fires exactly if it may
      act, and only then is a capability lost, the one it was armed for. */
  lemma TickExact(p: Policy, tasks: TaskTable, current: Option<nat>, locked: bool)
    ensures var (q, tasks', next) := TimerInterrupt(p, tasks, current, locked);
            var acts := AdversaryActs(p, tasks, locked);
            && q.ticks == p.ticks + 1 && q.windowTicks == p.windowTicks + (if p.window then 1 else 0)
            && q.deferred == p.deferred + (if p.armed && (p.count != 0 || locked) then 1 else 0)
            && q.preemptions == p.preemptions + (if next != current then 1 else 0)
            && (next != current ==> p.armed && p.count == 0 && !locked)
            && q.fired == (p.fired || acts) && q.pending == (if acts then None else p.pending)
            && q.count == p.count && q.window == p.window && q.armed == p.armed
            && forall c :: LiveAt(tasks', c) <==> LiveAt(tasks, c) && !(acts && c == p.pending.value)
  {
    var (_, mid, _) := OnTick(p, tasks, locked);
    SwitchStates(mid, current);
    forall c: SlotRef
      ensures LiveAt(TimerInterrupt(p, tasks, current, locked).1, c) <==> LiveAt(mid, c)
    {
      var after := PreemptReschedule(mid, current).0;
      assert StatesOnly(mid, after);
      if c.0 < |mid| && mid[c.0].Some? {
        assert StateOnly(mid[c.0].value, after[c.0].value);
      }
    }
  }

  // ---- What a region promises ----

  /** No timer interrupt, whatever the tasks and the lock, switches tasks, touches a table or fires
      the adversary. */
  ghost predicate Shielded(p: Policy) {
    forall tasks: TaskTable, current: Option<nat>, locked: bool :: Undisturbed(p, tasks, current, locked)
  }

  predicate Undisturbed(p: Policy, tasks: TaskTable, current: Option<nat>, locked: bool) {
    var (q, tasks', next) := TimerInterrupt(p, tasks, current, locked);
    tasks' == tasks && next == current && q.pending == p.pending && q.fired == p.fired && q.preemptions == p.preemptions
  }

  /** Exactly the raised count, or the master switch, shields the running task. */
  lemma ShieldedIff(p: Policy)
    ensures Shielded(p) <==> p.count != 0 || !p.armed
  {
    if p.count == 0 && p.armed {
      var idle := Task(0, Ready, 0, 0, 0, [], None, EmptyQueue(1));
      var tasks: TaskTable := [Some(idle.(state := Running)), Some(idle.(id := 1))];
      assert ScanReady(tasks, 1, 0) == Some(1);
      var (_, mid, _) := OnTick(p, tasks, false);
      assert mid == tasks;
      assert PreemptReschedule(tasks, Some(0)).1 == Some(1);
      assert !Undisturbed(p, tasks, Some(0), false);
    }
  }

  datatype Kind = Region | Window

  /** Entering and leaving regions and windows, with timer ticks in between. */
  datatype Act = Enter(kind: Kind) | Leave(kind: Kind) | TickAt(locked: bool)

  datatype Cpu = Cpu(policy: Policy, tasks: TaskTable, current: Option<nat>)

  function Perform(s: Cpu, a: Act): Cpu {
    match a
    case Enter(kind) => s.(policy := if kind.Window? then Mark(Raise(s.policy)) else Raise(s.policy))
    case Leave(kind) => s.(policy := Drop(if kind.Window? then Unmark(s.policy) else s.policy))
    case TickAt(locked) => var (p, tasks, next) := TimerInterrupt(s.policy, s.tasks, s.current, locked); Cpu(p, tasks, next)
  }

  function PerformAll(s: Cpu, acts: seq<Act>): Cpu
    decreases |acts|
  {
    if |acts| == 0 then s else PerformAll(Perform(s, acts[0]), acts[1..])
  }

  function Ticks(acts: seq<Act>): nat {
    if |acts| == 0 then 0 else (if acts[0].TickAt? then 1 else 0) + Ticks(acts[1..])
  }

  /** Regions close in the reverse order of opening, and no tick falls outside all of them. */
  predicate Allowed(a: Act, open: seq<Kind>) {
    match a
    case Enter(_) => true
    case Leave(kind) => |open| > 0 && open[|open| - 1] == kind
    case TickAt(_) => |open| > 0
  }

  function Opened(a: Act, open: seq<Kind>): seq<Kind>
    requires Allowed(a, open)
  {
    match a
    case Enter(kind) => open + [kind]
    case Leave(_) => open[..|open| - 1]
    case TickAt(_) => open
  }

  /** With the kinds in `open` entered, the acts are allowed and close everything. */
  predicate Nested(acts: seq<Act>, open: seq<Kind>)
    decreases |acts|
  {
    if |acts| == 0 then open == [] else Allowed(acts[0], open) && Nested(acts[1..], Opened(acts[0], open))
  }

  /** The policy after `n` ticks inside regions: nothing but counters has moved. */
  predicate OnlyCounted(p: Policy, q: Policy, n: nat) {
    && q == p.(window := q.window, count := q.count, ticks := p.ticks + n, windowTicks := q.windowTicks,
               deferred := p.deferred + if p.armed then n else 0)
    && p.windowTicks <= q.windowTicks <= p.windowTicks + n
  }

  lemma ActInside(s: Cpu, a: Act, base: nat, open: seq<Kind>)
    requires Allowed(a, open) && s.policy.count == base + |open| < U64_MAX && (s.policy.window ==> Window in open)
    ensures var s1 := Perform(s, a);
            && s1.tasks == s.tasks && s1.current == s.current
            && s1.policy.count == base + |Opened(a, open)| && (s1.policy.window ==> Window in Opened(a, open))
            && OnlyCounted(s.policy, s1.policy, if a.TickAt? then 1 else 0)
  {
    match a
    case Enter(kind) =>
      assert (open + [kind])[|open|] == kind;
    case Leave(kind) =>
      assert open == open[..|open| - 1] + [kind];
    case TickAt(locked) =>
  }

  lemma CountedTrans(p: Policy, q: Policy, r: Policy, m: nat, n: nat)
    requires OnlyCounted(p, q, m) && OnlyCounted(q, r, n)
    ensures OnlyCounted(p, r, m + n)
  {
  }

  lemma {:induction false} NestedActs(s: Cpu, acts: seq<Act>, base: nat, open: seq<Kind>)
    requires Nested(acts, open) && s.policy.count == base + |open| && base + |open| + |acts| <= U64_MAX
    requires s.policy.window ==> Window in open
    ensures var s' := PerformAll(s, acts);
            && s'.tasks == s.tasks && s'.current == s.current && s'.policy.count == base && !s'.policy.window
            && OnlyCounted(s.policy, s'.policy, Ticks(acts))
    decreases |acts|
  {
    if |acts| > 0 {
      ActInside(s, acts[0], base, open);
      var s1 := Perform(s, acts[0]);
      NestedActs(s1, acts[1..], base, Opened(acts[0], open));
      CountedTrans(s.policy, s1.policy, PerformAll(s1, acts[1..]).policy, if acts[0].TickAt? then 1 else 0, Ticks(acts[1..]));
    }
  }

  /** Properly nested regions and windows, with ticks anywhere inside them, end where they began: no
      tick switched tasks, touched a table or fired the adversary, the count and the window are back,
      and each tick was counted, and deferred if preemption is armed. */
  lemma RegionsRestore(s: Cpu, acts: seq<Act>)
    requires Nested(acts, []) && !s.policy.window && s.policy.count + |acts| <= U64_MAX
    ensures var s' := PerformAll(s, acts);
            && s' == s.(policy := s'.policy) && s'.policy.count == s.policy.count && s'.policy.window == s.policy.window
            && OnlyCounted(s.policy, s'.policy, Ticks(acts))
  {
    NestedActs(s, acts, s.policy.count, []);
  }

  /** A tick reports the adversary's success exactly if it acted, and then the slot it was armed for
      is the only one lost. */
  ghost predicate AimsAt(p: Policy, slot: SlotRef) {
    forall tasks: TaskTable, locked: bool :: Hits(p, tasks, locked, slot)
  }

  ghost predicate Hits(p: Policy, tasks: TaskTable, locked: bool, slot: SlotRef) {
    var (q, tasks', _) := OnTick(p, tasks, locked);
    && (q.fired <==> AdversaryActs(p, tasks, locked))
    && (q.pending == if q.fired then None else Some(slot))
    && forall c :: LiveAt(tasks', c) <==> LiveAt(tasks, c) && !(q.fired && c == slot)
  }

  class Preemption {
    var count: Count
    var window: bool
    var armed: bool
    var pending: Option<(nat, nat)>
    var fired: bool
    var ticks: nat
    var windowTicks: nat
    var deferred: nat
    var preemptions: nat

    function State(): Policy
      reads this
    {
      Policy(count, window, armed, pending, fired, ticks, windowTicks, deferred, preemptions)
    }

    constructor ()
      ensures State() == Policy(0, false, false, None, false, 0, 0, 0, 0)
    {
      count, window, armed, pending, fired := 0, false, false, None, false;
      ticks, windowTicks, deferred, preemptions := 0, 0, 0, 0;
    }

    /** `enter_critical`: until the matching exit no tick can disturb the running task. */
    method EnterCritical()
      modifies this`count
      ensures State() == Raise(old(State())) && Drop(State()) == old(State())
      ensures old(count) != U64_MAX ==> Shielded(State())
    {
      count := if count == U64_MAX then 0 else count + 1;
      ShieldedIff(State());
    }

    /** `exit_critical` undoes an entry; leaving the outermost region is what lifts the shield. */
    method ExitCritical()
      modifies this`count
      ensures State() == Drop(old(State())) && Raise(State()) == old(State())
      ensures armed ==> (Shielded(State()) <==> old(count) != 1)
    {
      count := if count == 0 then U64_MAX else count - 1;
      ShieldedIff(State());
    }

    /** `CriticalWindow::enter`: a marked window is shielded; dropping it restores the policy unless
        another window was open. */
    method EnterWindow()
      modifies this`count, this`window
      ensures State() == Mark(Raise(old(State())))
      ensures old(count) != U64_MAX ==> Shielded(State())
      ensures Drop(Unmark(State())) == old(State()) <==> !old(window)
    {
      EnterCritical();
      window := true;
      ShieldedIff(State());
    }

    /** Dropping the `CriticalWindow`: the mark goes first, so the window is never open unshielded. */
    method LeaveWindow()
      modifies this`count, this`window
      ensures State() == Drop(Unmark(old(State())))
      ensures Mark(Raise(State())) == old(State()) <==> old(window)
      ensures forall tasks, locked :: !AdversaryActs(State(), tasks, locked)
    {
      window := false;
      ExitCritical();
    }

    /** `arm_adversary`: from now on the fired flag tells whether a tick cleared that slot. */
    method ArmAdversary(task: nat, slot: nat)
      modifies this`fired, this`pending
      ensures State() == ArmFor(old(State()), (task, slot)) && AimsAt(State(), (task, slot))
    {
      fired := false;
      pending := Some((task, slot));
    }

    method OnTickShouldSwitch(tasks: TaskTable, locked: bool) returns (tasks': TaskTable, go: bool)
      modifies this
      ensures (State(), tasks', go) == OnTick(old(State()), tasks, locked)
    {
      tasks' := tasks;
      ticks := ticks + 1;
      if window {
        windowTicks := windowTicks + 1;
      }
      if !armed {
        return tasks, false;
      }
      if count != 0 {
        deferred := deferred + 1;
        return tasks, false;
      }
      if window && pending.Some? && !locked && HasTask(tasks, pending.value.0) {
        if LiveAt(tasks, pending.value) {
          tasks' := ClearSlot(tasks, pending.value);
        }
        fired := true;
        pending := None;
      }
      go := true;
    }
  }
}
