/** Round-robin selection and the state changes of a context switch, on values. */
module Sched {
  import opened Arith
  import opened Core

  predicate IsReady(tasks: TaskTable, i: nat) {
    i < |tasks| && tasks[i].Some? && tasks[i].value.state == Ready
  }

  predicate Occupied(tasks: TaskTable, i: nat) {
    i < |tasks| && tasks[i].Some?
  }

  /** The first ready slot at cyclic positions start+offset, start+offset+1, ... */
  function ScanReady(tasks: TaskTable, start: nat, offset: nat): (r: Option<nat>)
    requires start < |tasks|
    ensures r.Some? ==> IsReady(tasks, r.value)
    decreases |tasks| - offset
  {
    if offset >= |tasks| then None
    else
      var idx := (start + offset) % |tasks|;
      if IsReady(tasks, idx) then Some(idx) else ScanReady(tasks, start, offset + 1)
  }

  function SetState(tasks: TaskTable, i: nat, st: TaskState): TaskTable
    requires i < |tasks| && tasks[i].Some?
  {
    tasks[i := Some(tasks[i].value.(state := st))]
  }

  /** Hand the processor from `curr` to `next`: a blocked or dead task keeps its state. */
  function SwitchTo(tasks: TaskTable, curr: nat, next: nat): TaskTable
    requires curr < |tasks| && tasks[curr].Some? && next < |tasks| && tasks[next].Some?
  {
    var parked := if tasks[curr].value.state == Running then SetState(tasks, curr, Ready) else tasks;
    SetState(parked, next, Running)
  }

  /** The selection shared by a voluntary yield and a timer preemption. */
  function Reschedule(tasks: TaskTable, curr: nat): (TaskTable, Option<nat>)
    requires Occupied(tasks, curr)
  {
    var next := ScanReady(tasks, (curr + 1) % |tasks|, 0);
    if next.None? || next.value == curr then (tasks, Some(curr))
    else (SwitchTo(tasks, curr, next.value), Some(tasks[next.value].value.id))
  }

  /** `yield_cpu`; with no running task it starts the first ready one. */
  function YieldCpu(tasks: TaskTable, current: Option<nat>): (TaskTable, Option<nat>) {
    if current.Some? && Occupied(tasks, current.value) then Reschedule(tasks, current.value)
    else if |tasks| == 0 then (tasks, current)
    else
      var next := ScanReady(tasks, 0, 0);
      if next.None? then (tasks, current)
      else (SetState(tasks, next.value, Running), Some(tasks[next.value].value.id))
  }

  /** `preempt_reschedule` once it has the scheduler lock. */
  function PreemptReschedule(tasks: TaskTable, current: Option<nat>): (TaskTable, Option<nat>) {
    if current.Some? && Occupied(tasks, current.value) then Reschedule(tasks, current.value) else (tasks, current)
  }

  /** Every task blocked sending to `dead` becomes ready. */
  function WakeSenders(tasks: TaskTable, dead: nat): TaskTable {
    seq(|tasks|, i requires 0 <= i < |tasks| =>
      if tasks[i].Some? && tasks[i].value.state == BlockedOnSend(dead)
      then Some(tasks[i].value.(state := Ready)) else tasks[i])
  }

  /** `terminate_current_task`: mark, wake blocked senders, pick a successor. */
  function Terminate(tasks: TaskTable, current: Option<nat>): (TaskTable, Option<nat>) {
    var marked := if current.Some? && Occupied(tasks, current.value) then SetState(tasks, current.value, Terminated) else tasks;
    var woken := if current.Some? then WakeSenders(marked, current.value) else marked;
    if |woken| == 0 then (woken, current)
    else
      var next := ScanReady(woken, if current.Some? then (current.value + 1) % |woken| else 0, 0);
      if next.None? then (woken, current)
      else (SetState(woken, next.value, Running), Some(woken[next.value].value.id))
  }

  /** Two tables that differ in task states only, and in which no task has newly blocked. */
  predicate StatesOnly(a: TaskTable, b: TaskTable) {
    && |a| == |b|
    && (forall i :: 0 <= i < |a| ==> a[i].Some? == b[i].Some?)
    && (forall i :: 0 <= i < |a| && a[i].Some? ==> StateOnly(a[i].value, b[i].value))
  }

  predicate StateOnly(t: Task, u: Task) {
    && u == t.(state := u.state)
    && (u.state == t.state || u.state == Ready || u.state == Running || u.state == Terminated)
  }

  lemma StatesTrans(a: TaskTable, b: TaskTable, c: TaskTable)
    requires StatesOnly(a, b) && StatesOnly(b, c)
    ensures StatesOnly(a, c)
  {
    forall i | 0 <= i < |a| && a[i].Some? ensures StateOnly(a[i].value, c[i].value) {
      assert StateOnly(a[i].value, b[i].value) && StateOnly(b[i].value, c[i].value);
    }
  }

  lemma SetStateOnly(tasks: TaskTable, i: nat, st: TaskState)
    requires Occupied(tasks, i) && (st == Ready || st == Running || st == Terminated)
    ensures StatesOnly(tasks, SetState(tasks, i, st))
  {
  }

  lemma RescheduleStates(tasks: TaskTable, c: nat)
    requires Occupied(tasks, c)
    ensures StatesOnly(tasks, Reschedule(tasks, c).0)
  {
    var next := ScanReady(tasks, (c + 1) % |tasks|, 0);
    if next.Some? && next.value != c {
      var parked := if tasks[c].value.state == Running then SetState(tasks, c, Ready) else tasks;
      SetStateOnly(tasks, c, Ready);
      SetStateOnly(parked, next.value, Running);
      StatesTrans(tasks, parked, SetState(parked, next.value, Running));
    }
  }

  /** A switch of any kind touches nothing but states, and blocks no one. */
  lemma SwitchStates(tasks: TaskTable, current: Option<nat>)
    ensures StatesOnly(tasks, YieldCpu(tasks, current).0)
    ensures StatesOnly(tasks, PreemptReschedule(tasks, current).0)
  {
    if current.Some? && Occupied(tasks, current.value) {
      RescheduleStates(tasks, current.value);
    }
  }

  lemma TerminateStates(tasks: TaskTable, current: Option<nat>)
    ensures StatesOnly(tasks, Terminate(tasks, current).0)
  {
    var marked := if current.Some? && Occupied(tasks, current.value) then SetState(tasks, current.value, Terminated) else tasks;
    var woken := if current.Some? then WakeSenders(marked, current.value) else marked;
    assert StatesOnly(tasks, marked);
    assert StatesOnly(marked, woken);
    StatesTrans(tasks, marked, woken);
    if |woken| > 0 {
      var next := ScanReady(woken, if current.Some? then (current.value + 1) % |woken| else 0, 0);
      if next.Some? {
        SetStateOnly(woken, next.value, Running);
        StatesTrans(tasks, woken, SetState(woken, next.value, Running));
      }
    }
  }

  // ---- Fairness of the scan ----

  /** Steps forward from `c` to `r` around a ring of `n`; a full turn when they coincide. */
  function Dist(c: nat, r: nat, n: nat): nat
    requires c < n && r < n
  {
    if r > c then r - c else r + n - c
  }

  /** The scan stops at the ready task nearest after `c`, if any task is ready. */
  lemma {:induction false} ScanNearest(tasks: TaskTable, c: nat, offset: nat, r: nat)
    requires c < |tasks| && IsReady(tasks, r)
    requires offset < Dist(c, r, |tasks|)
    ensures var next := ScanReady(tasks, (c + 1) % |tasks|, offset);
            && next.Some?
            && offset < Dist(c, next.value, |tasks|) <= Dist(c, r, |tasks|)
    decreases |tasks| - offset
  {
    var n := |tasks|;
    var start := (c + 1) % n;
    ModWrap(c + 1, n);
    ModWrap(start + offset, n);
    var idx := (start + offset) % n;
    assert Dist(c, idx, n) == offset + 1;
    if !IsReady(tasks, idx) {
      assert idx != r;
      ScanNearest(tasks, c, offset + 1, r);
    }
  }

  /** A switch away from `c` while `r` waits either starts `r` or brings the processor strictly nearer to it. */
  lemma SwitchApproaches(tasks: TaskTable, c: nat, r: nat)
    requires c < |tasks| && IsReady(tasks, r) && r != c
    ensures var next := ScanReady(tasks, (c + 1) % |tasks|, 0);
            && next.Some?
            && (next.value == r || (next.value != c && Dist(next.value, r, |tasks|) < Dist(c, r, |tasks|)))
  {
    ScanNearest(tasks, c, 0, r);
  }

  /** `next` is the ready task that comes first after `c` in cyclic order. */
  ghost predicate Nearest(tasks: TaskTable, c: nat, next: nat) {
    && c < |tasks| && IsReady(tasks, next)
    && forall r :: IsReady(tasks, r) ==> Dist(c, next, |tasks|) <= Dist(c, r, |tasks|)
  }

  lemma ScanIsNearest(tasks: TaskTable, c: nat)
    requires c < |tasks|
    ensures var next := ScanReady(tasks, (c + 1) % |tasks|, 0);
            if next.Some? then Nearest(tasks, c, next.value) else forall r :: !IsReady(tasks, r)
  {
    forall r | IsReady(tasks, r)
      ensures var next := ScanReady(tasks, (c + 1) % |tasks|, 0);
              next.Some? && Dist(c, next.value, |tasks|) <= Dist(c, r, |tasks|)
    {
      ScanNearest(tasks, c, 0, r);
    }
  }

  /** A switch, slot by slot: with no other task ready nothing happens; otherwise the nearest ready
      task runs, a running task becomes ready, a blocked or dead one keeps its state, and no other
      slot changes. */
  lemma RescheduleExact(tasks: TaskTable, c: nat, i: nat)
    requires Occupied(tasks, c) && i < |tasks| && IdsMatch(tasks)
    ensures var (tasks', now) := Reschedule(tasks, c);
            && |tasks'| == |tasks| && now.Some?
            && (now == Some(c) <==> forall r :: IsReady(tasks, r) ==> r == c)
            && (now == Some(c) ==> tasks' == tasks)
            && (now != Some(c) ==>
                  && Nearest(tasks, c, now.value)
                  && tasks'[i] == if i == now.value then Some(tasks[i].value.(state := Running))
                                  else if i == c && tasks[c].value.state == Running then Some(tasks[c].value.(state := Ready))
                                  else tasks[i])
  {
    ScanIsNearest(tasks, c);
    var next := ScanReady(tasks, (c + 1) % |tasks|, 0);
    if r :| IsReady(tasks, r) && r != c {
      SwitchApproaches(tasks, c, r);
    }
  }

  /** With no running task, a yield starts the lowest ready task. */
  lemma {:induction false} ScanFromZero(tasks: TaskTable, offset: nat)
    requires 0 < |tasks|
    ensures var next := ScanReady(tasks, 0, offset);
            if next.Some? then offset <= next.value && forall r :: offset <= r < next.value ==> !IsReady(tasks, r)
            else forall r :: offset <= r ==> !IsReady(tasks, r)
    decreases |tasks| - offset
  {
    if offset < |tasks| {
      ModWrap(offset, |tasks|);
      ScanFromZero(tasks, offset + 1);
    }
  }

  lemma StartExact(tasks: TaskTable)
    requires IdsMatch(tasks)
    ensures var (tasks', now) := YieldCpu(tasks, None);
            && (now.None? <==> forall r :: !IsReady(tasks, r)) && (now.None? ==> tasks' == tasks)
            && (now.Some? ==>
                  && IsReady(tasks, now.value) && (forall r :: 0 <= r < now.value ==> !IsReady(tasks, r))
                  && tasks' == tasks[now.value := Some(tasks[now.value].value.(state := Running))])
  {
    if |tasks| > 0 {
      ScanFromZero(tasks, 0);
    }
  }

  /** What the death of `c` alone does to a slot: `c` is terminated, its parked senders are ready. */
  function AfterDeath(tasks: TaskTable, c: nat, i: nat): Option<Task>
    requires i < |tasks|
  {
    if tasks[i].None? then None
    else if i == c then Some(tasks[i].value.(state := Terminated))
    else if tasks[i].value.state == BlockedOnSend(c) then Some(tasks[i].value.(state := Ready))
    else tasks[i]
  }

  /** A termination, slot by slot: the task dies, exactly its parked senders wake, and the nearest task
      then ready runs; with none ready the dead task stays current. */
  lemma TerminateExact(tasks: TaskTable, c: nat, i: nat)
    requires Occupied(tasks, c) && i < |tasks| && IdsMatch(tasks)
    ensures var (tasks', now) := Terminate(tasks, Some(c));
            var woken := seq(|tasks|, j requires 0 <= j < |tasks| => AfterDeath(tasks, c, j));
            && |tasks'| == |tasks| && now.Some?
            && (now == Some(c) <==> forall r :: !IsReady(woken, r))
            && (now == Some(c) ==> tasks'[i] == woken[i])
            && (now != Some(c) ==>
                  && Nearest(woken, c, now.value)
                  && tasks'[i] == if i == now.value then Some(tasks[i].value.(state := Running)) else woken[i])
  {
    var woken := seq(|tasks|, j requires 0 <= j < |tasks| => AfterDeath(tasks, c, j));
    var marked := SetState(tasks, c, Terminated);
    assert WakeSenders(marked, c) == woken;
    ScanIsNearest(woken, c);
  }
}
