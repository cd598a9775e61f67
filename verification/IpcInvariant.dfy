/** What every reachable state of the IPC machine satisfies, and its two readings:
    no wakeup is ever lost and no sender waits on the dead. */
module IpcInvariant {
  import opened Core
  import opened Sched
  import opened Ipc
  import opened IpcMachine

  /** A task that a blocked sender may legitimately be waiting for. */
  predicate CanWaitFor(tasks: TaskTable, t: nat) {
    HasTask(tasks, t) && tasks[t].value.state != Terminated && tasks[t].value.state != BlockedOnReceive
  }

  ghost predicate TaskOk(s: Sys, i: nat)
    requires |s.pcs| == |s.tasks| && QueuesValid(s.tasks) && Occupied(s.tasks, i)
  {
    var t, pc := s.tasks[i].value, s.pcs[i];
    match t.state
    case Ready => s.current != Some(i) && ResumeOk(t, pc)
    case Running => s.current == Some(i) && ResumeOk(t, pc)
    case BlockedOnReceive => InReceive(pc) && t.ipcBuffer == None && t.msgQueue.Contents() == []
    case BlockedOnSend(target) =>
      && (pc.SendYield? || pc.SendCheck? || (pc.SendTry? && s.current == Some(i)))
      && t.ipcBuffer == Some(pc.req.msg)
      && CanWaitFor(s.tasks, target)
    case Terminated => pc.User?
  }

  /** Between parking and looking again, a sender's buffer holds its own message or nothing. */
  predicate ResumeOk(t: Task, pc: Pc) {
    pc.SendYield? || pc.SendCheck? ==> t.ipcBuffer == None || t.ipcBuffer == Some(pc.req.msg)
  }

  /** A sender that is still on the processor while blocked has an unchanged route;
      past its yield, it is there because nothing else is ready. */
  ghost predicate SpinOk(s: Sys)
    requires WellFormed(s)
  {
    s.current.Some? ==>
      var c := s.current.value;
      s.tasks[c].value.state.BlockedOnSend? && InSend(s.pcs[c]) ==>
        && ResolveTarget(s.tasks, c, s.pcs[c].req.capIdx) == Ok(s.tasks[c].value.state.target)
        && (!s.pcs[c].SendYield? ==> forall i :: !IsReady(s.tasks, i))
  }

  ghost predicate Inv(s: Sys) {
    && WellFormed(s) && QueuesValid(s.tasks)
    && (forall i :: Occupied(s.tasks, i) ==> TaskOk(s, i))
    && SpinOk(s)
  }

  lemma InitialInv(n: nat)
    ensures Inv(Initial(n))
  {
  }

  // ---- One lemma per kind of event ----

  /** Changing nothing another task can see keeps its part of the invariant. */
  lemma OtherOk(s: Sys, s': Sys, i: nat)
    requires |s.pcs| == |s.tasks| && QueuesValid(s.tasks) && Occupied(s.tasks, i) && TaskOk(s, i)
    requires |s'.pcs| == |s'.tasks| && QueuesValid(s'.tasks) && Occupied(s'.tasks, i)
    requires s'.tasks[i] == s.tasks[i] && s'.pcs[i] == s.pcs[i] && (s'.current == Some(i) <==> s.current == Some(i))
    requires s.tasks[i].value.state.BlockedOnSend? ==> CanWaitFor(s'.tasks, s.tasks[i].value.state.target)
    ensures TaskOk(s', i)
  {
  }

  lemma TrySendKeeps(s: Sys)
    requires Inv(s) && Enabled(s, TrySend)
    ensures Inv(Next(s, TrySend))
  {
    var c := s.current.value;
    assert TaskOk(s, c);
    var (tasks', r) := AttemptSend(s.tasks, c, s.pcs[c].req.capIdx, s.pcs[c].req.msg);
    if r == Ok(Delivered) {
      TryDelivers(s);
    } else if r == Ok(Blocked) {
      TryParks(s);
    } else {
      TryFails(s);
    }
  }

  lemma TryDelivers(s: Sys)
    requires Inv(s) && Enabled(s, TrySend) && TaskOk(s, s.current.value)
    requires AttemptSend(s.tasks, s.current.value, s.pcs[s.current.value].req.capIdx, s.pcs[s.current.value].req.msg).1 == Ok(Delivered)
    ensures Inv(Next(s, TrySend))
  {
    var c, t := s.current.value, SendTarget(s);
    var s' := Next(s, TrySend);
    assert TaskOk(s, t);
    assert t != c && s'.tasks[c] == s.tasks[c];
    forall i | Occupied(s'.tasks, i) ensures TaskOk(s', i) {
      assert TaskOk(s, i);
      if i != c && i != t {
        OtherOk(s, s', i);
      }
    }
  }

  lemma TryParks(s: Sys)
    requires Inv(s) && Enabled(s, TrySend) && TaskOk(s, s.current.value)
    requires AttemptSend(s.tasks, s.current.value, s.pcs[s.current.value].req.capIdx, s.pcs[s.current.value].req.msg).1 == Ok(Blocked)
    ensures Inv(Next(s, TrySend))
  {
    var c, t := s.current.value, SendTarget(s);
    var s' := Next(s, TrySend);
    assert s'.tasks == s.tasks[c := Some(s.tasks[c].value.(state := BlockedOnSend(t), ipcBuffer := Some(s.pcs[c].req.msg)))];
    forall i | Occupied(s'.tasks, i) ensures TaskOk(s', i) {
      assert TaskOk(s, i);
      if i != c {
        OtherOk(s, s', i);
      }
    }
  }

  lemma TryFails(s: Sys)
    requires Inv(s) && Enabled(s, TrySend) && TaskOk(s, s.current.value)
    requires var r := AttemptSend(s.tasks, s.current.value, s.pcs[s.current.value].req.capIdx, s.pcs[s.current.value].req.msg).1;
             r.Err? || r == Ok(Gone)
    ensures Inv(Next(s, TrySend))
  {
    var c := s.current.value;
    var s' := Next(s, TrySend);
    assert s'.tasks == s.tasks || s'.tasks == SetBuffer(s.tasks, c, None);
    forall i | Occupied(s'.tasks, i) ensures TaskOk(s', i) {
      assert TaskOk(s, i);
      if i != c {
        OtherOk(s, s', i);
      }
    }
  }

  lemma CheckSendKeeps(s: Sys)
    requires Inv(s) && Enabled(s, CheckSend)
    ensures Inv(Next(s, CheckSend))
  {
    var c := s.current.value;
    var s' := Next(s, CheckSend);
    assert TaskOk(s, c);
    forall i | Occupied(s'.tasks, i) ensures TaskOk(s', i) {
      assert TaskOk(s, i);
    }
  }

  lemma ReceiveKeeps(s: Sys, e: Event)
    requires Inv(s) && Enabled(s, e) && (e.TryReceive? || e.AsyncReceive?)
    ensures Inv(Next(s, e))
  {
    var c := s.current.value;
    assert TaskOk(s, c);
    if s.tasks[c].value.msgQueue.Contents() != [] || s.tasks[c].value.ipcBuffer.Some? {
      ReceiveOwn(s, e);
    } else if FindSender(s.tasks, c).Some? {
      ReceivePulls(s, e);
    } else {
      ReceiveNothing(s, e);
    }
  }

  /** The receiver takes a parked message and wakes its sender. */
  lemma ReceivePulls(s: Sys, e: Event)
    requires Inv(s) && Enabled(s, e) && (e.TryReceive? || e.AsyncReceive?) && TaskOk(s, s.current.value)
    requires s.tasks[s.current.value].value.msgQueue.Contents() == []
    requires s.tasks[s.current.value].value.ipcBuffer == None && FindSender(s.tasks, s.current.value).Some?
    ensures Inv(Next(s, e))
  {
    var c, j := s.current.value, FindSender(s.tasks, s.current.value).value;
    var s' := Next(s, e);
    assert TaskOk(s, j);
    assert j != c;
    assert s'.tasks == SetState(ReleaseSender(s.tasks, j), c, Running);
    forall i | Occupied(s'.tasks, i) ensures TaskOk(s', i) {
      assert TaskOk(s, i);
      if i != c && i != j {
        OtherOk(s, s', i);
      }
    }
  }

  /** The receiver finds a message in its queue or buffer. */
  lemma ReceiveOwn(s: Sys, e: Event)
    requires Inv(s) && Enabled(s, e) && (e.TryReceive? || e.AsyncReceive?) && TaskOk(s, s.current.value)
    requires s.tasks[s.current.value].value.msgQueue.Contents() != [] || s.tasks[s.current.value].value.ipcBuffer.Some?
    ensures Inv(Next(s, e))
  {
    var c := s.current.value;
    var s' := Next(s, e);
    assert forall i :: 0 <= i < |s.tasks| && i != c ==> s'.tasks[i] == s.tasks[i];
    forall i | Occupied(s'.tasks, i) ensures TaskOk(s', i) {
      assert TaskOk(s, i);
      if i != c {
        OtherOk(s, s', i);
      }
    }
  }

  /** The receiver finds nothing, and sleeps if its receive is the blocking one. */
  lemma ReceiveNothing(s: Sys, e: Event)
    requires Inv(s) && Enabled(s, e) && (e.TryReceive? || e.AsyncReceive?) && TaskOk(s, s.current.value)
    requires s.tasks[s.current.value].value.msgQueue.Contents() == []
    requires s.tasks[s.current.value].value.ipcBuffer == None && FindSender(s.tasks, s.current.value).None?
    ensures Inv(Next(s, e))
  {
    var c := s.current.value;
    var s' := Next(s, e);
    assert s'.tasks == s.tasks || s'.tasks == SetState(s.tasks, c, BlockedOnReceive);
    forall i | Occupied(s'.tasks, i) ensures TaskOk(s', i) {
      assert TaskOk(s, i);
      assert !BlockedOn(s.tasks, i, c);
      if i != c {
        OtherOk(s, s', i);
      }
    }
  }

  lemma AsyncSendKeeps(s: Sys, e: Event)
    requires Inv(s) && Enabled(s, e) && e.AsyncSend?
    ensures Inv(Next(s, e))
  {
    var c := s.current.value;
    var s' := Next(s, e);
    assert TaskOk(s, c);
    forall i | Occupied(s'.tasks, i) ensures TaskOk(s', i) {
      assert TaskOk(s, i);
    }
  }

  /** Events that move only the running task's program counter, or only capability tables, or fill an empty slot. */
  lemma LocalKeeps(s: Sys, e: Event)
    requires Inv(s) && Enabled(s, e) && (e.StartSend? || e.ClearGone? || e.StartReceive? || e.SetCaps? || e.Load?)
    ensures Inv(Next(s, e))
  {
    var s' := Next(s, e);
    if s.current.Some? {
      assert TaskOk(s, s.current.value);
    }
    forall i | Occupied(s'.tasks, i) ensures TaskOk(s', i) {
      if Occupied(s.tasks, i) {
        assert TaskOk(s, i);
      }
    }
  }

  /** If the scan finds nothing, nothing is ready. */
  lemma ScanNone(tasks: TaskTable, c: nat)
    requires c < |tasks| && ScanReady(tasks, (c + 1) % |tasks|, 0).None?
    ensures forall i :: !IsReady(tasks, i)
  {
    forall i ensures !IsReady(tasks, i) {
      if IsReady(tasks, i) {
        ScanNearest(tasks, c, 0, i);
      }
    }
  }

  /** A voluntary or timer switch, with the program counter the switched-out task will resume at. */
  lemma RescheduleKeeps(s: Sys, e: Event)
    requires Inv(s) && Enabled(s, e) && (e.Yield? || e.Tick?)
    ensures Inv(Next(s, e))
  {
    if e.Yield? {
      YieldKeeps(s);
    } else {
      TickKeeps(s);
    }
  }

  lemma YieldKeeps(s: Sys)
    requires Inv(s) && Enabled(s, Yield)
    ensures Inv(Next(s, Yield))
  {
    var c := s.current.value;
    var s' := Next(s, Yield);
    assert TaskOk(s, c);
    var next := ScanReady(s.tasks, (c + 1) % |s.tasks|, 0);
    if next.None? {
      ScanNone(s.tasks, c);
    } else {
      assert TaskOk(s, next.value);
    }
    forall i | Occupied(s'.tasks, i) ensures TaskOk(s', i) {
      assert TaskOk(s, i);
    }
  }

  lemma TickKeeps(s: Sys)
    requires Inv(s) && Enabled(s, Tick)
    ensures Inv(Next(s, Tick))
  {
    var c := s.current.value;
    var s' := Next(s, Tick);
    assert TaskOk(s, c);
    var next := ScanReady(s.tasks, (c + 1) % |s.tasks|, 0);
    if next.Some? {
      assert TaskOk(s, next.value);
    }
    forall i | Occupied(s'.tasks, i) ensures TaskOk(s', i) {
      assert TaskOk(s, i);
    }
  }

  /** Dying wakes exactly the senders parked on the dead task. */
  lemma DeathKeeps(s: Sys, s': Sys)
    requires Inv(s) && Enabled(s, Exit)
    requires s' == s.(tasks := WakeSenders(SetState(s.tasks, s.current.value, Terminated), s.current.value))
    ensures Inv(s')
  {
    var c := s.current.value;
    assert TaskOk(s, c);
    assert QueuesValid(s'.tasks);
    forall i | Occupied(s'.tasks, i) ensures TaskOk(s', i) {
      assert TaskOk(s, i);
    }
  }

  lemma ExitKeeps(s: Sys)
    requires Inv(s) && Enabled(s, Exit)
    ensures Inv(Next(s, Exit))
  {
    var c := s.current.value;
    var dead := s.(tasks := WakeSenders(SetState(s.tasks, c, Terminated), c));
    DeathKeeps(s, dead);
    var next := ScanReady(dead.tasks, (c + 1) % |dead.tasks|, 0);
    if next.Some? {
      var s' := Next(s, Exit);
      assert s'.tasks == SetState(dead.tasks, next.value, Running);
      assert TaskOk(dead, next.value);
      forall i | Occupied(s'.tasks, i) ensures TaskOk(s', i) {
        assert TaskOk(dead, i);
      }
    }
  }

  lemma StartKeeps(s: Sys)
    requires Inv(s) && Enabled(s, Start)
    ensures Inv(Next(s, Start))
  {
    var s' := Next(s, Start);
    forall i | Occupied(s'.tasks, i) ensures TaskOk(s', i) {
      assert TaskOk(s, i);
    }
  }

  lemma NextKeeps(s: Sys, e: Event)
    requires Inv(s) && Enabled(s, e)
    ensures Inv(Next(s, e))
  {
    match e
    case TrySend => TrySendKeeps(s);
    case CheckSend => CheckSendKeeps(s);
    case TryReceive => ReceiveKeeps(s, e);
    case AsyncReceive => ReceiveKeeps(s, e);
    case AsyncSend(_, _, _, _) => AsyncSendKeeps(s, e);
    case Yield => RescheduleKeeps(s, e);
    case Tick => RescheduleKeeps(s, e);
    case Exit => ExitKeeps(s);
    case Start => StartKeeps(s);
    case _ => LocalKeeps(s, e);
  }

  lemma {:induction false} RunInv(states: seq<Sys>, events: seq<Event>, j: nat)
    requires IsRun(states, events) && j < |states|
    ensures Inv(states[j])
  {
    if j == 0 {
      var n :| states[0] == Initial(n);
      InitialInv(n);
    } else {
      RunInv(states, events, j - 1);
      NextKeeps(states[j - 1], events[j - 1]);
    }
  }

  // ---- Main results ----

  /** In every reachable state a task asleep in receive has no message waiting
      anywhere for it, and nobody is parked on it. */
  lemma NoLostWakeup(states: seq<Sys>, events: seq<Event>, j: nat, i: nat)
    requires IsRun(states, events) && j < |states|
    requires Occupied(states[j].tasks, i) && states[j].tasks[i].value.state == BlockedOnReceive
    ensures var t := states[j].tasks[i].value;
            && t.ipcBuffer == None
            && t.msgQueue.Valid() && t.msgQueue.Contents() == []
            && forall k :: !BlockedOn(states[j].tasks, k, i)
  {
    var s := states[j];
    RunInv(states, events, j);
    assert TaskOk(s, i);
    forall k ensures !BlockedOn(s.tasks, k, i) {
      if Occupied(s.tasks, k) {
        assert TaskOk(s, k);
      }
    }
  }

  /** In every reachable state a parked sender waits for a task that exists and has not terminated. */
  lemma NoStuckSender(states: seq<Sys>, events: seq<Event>, j: nat, i: nat, target: nat)
    requires IsRun(states, events) && j < |states|
    requires BlockedOn(states[j].tasks, i, target)
    ensures HasTask(states[j].tasks, target) && states[j].tasks[target].value.state != Terminated
    ensures states[j].tasks[i].value.ipcBuffer.Some?
  {
    RunInv(states, events, j);
    assert TaskOk(states[j], i);
  }

  /** At most one task is marked running, and it is the current one. */
  lemma OneRunning(states: seq<Sys>, events: seq<Event>, j: nat, i: nat)
    requires IsRun(states, events) && j < |states|
    requires Occupied(states[j].tasks, i) && states[j].tasks[i].value.state == Running
    ensures states[j].current == Some(i)
  {
    RunInv(states, events, j);
    assert TaskOk(states[j], i);
  }
}
