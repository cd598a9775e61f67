/** The scheduler and the lock-protected IPC sections as the kernel runs them:
    search loops over the task table followed by in-place changes. */
module Scheduler {
  import opened Core
  import opened Sched
  import opened Ipc

  class Scheduler {
    var tasks: TaskTable
    var current: Option<nat>

    constructor (maxTasks: nat)
      ensures tasks == seq(maxTasks, _ => None) && current == None
    {
      tasks, current := seq(maxTasks, _ => None), None;
    }

    /** The round-robin search. */
    method NextReady(start: nat) returns (next: Option<nat>)
      requires start < |tasks|
      ensures next == ScanReady(tasks, start, 0)
    {
      for offset := 0 to |tasks|
        invariant ScanReady(tasks, start, 0) == ScanReady(tasks, start, offset)
      {
        var idx := (start + offset) % |tasks|;
        if tasks[idx].Some? && tasks[idx].value.state == Ready {
          return Some(idx);
        }
      }
      return None;
    }

    method YieldCpu()
      modifies this
      ensures (tasks, current) == Sched.YieldCpu(old(tasks), old(current))
    {
      if |tasks| == 0 {
        return;
      }
      if current.Some? && current.value < |tasks| && tasks[current.value].Some? {
        Reschedule(current.value);
      } else {
        var next := NextReady(0);
        if next.Some? {
          tasks := SetState(tasks, next.value, Running);
          current := Some(tasks[next.value].value.id);
        }
      }
    }

    /** Select a successor and swap states; keep running if nothing else is ready. */
    method Reschedule(curr: nat)
      requires Occupied(tasks, curr) && current == Some(curr)
      modifies this
      ensures (tasks, current) == Sched.Reschedule(old(tasks), curr)
    {
      var next := NextReady((curr + 1) % |tasks|);
      if next.Some? && next.value != curr {
        if tasks[curr].value.state == Running {
          tasks := SetState(tasks, curr, Ready);
        }
        tasks := SetState(tasks, next.value, Running);
        current := Some(tasks[next.value].value.id);
      }
    }

    method PreemptReschedule()
      modifies this
      ensures (tasks, current) == Sched.PreemptReschedule(old(tasks), old(current))
    {
      if current.Some? && current.value < |tasks| && tasks[current.value].Some? {
        Reschedule(current.value);
      }
    }

    method TerminateCurrent()
      modifies this
      ensures (tasks, current) == Terminate(old(tasks), old(current))
    {
      if current.Some? && current.value < |tasks| && tasks[current.value].Some? {
        tasks := SetState(tasks, current.value, Terminated);
      }
      if current.Some? {
        WakeSendersOf(current.value);
      }
      if |tasks| > 0 {
        var start := if current.Some? then (current.value + 1) % |tasks| else 0;
        var next := NextReady(start);
        if next.Some? {
          tasks := SetState(tasks, next.value, Running);
          current := Some(tasks[next.value].value.id);
        }
      }
    }

    method WakeSendersOf(dead: nat)
      modifies this`tasks
      ensures tasks == WakeSenders(old(tasks), dead)
    {
      ghost var before := tasks;
      for i := 0 to |tasks|
        invariant |tasks| == |before|
        invariant forall k :: 0 <= k < i ==> tasks[k] == WakeSenders(before, dead)[k]
        invariant forall k :: i <= k < |tasks| ==> tasks[k] == before[k]
      {
        if tasks[i].Some? && tasks[i].value.state == BlockedOnSend(dead) {
          tasks := SetState(tasks, i, Ready);
        }
      }
    }

    /** The validate-and-use region of a synchronous send. */
    method SendRegion(cur: nat, capIdx: nat, msg: Message) returns (r: Result<SendStep, IpcError>)
      modifies this`tasks
      ensures (tasks, r) == AttemptSend(old(tasks), cur, capIdx, msg)
    {
      var target := ResolveTarget(tasks, cur, capIdx);
      match target {
        case Err(e) =>
          if HasTask(tasks, cur) {
            tasks := SetBuffer(tasks, cur, None);
          }
          r := Err(e);
        case Ok(t) =>
          var state := if HasTask(tasks, t) then Some(tasks[t].value.state) else None;
          if state == None || state == Some(Terminated) {
            r := Ok(Gone);
          } else if state == Some(BlockedOnReceive) {
            tasks := SetBuffer(tasks, t, Some(msg));
            tasks := SetState(tasks, t, Ready);
            assert tasks == old(tasks)[t := tasks[t]];
            r := Ok(Delivered);
          } else {
            tasks := SetState(tasks, cur, BlockedOnSend(t));
            tasks := SetBuffer(tasks, cur, Some(msg));
            assert tasks == old(tasks)[cur := tasks[cur]];
            r := Ok(Blocked);
          }
      }
    }

    /** The scan for a task parked on `target`. */
    method FindBlockedSender(target: nat) returns (found: Option<nat>)
      ensures found == FindSender(tasks, target)
    {
      for i := 0 to |tasks|
        invariant FindSender(tasks, target) == FindSender(tasks, target, i)
      {
        if tasks[i].Some? && tasks[i].value.state == BlockedOnSend(target) {
          return Some(i);
        }
      }
      return None;
    }

    /** One pass of a receive. */
    method ReceivePass(cur: nat) returns (r: RecvStep)
      requires HasTask(tasks, cur) && QueuesValid(tasks)
      modifies this`tasks
      ensures (tasks, r) == TakeMessage(old(tasks), cur)
    {
      var me := tasks[cur].value;
      var front := me.msgQueue.Dequeue();
      if front.Some? {
        tasks := tasks[cur := Some(me.(msgQueue := front.value.1))];
        return Got(front.value.0);
      }
      if me.ipcBuffer.Some? {
        tasks := SetBuffer(tasks, cur, None);
        return Got(me.ipcBuffer.value);
      }
      var sender := FindBlockedSender(cur);
      if sender.None? {
        return Nothing;
      }
      var msg := tasks[sender.value].value.ipcBuffer;
      tasks := ReleaseSender(tasks, sender.value);
      tasks := SetState(tasks, cur, Running);
      r := if msg.Some? then Got(msg.value) else Failed(TargetGone);
    }

    /** The locked section of an asynchronous send. */
    method EnqueueRegion(cur: nat, capIdx: nat, msg: Message) returns (r: Result<(), IpcError>)
      requires QueuesValid(tasks)
      modifies this`tasks
      ensures (tasks, r) == EnqueueTo(old(tasks), cur, capIdx, msg)
    {
      var target := ResolveTarget(tasks, cur, capIdx);
      if target.Err? {
        return Err(target.error);
      }
      var t := target.value;
      if !HasTask(tasks, t) || tasks[t].value.state == Terminated {
        return Err(TargetGone);
      }
      var task := tasks[t].value;
      var q := task.msgQueue.Enqueue(msg);
      match q {
        case Ok(queue) =>
          tasks := tasks[t := Some(task.(msgQueue := queue))];
          if task.state == BlockedOnReceive {
            tasks := SetState(tasks, t, Ready);
          }
          assert tasks == old(tasks)[t := tasks[t]];
          r := Ok(());
        case Err(_) =>
          r := Err(QueueFull);
      }
    }
  }
}
