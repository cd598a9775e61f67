/** The capability system calls as the kernel runs them: loops over the task
    table, a fixed scratch array of revoked ids, and an audit record per change. */
module Kernel {
  import opened Core
  import opened Derivation
  import opened CapSyscalls
  import opened Audit

  /** The record `propagate_revocation` writes for a slot it clears. */
  function PropagatedRecord(tasks: TaskTable, p: SlotRef): AuditEvent
    requires LiveAt(tasks, p)
  {
    AuditEvent(AuditKind.RevokePropagated, KERNEL_ACTOR, tasks[p.0].value.id, CapAt(tasks, p).resource, p.1)
  }

  /** `cleared` lists the slots derived from `root`, each exactly once. */
  ghost predicate ListsDerived(tasks: TaskTable, root: nat, cleared: seq<SlotRef>) {
    && (forall i, j :: 0 <= i < j < |cleared| ==> cleared[i] != cleared[j])
    && (forall p :: p in cleared <==> LiveAt(tasks, p) && Derived(tasks, root, p))
  }

  /** `trail` is `start` followed by one propagation record per cleared slot, in order. */
  ghost predicate Recorded(tasks: TaskTable, cleared: seq<SlotRef>, start: seq<AuditEvent>, trail: seq<AuditEvent>) {
    && |trail| == |start| + |cleared|
    && trail[..|start|] == start
    && forall i :: 0 <= i < |cleared| ==>
         LiveAt(tasks, cleared[i]) && trail[|start| + i] == PropagatedRecord(tasks, cleared[i])
  }

  /** The trail of a cascade: after what was there, one record by the kernel for each derived slot, naming its
      task, resource and slot, and no record twice. */
  lemma TrailExact(tasks: TaskTable, root: nat, cleared: seq<SlotRef>, start: seq<AuditEvent>, trail: seq<AuditEvent>, p: SlotRef)
    requires ListsDerived(tasks, root, cleared) && Recorded(tasks, cleared, start, trail)
    requires LiveAt(tasks, p) && Derived(tasks, root, p)
    ensures exists i :: |start| <= i < |trail| && cleared[i - |start|] == p
              && trail[i].kind == RevokePropagated && trail[i].actor == KERNEL_ACTOR
              && trail[i].target == tasks[p.0].value.id && trail[i].resource == CapAt(tasks, p).resource && trail[i].slot == p.1
  {
    var k :| 0 <= k < |cleared| && cleared[k] == p;
    assert trail[|start| + k] == PropagatedRecord(tasks, p);
    assert cleared[|start| + k - |start|] == p;
  }

  /** If the slot is occupied, its origin is not in `ids`. */
  predicate SlotClosed(now: TaskTable, ids: seq<nat>, p: SlotRef) {
    LiveAt(now, p) && CapAt(now, p).origin.Some? ==> CapAt(now, p).origin.value !in ids
  }

  /** A pass that found nothing has closed every slot. */
  lemma AllClosed(now: TaskTable, ids: seq<nat>, maxTasks: nat, maxCaps: nat)
    requires |now| == maxTasks && forall t :: 0 <= t < |now| && now[t].Some? ==> |now[t].value.capTable| == maxCaps
    requires forall t: nat, s: nat | t < maxTasks && s < maxCaps :: SlotClosed(now, ids, (t, s))
    ensures Closed(now, ids)
  {
  }

  class Kernel {
    const maxTasks: nat
    const maxCaps: nat
    var tasks: TaskTable
    var current: Option<nat>
    var nextCapId: nat
    const revokedIds: array<nat>
    const audit: AuditLog

    ghost predicate Valid()
      reads this, audit, audit.buffer
    {
      && |tasks| == maxTasks
      && (forall t :: 0 <= t < |tasks| && tasks[t].Some? ==> |tasks[t].value.capTable| == maxCaps)
      && revokedIds.Length == maxTasks * maxCaps + 1
      && audit.Valid()
    }

    /** A cascade from `rootId` is under way: `count` ids in the scratch array, `cleared` slots gone and recorded. */
    ghost predicate Sweeping(before: TaskTable, rootId: nat, trail: seq<AuditEvent>, cleared: seq<SlotRef>, count: nat)
      reads this, audit, audit.buffer, revokedIds
    {
      && 0 < count <= revokedIds.Length
      && Cascading(before, rootId, tasks, revokedIds[..count], cleared)
      && Recorded(before, cleared, trail, audit.trail)
    }

    function State(): KState
      reads this
    {
      KState(tasks, current, nextCapId)
    }

    constructor (maxTasks: nat, maxCaps: nat, auditCapacity: nat)
      requires 0 < auditCapacity
      ensures Valid() && State() == KState(seq(maxTasks, _ => None), None, 1) && audit.trail == []
      ensures this.maxTasks == maxTasks && this.maxCaps == maxCaps
    {
      this.maxTasks, this.maxCaps := maxTasks, maxCaps;
      tasks, current, nextCapId := seq(maxTasks, _ => None), None, 1;
      revokedIds := new nat[maxTasks * maxCaps + 1];
      audit := new AuditLog(auditCapacity);
    }

    /** Membership in the filled part of the scratch array. */
    method IsRevoked(count: nat, id: nat) returns (found: bool)
      requires count <= revokedIds.Length
      ensures found <==> id in revokedIds[..count]
    {
      found := false;
      for i := 0 to count
        invariant found <==> id in revokedIds[..i]
      {
        if revokedIds[i] == id {
          return true;
        }
      }
    }

    /** Revoke one slot, record it, and add its id to the scratch array. */
    method RevokeSlot(t: nat, s: nat, count: nat)
      requires Valid() && LiveAt(tasks, (t, s)) && count < revokedIds.Length
      modifies this`tasks, revokedIds, audit, audit.buffer
      ensures Valid()
      ensures tasks == ClearSlot(old(tasks), (t, s))
      ensures revokedIds[..count + 1] == old(revokedIds[..count]) + [CapAt(old(tasks), (t, s)).id]
      ensures audit.trail == old(audit.trail) + [PropagatedRecord(old(tasks), (t, s))]
    {
      var cap := tasks[t].value.capTable[s].value;
      var childTask := tasks[t].value.id;
      tasks := ClearSlot(tasks, (t, s));
      audit.Push(AuditEvent(AuditKind.RevokePropagated, KERNEL_ACTOR, childTask, cap.resource, s));
      revokedIds[count] := cap.id;
    }

    /** One slot of one pass: revoke it if its origin is in the scratch set. The
        capacity test never turns a slot away. */
    method VisitSlot(ghost before: TaskTable, ghost rootId: nat, ghost trail: seq<AuditEvent>,
                     ghost cleared: seq<SlotRef>, t: nat, s: nat, count: nat)
      returns (count': nat, changed: bool, ghost cleared': seq<SlotRef>)
      requires Valid() && Sweeping(before, rootId, trail, cleared, count)
      requires t < maxTasks && tasks[t].Some? && s < maxCaps
      modifies this`tasks, revokedIds, audit, audit.buffer
      ensures Valid() && Sweeping(before, rootId, trail, cleared', count')
      ensures changed ==> LiveCount(tasks) < LiveCount(old(tasks))
      ensures !changed ==> tasks == old(tasks) && revokedIds[..count'] == old(revokedIds[..count])
      ensures !changed ==> SlotClosed(tasks, revokedIds[..count'], (t, s))
    {
      count', changed, cleared' := count, false, cleared;
      var slot := tasks[t].value.capTable[s];
      if slot.Some? && slot.value.origin.Some? {
        var hit := IsRevoked(count, slot.value.origin.value);
        ghost var ids := revokedIds[..count];
        if hit {
          CapacityLeft(before, rootId, tasks, ids, cleared, (t, s), maxCaps);
        }
        if hit && count < revokedIds.Length {
          CascadeClear(before, rootId, tasks, ids, cleared, (t, s));
          LiveCountClear(tasks, (t, s));
          RevokeSlot(t, s, count);
          count', changed, cleared' := count + 1, true, cleared + [(t, s)];
        }
      }
    }

    /** The inner loop: one task's table. */
    method SweepTask(ghost before: TaskTable, ghost rootId: nat, ghost trail: seq<AuditEvent>,
                     ghost cleared: seq<SlotRef>, t: nat, count: nat)
      returns (count': nat, changed: bool, ghost cleared': seq<SlotRef>)
      requires Valid() && Sweeping(before, rootId, trail, cleared, count)
      requires t < maxTasks && tasks[t].Some?
      modifies this`tasks, revokedIds, audit, audit.buffer
      ensures Valid() && Sweeping(before, rootId, trail, cleared', count')
      ensures changed ==> LiveCount(tasks) < LiveCount(old(tasks))
      ensures !changed ==> tasks == old(tasks) && revokedIds[..count'] == old(revokedIds[..count])
      ensures !changed ==> forall s: nat | s < maxCaps :: SlotClosed(tasks, revokedIds[..count'], (t, s))
    {
      count', changed, cleared' := count, false, cleared;
      for s := 0 to maxCaps
        invariant Valid() && Sweeping(before, rootId, trail, cleared', count')
        invariant tasks[t].Some?
        invariant changed ==> LiveCount(tasks) < LiveCount(old(tasks))
        invariant !changed ==> tasks == old(tasks) && revokedIds[..count'] == old(revokedIds[..count])
        invariant !changed ==> forall j: nat | j < s :: SlotClosed(tasks, revokedIds[..count'], (t, j))
      {
        var hit;
        count', hit, cleared' := VisitSlot(before, rootId, trail, cleared', t, s, count');
        changed := changed || hit;
      }
    }

    /** Clears exactly the slots derived from `rootId`, one audit record each. */
    method PropagateRevocation(rootId: nat) returns (ghost cleared: seq<SlotRef>)
      requires Valid()
      modifies this`tasks, revokedIds, audit, audit.buffer
      ensures Valid()
      ensures tasks == Cascade(old(tasks), rootId)
      ensures ListsDerived(old(tasks), rootId, cleared)
      ensures Recorded(old(tasks), cleared, old(audit.trail), audit.trail)
    {
      ghost var before, trail := tasks, audit.trail;
      cleared := [];
      var count := 0;
      revokedIds[count] := rootId;
      count := count + 1;
      CascadeStart(before, rootId);
      assert revokedIds[..count] == [rootId];
      var changed := true;
      while changed
        invariant Valid() && Sweeping(before, rootId, trail, cleared, count)
        invariant !changed ==> forall t: nat, s: nat | t < maxTasks && s < maxCaps :: SlotClosed(tasks, revokedIds[..count], (t, s))
        decreases LiveCount(tasks), changed
      {
        ghost var start := tasks;
        changed := false;
        for t := 0 to maxTasks
          invariant Valid() && Sweeping(before, rootId, trail, cleared, count)
          invariant if changed then LiveCount(tasks) < LiveCount(start) else tasks == start
          invariant !changed ==>
            forall i: nat, s: nat | i < t && s < maxCaps :: SlotClosed(tasks, revokedIds[..count], (i, s))
        {
          if tasks[t].Some? {
            var hit;
            count, hit, cleared := SweepTask(before, rootId, trail, cleared, t, count);
            changed := changed || hit;
          }
        }
      }
      AllClosed(tasks, revokedIds[..count], maxTasks, maxCaps);
      CascadeDone(before, rootId, tasks, revokedIds[..count], cleared);
      forall p: SlotRef | LiveAt(before, p) ensures p in cleared <==> Derived(before, rootId, p) {
        CascadeSlots(before, rootId, p);
      }
    }

    /** `CapTable::insert` on the table of task `t`. */
    method InsertCap(t: nat, c: Capability) returns (slot: Option<nat>)
      requires Valid() && HasTask(tasks, t)
      modifies this`tasks, this`nextCapId
      ensures Valid()
      ensures (State(), slot) == Insert(old(State()), t, c)
    {
      var stamped := c.(id := nextCapId);
      nextCapId := nextCapId + 1;
      var table := tasks[t].value.capTable;
      for idx := 0 to |table|
        invariant FirstFree(table) == FirstFree(table, idx)
      {
        if table[idx].None? {
          tasks := SetSlot(tasks, t, idx, stamped);
          return Some(idx);
        }
      }
      return None;
    }

    method CapGrant(caller: nat, src: nat, target: nat, rights: RightsMask) returns (rax: nat)
      requires Valid()
      modifies this`tasks, this`nextCapId, audit, audit.buffer
      ensures Valid()
      ensures var (k, r, slot) := GrantCap(old(State()), caller, src, target, rights);
              && State() == k && rax == r
              && audit.trail == old(audit.trail)
                   + if slot.None? then []
                     else [AuditEvent(AuditKind.Grant, caller, target,
                                      old(tasks)[caller].value.capTable[src].value.resource, slot.value)]
    {
      if !HasTask(tasks, caller) {
        return U64_MAX;
      }
      var cap := GetCap(tasks[caller].value.capTable, src);
      if cap.None? {
        return U64_MAX;
      }
      var derived := Attenuate(cap.value, rights);
      if derived.Err? {
        return U64_MAX;
      }
      if !HasTask(tasks, target) {
        return U64_MAX;
      }
      var slot := InsertCap(target, derived.value.(origin := Some(cap.value.id)));
      match slot {
        case Some(s) =>
          audit.Push(AuditEvent(AuditKind.Grant, caller, target, derived.value.resource, s));
          rax := 0;
        case None =>
          rax := U64_MAX;
      }
    }

    /** The caller's table is searched for a delegable channel to the target. */
    method CurrentHasGrantCapTo(target: nat) returns (holds: bool)
      ensures holds <==> HoldsGrantTo(State(), target)
      ensures holds <==> MayRevoke(State(), target)
    {
      MayRevokeIff(State(), target);
      holds := false;
      if current.Some? && HasTask(tasks, current.value) {
        var table := tasks[current.value].value.capTable;
        for s := 0 to |table|
          invariant forall j :: 0 <= j < s ==> !GrantsChannelTo(table[j], target)
        {
          if table[s].Some? && table[s].value.grant && table[s].value.resource == IpcChannel(target) {
            assert GrantsChannelTo(table[s], target);
            return true;
          }
        }
      }
    }

    method CapRevoke(caller: nat, target: nat, idx: nat) returns (rax: nat)
      requires Valid()
      modifies this`tasks, revokedIds, audit, audit.buffer
      ensures Valid()
      ensures (State(), rax) == RevokeCap(old(State()), target, idx)
      ensures var victim := RevokeVictim(old(State()), target, idx);
              if victim.None? then audit.trail == old(audit.trail)
              else exists cleared ::
                && ListsDerived(ClearSlot(old(tasks), (target, idx)), victim.value.id, cleared)
                && Recorded(ClearSlot(old(tasks), (target, idx)), cleared,
                            old(audit.trail) + [AuditEvent(AuditKind.Revoke, caller, target, victim.value.resource, idx)],
                            audit.trail)
    {
      var allowed := CurrentHasGrantCapTo(target);
      if !allowed {
        return U64_MAX;
      }
      if !HasTask(tasks, target) {
        return U64_MAX;
      }
      var cap := GetCap(tasks[target].value.capTable, idx);
      match cap {
        case None =>
          return U64_MAX;
        case Some(c) =>
          tasks := ClearSlot(tasks, (target, idx));
          audit.Push(AuditEvent(AuditKind.Revoke, caller, target, c.resource, idx));
          ghost var cleared := PropagateRevocation(c.id);
          rax := 0;
      }
    }

    method SpawnTask(blobType: nat, im: Image) returns (rax: nat)
      requires Valid() && 0 < im.queueCapacity && im.maxCaps == maxCaps
      modifies this`tasks, this`nextCapId
      ensures Valid()
      ensures (State(), rax) == Spawn(old(State()), blobType, im)
    {
      if current != Some(INIT_TASK) {
        return U64_MAX;
      }
      var id := 2;
      while id < maxTasks && tasks[id].Some?
        invariant 2 <= id
        invariant FirstFreeTask(tasks, 2) == FirstFreeTask(tasks, id)
      {
        id := id + 1;
      }
      if id >= maxTasks {
        return U64_MAX;
      }
      if !(1 <= blobType <= 3) {
        return U64_MAX;
      }
      ghost var before := tasks;
      tasks := tasks[id := Some(NewTask(id, im))];
      if HasTask(tasks, INIT_TASK) {
        var slot := InsertCap(INIT_TASK, ChannelRoot(id));
        match slot {
          case Some(_) =>
            rax := id;
          case None =>
            tasks := tasks[id := None];
            rax := U64_MAX;
        }
      } else {
        tasks := tasks[id := None];
        assert tasks == before;
        rax := U64_MAX;
      }
    }
  }

  /** The scratch set always has room for one more derived slot. */
  lemma CapacityLeft(before: TaskTable, root: nat, now: TaskTable, ids: seq<nat>, cleared: seq<SlotRef>,
                     p: SlotRef, maxCaps: nat)
    requires Cascading(before, root, now, ids, cleared)
    requires forall t :: 0 <= t < |now| && now[t].Some? ==> |now[t].value.capTable| == maxCaps
    requires LiveAt(now, p)
    ensures |ids| < |before| * maxCaps + 1
  {
    LiveCountBound(before, maxCaps);
    LiveCountClear(now, p);
  }
}
