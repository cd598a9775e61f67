/** The capability system calls on values: what SYS_CAP_GRANT, SYS_CAP_REVOKE and
    SYS_SPAWN_TASK do to the task table and the id counter, error paths included. */
module CapSyscalls {
  import opened Core
  import opened Derivation

  /** The part of the kernel these calls read and write. */
  datatype KState = KState(tasks: TaskTable, current: Option<nat>, nextId: nat)

  /** `Capability::attenuate`. */
  function Attenuate(c: Capability, requested: RightsMask): (r: Result<Capability, ()>) {
    if !c.grant then Err(())
    else Ok(Capability(c.resource,
                       c.read && requested.read, c.write && requested.write, c.grant && requested.grant,
                       false, 0, None))
  }

  /** The lowest empty slot at or after `from`. */
  function FirstFree(table: CapTable, from: nat := 0): (r: Option<nat>)
    requires from <= |table|
    ensures r.Some? ==> from <= r.value < |table| && table[r.value].None?
                        && forall j :: from <= j < r.value ==> table[j].Some?
    ensures r.None? ==> forall j :: from <= j < |table| ==> table[j].Some?
    decreases |table| - from
  {
    if from == |table| then None
    else if table[from].None? then Some(from)
    else FirstFree(table, from + 1)
  }

  function SetSlot(tasks: TaskTable, t: nat, s: nat, c: Capability): TaskTable
    requires t < |tasks| && tasks[t].Some? && s < |tasks[t].value.capTable|
  {
    var task := tasks[t].value;
    tasks[t := Some(task.(capTable := task.capTable[s := Some(c)]))]
  }

  /** `CapTable::insert`: the fresh id is consumed even when the table is full. */
  function Insert(k: KState, t: nat, c: Capability): (KState, Option<nat>)
    requires HasTask(k.tasks, t)
  {
    var slot := FirstFree(k.tasks[t].value.capTable);
    var k' := k.(nextId := k.nextId + 1);
    if slot.None? then (k', None)
    else (k'.(tasks := SetSlot(k.tasks, t, slot.value, c.(id := k.nextId))), slot)
  }

  /** `dispatch_cap_grant`, returning the new state, the result register and the slot written. */
  function GrantCap(k: KState, caller: nat, src: nat, target: nat, rights: RightsMask): (KState, nat, Option<nat>) {
    if !HasTask(k.tasks, caller) then (k, U64_MAX, None)
    else
      var cap := GetCap(k.tasks[caller].value.capTable, src);
      if cap.None? then (k, U64_MAX, None)
      else
        var derived := Attenuate(cap.value, rights);
        if derived.Err? || !HasTask(k.tasks, target) then (k, U64_MAX, None)
        else
          var (k', slot) := Insert(k, target, derived.value.(origin := Some(cap.value.id)));
          (k', if slot.Some? then 0 else U64_MAX, slot)
  }

  predicate GrantsChannelTo(c: Option<Capability>, target: nat) {
    c.Some? && c.value.grant && c.value.resource == IpcChannel(target)
  }

  /** `current_has_grant_cap_to`. */
  predicate HoldsGrantTo(k: KState, target: nat) {
    && k.current.Some? && HasTask(k.tasks, k.current.value)
    && var table := k.tasks[k.current.value].value.capTable;
       exists s :: 0 <= s < |table| && GrantsChannelTo(table[s], target)
  }

  /** The slot a revocation request removes, if the request passes its checks. */
  function RevokeVictim(k: KState, target: nat, idx: nat): Option<Capability> {
    if HoldsGrantTo(k, target) && HasTask(k.tasks, target) then GetCap(k.tasks[target].value.capTable, idx) else None
  }

  /** `dispatch_cap_revoke`: remove one slot, then everything derived from it. */
  ghost function RevokeCap(k: KState, target: nat, idx: nat): (KState, nat) {
    var victim := RevokeVictim(k, target, idx);
    if victim.None? then (k, U64_MAX)
    else (k.(tasks := Cascade(ClearSlot(k.tasks, (target, idx)), victim.value.id)), 0)
  }

  /** The lowest empty task slot at or after `from`. */
  function FirstFreeTask(tasks: TaskTable, from: nat): (r: Option<nat>)
    ensures r.Some? ==> from <= r.value < |tasks| && tasks[r.value].None?
                        && forall j :: from <= j < r.value ==> tasks[j].Some?
    ensures r.None? ==> forall j :: from <= j < |tasks| ==> tasks[j].Some?
    decreases |tasks| - from
  {
    if from >= |tasks| then None
    else if tasks[from].None? then Some(from)
    else FirstFreeTask(tasks, from + 1)
  }

  /** What building the new task's address space and kernel stack supplies. */
  datatype Image = Image(rsp: nat, kstackTop: nat, cr3: nat, maxCaps: nat, queueCapacity: nat)

  function NewTask(id: nat, im: Image): Task
    requires 0 < im.queueCapacity
  {
    Task(id, Ready, im.rsp, im.kstackTop, im.cr3, seq(im.maxCaps, _ => None), None, EmptyQueue(im.queueCapacity))
  }

  const INIT_TASK: nat := 1

  function ChannelRoot(target: nat): Capability {
    Capability(IpcChannel(target), true, true, true, false, 0, None)
  }

  /** `dispatch_spawn_task` behind its caller check: only init may spawn. */
  function Spawn(k: KState, blobType: nat, im: Image): (KState, nat)
    requires 0 < im.queueCapacity
  {
    var id := FirstFreeTask(k.tasks, 2);
    if k.current != Some(INIT_TASK) || id.None? || !(1 <= blobType <= 3) || !HasTask(k.tasks, INIT_TASK) then (k, U64_MAX)
    else
      var loaded := k.(tasks := k.tasks[id.value := Some(NewTask(id.value, im))]);
      var (k', slot) := Insert(loaded, INIT_TASK, ChannelRoot(id.value));
      if slot.Some? then (k', id.value)
      else (k'.(tasks := k'.tasks[id.value := None]), U64_MAX)
  }

  /** The kernel mints a root capability for a task (boot-time `CapTable::insert`). */
  function Mint(k: KState, t: nat, resource: Resource, rights: RightsMask, sealed: bool): (KState, Option<nat>) {
    if !HasTask(k.tasks, t) then (k, None)
    else Insert(k, t, Capability(resource, rights.read, rights.write, rights.grant, sealed, 0, None))
  }

  /** Inserting uses up one id whether or not there is room; with room, the capability goes, under that
      id and otherwise as given, into the lowest empty slot, and no other slot changes. */
  lemma InsertExact(k: KState, t: nat, c: Capability)
    requires HasTask(k.tasks, t)
    ensures var (k', slot) := Insert(k, t, c);
            && k'.nextId == k.nextId + 1 && k'.current == k.current
            && (slot.None? <==> forall s :: 0 <= s < |k.tasks[t].value.capTable| ==> LiveAt(k.tasks, (t, s)))
            && (slot.None? ==> k'.tasks == k.tasks)
            && (slot.Some? ==>
                  && !LiveAt(k.tasks, (t, slot.value)) && (forall s :: 0 <= s < slot.value ==> LiveAt(k.tasks, (t, s)))
                  && LiveAt(k'.tasks, (t, slot.value)) && CapAt(k'.tasks, (t, slot.value)) == c.(id := k.nextId)
                  && ClearSlot(k'.tasks, (t, slot.value)) == k.tasks)
  {
    var (k', slot) := Insert(k, t, c);
    if slot.Some? {
      assert k'.tasks[t].value.capTable[slot.value := None] == k.tasks[t].value.capTable;
      assert ClearSlot(k'.tasks, (t, slot.value)) == k.tasks;
    }
  }

  /** A boot-time root has exactly the resource, rights and seal it was minted with, and no origin. */
  lemma MintExact(k: KState, t: nat, resource: Resource, rights: RightsMask, sealed: bool)
    ensures var (k', slot) := Mint(k, t, resource, rights, sealed);
            && (slot.Some? <==> HasTask(k.tasks, t) && exists s :: 0 <= s < |k.tasks[t].value.capTable| && k.tasks[t].value.capTable[s].None?)
            && (slot.None? ==> k'.tasks == k.tasks) && k'.current == k.current
            && (slot.Some? ==>
                  && !LiveAt(k.tasks, (t, slot.value)) && LiveAt(k'.tasks, (t, slot.value))
                  && ClearSlot(k'.tasks, (t, slot.value)) == k.tasks
                  && var c := CapAt(k'.tasks, (t, slot.value));
                     && c.resource == resource && c.read == rights.read && c.write == rights.write && c.grant == rights.grant
                     && c.sealed == sealed && c.id == k.nextId && c.origin == None)
  {
    if HasTask(k.tasks, t) {
      InsertExact(k, t, Capability(resource, rights.read, rights.write, rights.grant, sealed, 0, None));
    }
  }

  /** A grant succeeds exactly when the caller holds a delegable capability, the
      target exists and the target has a free slot; it then writes the lowest empty
      slot, and otherwise leaves every table alone. */
  lemma GrantExact(k: KState, caller: nat, src: nat, target: nat, rights: RightsMask)
    ensures var (k', r, slot) := GrantCap(k, caller, src, target, rights);
            var allowed := && HasTask(k.tasks, caller) && LiveAt(k.tasks, (caller, src)) && CapAt(k.tasks, (caller, src)).grant
                           && HasTask(k.tasks, target);
            && (r == 0 <==> allowed && exists s :: 0 <= s < |k.tasks[target].value.capTable| && k.tasks[target].value.capTable[s].None?)
            && (r != 0 ==> r == U64_MAX && k'.tasks == k.tasks) && (r == 0 <==> slot.Some?)
            && k'.current == k.current && k'.nextId == k.nextId + (if allowed then 1 else 0)
            && (r == 0 ==>
                  && !LiveAt(k.tasks, (target, slot.value)) && LiveAt(k'.tasks, (target, slot.value))
                  && (forall s :: 0 <= s < slot.value ==> LiveAt(k.tasks, (target, s)))
                  && ClearSlot(k'.tasks, (target, slot.value)) == k.tasks
                  && var (donor, c) := (CapAt(k.tasks, (caller, src)), CapAt(k'.tasks, (target, slot.value)));
                     && c.id == k.nextId && c.origin == Some(donor.id) && c.resource == donor.resource && !c.sealed
                     && c.read == (donor.read && rights.read) && c.write == (donor.write && rights.write)
                     && c.grant == rights.grant)
  {
    if HasTask(k.tasks, caller) && LiveAt(k.tasks, (caller, src)) && CapAt(k.tasks, (caller, src)).grant && HasTask(k.tasks, target) {
      var donor := CapAt(k.tasks, (caller, src));
      InsertExact(k, target, Attenuate(donor, rights).value.(origin := Some(donor.id)));
    }
  }

  /** The running task holds a channel to the target that it may delegate. */
  ghost predicate MayRevoke(k: KState, target: nat) {
    && k.current.Some? && HasTask(k.tasks, k.current.value)
    && exists s: nat :: LiveAt(k.tasks, (k.current.value, s)) && CapAt(k.tasks, (k.current.value, s)).grant
                        && CapAt(k.tasks, (k.current.value, s)).resource == IpcChannel(target)
  }

  lemma MayRevokeIff(k: KState, target: nat)
    ensures HoldsGrantTo(k, target) <==> MayRevoke(k, target)
  {
    if HoldsGrantTo(k, target) {
      var c := k.current.value;
      var table := k.tasks[c].value.capTable;
      var s :| 0 <= s < |table| && GrantsChannelTo(table[s], target);
      assert LiveAt(k.tasks, (c, s)) && CapAt(k.tasks, (c, s)).grant;
    }
    if MayRevoke(k, target) {
      var s: nat :| LiveAt(k.tasks, (k.current.value, s)) && CapAt(k.tasks, (k.current.value, s)).grant
                    && CapAt(k.tasks, (k.current.value, s)).resource == IpcChannel(target);
      assert GrantsChannelTo(k.tasks[k.current.value].value.capTable[s], target);
    }
  }

  /** A revocation succeeds exactly when the running task holds a delegable channel to the target, the
      target exists and the slot is occupied; then exactly that slot and what is derived from it are
      cleared. A refused one changes nothing. */
  lemma RevokeIff(k: KState, target: nat, idx: nat, p: SlotRef)
    ensures var (k', r) := RevokeCap(k, target, idx);
            && (r == 0 <==> MayRevoke(k, target) && HasTask(k.tasks, target) && LiveAt(k.tasks, (target, idx)))
            && (r != 0 ==> r == U64_MAX && k' == k)
            && (r == 0 ==>
                  && k'.current == k.current && k'.nextId == k.nextId
                  && (LiveAt(k'.tasks, p) <==>
                        LiveAt(k.tasks, p) && p != (target, idx)
                        && !Derived(ClearSlot(k.tasks, (target, idx)), CapAt(k.tasks, (target, idx)).id, p))
                  && (LiveAt(k'.tasks, p) ==> CapAt(k'.tasks, p) == CapAt(k.tasks, p)))
  {
    MayRevokeIff(k, target);
    if RevokeVictim(k, target, idx).Some? {
      CascadeSlots(ClearSlot(k.tasks, (target, idx)), RevokeVictim(k, target, idx).value.id, p);
    }
  }

  /** Spawn can succeed: init is running, the blob exists, and there is room for the task and for init's
      channel to it. */
  ghost predicate MaySpawn(k: KState, blobType: nat) {
    && k.current == Some(1) && HasTask(k.tasks, 1) && blobType in {1, 2, 3}
    && (exists t :: 2 <= t < |k.tasks| && k.tasks[t].None?)
    && (exists s :: 0 <= s < |k.tasks[1].value.capTable| && k.tasks[1].value.capTable[s].None?)
  }

  /** A spawn succeeds exactly when it may, and then reports the lowest empty slot from 2 on, which holds
      a ready task with no capabilities and no messages; init gains one unsealed root channel to it with
      all rights. A spawn that fails leaves the task table as it was. */
  lemma SpawnExact(k: KState, blobType: nat, im: Image)
    requires 0 < im.queueCapacity && |k.tasks| <= U64_MAX
    ensures var (k', r) := Spawn(k, blobType, im);
            && (r != U64_MAX <==> MaySpawn(k, blobType)) && k'.current == k.current
            && (r == U64_MAX ==> k'.tasks == k.tasks)
            && (r != U64_MAX ==>
                  && 2 <= r < |k.tasks| && k.tasks[r].None? && (forall t :: 2 <= t < r ==> k.tasks[t].Some?)
                  && k'.tasks[r].Some?
                  && (exists s :: && LiveAt(k'.tasks, (1, s)) && !LiveAt(k.tasks, (1, s))
                                  && CapAt(k'.tasks, (1, s)) == Capability(IpcChannel(r), true, true, true, false, k.nextId, None)
                                  && ClearSlot(k'.tasks, (1, s)) == k.tasks[r := k'.tasks[r]])
                  && var task := k'.tasks[r].value;
                     && task.id == r && task.state == Ready && task.ipcBuffer.None? && task.msgQueue.Valid()
                     && task.msgQueue.Contents() == [] && |task.msgQueue.buffer| == im.queueCapacity
                     && |task.capTable| == im.maxCaps && (forall s :: !LiveAt(k'.tasks, (r, s)))
                     && task.rsp == im.rsp && task.kstackTop == im.kstackTop && task.cr3 == im.cr3)
  {
    var (k', r) := Spawn(k, blobType, im);
    var id := FirstFreeTask(k.tasks, 2);
    if k.current == Some(INIT_TASK) && id.Some? && 1 <= blobType <= 3 && HasTask(k.tasks, INIT_TASK) {
      var loaded := k.(tasks := k.tasks[id.value := Some(NewTask(id.value, im))]);
      InsertExact(loaded, INIT_TASK, ChannelRoot(id.value));
      var slot := Insert(loaded, INIT_TASK, ChannelRoot(id.value)).1;
      if slot.Some? {
        assert k'.tasks[r] == Some(NewTask(r, im));
        assert LiveAt(k'.tasks, (1, slot.value));
      } else {
        assert k.tasks[id.value := Some(NewTask(id.value, im))][id.value := None] == k.tasks;
        forall s | 0 <= s < |k.tasks[1].value.capTable| ensures k.tasks[1].value.capTable[s].Some? {
          assert LiveAt(loaded.tasks, (1, s));
        }
      }
    }
  }
}
