# RunixOS kernel model

A Dafny model of the RunixOS capability microkernel and proofs about it. RunixOS is
written in Rust; this project models the parts of it whose correctness is not visible
from reading one function: capability derivation and revocation, synchronous and
asynchronous IPC under a round-robin scheduler, the guard that keeps validation and use
together under preemption, per-task address spaces, checkpoints, the log and
synchronization services, service migration, and the two architecture simulators.

`dafny verify dfyconfig.toml` checks every file.

## How the model is laid out

Each imperative part of the kernel appears twice. A file on values gives the operation as
a function of the old state and holds the theorems about whole runs; a class or method
beside it is the code as it runs, with its loops and in-place updates, and its `ensures`
ties the new state to that function.

| area | on values | as it runs |
|---|---|---|
| shared records, message ring | `Core`, `Arith` | |
| capability lineage and revocation | `Derivation`, `CapSyscalls`, `CapRuns` | `Kernel`, `Audit` |
| IPC and scheduling | `Sched`, `Ipc`, `IpcMachine`, `IpcInvariant`, `IpcLedger`, `IpcOnce`, `IpcSync`, `IpcRuns`, `IpcContents`, `IpcAuthority`, `IpcWitness` | `Scheduler` |
| preemption guard | `Preempt`, `Guard` | `Preempt` |
| page tables | `Paging`, `AddressSpaces`, `AddressMaps`, `AddressRuns`, `UserIsolation`, `KernelCopy` | `PageTables` |
| checkpoints | `Hash`, `Snapshot` | `Checkpointer` |
| migration and failover | `Slots`, `DistRuns` | `Distribution` |
| log service, synchronization service | `LogRuns`, `SyncRuns` | `LogService`, `SyncService` |
| cache and pipeline simulators | `Lru` | `CacheSim`, `Pipeline` |

Table sizes that the kernel fixes (`MAX_TASKS`, `MAX_CAPS`, the ring of an asynchronous
queue, the audit ring, the registry) are parameters here, so the statements hold for every
size. The 128-entry log ring, the 16 waiters of a synchronization object, the 1024 cache
lines, the page-table geometry and the hash constants are the source's own numbers. Ids,
ticks and counters are natural numbers; 64-bit arithmetic is written out where it matters
(the snapshot hash, the preempt count, the user range check, the LRU counter), and so is
the 32-bit permit count. A message carries a serial number that tells one send from
another; nothing in the kernel reads it.

## Where the code and its promises part

The code is followed, and the exact boundary is proved, in these places.

* Synchronous sends are not exactly-once without a condition. A retried send that finds a
  waiting receiver leaves its parked copy behind (`IpcWitness.RetryDuplicates`), and a
  send that parks can overwrite a message somebody else put in the same buffer
  (`IpcWitness.MixedTrafficLoses`); in both runs every capability is minted, granted or
  revoked by the kernel's own calls. `IpcOnce.ExactlyOnceIff` and
  `IpcSync.SyncExactlyOnceIff` say exactly when delivery is exactly-once.
* A checkpoint is said to be restored exactly or refused (PAPER.typ line 313). The
  checksum sees a task's id, state code, capability words, pending-message length and
  queue count, and nothing else (`Snapshot.TaskWordsIff`, `Snapshot.TableWordsIff`).
  Among snapshots whose covered words equal the sealed ones or differ from them in one
  place, restore accepts exactly those with equal words (`Snapshot.AcceptedIff`), so
  messages, whole queues and resources can differ unnoticed:
  `Snapshot.RewrittenMessageIff`, `Snapshot.RewrittenQueueIff`,
  `Snapshot.SwappedResourceIff`, `Snapshot.AliasInstalled`. About snapshots that differ
  in several covered words nothing is claimed: 64-bit hashes collide.
* Failover is said to replay the last checkpoint (PAPER.typ line 313). It does exactly
  when the remote node could take that checkpoint or held an equal one
  (`DistRuns.FailoverReplaysIff`); `DistRuns.StaleFailover` is a run in which the second
  failover restores the first migration's state, and `DistRuns.FullHostLosesState` the
  case where nothing is restored.
* More associativity never loses hits only while the simulated array is not cut off at
  1024 lines: `Lru.InclusionIff`, `Lru.TruncationLosesHits`.
* A log reader that mixes kinds loses entries the ring still holds:
  `LogRuns.DeliveredIff`, `LogRuns.MixedReaderLoses`.
* A mutex keeps its single permit exactly as long as nobody releases it while another
  task holds it: `SyncRuns.MutualExclusionIff`, `SyncRuns.StrayLetsTwoIn`.
* Registering a service in a full registry is dropped in silence: `Slots.SetFinds`.

## Model

| member | source | states |
|---|---|---|
| Core.MessageQueue.Enqueue | kernel/process/ipc.rs:152-160 | the ring appends at the back of its first-in-first-out contents, and refuses exactly when full |
| Core.MessageQueue.Dequeue | kernel/process/ipc.rs:162-170 | the ring removes the front of its contents, and reports empty exactly when they are |
| Audit.AuditLog.Push | kernel/process/audit.rs:65-73 | the ring keeps the newest records of the whole trail, with the total and the dropped count |
| Audit.AuditLog.Dump | kernel/process/audit.rs:87-113 | the walk yields exactly the surviving tail of the trail, oldest first |
| Derivation.CascadeSlots | kernel/syscall/mod.rs:556-564 | after a cascade a slot is live exactly if it was and no chain of origins leads from it to the revoked id; survivors are untouched |
| Derivation.ClosedClearsChains | kernel/syscall/mod.rs:580-609 | when a pass finds nothing more, every chain of origins from the root has been cleared link by link |
| Derivation.CascadeDone | kernel/syscall/mod.rs:565-610 | the fixpoint of the passes is the cascade defined by reachability |
| Kernel.Kernel.IsRevoked | kernel/syscall/mod.rs:576-578 | membership in the filled part of the scratch array |
| Kernel.Kernel.RevokeSlot | kernel/syscall/mod.rs:588-602 | one slot is cleared, its id joins the scratch array, one propagated record is written |
| Kernel.Kernel.VisitSlot | kernel/syscall/mod.rs:586-603 | the capacity test never turns a slot away; an unchanged slot is closed under the revoked ids |
| Kernel.Kernel.SweepTask | kernel/syscall/mod.rs:583-605 | one task's table is closed, or the number of live capabilities fell |
| Kernel.Kernel.PropagateRevocation | kernel/syscall/mod.rs:552-610 | terminates, clears precisely the slots reachable from the root id through origin links, and writes one record per cleared slot |
| Kernel.TrailExact | kernel/syscall/mod.rs:588-602 | each derived slot has a record by the kernel that names its task, resource and slot |
| Kernel.CapacityLeft | kernel/syscall/mod.rs:546-554 | while a live slot remains to be revoked the scratch array of tasks times slots plus one has room |
| Kernel.Kernel.InsertCap | kernel/process/capability.rs:138-148 | the first free slot gets the capability under the next id; a full table changes nothing but the counter |
| Kernel.Kernel.CapGrant | kernel/syscall/mod.rs:407-482 | the loop over the target's slots ends where GrantExact says, with one Grant record exactly on success |
| Kernel.Kernel.CurrentHasGrantCapTo | kernel/syscall/mod.rs:705-726 | true exactly if some slot of the running task holds a channel to the target with the grant right |
| Kernel.Kernel.CapRevoke | kernel/syscall/mod.rs:494-545 | clears the victim and its whole cascade, and the audit trail lists the victim and then each derived slot exactly once |
| Kernel.Kernel.SpawnTask | kernel/syscall/mod.rs:795-862 | the search loops end where SpawnExact says, whichever check fails |
| CapSyscalls.InsertExact | kernel/process/capability.rs:138-148 | the capability goes, otherwise as given, into the lowest empty slot under the next id; a full table uses up the id and changes nothing else |
| CapSyscalls.GrantExact | kernel/process/capability.rs:90-110 | a grant succeeds exactly when the caller holds a delegable capability, the target exists and has room; the new capability has the donor's resource, at most its rights, and its id as origin |
| CapSyscalls.RevokeIff | kernel/syscall/mod.rs:494-545 | a revocation succeeds exactly when the running task holds a channel to the target with the grant right, the target exists and the slot is occupied; then exactly that slot and what is derived from it are cleared, and a refused one changes nothing |
| CapSyscalls.MintExact | kernel/process/capability.rs:138-148 | a boot-time root has exactly the resource, rights and seal it was minted with and no origin |
| CapSyscalls.SpawnExact | kernel/syscall/mod.rs:795-862 | a spawn succeeds exactly when init is running and exists, the blob type is 1, 2 or 3, a task slot from 2 on is empty and init has an empty slot; it then fills the lowest such task slot with an empty ready task and gives init one root channel to it with all rights |
| CapRuns.LiveLineage | kernel/syscall/mod.rs:407-545 | in every reachable state live ids are distinct, and a derived capability is younger than its donor, which is live |
| CapRuns.AncestorsLive | kernel/syscall/mod.rs:407-545 | in every reachable state each ancestor of a live capability is live |
| CapRuns.RevokedForever | kernel/syscall/mod.rs:494-545 | once an id is revoked nothing in its derivation tree, as recorded at any later time, is ever live again |
| CapRuns.RevokeExact | kernel/syscall/mod.rs:494-545 | a revocation ends exactly the victim's historical derivation tree |
| CapRuns.AuthorityConfined | kernel/process/capability.rs:90-110 | a live capability names the resource of every ancestor and has no right any ancestor lacked |
| CapRuns.DonorGrants | kernel/syscall/mod.rs:407-462 | every derived capability's donor carried the grant right |
| CapRuns.RootExists | kernel/syscall/mod.rs:795-862 | every live capability descends from a kernel-minted root |
| Sched.ScanNearest | kernel/scheduler/mod.rs:97-112 | the cyclic scan stops at the nearest ready task after the current one |
| Sched.SwitchApproaches | kernel/scheduler/mod.rs:250-303 | a switch either starts a given ready task or brings the processor strictly nearer to it |
| Sched.RescheduleExact | kernel/scheduler/mod.rs:170-201 | a switch happens exactly if another task is ready; then the nearest one runs, a running task becomes ready, a blocked or dead one keeps its state, and no other slot changes |
| Sched.StartExact | kernel/scheduler/mod.rs:221-249 | with no current task the lowest ready task starts, if any |
| Sched.TerminateExact | kernel/scheduler/mod.rs:60-138 | the task dies, exactly its parked senders become ready, and the nearest task then ready runs; with none the dead task stays current |
| Ipc.ResolveExact | kernel/process/ipc.rs:183-194 | a slot resolves to a task exactly if it holds a channel to it, and the two errors are told apart |
| Ipc.AttemptExact | kernel/process/ipc.rs:260-310 | an attempt delivers exactly to a task asleep in receive, finds nobody exactly if the task is missing or dead, parks otherwise, and changes one slot or none |
| Ipc.AttemptRefused | kernel/process/ipc.rs:260-287 | without a channel the attempt fails and withdraws the message the sender had parked |
| Ipc.EnqueueExact | kernel/process/ipc.rs:435-458 | an asynchronous send succeeds exactly if the channel's task lives and its queue has room; the message is then last in that queue and a sleeping task is ready |
| Ipc.TakeExact | kernel/process/ipc.rs:349-362 | a receive takes the front of the queue, else the buffer, and finds nothing exactly if both are empty and nobody is parked on it |
| Ipc.TakeParked | kernel/process/ipc.rs:363-396 | otherwise it takes the message of the lowest parked sender and wakes it |
| Scheduler.Scheduler.NextReady | kernel/scheduler/mod.rs:250-262 | the search loop finds what the cyclic scan finds |
| Scheduler.Scheduler.YieldCpu | kernel/scheduler/mod.rs:221-328 | gives the processor to the nearest ready task after the caller, the step BoundedWaiting counts; with none ready the caller keeps it |
| Scheduler.Scheduler.Reschedule | kernel/scheduler/mod.rs:170-201 | the successor becomes running, the running task becomes ready, nothing else changes |
| Scheduler.Scheduler.PreemptReschedule | kernel/scheduler/mod.rs:153-217 | the same choice for a timer switch, and no change when no task is current |
| Scheduler.Scheduler.TerminateCurrent | kernel/scheduler/mod.rs:60-138 | the current task dies, its parked senders wake, and the next ready task runs |
| Scheduler.Scheduler.WakeSendersOf | kernel/scheduler/mod.rs:84-95 | exactly the tasks parked on the dead task become ready |
| Scheduler.Scheduler.SendRegion | kernel/process/ipc.rs:260-310 | delivers to a waiting receiver, parks on a busy one, reports a dead one, and clears the buffer when the slot no longer resolves: the step of the exactly-once results |
| Scheduler.Scheduler.FindBlockedSender | kernel/process/ipc.rs:363-372 | the lowest task parked on the receiver, if any |
| Scheduler.Scheduler.ReceivePass | kernel/process/ipc.rs:349-396 | a receive takes from the queue, then the buffer, then a parked sender |
| Scheduler.Scheduler.EnqueueRegion | kernel/process/ipc.rs:435-458 | appends to the target's queue and wakes it, or reports a missing capability, a dead target or a full queue with nothing changed |
| IpcInvariant.NoLostWakeup | kernel/process/ipc.rs:288-396 | in every reachable state a task asleep in receive has an empty buffer and queue and nobody parked on it |
| IpcInvariant.NoStuckSender | kernel/scheduler/mod.rs:84-95 | in every reachable state a parked sender waits for a task that exists and has not terminated |
| IpcInvariant.OneRunning | kernel/scheduler/mod.rs:170-201 | at most one task is running and it is the current one |
| IpcOnce.ExactlyOnceIff | kernel/process/ipc.rs:213-511 | over every run of mixed traffic, each completed send has exactly one copy, each failed send none and each parked send one in its own buffer, if and only if no step is a retried delivery or overwrites an inbound message |
| IpcOnce.RetryBreaks | kernel/process/ipc.rs:291-298 | a delivery on retry always leaves a second copy |
| IpcOnce.ClobberBreaks | kernel/process/ipc.rs:269-305 | overwriting an inbound message always loses a completed send |
| IpcSync.SyncExactlyOnceIff | kernel/process/ipc.rs:213-397 | with synchronous sends only, delivery is exactly-once if and only if no retry is delivered |
| IpcSync.StableRoutesExactlyOnce | kernel/process/ipc.rs:213-397 | synchronous traffic is exactly-once in every run whose capability changes never re-point the slot of a send in progress |
| IpcRuns.PlaceAuthorised | kernel/process/ipc.rs:183-194 | in every state of every run a message in a buffer, queue or receipt was sent there by its true sender, delivered, parked or queued, through a slot that then held a channel to that task, or is with its own sender |
| IpcRuns.ReceiptTraced | kernel/process/ipc.rs:342-397 | so, in every run, was every message received from another task |
| IpcRuns.ReceiptAuthorised | kernel/process/ipc.rs:183-194 | in a run without bad steps the same holds of every received message, its own sender's included |
| IpcRuns.StableRoutesAuthorised | kernel/process/ipc.rs:213-397 | the same for every synchronous run over stable routes, with no condition on its steps |
| IpcRuns.BoundedWaiting | kernel/scheduler/mod.rs:250-303 | a task that stays ready runs within as many switches as there are task slots |
| IpcContents.CheckInputsExact | kernel/process/ipc.rs:219-227 | exactly payloads of at most 128 bytes, tags below 15 and versions other than 0xFFFF pass, the first failed check names the error, and the tag is the one the number names |
| IpcContents.MessageOpened | kernel/process/ipc.rs:234-236 | in every state of every run a message in a buffer, queue or receipt carries the payload, version and tag of the accepted call of its sender that opened its record |
| IpcContents.ReceivedIsSent | kernel/process/ipc.rs:342-397 | so a receive returns what some task sent |
| IpcContents.RecordOpened | kernel/process/ipc.rs:219-227 | in every run a send is refused for its inputs if and only if they were not acceptable |
| IpcContents.RefusedCall | kernel/process/ipc.rs:219-227 | and then has no other effect |
| IpcContents.CopiesAgree | kernel/process/ipc.rs:234-236 | two copies of one send are the same message in every field |
| IpcContents.QueueFifo | kernel/process/ipc.rs:152-170 | in every run what was sent to a task asynchronously is, in order, what it has received from its queue followed by what is queued |
| IpcContents.AttemptReports | kernel/process/ipc.rs:312-335 | a delivery is reported as success, a failed check as its error, and a parked or dead-target send stays open |
| IpcContents.LaterReports | kernel/process/ipc.rs:312-335 | a send woken with its buffer empty succeeded, one with its message still there tries again, a dead target is an error |
| IpcContents.AsyncReports | kernel/process/ipc.rs:435-458 | an asynchronous send reports the outcome of its enqueue |
| IpcAuthority.QuietTables | kernel/process/ipc.rs:213-511 | sends, receives, yields, ticks and exits leave every capability table as it is |
| IpcAuthority.TablesAgree | kernel/syscall/mod.rs:407-545 | when every table change is carried out by capability calls, the IPC machine and the capability kernel hold the same tables in every state |
| IpcAuthority.ReceiptRooted | kernel/process/ipc.rs:183-194 | every message received from another task left under a capability descending from a live channel to the receiver that the kernel itself minted |
| IpcAuthority.RevokedNeverSends | kernel/syscall/mod.rs:494-545 | once an id is revoked no message ever again leaves through a capability that descends from it |
| IpcWitness.RetryDuplicates | kernel/process/ipc.rs:291-298 | a synchronous run whose table changes are a revocation and a grant of the running task, and which ends with one completed send in two buffers |
| IpcWitness.MixedTrafficLoses | kernel/process/ipc.rs:299-305 | a mixed run over kernel-minted channels in which a completed send has no copy left |
| Preempt.Preemption.EnterCritical | kernel/preempt/mod.rs:68-70 | after it no timer interrupt can switch tasks, touch a table or fire the adversary, and an exit restores the policy |
| Preempt.Preemption.ExitCritical | kernel/preempt/mod.rs:74-76 | undoes an entry; while preemption is armed, exactly leaving the outermost region lifts the shield |
| Preempt.Preemption.EnterWindow | kernel/preempt/mod.rs:94-99 | a marked window is shielded, and dropping it restores the policy exactly if no window was open |
| Preempt.Preemption.LeaveWindow | kernel/preempt/mod.rs:102-108 | is undone by entering again exactly if a window was open; after it the adversary cannot act on a tick |
| Preempt.Preemption.ArmAdversary | kernel/preempt/mod.rs:174-178 | the fired flag after a tick tells exactly whether it acted, and then the named slot is the only one lost |
| Preempt.Preemption.OnTickShouldSwitch | kernel/preempt/mod.rs:113-144 | counts, defers, fires or allows a switch as TickExact says |
| Preempt.ShieldedIff | kernel/preempt/mod.rs:113-144 | no interrupt can disturb the running task exactly if the count is raised or preemption is not armed |
| Preempt.RegionsRestore | kernel/preempt/mod.rs:68-108 | any properly nested regions and windows, with ticks anywhere inside, end with the same tasks, current task, count, window and adversary; each tick was only counted and deferred |
| Preempt.TickExact | kernel/preempt/mod.rs:113-207 | a timer interrupt is deferred exactly if armed and in a region or under the lock, switches only at count zero with the lock free, and loses a capability exactly if the armed adversary may act, the one it was armed for |
| Guard.TickInside | kernel/preempt/mod.rs:113-144 | a tick inside a region or a locked section changes nothing but counters |
| Guard.UseIsWhole | kernel/process/ipc.rs:260-310 | the micro-steps of one use amount to one indivisible send |
| Guard.Reduction | kernel/process/ipc.rs:260-310 | every run with ticks between any two micro-steps leads where its indivisible actions lead, with the same outcomes in order |
| Guard.QuietReduction | kernel/process/ipc.rs:435-458 | outside regions the table and the log are exactly those of the indivisible kernel |
| Guard.ValidAtUse | kernel/process/ipc.rs:260-310 | from validation to the last write of its use a capability still resolves to the task being used |
| Guard.SwitchesOutside | kernel/scheduler/mod.rs:153-167 | a context switch happens only at preempt count zero with the lock free, and the adversary never fires |
| Guard.UnguardedTickRevokes | kernel/preempt/mod.rs:192-207 | without the guard the same tick removes the capability that was just validated |
| Paging.SamePage | kernel/memory/mod.rs:212-215 | two addresses share a page exactly when all four table indices agree |
| Paging.EntryBits | kernel/memory/mod.rs:221-225 | an entry built from a frame and flags is present, user, writable as asked, and yields the frame back |
| Paging.AddrExact | kernel/memory/mod.rs:250 | the frame of an entry is its bits 12 to 51 whatever the bits around them |
| Paging.GetOrCreateExact | kernel/memory/mod.rs:232-252 | on any memory the entry ends present, user-accessible and leading to the table returned; an old entry keeps its frame and other rights, a new one gets all rights and an empty frame, and no other word changes |
| AddressSpaces.TableStep | kernel/memory/mod.rs:232-252 | finding or creating a table changes no translation of any space and keeps every table in one place |
| AddressSpaces.LeafWalk | kernel/memory/mod.rs:219-226 | a leaf write changes the walks that pass through it and no other |
| AddressMaps.MapExact | kernel/memory/mod.rs:195-230 | for a user-half address, as its safety contract asks, a mapping succeeds exactly when the missing tables fit in the frames left; then that page of that space translates to the frame with user rights and nothing else changes; a failed one changes no translation |
| AddressMaps.NewSpaceExact | kernel/memory/mod.rs:156-170 | a new space has an empty lower half, the active space's upper half, and leaves every other space alone |
| AddressRuns.RunRefines | kernel/memory/mod.rs:156-252 | in every state of every run each space translates its lower half as a plain map from space and page to frame and its upper half as the boot space did |
| AddressRuns.TablesApart | kernel/memory/mod.rs:59-67 | tables of different spaces, or at different places of one, never overlap each other or a data frame |
| AddressRuns.SpawnExact | kernel/userspace/mod.rs:154-176 | spawning a user task adds exactly one space, two frames and two pages |
| AddressRuns.SpawnPrivate | kernel/userspace/mod.rs:157-161 | its frames are mapped by no other space |
| AddressRuns.NineFramesSuffice | kernel/userspace/mod.rs:162-167 | a spawn cannot run out of frames while nine are left |
| UserIsolation.StartIff | kernel/memory/mod.rs:29-56 | on any memory and boot PML4 the isolation results apply exactly if the allocator's region is aligned, within physical memory, and clear of the boot PML4 and every table below its upper half |
| UserIsolation.StoreExact | kernel/userspace/mod.rs:157-161 | a user-mode store is seen exactly at the stored word by the spaces that map its frame |
| UserIsolation.TasksIsolated | kernel/userspace/mod.rs:154-176 | over every run of spawns and user-mode stores, what one task stores changes no word another task can load, in its own half or through user pages of the boot half outside the allocator's region |
| KernelCopy.CopyConfined | kernel/syscall/mod.rs:299-308 | a copy into a range the check accepted cannot fault and changes only words of frames the caller's space maps writable in that range |
| KernelCopy.CopyPrivate | kernel/syscall/mod.rs:352-361 | no other task's loads can see such a copy |
| PageTables.MemoryManager.AllocateFrame | kernel/memory/mod.rs:59-67 | hands out a frame of its region that lies above every frame handed out before, and none exactly when less than a frame is left |
| PageTables.MemoryManager.NewAddressSpace | kernel/memory/mod.rs:156-170 | the copy loop makes exactly the new PML4, in a frame apart from every frame handed out before |
| PageTables.MemoryManager.GetOrCreateTableUser | kernel/memory/mod.rs:233-252 | leaves memory as TableStep needs it: the table that was there, or an empty one newly linked |
| PageTables.MemoryManager.MapPageUserInto | kernel/memory/mod.rs:202-230 | leaves memory as MapExact describes |
| PageTables.MemoryManager.PageOk | kernel/memory/mod.rs:317-361 | true exactly if the page is present and user-accessible, and writable if asked, at all four levels |
| PageTables.MemoryManager.ValidateUserRange | kernel/memory/mod.rs:294-372 | terminates and accepts exactly if the length is zero, or the range does not wrap, ends at or below 2^47 and every byte is accessible at all four levels |
| PageTables.PagesCover | kernel/memory/mod.rs:313-370 | all bytes of a range are accessible exactly when all its pages are |
| PageTables.RangeIsMapped | kernel/memory/mod.rs:294-372 | in a space the kernel built the check accepts exactly the ranges whose every byte is mapped there |
| PageTables.AccessIsWalk | kernel/memory/mod.rs:317-361 | on any tables without large pages a byte passes the check exactly if the processor lets user mode access it |
| Hash.TimesUndo | kernel/process/snapshot.rs:95-98 | multiplying by the hash prime modulo 2^64 can be undone |
| Hash.MixInjective | kernel/process/snapshot.rs:95-98 | the hash step is injective in the running hash and in the word |
| Hash.OneWordChangesHash | kernel/process/snapshot.rs:93-132 | word streams of equal length that differ in one word have different hashes |
| Snapshot.CaptureExact | kernel/process/snapshot.rs:146-165 | a capture holds each task's id, state, capabilities, buffer and queue under a matching checksum |
| Snapshot.RestoreIff | kernel/process/snapshot.rs:173-181 | restore goes ahead exactly if the snapshot is valid and matches its checksum, and otherwise changes nothing |
| Snapshot.RestoreExact | kernel/process/snapshot.rs:173-197 | onto any live table restore rolls back, field by field, exactly the saved tasks that still exist and reports how many |
| Snapshot.RoundTrip | kernel/process/snapshot.rs:146-197 | after a capture and any changes that keep the set of tasks, every task has its saved state, capabilities, buffer and queue back on its live stack and page table, and a new capture is identical |
| Snapshot.TamperRejected | kernel/process/snapshot.rs:173-181 | a stored snapshot changed in one covered word is refused and nothing is installed |
| Snapshot.AcceptedIff | kernel/process/snapshot.rs:173-181 | under the stored checksum, a snapshot with the sealed words or one of them changed is accepted exactly if the words are the same |
| Snapshot.TaskWordsIff | kernel/process/snapshot.rs:104-128 | the words of two saved tasks agree exactly when id, state code, capability words, pending-message length and queue count do |
| Snapshot.TableWordsIff | kernel/process/snapshot.rs:109-124 | tables with the same slots occupied have the same words exactly when every slot agrees in resource code, rights, seal, id and origin |
| Snapshot.ForgedCapabilityRejected | kernel/process/snapshot.rs:109-124 | a capability changed in one word, in any slot of any task, is refused |
| Snapshot.ForgedIdIsOneWord | kernel/process/snapshot.rs:121 | another id in a saved capability is such a change |
| Snapshot.RewrittenMessageIff | kernel/process/snapshot.rs:126 | replacing a pending message is noticed exactly when its length changes |
| Snapshot.RewrittenQueueIff | kernel/process/snapshot.rs:127 | replacing a whole message queue is noticed exactly when its count changes |
| Snapshot.SwappedResourceIff | kernel/process/snapshot.rs:65-89 | naming another resource in a saved capability is noticed exactly when the resource codes differ |
| Snapshot.RetargetRefused | kernel/process/snapshot.rs:65-69 | a saved channel re-targeted at another task is refused |
| Snapshot.SwappedStateIff | kernel/process/snapshot.rs:134-142 | changing a saved state is noticed exactly when the state code changes |
| Snapshot.ChangedStateRefused | kernel/process/snapshot.rs:134-142 | ready, running, blocked on receive and terminated changed into one another are refused |
| Snapshot.SwappedCurrentIff | kernel/process/snapshot.rs:100 | changing the saved current task is noticed exactly when its word changes |
| Snapshot.Alias | kernel/process/snapshot.rs:65-89 | every resource shares its code with a different resource |
| Snapshot.AliasInstalled | kernel/process/snapshot.rs:173-197 | so for every capability of every captured table some altered snapshot is accepted, and the live task ends with the other resource |
| Checkpointer.ComputeChecksum | kernel/process/snapshot.rs:93-132 | the loops compute the fold over the covered words |
| Checkpointer.Persistence.Capture | kernel/process/snapshot.rs:146-165 | the slot holds the snapshot CaptureExact describes |
| Checkpointer.Persistence.Restore | kernel/process/snapshot.rs:173-197 | nothing is touched unless valid and matching; otherwise each saved task that still exists is rolled back |
| Slots.SetFinds | kernel/process/dist.rs:78-93 | after `set` a service resolves to the new location exactly if it was registered or a slot was free; others are as before and none is entered twice |
| Slots.FillFinds | kernel/process/dist.rs:116-123 | hosting keeps an earlier checkpoint of the service winning |
| DistRuns.StateAt | kernel/process/dist.rs:61-94 | in every run the registry has at most one entry per service |
| DistRuns.RunKeeps | kernel/process/dist.rs:159-297 | a registered service keeps resolving, and a hosted checkpoint is never replaced |
| DistRuns.CountCapsExact | kernel/process/dist.rs:134-136 | the count carried across a move is the number of occupied slots |
| DistRuns.WrapExact | kernel/process/dist.rs:170-179 | a routed message names the running task as sender and carries the payload's first 128 bytes |
| DistRuns.SendExact | kernel/process/dist.rs:159-205 | a routed send appends to the one queue its location names if there is room, reports that location, and changes no other field of any task, the registry, the current task or the remote node |
| DistRuns.MigrateExact | kernel/process/dist.rs:216-249 | migration succeeds exactly for a live local service, reports its number of capabilities, re-points its route, removes its task, hosts its checkpoint only if none was hosted and a slot was free, and changes nothing else |
| DistRuns.HostedIff | kernel/process/dist.rs:116-123 | the checkpoint found after a migration is the one just taken exactly if none was hosted and a slot was free, or an equal one was hosted |
| DistRuns.FailoverExact | kernel/process/dist.rs:270-297 | failover needs a hosted checkpoint and a live replica, reports the checkpoint's number of capabilities, and puts exactly its state on the replica |
| DistRuns.PumpExact | kernel/process/dist.rs:254-264 | a pump delivers every waiting message, counts each once and touches nothing else |
| DistRuns.MigrationSurvives | kernel/process/dist.rs:216-297 | whatever happens between, failover after a first migration gives the replica the capabilities, buffer and queue contents the service had when it moved |
| DistRuns.FailoverReplaysIff | kernel/process/dist.rs:216-297 | over any run, failover gives the replica the state of the last migration if and only if, at that migration, none was hosted and a slot was free or an equal state was hosted |
| DistRuns.StaleFailover | kernel/process/dist.rs:116-123 | a run of two migrations and two failovers, all successful, whose second failover restores the state of the first migration |
| DistRuns.FullHostLosesState | kernel/process/dist.rs:116-123 | with no host slot free, migration reports success and failover finds nothing |
| Distribution.SetSlots | kernel/process/dist.rs:78-93 | the two loops make the update SetFinds is about |
| Distribution.FillSlots | kernel/process/dist.rs:116-123 | the loop takes the first free slot or drops the value |
| Distribution.Router.RouteSend | kernel/process/dist.rs:159-205 | ends where SendExact says and keeps every queue and table valid |
| Distribution.Router.Migrate | kernel/process/dist.rs:216-249 | ends where MigrateExact and HostedIff say |
| Distribution.Router.PumpRemote | kernel/process/dist.rs:254-264 | the loop empties the inbox and counts every message |
| Distribution.Router.Failover | kernel/process/dist.rs:270-297 | ends where FailoverExact says |
| LogRuns.ReadExact | kernel/shell/mod.rs:3601-3643 | a read answers with the first entry of its kind at or past the cursor and among the last 128 and leaves the cursor just past it, or at the end if there is none |
| LogRuns.NeverOverwritten | kernel/shell/mod.rs:3601-3643 | a returned position names an entry the ring still holds, of the kind asked for |
| LogRuns.PositionsIncrease | kernel/shell/mod.rs:3601-3643 | positions returned to one reader strictly increase |
| LogRuns.DeliveredIff | kernel/shell/mod.rs:3601-3643 | each entry behind a cursor was passed by exactly one read, and was delivered if and only if that read asked for its kind while it was among the last 128 |
| LogRuns.OneKindReader | kernel/shell/mod.rs:3601-3643 | a reader of one kind is given an entry of it if and only if, at the one read that passed it, it was among the last 128 |
| LogRuns.MixedReaderLoses | kernel/shell/mod.rs:3614-3643 | a reader of two kinds loses an entry the ring still holds |
| LogService.CheckSender | kernel/shell/mod.rs:3518-3541 | true exactly if some capability of the sender gives the access |
| LogService.RequestExact | kernel/shell/mod.rs:3560-3600 | a publish or read goes through exactly for a kind below sixteen with a capability that allows it both by resource and by right; the entry has the tick, the true sender, the kind and the text |
| LogService.Text | kernel/shell/mod.rs:3582-3584 | the text is, byte for byte, the payload after the kind, cut at 64 |
| LogService.Log.Push | kernel/shell/mod.rs:3507-3511 | the ring stays equal to the publish history on its last 128 entries |
| LogService.Log.ReadNext | kernel/shell/mod.rs:3601-3643 | returns the first entry of the kind from the cursor or the oldest held entry on, and moves the cursor just past it or to the end |
| LogService.Log.Handle | kernel/shell/mod.rs:3560-3646 | a message is acted on exactly if well-formed and permitted, and the reply code says which |
| SyncRuns.PermitsConserved | kernel/shell/mod.rs:4204-4264 | for a semaphore free permits plus grants equal initial permits plus releases in every run |
| SyncRuns.CountFits | kernel/shell/mod.rs:4254-4259 | the count fits its 32-bit field in every run, and a release overflows it exactly if nobody waits and initial permits plus releases exceed grants by 2^31 - 1 |
| SyncRuns.WaitersInOrder | kernel/shell/mod.rs:4118-4133 | tasks wait only while no permit is free, and are handed permits in arrival order |
| SyncRuns.MutualExclusionIff | kernel/shell/mod.rs:4204-4264 | a mutex created with one permit keeps exactly one, free or held, throughout a run if and only if nobody releases it while another holds it |
| SyncRuns.AtMostOneHolder | kernel/shell/mod.rs:4204-4264 | clients that release only what they hold never share the mutex |
| SyncRuns.StrayLetsTwoIn | kernel/shell/mod.rs:4254-4260 | one stray release is enough for two holders |
| SyncService.SyncObject.Enqueue | kernel/shell/mod.rs:4118-4125 | the waiter ring appends, and refuses exactly when sixteen wait |
| SyncService.SyncObject.Dequeue | kernel/shell/mod.rs:4126-4133 | the waiter ring removes the longest waiter |
| SyncService.SyncObject.Acquire | kernel/shell/mod.rs:4213-4223 | takes a free permit, else queues, else reports a full queue: the step of the permit results |
| SyncService.SyncObject.Release | kernel/shell/mod.rs:4236-4261 | hands the permit to the longest waiter, else frees it, at most one for a mutex, else stops at the 32-bit limit: the step of the permit results |
| SyncService.CheckCap | kernel/shell/mod.rs:4141-4151 | true exactly if the sender holds a capability to the object |
| SyncService.AnswerExact | kernel/shell/mod.rs:4213-4261 | an acquirer is told 0 exactly if a permit was free and is now taken, 4 exactly if none was and sixteen wait, and nothing while it waits; a release wakes the longest waiter |
| SyncService.Handle | kernel/shell/mod.rs:4166-4268 | an object is created once and then changed only by permitted acquires and releases; every refusal leaves it alone with the right code |
| SyncService.HandleMessage | kernel/shell/mod.rs:4166-4268 | on the store of eight objects, only the object a well-formed message names takes its turn; the others and their waiters are untouched |
| Lru.Shape | kernel/arch_sim/mod.rs:30-35 | as many whole sets of `assoc` lines as fit, in an array cut off at 1024 |
| Lru.HitOnConfig | kernel/arch_sim/mod.rs:24-59 | up to 1024 lines an access hits if and only if its line was used before and fewer than `assoc` other lines congruent to it modulo `numLines / assoc` were used since |
| Lru.CountTimes | kernel/arch_sim/mod.rs:41-89 | the counters are the numbers of accesses that should hit and that should evict, read off the configuration for any size |
| Lru.HitExact | kernel/arch_sim/mod.rs:44-59 | an access hits exactly if its line was used before and fewer than the set's ways of other lines of that set have been used since |
| Lru.StackIs | kernel/arch_sim/mod.rs:53-89 | the recency stack of a set holds its used lines once each in falling order of last use |
| Lru.MissesBalance | kernel/arch_sim/mod.rs:62-89 | misses equal evictions plus resident lines plus accesses to sets the array has no line for |
| Lru.MissesAreEvictionsAndResidents | kernel/arch_sim/mod.rs:62-89 | up to 1024 lines misses equal evictions plus resident lines |
| Lru.Inclusion | kernel/arch_sim/mod.rs:24-93 | up to 1024 lines, for a fixed number of sets, raising associativity never lowers hits on any trace |
| Lru.InclusionIff | kernel/arch_sim/mod.rs:35-36 | in general that holds if and only if every set has at least as many lines in the cut-off array |
| Lru.TruncationLosesHits | kernel/arch_sim/mod.rs:35-36 | two configurations where more associativity loses a hit |
| CacheSim.Probe | kernel/arch_sim/mod.rs:52-59 | the search finds a valid entry with the tag exactly if there is one |
| CacheSim.Victim | kernel/arch_sim/mod.rs:63-77 | the first empty entry, else the entry with the least counter |
| CacheSim.Replace | kernel/arch_sim/mod.rs:61-90 | a miss keeps the array equal to the most recently used lines and evicts exactly when the set is full |
| CacheSim.SimulateCache | kernel/arch_sim/mod.rs:24-93 | the array simulation counts exactly the accesses that should hit and evict by the configuration alone, and nothing for a configuration it refuses |
| Pipeline.SimulatePipeline | kernel/arch_sim/mod.rs:113-172 | terminates; every instruction retires, stalls are the instructions that read a non-zero register the one before them writes, and cycles are instructions plus stalls plus four |

## Left out

- Assembly stubs, register save and restore, descriptor tables, interrupt controllers: a context switch is a change of the current task.
- Serial and keyboard input and output, printing, line editing, shell command dispatch.
- Shell commands and in-kernel services that build or move capabilities by hand and bypass the system calls (`remove` without propagation, the reply slots of the services): the lineage results and the runs of `IpcAuthority` are about the system calls.
- `restore` and `failover` as steps inside the IPC, scheduler and capability runs: they overwrite task state wholesale and are proved as separate round trips.
- `map_page` for kernel mappings, large pages in the lower half, TLB flushes and CR3 loads.
- KV store, filesystem, device service, command history, trace ring, keyboard ring, tokenizer, number parsing: not modelled.
- Application processors, real time, benchmarks and demonstration tasks.
- AddressMaps.MapExact: is about lower-half addresses, the user half the routine is documented for; an upper-half address would edit the shared kernel tables.
- PageTables.AccessIsWalk: is about tables without large pages, which the user half never has; the check would read a large page's entry as a table.
- UserIsolation.TasksIsolated: for upper-half addresses asks that the user pages the boot loader mapped there lie outside the allocator's region; a frame shared on purpose would be seen by both.
- IpcRuns.ReceiptAuthorised: is stated for runs without bad steps, because the copy a retried delivery leaves behind can be received by its own sender; IpcRuns.ReceiptTraced is about every run.
- Snapshot.RoundTrip: takes a task table whose slots hold the tasks of the same ids, which is how the kernel fills it.
- SyncService.SyncObject.Release: stops at the 32-bit limit as the repository's build, which has overflow checks, does; a build without them would wrap.
- SyncService.Handle: the reply to a woken waiter may fail, which the service only prints; the object is the same either way.
- LogService.Log.Handle: gives the reply's code and entry, not its byte layout.
- CacheSim.SimulateCache: takes fewer than 2^64 - 2 addresses, as every slice has; a zero line size divides by zero in the source and is excluded when an address would be looked up.
- Pipeline.SimulatePipeline: leaves out the hazard check against the execute register, which the source has always just emptied.
- Distribution.Router.PumpRemote: does not print the messages it takes.
