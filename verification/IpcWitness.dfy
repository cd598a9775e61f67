/** Two concrete runs in which delivery is not exactly-once. Both are lawful: every
    capability in them is minted, granted or revoked by the capability calls. */
module IpcWitness {
  import opened Core
  import opened Derivation
  import opened CapSyscalls
  import opened Sched
  import opened Ipc
  import opened IpcMachine
  import opened IpcLedger
  import opened IpcOnce
  import opened IpcSync
  import opened IpcAuthority
  import Caps = CapRuns

  ghost predicate EndsIn(states: seq<Sys>, events: seq<Event>, ws: seq<Caps.World>, cs: seq<seq<Caps.Call>>,
                         s: Sys, id: nat) {
    Lawful(states, events, ws, cs) && states[|events|] == s && ws[|events|].k.nextId == id
  }

  /** Some lawful run ends in `s` with `id` the next capability id; with `sync`, one without asynchronous sends. */
  ghost predicate Reachable(s: Sys, id: nat, sync: bool) {
    exists states, events, ws, cs ::
      EndsIn(states, events, ws, cs, s, id) && (sync ==> AllSync(events))
  }

  ghost predicate StepTo(s: Sys, e: Event, s': Sys) {
    Enabled(s, e) && Next(s, e) == s'
  }

  ghost function ExecAll(k: KState, calls: seq<Caps.Call>): KState
    requires Caps.AllCallable(calls)
  {
    if |calls| == 0 then k else Caps.Exec(ExecAll(k, calls[..|calls| - 1]), calls[|calls| - 1])
  }

  lemma {:induction false} StepAllExec(w: Caps.World, calls: seq<Caps.Call>)
    requires Caps.AllCallable(calls)
    ensures StepAll(w, calls).k == ExecAll(w.k, calls)
  {
    if |calls| > 0 {
      StepAllExec(w, calls[..|calls| - 1]);
    }
  }

  /** From any kernel state with `s`'s tables, the calls produce the tables of `s'`. */
  ghost predicate Effect(s: Sys, id: nat, calls: seq<Caps.Call>, s': Sys, id': nat) {
    && Caps.AllCallable(calls)
    && forall k :: SameCaps(s, k) && k.nextId == id ==> SameCaps(s', ExecAll(k, calls)) && ExecAll(k, calls).nextId == id'
  }

  lemma ReachInitial(n: nat, sync: bool)
    ensures Reachable(Initial(n), 1, sync)
  {
    assert EndsIn([Initial(n)], [], [Caps.Boot(n)], [], Initial(n), 1);
  }

  lemma ReachStep(s: Sys, id: nat, e: Event, s': Sys, id': nat, calls: seq<Caps.Call>, sync: bool)
    requires Reachable(s, id, sync) && StepTo(s, e, s') && (sync ==> !e.AsyncSend?)
    requires Serves(s, e, s', calls) && Effect(s, id, calls, s', id')
    ensures Reachable(s', id', sync)
  {
    var states, events, ws, cs :|
      EndsIn(states, events, ws, cs, s, id) && (sync ==> AllSync(events));
    var w := ws[|events|];
    TablesAgree(states, events, ws, cs, |events|);
    StepAllExec(w, calls);
    ExtendLawful(states, events, ws, cs, e, s', calls);
    assert EndsIn(states + [s'], events + [e], ws + [StepAll(w, calls)], cs + [calls], s', id');
  }

  lemma ExtendRun(states: seq<Sys>, events: seq<Event>, e: Event, s': Sys)
    requires IsRun(states, events) && StepTo(states[|events|], e, s')
    ensures IsRun(states + [s'], events + [e])
  {
    var states', events' := states + [s'], events + [e];
    forall j | 0 <= j < |events'| ensures Enabled(states'[j], events'[j]) && states'[j + 1] == Next(states'[j], events'[j]) {
      if j < |events| {
        assert states'[j] == states[j] && states'[j + 1] == states[j + 1];
      }
    }
    assert states'[0] == states[0];
  }

  lemma ExtendLawful(states: seq<Sys>, events: seq<Event>, ws: seq<Caps.World>, cs: seq<seq<Caps.Call>>,
                     e: Event, s': Sys, calls: seq<Caps.Call>)
    requires Lawful(states, events, ws, cs) && StepTo(states[|events|], e, s')
    requires Caps.AllCallable(calls) && Serves(states[|events|], e, s', calls)
    requires SameCaps(s', StepAll(ws[|events|], calls).k)
    ensures Lawful(states + [s'], events + [e], ws + [StepAll(ws[|events|], calls)], cs + [calls])
  {
    var states', events' := states + [s'], events + [e];
    var ws', cs' := ws + [StepAll(ws[|events|], calls)], cs + [calls];
    ExtendRun(states, events, e, s');
    forall j | 0 <= j < |events'| ensures LawfulStep(states', events', ws', cs', j) {
      if j < |events| {
        assert LawfulStep(states, events, ws, cs, j);
        assert states'[j] == states[j] && states'[j + 1] == states[j + 1];
        assert ws'[j] == ws[j] && ws'[j + 1] == ws[j + 1];
      }
    }
    assert states'[0] == states[0];
  }

  /** A step that is not a capability call. */
  lemma QuietStep(s: Sys, id: nat, e: Event, s': Sys, sync: bool)
    requires Reachable(s, id, sync) && StepTo(s, e, s') && (sync ==> !e.AsyncSend?) && !e.SetCaps? && !e.Load?
    ensures Reachable(s', id, sync)
  {
    var calls := [Caps.DoSwitch(s'.current)];
    QuietTables(s, e);
    forall k | SameCaps(s, k) && k.nextId == id
      ensures SameCaps(s', ExecAll(k, calls)) && ExecAll(k, calls).nextId == id
    {
      ExecOne(k, calls[0]);
    }
    ReachStep(s, id, e, s', id, calls, sync);
  }

  lemma ExecOne(k: KState, call: Caps.Call)
    requires Caps.Callable(call)
    ensures Caps.AllCallable([call]) && ExecAll(k, [call]) == Caps.Exec(k, call)
  {
    assert [call][..0] == [];
  }

  lemma ExecMore(k: KState, calls: seq<Caps.Call>, call: Caps.Call)
    requires Caps.AllCallable(calls) && Caps.Callable(call)
    ensures Caps.AllCallable(calls + [call]) && ExecAll(k, calls + [call]) == Caps.Exec(ExecAll(k, calls), call)
  {
    assert (calls + [call])[..|calls|] == calls;
  }

  // ---- Loading tasks with minted channels ----

  /** A task with a one-message ring. */
  function MkTask(id: nat, st: TaskState, table: CapTable, buf: Option<Message>): Task {
    Task(id, st, 0, 0, 0, table, buf, EmptyQueue(1))
  }

  /** A kernel-minted channel to `t`. */
  function Root(t: nat, grant: bool, id: nat): Capability {
    Capability(IpcChannel(t), true, true, grant, false, id, None)
  }

  function LoadCall(t: nat, caps: nat): Caps.Call {
    Caps.DoLoad(t, Image(0, 0, 0, caps, 1))
  }

  function MintCall(t: nat, target: nat, grant: bool): Caps.Call {
    Caps.DoMint(t, IpcChannel(target), RightsMask(true, true, grant), false)
  }

  /** The system after task `t` is loaded with the given table. */
  function WithTask(s: Sys, t: nat, table: CapTable): Sys
    requires t < |s.tasks|
  {
    s.(tasks := s.tasks[t := Some(MkTask(t, Ready, table, None))])
  }

  /** The calls load task `t` and mint the roots in `table`, ids counting from `id`. */
  ghost predicate Loads(s: Sys, id: nat, t: nat, table: CapTable, calls: seq<Caps.Call>, id': nat)
    requires t < |s.tasks|
  {
    && |calls| > 0 && calls[0].DoLoad? && calls[0].t == t && (forall i :: 1 <= i < |calls| ==> MintFor(calls[i], t))
    && Effect(s, id, calls, WithTask(s, t, table), id')
  }

  lemma LoadEmpty(s: Sys, id: nat, t: nat, n: nat)
    requires t < |s.tasks| && s.tasks[t].None?
    ensures Loads(s, id, t, seq(n, _ => None), [LoadCall(t, n)], id)
  {
    forall k | SameCaps(s, k) && k.nextId == id
      ensures SameCaps(WithTask(s, t, seq(n, _ => None)), ExecAll(k, [LoadCall(t, n)])) && ExecAll(k, [LoadCall(t, n)]).nextId == id
    {
      ExecOne(k, LoadCall(t, n));
    }
  }

  /** One more root goes to the first empty slot. */
  lemma MintNext(s: Sys, id: nat, t: nat, table: CapTable, calls: seq<Caps.Call>, id': nat, target: nat, grant: bool)
    requires t < |s.tasks| && Loads(s, id, t, table, calls, id') && FirstFree(table).Some?
    ensures Loads(s, id, t, table[FirstFree(table).value := Some(Root(target, grant, id'))], calls + [MintCall(t, target, grant)], id' + 1)
  {
    var after := table[FirstFree(table).value := Some(Root(target, grant, id'))];
    var call := MintCall(t, target, grant);
    forall k | SameCaps(s, k) && k.nextId == id
      ensures SameCaps(WithTask(s, t, after), ExecAll(k, calls + [call])) && ExecAll(k, calls + [call]).nextId == id' + 1
    {
      ExecMore(k, calls, call);
      MintTables(WithTask(s, t, table), t, ExecAll(k, calls), target, grant);
      assert WithTask(s, t, table).tasks[t := Some(MkTask(t, Ready, after, None))] == WithTask(s, t, after).tasks;
    }
  }

  lemma MintTables(s: Sys, t: nat, k: KState, target: nat, grant: bool)
    requires SameCaps(s, k) && HasTask(s.tasks, t) && FirstFree(s.tasks[t].value.capTable).Some?
    ensures var table := s.tasks[t].value.capTable;
            var task := s.tasks[t].value.(capTable := table[FirstFree(table).value := Some(Root(target, grant, k.nextId))]);
            var k' := Caps.Exec(k, MintCall(t, target, grant));
            SameCaps(s.(tasks := s.tasks[t := Some(task)]), k') && k'.nextId == k.nextId + 1
  {
  }

  lemma LoadStep(s: Sys, id: nat, t: nat, table: CapTable, calls: seq<Caps.Call>, id': nat, sync: bool)
    requires WellFormed(s) && QueuesValid(s.tasks) && s.current.None? && t < |s.tasks| && s.tasks[t].None? && s.pcs[t].User?
    requires Reachable(s, id, sync) && Loads(s, id, t, table, calls, id')
    ensures Reachable(WithTask(s, t, table), id', sync)
  {
    var e := Load(t, MkTask(t, Ready, table, None));
    assert StepTo(s, e, WithTask(s, t, table));
    ReachStep(s, id, e, WithTask(s, t, table), id', calls, sync);
  }

  function Three(a: Task, b: Task, c: Task, pcs: seq<Pc>, cur: Option<nat>, sends: seq<SendRec>, receipts: seq<Receipt>): Sys {
    Sys([Some(a), Some(b), Some(c)], pcs, cur, sends, receipts)
  }

  const AllUser: seq<Pc> := [User, User, User]

  const S0: Sys := Sys([None, None, None], AllUser, None, [], [])

  function S1(t0: CapTable): Sys { S0.(tasks := [Some(MkTask(0, Ready, t0, None)), None, None]) }

  function S2(t0: CapTable, t1: CapTable): Sys {
    S0.(tasks := [Some(MkTask(0, Ready, t0, None)), Some(MkTask(1, Ready, t1, None)), None])
  }

  /** Three loaded tasks, none on the processor. */
  function S3(t0: CapTable, t1: CapTable, t2: CapTable): Sys {
    Three(MkTask(0, Ready, t0, None), MkTask(1, Ready, t1, None), MkTask(2, Ready, t2, None), AllUser, None, [], [])
  }

  lemma Loaded(t0: CapTable, c0: seq<Caps.Call>, id1: nat, t1: CapTable, c1: seq<Caps.Call>, id2: nat,
               t2: CapTable, c2: seq<Caps.Call>, id3: nat, sync: bool)
    requires Loads(S0, 1, 0, t0, c0, id1) && Loads(S1(t0), id1, 1, t1, c1, id2) && Loads(S2(t0, t1), id2, 2, t2, c2, id3)
    ensures Reachable(S3(t0, t1, t2), id3, sync)
  {
    LoadFirst(t0, c0, id1, sync);
    LoadSecond(t0, id1, t1, c1, id2, sync);
    LoadThird(t0, t1, id2, t2, c2, id3, sync);
  }

  lemma LoadFirst(t0: CapTable, c0: seq<Caps.Call>, id1: nat, sync: bool)
    requires Loads(S0, 1, 0, t0, c0, id1)
    ensures Reachable(S1(t0), id1, sync)
  {
    ReachInitial(3, sync);
    assert Initial(3) == S0;
    LoadStep(S0, 1, 0, t0, c0, id1, sync);
    assert WithTask(S0, 0, t0) == S1(t0);
  }

  lemma LoadSecond(t0: CapTable, id1: nat, t1: CapTable, c1: seq<Caps.Call>, id2: nat, sync: bool)
    requires Reachable(S1(t0), id1, sync) && Loads(S1(t0), id1, 1, t1, c1, id2)
    ensures Reachable(S2(t0, t1), id2, sync)
  {
    LoadStep(S1(t0), id1, 1, t1, c1, id2, sync);
    assert WithTask(S1(t0), 1, t1) == S2(t0, t1);
  }

  lemma LoadThird(t0: CapTable, t1: CapTable, id2: nat, t2: CapTable, c2: seq<Caps.Call>, id3: nat, sync: bool)
    requires Reachable(S2(t0, t1), id2, sync) && Loads(S2(t0, t1), id2, 2, t2, c2, id3)
    ensures Reachable(S3(t0, t1, t2), id3, sync)
  {
    LoadStep(S2(t0, t1), id2, 2, t2, c2, id3, sync);
    assert WithTask(S2(t0, t1), 2, t2) == S3(t0, t1, t2);
  }

  /** The first task starts, sleeps in receive, and the second takes over. */
  lemma FirstSleeps(t0: CapTable, t1: CapTable, t2: CapTable, id: nat, sync: bool)
    requires Reachable(S3(t0, t1, t2), id, sync)
    ensures Reachable(Three(MkTask(0, BlockedOnReceive, t0, None), MkTask(1, Running, t1, None), MkTask(2, Ready, t2, None),
                            [RecvTry, User, User], Some(1), [], []), id, sync)
  {
    var a, b, c := MkTask(0, Ready, t0, None), MkTask(1, Ready, t1, None), MkTask(2, Ready, t2, None);
    var s3 := Three(a, b, c, AllUser, None, [], []);
    var s4 := Three(a.(state := Running), b, c, AllUser, Some(0), [], []);
    var s5 := Three(a.(state := Running), b, c, [RecvTry, User, User], Some(0), [], []);
    var s6 := Three(a.(state := BlockedOnReceive), b, c, [RecvYield, User, User], Some(0), [], []);
    var s7 := Three(a.(state := BlockedOnReceive), b.(state := Running), c, [RecvTry, User, User], Some(1), [], []);
    StartFirst(a, b, c);
    QuietStep(s3, id, Start, s4, sync);
    ReceiveSleeps(a, b, c);
    QuietStep(s4, id, StartReceive, s5, sync);
    QuietStep(s5, id, TryReceive, s6, sync);
    SleeperYields(a, b, c);
    QuietStep(s6, id, Yield, s7, sync);
  }

  lemma StartFirst(a: Task, b: Task, c: Task)
    requires FreshTask(0, a) && FreshTask(1, b) && FreshTask(2, c)
    ensures StepTo(Three(a, b, c, AllUser, None, [], []), Start, Three(a.(state := Running), b, c, AllUser, Some(0), [], []))
  {
  }

  lemma ReceiveSleeps(a: Task, b: Task, c: Task)
    requires FreshTask(0, a) && FreshTask(1, b) && FreshTask(2, c)
    ensures StepTo(Three(a.(state := Running), b, c, AllUser, Some(0), [], []), StartReceive,
                   Three(a.(state := Running), b, c, [RecvTry, User, User], Some(0), [], []))
    ensures StepTo(Three(a.(state := Running), b, c, [RecvTry, User, User], Some(0), [], []), TryReceive,
                   Three(a.(state := BlockedOnReceive), b, c, [RecvYield, User, User], Some(0), [], []))
  {
  }

  lemma SleeperYields(a: Task, b: Task, c: Task)
    requires FreshTask(0, a) && FreshTask(1, b) && FreshTask(2, c)
    ensures StepTo(Three(a.(state := BlockedOnReceive), b, c, [RecvYield, User, User], Some(0), [], []), Yield,
                   Three(a.(state := BlockedOnReceive), b.(state := Running), c, [RecvTry, User, User], Some(1), [], []))
  {
  }

  // ---- A duplicated message ----

  const M1: Message := Message(0, 1, Raw, 0, [])
  const R1: Req := Req(0, M1)

  const NoCaps: CapTable := [None]
  const ToTwo: CapTable := [Some(Root(2, false, 1))]
  /** Task 2 may delegate channels to tasks 1 and 0. */
  const Manager: CapTable := [Some(Root(1, true, 2)), Some(Root(0, true, 3))]
  /** What task 2 grants from its second slot. */
  const Repointed: CapTable := [Some(Capability(IpcChannel(0), true, true, false, false, 4, Some(3)))]

  function Sleeper(): Task { MkTask(0, BlockedOnReceive, NoCaps, None) }

  /** Task 1 parks a message for task 2 and yields to it. */
  lemma ParkSteps()
    ensures var u := Sleeper();
            var x := MkTask(2, Ready, Manager, None);
            var s7 := Three(u, MkTask(1, Running, ToTwo, None), x, [RecvTry, User, User], Some(1), [], []);
            var s8 := Three(u, MkTask(1, Running, ToTwo, None), x, [RecvTry, SendTry(R1), User], Some(1),
                            [SendRec(1, 0, None, Pending)], []);
            var s9 := Three(u, MkTask(1, BlockedOnSend(2), ToTwo, Some(M1)), x, [RecvTry, SendYield(R1), User], Some(1),
                            [SendRec(1, 0, Some(2), Pending)], []);
            StepTo(s7, StartSend(0, 0, 0, []), s8) && StepTo(s8, TrySend, s9)
  {
  }

  lemma ParkedYields()
    ensures var u := Sleeper();
            var a := MkTask(1, BlockedOnSend(2), ToTwo, Some(M1));
            var sends := [SendRec(1, 0, Some(2), Pending)];
            StepTo(Three(u, a, MkTask(2, Ready, Manager, None), [RecvTry, SendYield(R1), User], Some(1), sends, []), Yield,
                   Three(u, a, MkTask(2, Running, Manager, None), [RecvTry, SendCheck(R1), User], Some(2), sends, []))
  {
  }

  /** The parked message, with `table` in task 1's slots. */
  function Parked(table: CapTable): Sys {
    Three(Sleeper(), MkTask(1, BlockedOnSend(2), table, Some(M1)), MkTask(2, Running, Manager, None),
          [RecvTry, SendCheck(R1), User], Some(2), [SendRec(1, 0, Some(2), Pending)], [])
  }

  lemma {:induction false} ChainHead(tasks: TaskTable, root: nat, path: seq<SlotRef>)
    requires |path| > 0 && Chain(tasks, root, path)
    ensures LiveAt(tasks, path[0]) && CapAt(tasks, path[0]).origin == Some(root)
  {
    if |path| > 1 {
      ChainHead(tasks, root, path[..|path| - 1]);
    }
  }

  /** With nothing derived from it, revoking an id clears no further slot. */
  lemma CascadeNone(tasks: TaskTable, root: nat)
    requires forall p :: LiveAt(tasks, p) ==> CapAt(tasks, p).origin != Some(root)
    ensures Cascade(tasks, root) == tasks
  {
    forall p ensures !Derived(tasks, root, p) {
      if Derived(tasks, root, p) {
        var path :| ChainTo(tasks, root, p, path);
        ChainHead(tasks, root, path);
        assert false;
      }
    }
    forall t | 0 <= t < |tasks| ensures Cascade(tasks, root)[t] == tasks[t] {
      if tasks[t].Some? {
        assert CascadeTable(tasks, root, t) == tasks[t].value.capTable;
      }
    }
  }

  /** Task 2 holds a delegable channel to task 1 and so may revoke its only slot. */
  lemma RevokeEffect()
    ensures Effect(Parked(ToTwo), 4, [Caps.DoRevoke(1, 0)], Parked(NoCaps), 4)
  {
    forall k | SameCaps(Parked(ToTwo), k) && k.nextId == 4
      ensures SameCaps(Parked(NoCaps), ExecAll(k, [Caps.DoRevoke(1, 0)])) && ExecAll(k, [Caps.DoRevoke(1, 0)]).nextId == 4
    {
      ExecOne(k, Caps.DoRevoke(1, 0));
      assert k.tasks[2].value.capTable == Manager && GrantsChannelTo(Manager[0], 1);
      assert RevokeVictim(k, 1, 0) == ToTwo[0];
      var mid := ClearSlot(k.tasks, (1, 0));
      assert mid[1].value.capTable == NoCaps;
      CascadeNone(mid, 1);
    }
  }

  /** It then grants its own channel to task 0, which lands in the slot just emptied. */
  lemma GrantEffect()
    ensures var call := Caps.DoGrant(1, 1, RightsMask(true, true, false));
            Effect(Parked(NoCaps), 4, [call], Parked(Repointed), 5)
  {
    var call := Caps.DoGrant(1, 1, RightsMask(true, true, false));
    forall k | SameCaps(Parked(NoCaps), k) && k.nextId == 4
      ensures SameCaps(Parked(Repointed), ExecAll(k, [call])) && ExecAll(k, [call]).nextId == 5
    {
      ExecOne(k, call);
      assert k.tasks[2].value.capTable == Manager && k.tasks[1].value.capTable == NoCaps;
      assert FirstFree(NoCaps) == Some(0);
      assert NoCaps[0 := Repointed[0]] == Repointed;
    }
  }

  lemma SetSteps(t: CapTable, u: CapTable)
    ensures StepTo(Parked(t), SetCaps([NoCaps, u, Manager]), Parked(u))
  {
  }

  /** Task 2 re-points task 1's slot at the sleeping task 0: a revocation, then a grant. */
  lemma Repoints()
    requires Reachable(Parked(ToTwo), 4, true)
    ensures Reachable(Parked(Repointed), 5, true)
  {
    SetSteps(ToTwo, NoCaps);
    RevokeEffect();
    ReachStep(Parked(ToTwo), 4, SetCaps([NoCaps, NoCaps, Manager]), Parked(NoCaps), 4, [Caps.DoRevoke(1, 0)], true);
    SetSteps(NoCaps, Repointed);
    GrantEffect();
    ReachStep(Parked(NoCaps), 4, SetCaps([NoCaps, Repointed, Manager]), Parked(Repointed), 5,
              [Caps.DoGrant(1, 1, RightsMask(true, true, false))], true);
  }

  /** Task 2 dies; its parked sender is woken and runs. */
  lemma Dies()
    ensures var u := Sleeper();
            var sends := [SendRec(1, 0, Some(2), Pending)];
            var pcs := [RecvTry, SendCheck(R1), User];
            StepTo(Three(u, MkTask(1, BlockedOnSend(2), Repointed, Some(M1)), MkTask(2, Running, Manager, None), pcs, Some(2), sends, []),
                   Exit,
                   Three(u, MkTask(1, Running, Repointed, Some(M1)), MkTask(2, Terminated, Manager, None), pcs, Some(1), sends, []))
  {
    var u := Sleeper();
    var a := MkTask(1, BlockedOnSend(2), Repointed, Some(M1));
    var marked := [Some(u), Some(a), Some(MkTask(2, Terminated, Manager, None))];
    var woken := [Some(u), Some(MkTask(1, Ready, Repointed, Some(M1))), Some(MkTask(2, Terminated, Manager, None))];
    assert SetState([Some(u), Some(a), Some(MkTask(2, Running, Manager, None))], 2, Terminated) == marked;
    assert WakeSenders(marked, 2) == woken;
    assert ScanReady(woken, 0, 1) == Some(1);
    assert ScanReady(woken, 0, 0) == Some(1);
    assert Terminate([Some(u), Some(a), Some(MkTask(2, Running, Manager, None))], Some(2))
           == (SetState(woken, 1, Running), Some(1));
  }

  /** Task 1 wakes, sees its message unconsumed, retries, and delivers to task 0. */
  lemma RetrySteps()
    ensures var u := Sleeper();
            var a := MkTask(1, Running, Repointed, Some(M1));
            var x := MkTask(2, Terminated, Manager, None);
            var sends := [SendRec(1, 0, Some(2), Pending)];
            var s12 := Three(u, a, x, [RecvTry, SendCheck(R1), User], Some(1), sends, []);
            var s13 := Three(u, a, x, [RecvTry, SendTry(R1), User], Some(1), sends, []);
            var s14 := Three(MkTask(0, Ready, NoCaps, Some(M1)), a, x, [RecvTry, User, User], Some(1),
                             [SendRec(1, 0, Some(0), SentOk)], []);
            StepTo(s12, CheckSend, s13) && StepTo(s13, TrySend, s14)
  {
  }

  lemma LoadDuplicate()
    ensures Reachable(S3(NoCaps, ToTwo, Manager), 4, true)
  {
    LoadEmpty(S0, 1, 0, 1);
    assert NoCaps == seq(1, _ => None);
    var c1, c2 := [LoadCall(1, 1)], [LoadCall(2, 2)];
    LoadEmpty(S1(NoCaps), 1, 1, 1);
    MintNext(S1(NoCaps), 1, 1, NoCaps, c1, 1, 2, false);
    assert NoCaps[0 := ToTwo[0]] == ToTwo;
    LoadEmpty(S2(NoCaps, ToTwo), 2, 2, 2);
    var none: CapTable := [None, None];
    assert none == seq(2, _ => None);
    MintNext(S2(NoCaps, ToTwo), 2, 2, none, c2, 2, 1, true);
    var one := [Manager[0], None];
    assert none[0 := Manager[0]] == one;
    MintNext(S2(NoCaps, ToTwo), 2, 2, one, c2 + [MintCall(2, 1, true)], 3, 0, true);
    assert FirstFree(one) == Some(1);
    assert one[1 := Manager[1]] == Manager;
    Loaded(NoCaps, [LoadCall(0, 1)], 1, ToTwo, c1 + [MintCall(1, 2, false)], 2,
           Manager, c2 + [MintCall(2, 1, true)] + [MintCall(2, 0, true)], 4, true);
  }

  lemma ReachParked()
    ensures Reachable(Parked(ToTwo), 4, true)
  {
    var u := Sleeper();
    var x := MkTask(2, Ready, Manager, None);
    var sends := [SendRec(1, 0, Some(2), Pending)];
    LoadDuplicate();
    FirstSleeps(NoCaps, ToTwo, Manager, 4, true);
    var s7 := Three(u, MkTask(1, Running, ToTwo, None), x, [RecvTry, User, User], Some(1), [], []);
    var s8 := Three(u, MkTask(1, Running, ToTwo, None), x, [RecvTry, SendTry(R1), User], Some(1), [SendRec(1, 0, None, Pending)], []);
    var s9 := Three(u, MkTask(1, BlockedOnSend(2), ToTwo, Some(M1)), x, [RecvTry, SendYield(R1), User], Some(1), sends, []);
    ParkSteps();
    QuietStep(s7, 4, StartSend(0, 0, 0, []), s8, true);
    QuietStep(s8, 4, TrySend, s9, true);
    ParkedYields();
    QuietStep(s9, 4, Yield, Parked(ToTwo), true);
  }

  /** One completed send, in its target's buffer and still in its sender's own. */
  function Duplicated(): Sys {
    Three(MkTask(0, Ready, NoCaps, Some(M1)), MkTask(1, Running, Repointed, Some(M1)), MkTask(2, Terminated, Manager, None),
          [RecvTry, User, User], Some(1), [SendRec(1, 0, Some(0), SentOk)], [])
  }

  lemma ReachDuplicated()
    ensures Reachable(Duplicated(), 5, true)
  {
    var u := Sleeper();
    var sends := [SendRec(1, 0, Some(2), Pending)];
    var pcs := [RecvTry, SendCheck(R1), User];
    ReachParked();
    Repoints();
    var a := MkTask(1, Running, Repointed, Some(M1));
    var dead := MkTask(2, Terminated, Manager, None);
    var s12 := Three(u, a, dead, pcs, Some(1), sends, []);
    Dies();
    QuietStep(Parked(Repointed), 5, Exit, s12, true);
    var s13 := Three(u, a, dead, [RecvTry, SendTry(R1), User], Some(1), sends, []);
    RetrySteps();
    QuietStep(s12, 5, CheckSend, s13, true);
    QuietStep(s13, 5, TrySend, Duplicated(), true);
  }

  /** A lawful synchronous run that ends with one completed send in two buffers: its
      target's and its sender's own. Exactly-once delivery is therefore not unconditional. */
  lemma RetryDuplicates() returns (states: seq<Sys>, events: seq<Event>, ws: seq<Caps.World>, cs: seq<seq<Caps.Call>>)
    ensures Lawful(states, events, ws, cs) && AllSync(events)
    ensures var s := states[|events|];
            |s.sends| == 1 && s.sends[0].status == SentOk && Holds(s, Buf(0), 0) && Holds(s, Buf(1), 0) && !ExactlyOnce(s)
  {
    ReachDuplicated();
    var s := Duplicated();
    states, events, ws, cs :| EndsIn(states, events, ws, cs, s, 5) && AllSync(events);
    assert Holds(s, Buf(0), 0) && Holds(s, Buf(1), 0);
    assert !Settled(s, 0);
  }

  // ---- A lost message ----

  const Inbound: Message := Message(0, 1, Raw, 0, [])
  const Async: Message := Message(1, 2, Raw, 0, [])
  const Reply: Message := Message(2, 0, Raw, 0, [])

  const Answer: CapTable := [Some(Root(1, false, 1))]
  const FromOne: CapTable := [Some(Root(0, false, 2))]
  const FromTwo: CapTable := [Some(Root(0, false, 3))]

  function OneQueued(): MessageQueue {
    EmptyQueue(1).Enqueue(Async).value
  }

  function Server(st: TaskState, buf: Option<Message>, q: MessageQueue): Task {
    Task(0, st, 0, 0, 0, Answer, buf, q)
  }

  const SentToServer: SendRec := SendRec(1, 0, Some(0), SentOk)
  const QueuedToServer: SendRec := SendRec(2, 0, Some(0), SentOk)

  /** Task 1's synchronous send lands in the sleeping server's buffer. */
  lemma SyncLands()
    ensures var u := Server(BlockedOnReceive, None, EmptyQueue(1));
            var b := MkTask(1, Running, FromOne, None);
            var c := MkTask(2, Ready, FromTwo, None);
            var s8 := Three(u, b, c, [RecvTry, SendTry(Req(0, Inbound)), User], Some(1), [SendRec(1, 0, None, Pending)], []);
            var s9 := Three(Server(Ready, Some(Inbound), EmptyQueue(1)), b, c, [RecvTry, User, User], Some(1), [SentToServer], []);
            && StepTo(Three(u, b, c, [RecvTry, User, User], Some(1), [], []), StartSend(0, 0, 0, []), s8)
            && StepTo(s8, TrySend, s9)
  {
  }

  /** Task 1 yields; task 2's asynchronous send queues behind it. */
  lemma AsyncQueues()
    ensures var u := Server(Ready, Some(Inbound), EmptyQueue(1));
            var b := MkTask(1, Ready, FromOne, None);
            var c := MkTask(2, Running, FromTwo, None);
            var s9 := Three(u, b.(state := Running), c.(state := Ready), [RecvTry, User, User], Some(1), [SentToServer], []);
            var s10 := Three(u, b, c, [RecvTry, User, User], Some(2), [SentToServer], []);
            var s11 := Three(Server(Ready, Some(Inbound), OneQueued()), b, c, [RecvTry, User, User], Some(2), [SentToServer, QueuedToServer], []);
            && StepTo(s9, Yield, s10) && StepTo(s10, AsyncSend(0, 0, 0, []), s11)
  {
  }

  /** The server wakes and its receive returns the queued message, leaving the buffer full. */
  lemma ServerTakesQueued() returns (q: MessageQueue)
    ensures q.Valid() && q.Contents() == []
    ensures var b := MkTask(1, Ready, FromOne, None);
            var c := MkTask(2, Ready, FromTwo, None);
            var sends := [SentToServer, QueuedToServer];
            var s11 := Three(Server(Ready, Some(Inbound), OneQueued()), b, c.(state := Running), [RecvTry, User, User], Some(2), sends, []);
            var s12 := Three(Server(Running, Some(Inbound), OneQueued()), b, c, [RecvTry, User, User], Some(0), sends, []);
            var s13 := Three(Server(Running, Some(Inbound), q), b, c, AllUser, Some(0), sends, [Receipt(0, Async)]);
            && StepTo(s11, Yield, s12) && StepTo(s12, TryReceive, s13)
  {
    q := OneQueued().Dequeue().value.1;
    assert OneQueued().Contents() == [Async];
    var b := MkTask(1, Ready, FromOne, None);
    var c := MkTask(2, Ready, FromTwo, None);
    assert ScanReady([Some(Server(Ready, Some(Inbound), OneQueued())), Some(b), Some(c.(state := Running))], 0, 0) == Some(0);
  }

  /** The server now sends to task 1, which is not receiving: parking overwrites the buffer. */
  lemma ServerParks(q: MessageQueue)
    requires q.Valid() && q.Contents() == []
    ensures var b := MkTask(1, Ready, FromOne, None);
            var c := MkTask(2, Ready, FromTwo, None);
            var sends := [SentToServer, QueuedToServer];
            var s13 := Three(Server(Running, Some(Inbound), q), b, c, AllUser, Some(0), sends, [Receipt(0, Async)]);
            var s14 := Three(Server(Running, Some(Inbound), q), b, c, [SendTry(Req(0, Reply)), User, User], Some(0),
                             sends + [SendRec(0, 0, None, Pending)], [Receipt(0, Async)]);
            && StepTo(s13, StartSend(0, 0, 0, []), s14) && StepTo(s14, TrySend, Lost(q))
  {
  }

  /** Task 1's completed send has no copy left. */
  function Lost(q: MessageQueue): Sys {
    Three(Server(BlockedOnSend(1), Some(Reply), q), MkTask(1, Ready, FromOne, None), MkTask(2, Ready, FromTwo, None),
          [SendYield(Req(0, Reply)), User, User], Some(0),
          [SentToServer, QueuedToServer, SendRec(0, 0, Some(1), Pending)], [Receipt(0, Async)])
  }

  lemma LoadLoss()
    ensures Reachable(S3(Answer, FromOne, FromTwo), 4, false)
  {
    var none: CapTable := [None];
    assert none == seq(1, _ => None);
    LoadEmpty(S0, 1, 0, 1);
    MintNext(S0, 1, 0, none, [LoadCall(0, 1)], 1, 1, false);
    assert none[0 := Answer[0]] == Answer;
    LoadEmpty(S1(Answer), 2, 1, 1);
    MintNext(S1(Answer), 2, 1, none, [LoadCall(1, 1)], 2, 0, false);
    assert none[0 := FromOne[0]] == FromOne;
    LoadEmpty(S2(Answer, FromOne), 3, 2, 1);
    MintNext(S2(Answer, FromOne), 3, 2, none, [LoadCall(2, 1)], 3, 0, false);
    assert none[0 := FromTwo[0]] == FromTwo;
    Loaded(Answer, [LoadCall(0, 1)] + [MintCall(0, 1, false)], 2, FromOne, [LoadCall(1, 1)] + [MintCall(1, 0, false)], 3,
           FromTwo, [LoadCall(2, 1)] + [MintCall(2, 0, false)], 4, false);
  }

  lemma ReachQueued()
    ensures Reachable(Three(Server(Ready, Some(Inbound), OneQueued()), MkTask(1, Ready, FromOne, None), MkTask(2, Running, FromTwo, None),
                            [RecvTry, User, User], Some(2), [SentToServer, QueuedToServer], []), 4, false)
  {
    var b := MkTask(1, Running, FromOne, None);
    var c := MkTask(2, Ready, FromTwo, None);
    var u := Server(BlockedOnReceive, None, EmptyQueue(1));
    LoadLoss();
    FirstSleeps(Answer, FromOne, FromTwo, 4, false);
    var s7 := Three(u, b, c, [RecvTry, User, User], Some(1), [], []);
    var s8 := Three(u, b, c, [RecvTry, SendTry(Req(0, Inbound)), User], Some(1), [SendRec(1, 0, None, Pending)], []);
    var w := Server(Ready, Some(Inbound), EmptyQueue(1));
    var s9 := Three(w, b, c, [RecvTry, User, User], Some(1), [SentToServer], []);
    SyncLands();
    QuietStep(s7, 4, StartSend(0, 0, 0, []), s8, false);
    QuietStep(s8, 4, TrySend, s9, false);
    var s10 := Three(w, b.(state := Ready), c.(state := Running), [RecvTry, User, User], Some(2), [SentToServer], []);
    AsyncQueues();
    QuietStep(s9, 4, Yield, s10, false);
    QuietStep(s10, 4, AsyncSend(0, 0, 0, []),
              Three(Server(Ready, Some(Inbound), OneQueued()), b.(state := Ready), c.(state := Running),
                    [RecvTry, User, User], Some(2), [SentToServer, QueuedToServer], []), false);
  }

  lemma ReachLost() returns (q: MessageQueue)
    ensures q.Valid() && q.Contents() == [] && Reachable(Lost(q), 4, false)
  {
    ReachQueued();
    var b := MkTask(1, Ready, FromOne, None);
    var c := MkTask(2, Ready, FromTwo, None);
    var sends := [SentToServer, QueuedToServer];
    q := ServerTakesQueued();
    var s11 := Three(Server(Ready, Some(Inbound), OneQueued()), b, c.(state := Running), [RecvTry, User, User], Some(2), sends, []);
    var s12 := Three(Server(Running, Some(Inbound), OneQueued()), b, c, [RecvTry, User, User], Some(0), sends, []);
    var s13 := Three(Server(Running, Some(Inbound), q), b, c, AllUser, Some(0), sends, [Receipt(0, Async)]);
    QuietStep(s11, 4, Yield, s12, false);
    QuietStep(s12, 4, TryReceive, s13, false);
    ServerParks(q);
    var s14 := Three(Server(Running, Some(Inbound), q), b, c, [SendTry(Req(0, Reply)), User, User], Some(0),
                     sends + [SendRec(0, 0, None, Pending)], [Receipt(0, Async)]);
    QuietStep(s13, 4, StartSend(0, 0, 0, []), s14, false);
    QuietStep(s14, 4, TrySend, Lost(q), false);
  }

  /** A lawful run of mixed traffic in which a synchronous send returns success and its
      message is then overwritten before anyone receives it. */
  lemma MixedTrafficLoses() returns (states: seq<Sys>, events: seq<Event>, ws: seq<Caps.World>, cs: seq<seq<Caps.Call>>)
    ensures Lawful(states, events, ws, cs)
    ensures var s := states[|events|];
            |s.sends| > 0 && s.sends[0].status == SentOk && NoCopy(s, 0) && !ExactlyOnce(s)
  {
    var q := ReachLost();
    LostHasNone(q);
    states, events, ws, cs :| EndsIn(states, events, ws, cs, Lost(q), 4);
    assert !Settled(Lost(q), 0);
  }

  lemma LostHasNone(q: MessageQueue)
    requires q.Valid() && q.Contents() == []
    ensures NoCopy(Lost(q), 0)
  {
  }
}
