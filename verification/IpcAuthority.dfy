/** IPC runs composed with capability runs: every change of a capability table is
    made by one of the capability calls, so each message can be traced to the
    kernel-minted root it was sent under. */
module IpcAuthority {
  import opened Core
  import opened Sched
  import opened Ipc
  import opened IpcMachine
  import opened IpcRuns
  import opened Derivation
  import opened CapSyscalls
  import Caps = CapRuns

  /** The machine and the capability kernel hold the same tasks with the same tables. */
  ghost predicate SameCaps(s: Sys, k: KState) {
    && |s.tasks| == |k.tasks| && s.current == k.current
    && forall i :: 0 <= i < |s.tasks| ==>
         && s.tasks[i].Some? == k.tasks[i].Some?
         && (s.tasks[i].Some? ==>
               s.tasks[i].value.id == k.tasks[i].value.id && s.tasks[i].value.capTable == k.tasks[i].value.capTable)
  }

  /** The root channel a spawn gives to init once the new task is loaded. */
  predicate SpawnMint(call: Caps.Call) {
    && call.DoMint? && call.t == INIT_TASK && call.resource.IpcChannel?
    && call.rights == RightsMask(true, true, true) && !call.sealed
  }

  predicate MintFor(call: Caps.Call, t: nat) {
    call.DoMint? && call.t == t
  }

  /** The capability calls behind one event: a table changes by one grant or
      revocation of the running task, or by init's spawn; a new task starts with the
      roots the kernel mints for it; every other event at most switches tasks. */
  ghost predicate Serves(s: Sys, e: Event, s': Sys, calls: seq<Caps.Call>) {
    match e
    case SetCaps(_) =>
      |calls| == 1 && (calls[0].DoGrant? || calls[0].DoRevoke? || (SpawnMint(calls[0]) && s.current == Some(INIT_TASK)))
    case Load(t, _) =>
      |calls| > 0 && calls[0].DoLoad? && calls[0].t == t && forall i :: 1 <= i < |calls| ==> MintFor(calls[i], t)
    case _ => calls == [Caps.DoSwitch(s'.current)]
  }

  ghost function StepAll(w: Caps.World, calls: seq<Caps.Call>): Caps.World
    requires Caps.AllCallable(calls)
  {
    if |calls| == 0 then w else Caps.Step(StepAll(w, calls[..|calls| - 1]), calls[|calls| - 1])
  }

  /** Event `j` is carried out by the calls `cs[j]`. */
  ghost predicate LawfulStep(states: seq<Sys>, events: seq<Event>, ws: seq<Caps.World>, cs: seq<seq<Caps.Call>>, j: nat)
    requires j < |events| && |states| == |ws| == |events| + 1 && |cs| == |events|
  {
    && Caps.AllCallable(cs[j]) && Serves(states[j], events[j], states[j + 1], cs[j])
    && ws[j + 1] == StepAll(ws[j], cs[j])
    && (events[j].SetCaps? || events[j].Load? ==> SameCaps(states[j + 1], ws[j + 1].k))
  }

  /** A run in which every new table contents is what the calls behind the event produce. */
  ghost predicate Lawful(states: seq<Sys>, events: seq<Event>, ws: seq<Caps.World>, cs: seq<seq<Caps.Call>>) {
    && IsRun(states, events) && |ws| == |states| && |cs| == |events|
    && ws[0] == Caps.Boot(|states[0].tasks|)
    && forall j :: 0 <= j < |events| ==> LawfulStep(states, events, ws, cs, j)
  }

  // ---- Only capability calls touch capability tables ----

  ghost predicate SameTables(a: TaskTable, b: TaskTable) {
    |a| == |b| && forall i :: 0 <= i < |a| ==> TaskTables(a[i], b[i])
  }

  predicate TaskTables(a: Option<Task>, b: Option<Task>) {
    a.Some? == b.Some? && (a.Some? ==> a.value.id == b.value.id && a.value.capTable == b.value.capTable)
  }

  lemma SwitchTables(a: TaskTable, b: TaskTable)
    requires StatesOnly(a, b)
    ensures SameTables(a, b)
  {
    forall i | 0 <= i < |a| ensures TaskTables(a[i], b[i]) {
      if a[i].Some? {
        assert StateOnly(a[i].value, b[i].value);
      }
    }
  }

  lemma AttemptTables(tasks: TaskTable, cur: nat, capIdx: nat, msg: Message)
    ensures SameTables(tasks, AttemptSend(tasks, cur, capIdx, msg).0)
  {
  }

  lemma EnqueueTables(tasks: TaskTable, cur: nat, capIdx: nat, msg: Message)
    requires QueuesValid(tasks)
    ensures SameTables(tasks, EnqueueTo(tasks, cur, capIdx, msg).0)
  {
  }

  lemma TakeTables(tasks: TaskTable, cur: nat)
    requires HasTask(tasks, cur) && QueuesValid(tasks)
    ensures SameTables(tasks, TakeMessage(tasks, cur).0)
  {
  }

  /** Sends, receives, yields, ticks and exits leave every capability table as it is. */
  lemma QuietTables(s: Sys, e: Event)
    requires Enabled(s, e) && !e.SetCaps? && !e.Load?
    ensures SameTables(s.tasks, Next(s, e).tasks)
  {
    if e.Yield? || e.Tick? || e.Exit? || e.Start? {
      SwitchStates(s.tasks, s.current);
      TerminateStates(s.tasks, s.current);
      SwitchTables(s.tasks, Next(s, e).tasks);
    } else {
      TransferTables(s, e);
    }
  }

  lemma TransferTables(s: Sys, e: Event)
    requires Enabled(s, e) && !e.SetCaps? && !e.Load? && !e.Yield? && !e.Tick? && !e.Exit? && !e.Start?
    ensures SameTables(s.tasks, Next(s, e).tasks)
  {
    var c := s.current.value;
    match e
    case TrySend =>
      AttemptTables(s.tasks, c, s.pcs[c].req.capIdx, s.pcs[c].req.msg);
    case AsyncSend(capIdx, tag, version, payload) =>
      var checked := CheckInputs(tag, version, payload);
      if checked.Ok? {
        EnqueueTables(s.tasks, c, capIdx, MakeMessage(s, checked.value, version, payload));
      }
    case TryReceive =>
      TakeTables(s.tasks, c);
    case AsyncReceive =>
      TakeTables(s.tasks, c);
    case _ =>
  }

  /** In a lawful run the machine's tables are the capability kernel's throughout. */
  lemma {:induction false} TablesAgree(states: seq<Sys>, events: seq<Event>, ws: seq<Caps.World>, cs: seq<seq<Caps.Call>>, j: nat)
    requires Lawful(states, events, ws, cs) && j < |states|
    ensures SameCaps(states[j], ws[j].k) && Caps.Inv(ws[j])
  {
    if j > 0 {
      TablesAgree(states, events, ws, cs, j - 1);
      assert LawfulStep(states, events, ws, cs, j - 1);
      StepAllInv(ws[j - 1], cs[j - 1]);
      var s, e := states[j - 1], events[j - 1];
      if !e.SetCaps? && !e.Load? {
        QuietTables(s, e);
        SwitchOnly(ws[j - 1], states[j].current);
      }
    }
  }

  lemma SwitchOnly(w: Caps.World, next: Option<nat>)
    requires Caps.Inv(w)
    ensures Caps.AllCallable([Caps.DoSwitch(next)])
    ensures StepAll(w, [Caps.DoSwitch(next)]).k == w.k.(current := next)
  {
    assert [Caps.DoSwitch(next)][..0] == [];
  }

  lemma {:induction false} StepAllInv(w: Caps.World, calls: seq<Caps.Call>)
    requires Caps.Inv(w) && Caps.AllCallable(calls)
    ensures Caps.Inv(StepAll(w, calls)) && w.revoked <= StepAll(w, calls).revoked
  {
    if |calls| > 0 {
      StepAllInv(w, calls[..|calls| - 1]);
      Caps.StepKeeps(StepAll(w, calls[..|calls| - 1]), calls[|calls| - 1]);
    }
  }

  lemma {:induction false} RevokedStays(states: seq<Sys>, events: seq<Event>, ws: seq<Caps.World>, cs: seq<seq<Caps.Call>>, j: nat, k: nat)
    requires Lawful(states, events, ws, cs) && j <= k < |states|
    ensures ws[j].revoked <= ws[k].revoked
    decreases k - j
  {
    if j < k {
      RevokedStays(states, events, ws, cs, j, k - 1);
      TablesAgree(states, events, ws, cs, k - 1);
      assert LawfulStep(states, events, ws, cs, k - 1);
      StepAllInv(ws[k - 1], cs[k - 1]);
    }
  }

  // ---- Main results ----

  /** The slot a leaving message goes through. */
  ghost function SlotUsed(s: Sys, e: Event, n: nat, t: nat): SlotRef
    requires Leaves(s, e, n, t)
  {
    (s.current.value, NamedSlot(s, e))
  }

  /** The message leaves under a capability that descends from `root`, a channel to `t`
      minted by the kernel and still live. */
  ghost predicate LeavesUnder(s: Sys, e: Event, n: nat, t: nat, w: Caps.World, root: nat) {
    && Leaves(s, e, n, t)
    && var p := SlotUsed(s, e, n, t);
       && LiveAt(w.k.tasks, p) && Caps.Descends(w.born, root, CapAt(w.k.tasks, p).id)
       && root in w.born && w.born[root].origin == None && w.born[root].resource == IpcChannel(t)
       && Caps.LiveId(w.k.tasks, root)
  }

  lemma RootOf(s: Sys, e: Event, n: nat, t: nat, w: Caps.World) returns (root: nat)
    requires Leaves(s, e, n, t) && SameCaps(s, w.k) && Caps.Inv(w)
    ensures LeavesUnder(s, e, n, t, w, root)
  {
    var p := SlotUsed(s, e, n, t);
    assert LiveAt(w.k.tasks, p);
    var c := CapAt(w.k.tasks, p);
    root := Caps.RootExists(w, c.id);
    Caps.HistoryConfines(w, root, c.id);
    Caps.AncestorsLive(w, root, c.id);
  }

  /** In every lawful run, each message received from another task left its true sender under a
      capability derived from a live channel to the receiver that the kernel itself minted. */
  lemma ReceiptRooted(states: seq<Sys>, events: seq<Event>, ws: seq<Caps.World>, cs: seq<seq<Caps.Call>>, j: nat, i: nat)
    requires Lawful(states, events, ws, cs) && j < |states| && i < |states[j].receipts|
    ensures var r := states[j].receipts[i];
            r.msg.sender == r.receiver
            || exists k, root :: 0 <= k < j && LeavesUnder(states[k], events[k], r.msg.serial, r.receiver, ws[k], root)
                                 && states[k].current == Some(r.msg.sender)
  {
    var r := states[j].receipts[i];
    ReceiptTraced(states, events, j, i);
    if r.msg.sender != r.receiver {
      var k :| 0 <= k < j && k < |events| && Leaves(states[k], events[k], r.msg.serial, r.receiver)
               && states[k].current == Some(r.msg.sender);
      TablesAgree(states, events, ws, cs, k);
      var root := RootOf(states[k], events[k], r.msg.serial, r.receiver, ws[k]);
    }
  }

  /** Once an id has been revoked, no message ever again leaves through a capability
      that descends from it. */
  lemma RevokedNeverSends(states: seq<Sys>, events: seq<Event>, ws: seq<Caps.World>, cs: seq<seq<Caps.Call>>,
                          j: nat, k: nat, id: nat, n: nat, t: nat)
    requires Lawful(states, events, ws, cs) && j <= k < |events| && id in ws[j].revoked
    requires Leaves(states[k], events[k], n, t)
    ensures var p := SlotUsed(states[k], events[k], n, t);
            LiveAt(ws[k].k.tasks, p) && !Caps.Descends(ws[k].born, id, CapAt(ws[k].k.tasks, p).id)
  {
    TablesAgree(states, events, ws, cs, k);
    RevokedStays(states, events, ws, cs, j, k);
    var w := ws[k];
    var p := SlotUsed(states[k], events[k], n, t);
    assert LiveAt(w.k.tasks, p);
    var d := CapAt(w.k.tasks, p).id;
    assert Caps.LiveId(w.k.tasks, d);
    if Caps.Descends(w.born, id, d) {
      Caps.AncestorsLive(w, id, d);
      assert false;
    }
  }
}
