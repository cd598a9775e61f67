/** Checkpoints of the whole task table: what they hold, the words their checksum covers, and what
    `capture` and `restore` do, on values. */
module Snapshot {
  import opened Core
  import opened Hash

  /** The checkpointable part of a task: not its stack pointer, kernel stack or page table. */
  datatype Checkpoint = Checkpoint(
    id: nat,
    state: TaskState,
    capTable: CapTable,
    ipcBuffer: Option<Message>,
    msgQueue: MessageQueue)

  datatype SystemSnapshot = SystemSnapshot(
    tasks: seq<Option<Checkpoint>>,
    current: Option<nat>,
    checksum: nat,
    valid: bool)

  // ---- The words the checksum covers ----

  function Word(n: nat): (w: nat)
    ensures w < WORD
  {
    n % WORD
  }

  function Bit(b: bool): nat { if b then 1 else 0 }

  /** Two access bits at positions 8 and 9. */
  function AccessBits(code: nat, readable: bool, writable: bool): (w: nat)
    ensures w < WORD
  {
    Xor(Xor(code, 0x100 * Bit(readable)), 0x200 * Bit(writable))
  }

  function ResourceCode(r: Resource): (w: nat)
    ensures w < WORD
  {
    match r
    case Serial => 1
    case IpcChannel(target) => Xor(0x1000, Word(target))
    case MemoryMapping(start, size, writeable) => Xor(Xor(Xor(0x2000, Word(start)), Word(2 * size)), Bit(writeable))
    case Service(svc) => Xor(0x3000, Word(svc))
    case KVEntry(slot, readable, writable) => AccessBits(Xor(0x4000, Word(slot)), readable, writable)
    case LogChannel(kind, readable, writable) => AccessBits(Xor(0x5000, kind), readable, writable)
    case FsNode(mount, readable, writable) => AccessBits(Xor(0x6000, mount), readable, writable)
    case Device(dev, readable, writable) => AccessBits(Xor(0x7000, dev), readable, writable)
    case SyncObj(obj) => Xor(0x8000, obj)
  }

  function StateCode(s: TaskState): (w: nat)
    ensures w < WORD
  {
    match s
    case Ready => 1
    case Running => 2
    case BlockedOnReceive => 3
    case BlockedOnSend(t) => Xor(0x100, Word(t))
    case Terminated => 5
  }

  /** One more than the value, or zero for none. */
  function OptionWord(o: Option<nat>): (w: nat)
    ensures w < WORD
  {
    if o.None? then 0 else Word(o.value + 1)
  }

  function CapWords(c: Option<Capability>): (ws: seq<nat>)
    ensures AreWords(ws)
  {
    if c.None? then [0]
    else [ResourceCode(c.value.resource),
          Bit(c.value.read) + 2 * Bit(c.value.write) + 4 * Bit(c.value.grant) + 8 * Bit(c.value.sealed),
          Word(c.value.id),
          OptionWord(c.value.origin)]
  }

  function Concat(parts: seq<seq<nat>>): seq<nat> {
    if parts == [] then [] else Concat(parts[..|parts| - 1]) + parts[|parts| - 1]
  }

  lemma {:induction false} ConcatAreWords(parts: seq<seq<nat>>)
    requires forall i :: 0 <= i < |parts| ==> AreWords(parts[i])
    ensures AreWords(Concat(parts))
  {
    if parts != [] {
      ConcatAreWords(parts[..|parts| - 1]);
    }
  }

  /** The word groups of a capability table, slot by slot. */
  function TableParts(t: CapTable): (ps: seq<seq<nat>>)
    ensures |ps| == |t| && forall i :: 0 <= i < |t| ==> ps[i] == CapWords(t[i])
  {
    seq(|t|, i requires 0 <= i < |t| => CapWords(t[i]))
  }

  function HeadWords(cp: Checkpoint): (ws: seq<nat>)
    ensures AreWords(ws)
  {
    [0xF00D, Word(cp.id), StateCode(cp.state)]
  }

  /** Of a pending message the checksum sees the length only. */
  function BufferWord(b: Option<Message>): (w: nat)
    ensures w < WORD
  {
    if b.None? then 0 else Word(|b.value.payload| + 1)
  }

  function TailWords(cp: Checkpoint): (ws: seq<nat>)
    ensures AreWords(ws)
  {
    [BufferWord(cp.ipcBuffer), Word(cp.msgQueue.count)]
  }

  function TaskWords(o: Option<Checkpoint>): (ws: seq<nat>)
    ensures AreWords(ws)
  {
    if o.None? then [0]
    else
      ConcatAreWords(TableParts(o.value.capTable));
      HeadWords(o.value) + Concat(TableParts(o.value.capTable)) + TailWords(o.value)
  }

  /** The word groups of the saved tasks, slot by slot. */
  function TasksParts(ts: seq<Option<Checkpoint>>): (ps: seq<seq<nat>>)
    ensures |ps| == |ts| && forall i :: 0 <= i < |ts| ==> ps[i] == TaskWords(ts[i])
  {
    seq(|ts|, i requires 0 <= i < |ts| => TaskWords(ts[i]))
  }

  function Words(s: SystemSnapshot): (ws: seq<nat>)
    ensures AreWords(ws)
  {
    ConcatAreWords(TasksParts(s.tasks));
    [OptionWord(s.current)] + Concat(TasksParts(s.tasks))
  }

  function Checksum(s: SystemSnapshot): nat {
    Fold(OFFSET, Words(s))
  }

  // ---- Capture and restore ----

  function CheckpointOf(t: Option<Task>): Option<Checkpoint> {
    if t.None? then None
    else Some(Checkpoint(t.value.id, t.value.state, t.value.capTable, t.value.ipcBuffer, t.value.msgQueue))
  }

  function Checkpoints(tasks: TaskTable): (cps: seq<Option<Checkpoint>>)
    ensures |cps| == |tasks| && forall i :: 0 <= i < |tasks| ==> cps[i] == CheckpointOf(tasks[i])
  {
    seq(|tasks|, i requires 0 <= i < |tasks| => CheckpointOf(tasks[i]))
  }

  /** Saved tasks under their checksum. */
  function Seal(cps: seq<Option<Checkpoint>>, current: Option<nat>): (s: SystemSnapshot)
    ensures s.valid && s.tasks == cps && s.current == current && s.checksum == Checksum(s)
  {
    var s := SystemSnapshot(cps, current, 0, true);
    s.(checksum := Checksum(s))
  }

  function Capture(tasks: TaskTable, current: Option<nat>): SystemSnapshot {
    Seal(Checkpoints(tasks), current)
  }

  function Rollback(t: Task, cp: Checkpoint): Task {
    t.(state := cp.state, capTable := cp.capTable, ipcBuffer := cp.ipcBuffer, msgQueue := cp.msgQueue)
  }

  /** Installing one checkpoint: by the task's id, and only if that task still exists. */
  function Install(tasks: TaskTable, cp: Option<Checkpoint>): (TaskTable, nat) {
    if cp.Some? && HasTask(tasks, cp.value.id) then
      (tasks[cp.value.id := Some(Rollback(tasks[cp.value.id].value, cp.value))], 1)
    else (tasks, 0)
  }

  function InstallAll(tasks: TaskTable, cps: seq<Option<Checkpoint>>, n: nat): (TaskTable, nat)
    requires n <= |cps|
  {
    if n == 0 then (tasks, 0)
    else
      var (before, k) := InstallAll(tasks, cps, n - 1);
      var (after, one) := Install(before, cps[n - 1]);
      (after, k + one)
  }

  /** The outcome of `restore`: how many checkpoints were installed, and the task table. */
  function Restore(s: SystemSnapshot, tasks: TaskTable): (Result<nat, ()>, TaskTable) {
    if !s.valid || Checksum(s) != s.checksum then (Err(()), tasks)
    else (Ok(InstallAll(tasks, s.tasks, |s.tasks|).1), InstallAll(tasks, s.tasks, |s.tasks|).0)
  }

  // ---- Round trip ----

  /** The same tasks exist, whatever has happened to them. */
  predicate SameTasks(a: TaskTable, b: TaskTable) {
    |a| == |b| && forall i :: 0 <= i < |a| ==> (a[i].Some? <==> b[i].Some?) && (a[i].Some? ==> a[i].value.id == b[i].value.id)
  }

  /** One slot after a restore: if the saved task still exists, its state, capabilities, buffer and queue
      are the saved ones and its stack and page table the live ones; otherwise it is as it was. */
  predicate RolledBack(saved: Option<Task>, live: Option<Task>, now: Option<Task>) {
    if saved.None? || live.None? then now == live
    else
      && now.Some? && now.value.id == live.value.id
      && now.value.state == saved.value.state && now.value.capTable == saved.value.capTable
      && now.value.ipcBuffer == saved.value.ipcBuffer && now.value.msgQueue == saved.value.msgQueue
      && now.value.rsp == live.value.rsp && now.value.kstackTop == live.value.kstackTop && now.value.cr3 == live.value.cr3
  }

  /** How many of the first `n` slots hold a saved task that still exists. */
  function Survivors(saved: TaskTable, live: TaskTable, n: nat): nat
    requires n <= |saved| == |live|
  {
    if n == 0 then 0 else Survivors(saved, live, n - 1) + if saved[n - 1].Some? && live[n - 1].Some? then 1 else 0
  }

  lemma {:induction false} InstallExact(saved: TaskTable, live: TaskTable, cps: seq<Option<Checkpoint>>, n: nat)
    requires IdsMatch(saved) && IdsMatch(live) && n <= |saved| == |live| == |cps|
    requires forall i :: 0 <= i < |saved| ==> cps[i] == CheckpointOf(saved[i])
    ensures var (now, k) := InstallAll(live, cps, n);
            && k == Survivors(saved, live, n) && |now| == |live|
            && (forall i :: 0 <= i < n ==> RolledBack(saved[i], live[i], now[i]))
            && (forall i :: n <= i < |live| ==> now[i] == live[i])
  {
    if n > 0 {
      InstallExact(saved, live, cps, n - 1);
    }
  }

  /** What a capture holds of each task, and under which checksum. */
  lemma CaptureExact(tasks: TaskTable, current: Option<nat>, i: nat)
    requires i < |tasks|
    ensures var s := Capture(tasks, current);
            && s.valid && s.current == current && s.checksum == Checksum(s) && |s.tasks| == |tasks|
            && s.tasks[i].Some? == tasks[i].Some?
            && (tasks[i].Some? ==>
                  var cp, t := s.tasks[i].value, tasks[i].value;
                  && cp.id == t.id && cp.state == t.state && cp.capTable == t.capTable
                  && cp.ipcBuffer == t.ipcBuffer && cp.msgQueue == t.msgQueue)
  {
  }

  /** Restore goes ahead exactly if the snapshot is valid and its words match the stored checksum;
      otherwise the tasks are as they were. */
  lemma RestoreIff(s: SystemSnapshot, tasks: TaskTable)
    ensures Restore(s, tasks).0.Ok? <==> s.valid && Checksum(s) == s.checksum
    ensures Restore(s, tasks).0.Err? ==> Restore(s, tasks).1 == tasks
    ensures Restore(s, tasks).0.Ok? ==>
              Restore(s, tasks) == (Ok(InstallAll(tasks, s.tasks, |s.tasks|).1), InstallAll(tasks, s.tasks, |s.tasks|).0)
  {
  }

  /** Restoring a capture onto any live table succeeds and rolls back exactly the saved tasks that still
      exist, whatever was created or removed meanwhile, and reports how many they are. */
  lemma RestoreExact(saved: TaskTable, live: TaskTable, current: Option<nat>) returns (now: TaskTable)
    requires IdsMatch(saved) && IdsMatch(live) && |saved| == |live|
    ensures Restore(Capture(saved, current), live) == (Ok(Survivors(saved, live, |saved|)), now) && |now| == |live|
    ensures forall i :: 0 <= i < |now| ==> RolledBack(saved[i], live[i], now[i])
  {
    var cps := Checkpoints(saved);
    RestoreIff(Seal(cps, current), live);
    InstallExact(saved, live, cps, |saved|);
    now := InstallAll(live, cps, |cps|).0;
  }

  /** After a capture and any changes that neither create nor remove tasks, restore puts every task's
      state, capabilities, buffer and queue back on its live stack and page table, and a capture with the
      same current task gives the same snapshot. */
  lemma RoundTrip(saved: TaskTable, live: TaskTable, current: Option<nat>) returns (now: TaskTable)
    requires IdsMatch(saved) && SameTasks(saved, live)
    ensures Restore(Capture(saved, current), live) == (Ok(Survivors(saved, live, |saved|)), now) && |now| == |live|
    ensures forall i :: 0 <= i < |now| ==>
              && now[i].Some? == saved[i].Some?
              && (now[i].Some? ==>
                    && now[i].value.id == saved[i].value.id && now[i].value.state == saved[i].value.state
                    && now[i].value.capTable == saved[i].value.capTable
                    && now[i].value.ipcBuffer == saved[i].value.ipcBuffer && now[i].value.msgQueue == saved[i].value.msgQueue
                    && now[i].value.rsp == live[i].value.rsp && now[i].value.kstackTop == live[i].value.kstackTop
                    && now[i].value.cr3 == live[i].value.cr3)
    ensures Capture(now, current) == Capture(saved, current)
  {
    now := RestoreExact(saved, live, current);
    forall i | 0 <= i < |now| ensures Checkpoints(now)[i] == Checkpoints(saved)[i] {
      assert RolledBack(saved[i], live[i], now[i]);
    }
    assert Checkpoints(now) == Checkpoints(saved);
  }

  // ---- Tampering ----

  /** Streams of equal length that differ in exactly one place. */
  ghost predicate OneApart(a: seq<nat>, b: seq<nat>) {
    |a| == |b| && exists i :: 0 <= i < |a| && a[i] != b[i] && b == a[i := b[i]]
  }

  lemma OneApartInside(p: seq<nat>, a: seq<nat>, b: seq<nat>, s: seq<nat>)
    requires OneApart(a, b)
    ensures OneApart(p + a + s, p + b + s)
  {
    var i :| 0 <= i < |a| && a[i] != b[i] && b == a[i := b[i]];
    var x, y := p + a + s, p + b + s;
    assert x[|p| + i] == a[i] && y[|p| + i] == b[i];
    assert y == x[|p| + i := y[|p| + i]];
  }

  /** A stored snapshot changed in one word of what the checksum covers is refused, and nothing is
      installed. */
  lemma TamperRejected(s: SystemSnapshot, forged: SystemSnapshot, tasks: TaskTable)
    requires s.checksum == Checksum(s) && forged.checksum == s.checksum && OneApart(Words(s), Words(forged))
    ensures Restore(forged, tasks) == (Err(()), tasks)
  {
    var a, b := Words(s), Words(forged);
    var i :| 0 <= i < |a| && a[i] != b[i] && b == a[i := b[i]];
    OneWordChangesHash(OFFSET, a, i, b[i]);
  }

  /** With the stored checksum kept, a snapshot whose covered words are those of a sealed one or
      differ from them in a single place is accepted exactly when the words are the same. */
  lemma AcceptedIff(s: SystemSnapshot, forged: SystemSnapshot, tasks: TaskTable)
    requires s.checksum == Checksum(s) && forged.checksum == s.checksum && forged.valid
    requires Words(forged) == Words(s) || OneApart(Words(s), Words(forged))
    ensures Restore(forged, tasks).0.Ok? <==> Words(forged) == Words(s)
  {
    if Words(forged) != Words(s) {
      TamperRejected(s, forged, tasks);
    }
  }

  lemma {:induction false} ConcatApart(parts: seq<seq<nat>>, i: nat, p: seq<nat>)
    requires i < |parts| && OneApart(parts[i], p)
    ensures OneApart(Concat(parts), Concat(parts[i := p]))
  {
    var n := |parts| - 1;
    var before, last := parts[..n], parts[n];
    if i == n {
      assert parts[i := p][..n] == before;
      OneApartInside(Concat(before), last, p, []);
      assert Concat(before) + last + [] == Concat(parts);
      assert Concat(before) + p + [] == Concat(parts[i := p]);
    } else {
      ConcatApart(before, i, p);
      assert parts[i := p][..n] == before[i := p];
      OneApartInside([], Concat(before), Concat(before[i := p]), last);
      assert [] + Concat(before) + last == Concat(parts);
      assert [] + Concat(before[i := p]) + last == Concat(parts[i := p]);
    }
  }

  /** Replacing one capability of one saved task. */
  function Forge(s: SystemSnapshot, i: nat, slot: nat, c: Option<Capability>): SystemSnapshot
    requires i < |s.tasks| && s.tasks[i].Some? && slot < |s.tasks[i].value.capTable|
  {
    s.(tasks := s.tasks[i := Some(s.tasks[i].value.(capTable := s.tasks[i].value.capTable[slot := c]))])
  }

  lemma ForgedTask(cp: Checkpoint, slot: nat, c: Option<Capability>)
    requires slot < |cp.capTable| && OneApart(CapWords(cp.capTable[slot]), CapWords(c))
    ensures OneApart(TaskWords(Some(cp)), TaskWords(Some(cp.(capTable := cp.capTable[slot := c]))))
  {
    var ps, table' := TableParts(cp.capTable), cp.capTable[slot := c];
    ConcatApart(ps, slot, CapWords(c));
    assert TableParts(table') == ps[slot := CapWords(c)];
    OneApartInside(HeadWords(cp), Concat(ps), Concat(TableParts(table')), TailWords(cp));
  }

  lemma ForgedSnapshot(s: SystemSnapshot, i: nat, o: Option<Checkpoint>)
    requires i < |s.tasks| && OneApart(TaskWords(s.tasks[i]), TaskWords(o))
    ensures OneApart(Words(s), Words(s.(tasks := s.tasks[i := o])))
  {
    var ps, ts' := TasksParts(s.tasks), s.tasks[i := o];
    ConcatApart(ps, i, TaskWords(o));
    assert TasksParts(ts') == ps[i := TaskWords(o)];
    OneApartInside([OptionWord(s.current)], Concat(ps), Concat(TasksParts(ts')), []);
    assert [OptionWord(s.current)] + Concat(ps) + [] == Words(s);
    assert [OptionWord(s.current)] + Concat(TasksParts(ts')) + [] == Words(s.(tasks := ts'));
  }

  /** A capability changed in one of its words, in any slot of any saved task, is refused: in
      particular a changed id or a changed origin. */
  lemma ForgedCapabilityRejected(s: SystemSnapshot, i: nat, slot: nat, c: Option<Capability>, tasks: TaskTable)
    requires i < |s.tasks| && s.tasks[i].Some? && slot < |s.tasks[i].value.capTable| && s.checksum == Checksum(s)
    requires OneApart(CapWords(s.tasks[i].value.capTable[slot]), CapWords(c))
    ensures Restore(Forge(s, i, slot, c), tasks) == (Err(()), tasks)
  {
    ForgedTask(s.tasks[i].value, slot, c);
    ForgedSnapshot(s, i, Forge(s, i, slot, c).tasks[i]);
    TamperRejected(s, Forge(s, i, slot, c), tasks);
  }

  /** Another 64-bit id in a saved capability is one word. */
  lemma ForgedIdIsOneWord(c: Capability, id: nat)
    requires c.id < WORD && id < WORD && id != c.id
    ensures OneApart(CapWords(Some(c)), CapWords(Some(c.(id := id))))
  {
    var a, b := CapWords(Some(c)), CapWords(Some(c.(id := id)));
    assert a[2] != b[2] && b == a[2 := b[2]];
  }

  // ---- What the checksum sees of one task ----

  /** The words of two saved tasks agree exactly when their ids, state codes, capability words,
      pending-message lengths and queue counts do. */
  lemma TaskWordsIff(a: Checkpoint, b: Checkpoint)
    ensures TaskWords(Some(a)) == TaskWords(Some(b)) <==>
            && Word(a.id) == Word(b.id) && StateCode(a.state) == StateCode(b.state)
            && Concat(TableParts(a.capTable)) == Concat(TableParts(b.capTable))
            && BufferWord(a.ipcBuffer) == BufferWord(b.ipcBuffer)
            && Word(a.msgQueue.count) == Word(b.msgQueue.count)
  {
    var x, y := Concat(TableParts(a.capTable)), Concat(TableParts(b.capTable));
    var u, v := TaskWords(Some(a)), TaskWords(Some(b));
    assert u[0..3] == HeadWords(a) && v[0..3] == HeadWords(b);
    assert u[3..|u| - 2] == x && v[3..|v| - 2] == y;
    assert u[|u| - 2..] == TailWords(a) && v[|v| - 2..] == TailWords(b);
    if u == v {
      assert HeadWords(a)[1] == HeadWords(b)[1] && HeadWords(a)[2] == HeadWords(b)[2];
      assert TailWords(a)[0] == TailWords(b)[0] && TailWords(a)[1] == TailWords(b)[1];
    }
  }

  lemma {:induction false} ConcatSame(ps: seq<seq<nat>>, qs: seq<seq<nat>>)
    requires |ps| == |qs| && forall i :: 0 <= i < |ps| ==> |ps[i]| == |qs[i]|
    ensures |Concat(ps)| == |Concat(qs)| && (Concat(ps) == Concat(qs) <==> ps == qs)
  {
    if |ps| > 0 {
      var n := |ps| - 1;
      ConcatSame(ps[..n], qs[..n]);
      assert Concat(ps)[..|Concat(ps[..n])|] == Concat(ps[..n]) && Concat(ps)[|Concat(ps[..n])|..] == ps[n];
      assert Concat(qs)[..|Concat(qs[..n])|] == Concat(qs[..n]) && Concat(qs)[|Concat(qs[..n])|..] == qs[n];
      assert ps == ps[..n] + [ps[n]] && qs == qs[..n] + [qs[n]];
    }
  }

  /** What the checksum sees of one capability. */
  predicate SameCode(c: Option<Capability>, d: Option<Capability>) {
    && c.Some? == d.Some?
    && (c.Some? ==>
          && ResourceCode(c.value.resource) == ResourceCode(d.value.resource)
          && c.value.read == d.value.read && c.value.write == d.value.write && c.value.grant == d.value.grant
          && c.value.sealed == d.value.sealed
          && Word(c.value.id) == Word(d.value.id) && OptionWord(c.value.origin) == OptionWord(d.value.origin))
  }

  lemma CapWordsIff(c: Option<Capability>, d: Option<Capability>)
    requires c.Some? == d.Some?
    ensures CapWords(c) == CapWords(d) <==> SameCode(c, d)
  {
    if c.Some? && CapWords(c) == CapWords(d) {
      assert forall i :: 0 <= i < 4 ==> CapWords(c)[i] == CapWords(d)[i];
      RightsCode(c.value, d.value);
    }
  }

  lemma RightsCode(c: Capability, d: Capability)
    requires CapWords(Some(c))[1] == CapWords(Some(d))[1]
    ensures c.read == d.read && c.write == d.write && c.grant == d.grant && c.sealed == d.sealed
  {
  }

  /** Tables with the same slots occupied have the same words exactly when they agree slot by slot in
      resource code, rights, seal, id and origin. */
  lemma TableWordsIff(a: CapTable, b: CapTable)
    requires |a| == |b| && forall i :: 0 <= i < |a| ==> a[i].Some? == b[i].Some?
    ensures Concat(TableParts(a)) == Concat(TableParts(b)) <==> forall i :: 0 <= i < |a| ==> SameCode(a[i], b[i])
  {
    var ps, qs := TableParts(a), TableParts(b);
    ConcatSame(ps, qs);
    forall i | 0 <= i < |a| ensures ps[i] == qs[i] <==> SameCode(a[i], b[i]) {
      CapWordsIff(a[i], b[i]);
    }
    if ps == qs {
      forall i | 0 <= i < |a| ensures SameCode(a[i], b[i]) {
        assert ps[i] == qs[i];
      }
    }
  }

  /** The snapshot with one saved task replaced. */
  function Replace(s: SystemSnapshot, i: nat, cp: Checkpoint): SystemSnapshot
    requires i < |s.tasks|
  {
    s.(tasks := s.tasks[i := Some(cp)])
  }

  lemma ReplaceWords(s: SystemSnapshot, i: nat, o: Option<Checkpoint>)
    requires i < |s.tasks| && TaskWords(o) == TaskWords(s.tasks[i])
    ensures Words(s.(tasks := s.tasks[i := o])) == Words(s)
  {
    var ts' := s.tasks[i := o];
    assert TasksParts(ts') == TasksParts(s.tasks);
  }

  /** A saved task replaced by one whose words are the same or differ in one place is accepted
      exactly when they are the same. */
  lemma ReplacedIff(s: SystemSnapshot, i: nat, cp: Checkpoint, tasks: TaskTable)
    requires i < |s.tasks| && s.tasks[i].Some? && s.valid && s.checksum == Checksum(s)
    requires TaskWords(Some(cp)) == TaskWords(s.tasks[i]) || OneApart(TaskWords(s.tasks[i]), TaskWords(Some(cp)))
    ensures Restore(Replace(s, i, cp), tasks).0.Ok? <==> TaskWords(Some(cp)) == TaskWords(s.tasks[i])
  {
    if TaskWords(Some(cp)) == TaskWords(s.tasks[i]) {
      ReplaceWords(s, i, Some(cp));
    } else {
      ForgedSnapshot(s, i, Some(cp));
      assert Words(s) != Words(Replace(s, i, cp));
    }
    AcceptedIff(s, Replace(s, i, cp), tasks);
  }

  /** One of the two trailing words changed. */
  lemma TailApart(cp: Checkpoint, cp': Checkpoint, i: nat)
    requires HeadWords(cp') == HeadWords(cp) && cp'.capTable == cp.capTable && i < 2
    requires TailWords(cp')[i] != TailWords(cp)[i] && TailWords(cp')[1 - i] == TailWords(cp)[1 - i]
    ensures OneApart(TaskWords(Some(cp)), TaskWords(Some(cp')))
  {
    var a, b := TailWords(cp), TailWords(cp');
    assert b == a[i := b[i]];
    var pre := HeadWords(cp) + Concat(TableParts(cp.capTable));
    OneApartInside(pre, a, b, []);
    assert pre + a + [] == TaskWords(Some(cp));
    assert pre + b + [] == TaskWords(Some(cp'));
  }

  /** A task replaced by one that differs in at most one trailing word. */
  lemma TailIff(s: SystemSnapshot, i: nat, cp: Checkpoint, cp': Checkpoint, j: nat, tasks: TaskTable)
    requires i < |s.tasks| && s.tasks[i] == Some(cp) && s.valid && s.checksum == Checksum(s)
    requires cp'.id == cp.id && cp'.state == cp.state && cp'.capTable == cp.capTable
    requires j < 2 && TailWords(cp')[1 - j] == TailWords(cp)[1 - j]
    ensures Restore(Replace(s, i, cp'), tasks).0.Ok? <==> TailWords(cp')[j] == TailWords(cp)[j]
  {
    var a, b := TailWords(cp), TailWords(cp');
    if b[j] != a[j] {
      TailApart(cp, cp', j);
    } else {
      assert a == b;
    }
    ReplacedIff(s, i, cp', tasks);
  }

  lemma LengthWord(a: Message, b: Message)
    requires |a.payload| + 1 < WORD && |b.payload| + 1 < WORD
    ensures BufferWord(Some(a)) == BufferWord(Some(b)) <==> |a.payload| == |b.payload|
  {
  }

  /** Replacing a pending message of a sealed snapshot is noticed exactly when its length changes:
      sender, tag, version and payload bytes are outside the checksum. */
  lemma RewrittenMessageIff(s: SystemSnapshot, i: nat, m: Message, tasks: TaskTable)
    requires i < |s.tasks| && s.tasks[i].Some? && s.tasks[i].value.ipcBuffer.Some? && s.valid && s.checksum == Checksum(s)
    requires |m.payload| + 1 < WORD && |s.tasks[i].value.ipcBuffer.value.payload| + 1 < WORD
    ensures Restore(Replace(s, i, s.tasks[i].value.(ipcBuffer := Some(m))), tasks).0.Ok?
            <==> |m.payload| == |s.tasks[i].value.ipcBuffer.value.payload|
  {
    var cp := s.tasks[i].value;
    var cp' := cp.(ipcBuffer := Some(m));
    LengthWord(cp.ipcBuffer.value, m);
    TailIff(s, i, cp, cp', 0, tasks);
  }

  lemma CountWord(a: MessageQueue, b: MessageQueue)
    requires a.count < WORD && b.count < WORD
    ensures Word(a.count) == Word(b.count) <==> a.count == b.count
  {
  }

  /** Replacing the whole message queue is noticed exactly when its count changes: the queued
      messages themselves are outside the checksum. */
  lemma RewrittenQueueIff(s: SystemSnapshot, i: nat, q: MessageQueue, tasks: TaskTable)
    requires i < |s.tasks| && s.tasks[i].Some? && s.valid && s.checksum == Checksum(s)
    requires q.count < WORD && s.tasks[i].value.msgQueue.count < WORD
    ensures Restore(Replace(s, i, s.tasks[i].value.(msgQueue := q)), tasks).0.Ok?
            <==> q.count == s.tasks[i].value.msgQueue.count
  {
    var cp := s.tasks[i].value;
    var cp' := cp.(msgQueue := q);
    CountWord(cp.msgQueue, q);
    TailIff(s, i, cp, cp', 1, tasks);
  }

  /** A capability replaced by one whose words are the same or differ in one place is accepted
      exactly when they are the same. */
  lemma CapabilityIff(s: SystemSnapshot, i: nat, slot: nat, d: Option<Capability>, tasks: TaskTable)
    requires i < |s.tasks| && s.tasks[i].Some? && slot < |s.tasks[i].value.capTable| && s.valid && s.checksum == Checksum(s)
    requires CapWords(d) == CapWords(s.tasks[i].value.capTable[slot]) || OneApart(CapWords(s.tasks[i].value.capTable[slot]), CapWords(d))
    ensures Restore(Forge(s, i, slot, d), tasks).0.Ok? <==> CapWords(d) == CapWords(s.tasks[i].value.capTable[slot])
  {
    var cp := s.tasks[i].value;
    if CapWords(d) == CapWords(cp.capTable[slot]) {
      assert TableParts(cp.capTable[slot := d]) == TableParts(cp.capTable);
      ReplacedIff(s, i, cp.(capTable := cp.capTable[slot := d]), tasks);
    } else {
      ForgedCapabilityRejected(s, i, slot, d, tasks);
    }
  }

  lemma ResourceWord(c: Capability, r: Resource)
    ensures var d := c.(resource := r);
            if ResourceCode(r) == ResourceCode(c.resource) then CapWords(Some(d)) == CapWords(Some(c))
            else CapWords(Some(d)) != CapWords(Some(c)) && OneApart(CapWords(Some(c)), CapWords(Some(d)))
  {
    var a, b := CapWords(Some(c)), CapWords(Some(c.(resource := r)));
    assert b == a[0 := b[0]];
    if ResourceCode(r) != ResourceCode(c.resource) {
      assert a[0] != b[0];
    }
  }

  /** Naming another resource in a saved capability is noticed exactly when the resource codes differ. */
  lemma SwappedResourceIff(s: SystemSnapshot, i: nat, slot: nat, r: Resource, tasks: TaskTable)
    requires i < |s.tasks| && s.tasks[i].Some? && s.valid && s.checksum == Checksum(s)
    requires slot < |s.tasks[i].value.capTable| && s.tasks[i].value.capTable[slot].Some?
    ensures var c := s.tasks[i].value.capTable[slot].value;
            Restore(Forge(s, i, slot, Some(c.(resource := r))), tasks).0.Ok? <==> ResourceCode(r) == ResourceCode(c.resource)
  {
    var c := s.tasks[i].value.capTable[slot].value;
    ResourceWord(c, r);
    CapabilityIff(s, i, slot, Some(c.(resource := r)), tasks);
  }

  /** Xor with a fixed word loses nothing. */
  lemma XorInjective(k: nat, a: nat, b: nat)
    requires a < WORD && b < WORD && Xor(k, a) == Xor(k, b)
    ensures a == b
  {
    XorUndo(a, k);
    XorUndo(b, k);
  }

  /** Within a kind that names one number the code fixes the number's word, so, for words, the resource. */
  lemma ChannelCode(t: nat, u: nat)
    ensures ResourceCode(IpcChannel(t)) == ResourceCode(IpcChannel(u)) <==> Word(t) == Word(u)
  {
    if ResourceCode(IpcChannel(t)) == ResourceCode(IpcChannel(u)) {
      XorInjective(0x1000, Word(t), Word(u));
    }
  }

  lemma ServiceCode(t: nat, u: nat)
    ensures ResourceCode(Service(t)) == ResourceCode(Service(u)) <==> Word(t) == Word(u)
  {
    if ResourceCode(Service(t)) == ResourceCode(Service(u)) {
      XorInjective(0x3000, Word(t), Word(u));
    }
  }

  lemma SyncCode(t: Byte, u: Byte)
    ensures ResourceCode(SyncObj(t)) == ResourceCode(SyncObj(u)) <==> t == u
  {
    if ResourceCode(SyncObj(t)) == ResourceCode(SyncObj(u)) {
      XorInjective(0x8000, t, u);
    }
  }

  /** A saved channel re-targeted at another task is refused. */
  lemma RetargetRefused(s: SystemSnapshot, i: nat, slot: nat, t: nat, tasks: TaskTable)
    requires i < |s.tasks| && s.tasks[i].Some? && s.valid && s.checksum == Checksum(s)
    requires slot < |s.tasks[i].value.capTable| && s.tasks[i].value.capTable[slot].Some?
    requires var r := s.tasks[i].value.capTable[slot].value.resource; r.IpcChannel? && r.targetTask < WORD && r.targetTask != t < WORD
    ensures var c := s.tasks[i].value.capTable[slot].value;
            Restore(Forge(s, i, slot, Some(c.(resource := IpcChannel(t)))), tasks) == (Err(()), tasks)
  {
    var c := s.tasks[i].value.capTable[slot].value;
    var u := c.resource.targetTask;
    ChannelsApart(t, u);
    assert c.resource == IpcChannel(u);
    SwappedResourceIff(s, i, slot, IpcChannel(t), tasks);
    RestoreIff(Forge(s, i, slot, Some(c.(resource := IpcChannel(t)))), tasks);
  }

  lemma SmallWords(t: nat, u: nat)
    requires t < WORD && u < WORD
    ensures Word(t) == t && Word(u) == u
  {
  }

  lemma ChannelsApart(t: nat, u: nat)
    requires t < WORD && u < WORD && t != u
    ensures ResourceCode(IpcChannel(t)) != ResourceCode(IpcChannel(u))
  {
    SmallWords(t, u);
    ChannelCode(t, u);
  }

  // ---- Task states ----

  predicate PlainState(st: TaskState) { !st.BlockedOnSend? }

  /** The code tells the four plain states apart. */
  lemma PlainStateCode(a: TaskState, b: TaskState)
    requires PlainState(a) && PlainState(b) && StateCode(a) == StateCode(b)
    ensures a == b
  {
  }

  /** It tells parked states apart by their target. */
  lemma ParkedStateCode(t: nat, u: nat)
    ensures StateCode(BlockedOnSend(t)) == StateCode(BlockedOnSend(u)) <==> Word(t) == Word(u)
  {
    if StateCode(BlockedOnSend(t)) == StateCode(BlockedOnSend(u)) {
      XorInjective(0x100, Word(t), Word(u));
    }
  }

  lemma HeadApart(a: seq<nat>, b: seq<nat>, id: nat, x: nat, y: nat)
    requires a == [0xF00D, id, x] && b == [0xF00D, id, y] && x != y
    ensures OneApart(a, b)
  {
    assert b == a[2 := b[2]] && a[2] != b[2];
  }

  lemma FrontApart(a: seq<nat>, b: seq<nat>, mid: seq<nat>, tail: seq<nat>)
    requires OneApart(a, b)
    ensures OneApart(a + mid + tail, b + mid + tail)
  {
    OneApartInside([], a, b, mid + tail);
    assert [] + a + (mid + tail) == a + mid + tail;
    assert [] + b + (mid + tail) == b + mid + tail;
  }

  lemma StateApart(cp: Checkpoint, st: TaskState, x: nat, y: nat)
    requires x == StateCode(cp.state) && y == StateCode(st) && x != y
    ensures OneApart(TaskWords(Some(cp)), TaskWords(Some(cp.(state := st))))
  {
    var cp' := cp.(state := st);
    HeadApart(HeadWords(cp), HeadWords(cp'), Word(cp.id), x, y);
    FrontApart(HeadWords(cp), HeadWords(cp'), Concat(TableParts(cp.capTable)), TailWords(cp));
  }

  /** Changing a saved task's state is noticed exactly when the state code changes. */
  lemma SwappedStateIff(s: SystemSnapshot, i: nat, st: TaskState, tasks: TaskTable)
    requires i < |s.tasks| && s.tasks[i].Some? && s.valid && s.checksum == Checksum(s)
    ensures Restore(Replace(s, i, s.tasks[i].value.(state := st)), tasks).0.Ok? <==> StateCode(st) == StateCode(s.tasks[i].value.state)
  {
    var cp := s.tasks[i].value;
    if StateCode(st) != StateCode(cp.state) {
      StateApart(cp, st, StateCode(cp.state), StateCode(st));
      OneApartDiffer(TaskWords(Some(cp)), TaskWords(Some(cp.(state := st))));
    } else {
      assert HeadWords(cp.(state := st)) == HeadWords(cp);
    }
    ReplacedIff(s, i, cp.(state := st), tasks);
  }

  lemma OneApartDiffer(a: seq<nat>, b: seq<nat>)
    requires OneApart(a, b)
    ensures a != b
  {
  }

  /** So one plain state changed into another is refused. */
  lemma ChangedStateRefused(s: SystemSnapshot, i: nat, st: TaskState, tasks: TaskTable)
    requires i < |s.tasks| && s.tasks[i].Some? && s.valid && s.checksum == Checksum(s)
    requires PlainState(st) && PlainState(s.tasks[i].value.state) && st != s.tasks[i].value.state
    ensures Restore(Replace(s, i, s.tasks[i].value.(state := st)), tasks) == (Err(()), tasks)
  {
    SwappedStateIff(s, i, st, tasks);
    if StateCode(st) == StateCode(s.tasks[i].value.state) {
      PlainStateCode(st, s.tasks[i].value.state);
    }
    RestoreIff(Replace(s, i, s.tasks[i].value.(state := st)), tasks);
  }

  lemma XorBack(k: nat, c: nat, z: nat)
    requires c < WORD && z == 0
    ensures Xor(Xor(Xor(k, Xor(c, k)), z), z) == c
  {
    XorUndo(c, k);
    XorSwap(k, Xor(c, k));
    XorZero(c);
  }

  /** Any word is the code of two memory mappings: doubling the size loses its top bit. */
  lemma MappingCode(c: nat, size: nat)
    requires c < WORD && (size == 0 || size == WORD / 2)
    ensures ResourceCode(MemoryMapping(Xor(c, 0x2000), size, false)) == c
  {
    XorBack(0x2000, c, 0);
    assert Word(Xor(c, 0x2000)) == Xor(c, 0x2000) && Word(2 * size) == 0;
  }

  /** So every resource shares its code with a different one: codes do not identify resources. */
  function Alias(r: Resource): (fake: Resource)
    ensures fake != r && ResourceCode(fake) == ResourceCode(r)
  {
    MappingCode(ResourceCode(r), 0);
    MappingCode(ResourceCode(r), WORD / 2);
    var fake := MemoryMapping(Xor(ResourceCode(r), 0x2000), 0, false);
    if r == fake then fake.(size := WORD / 2) else fake
  }

  /** The task table with one capability's resource swapped. */
  function Swapped(tasks: TaskTable, i: nat, slot: nat, r: Resource): TaskTable
    requires i < |tasks| && tasks[i].Some? && slot < |tasks[i].value.capTable| && tasks[i].value.capTable[slot].Some?
  {
    var t := tasks[i].value;
    tasks[i := Some(t.(capTable := t.capTable[slot := Some(t.capTable[slot].value.(resource := r))]))]
  }

  /** "Restored exactly or refused" fails for every capability of every captured table: with its
      resource swapped for the alias, restore accepts and installs the alias in the live task. */
  lemma AliasInstalled(saved: TaskTable, live: TaskTable, current: Option<nat>, i: nat, slot: nat) returns (now: TaskTable)
    requires IdsMatch(saved) && SameTasks(saved, live)
    requires i < |saved| && saved[i].Some? && slot < |saved[i].value.capTable| && saved[i].value.capTable[slot].Some?
    ensures var c := saved[i].value.capTable[slot].value;
            var forged := c.(resource := Alias(c.resource));
            && Restore(Forge(Capture(saved, current), i, slot, Some(forged)), live) == (Ok(Survivors(saved, live, |saved|)), now)
            && forged.resource != c.resource && |now| == |live| && now[i].Some?
            && now[i].value.capTable == saved[i].value.capTable[slot := Some(forged)]
  {
    var c := saved[i].value.capTable[slot].value;
    var s := Capture(saved, current);
    var fake := Alias(c.resource);
    var forged := Forge(s, i, slot, Some(c.(resource := fake)));
    SwappedResourceIff(s, i, slot, fake, live);
    RestoreIff(forged, live);
    now := InstallSwapped(saved, live, i, slot, fake);
    assert forged.tasks == Checkpoints(Swapped(saved, i, slot, fake));
  }

  lemma InstallSwapped(saved: TaskTable, live: TaskTable, i: nat, slot: nat, r: Resource) returns (now: TaskTable)
    requires IdsMatch(saved) && SameTasks(saved, live)
    requires i < |saved| && saved[i].Some? && slot < |saved[i].value.capTable| && saved[i].value.capTable[slot].Some?
    ensures var cps := Checkpoints(Swapped(saved, i, slot, r));
            InstallAll(live, cps, |cps|) == (now, Survivors(saved, live, |saved|))
    ensures |now| == |live| && now[i].Some?
    ensures now[i].value.capTable == saved[i].value.capTable[slot := Some(saved[i].value.capTable[slot].value.(resource := r))]
  {
    var swapped := Swapped(saved, i, slot, r);
    var cps := Checkpoints(swapped);
    InstallExact(swapped, live, cps, |swapped|);
    SameCount(saved, swapped, live, |saved|);
    now := InstallAll(live, cps, |swapped|).0;
    assert RolledBack(swapped[i], live[i], now[i]);
  }

  lemma {:induction false} SameCount(a: TaskTable, b: TaskTable, live: TaskTable, n: nat)
    requires |a| == |b| == |live| && n <= |a| && forall i :: 0 <= i < |a| ==> a[i].Some? == b[i].Some?
    ensures Survivors(a, live, n) == Survivors(b, live, n)
  {
    if n > 0 {
      SameCount(a, b, live, n - 1);
    }
  }

  lemma XorSwap(a: nat, b: nat)
    ensures Xor(a, b) == Xor(b, a)
  {
    XorCommutes(64, a, b);
  }

  lemma XorZero(a: nat)
    requires a < WORD
    ensures Xor(a, 0) == a
  {
    WordIsPow2();
    XorZeroBits(64, a);
  }

  lemma {:induction false} XorZeroBits(n: nat, a: nat)
    requires a < Pow2(n)
    ensures XorBits(n, a, 0) == a
  {
    if n > 0 {
      XorZeroBits(n - 1, a / 2);
    }
  }

  /** Changing which task was current is noticed exactly when its word changes. */
  lemma SwappedCurrentIff(s: SystemSnapshot, c: Option<nat>, tasks: TaskTable)
    requires s.valid && s.checksum == Checksum(s)
    ensures Restore(s.(current := c), tasks).0.Ok? <==> OptionWord(c) == OptionWord(s.current)
  {
    var forged := s.(current := c);
    var rest := Concat(TasksParts(s.tasks));
    assert Words(s) == [OptionWord(s.current)] + rest && Words(forged) == [OptionWord(c)] + rest;
    if OptionWord(c) != OptionWord(s.current) {
      assert Words(forged) == Words(s)[0 := OptionWord(c)] && Words(s)[0] != Words(forged)[0];
    }
    AcceptedIff(s, forged, tasks);
  }
}
