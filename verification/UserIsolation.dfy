/** Memory isolation of user tasks: over every run of task spawns and user-mode stores, what one
    task stores is never what another task loads. */
module UserIsolation {
  import opened Core
  import opened Paging
  import opened AddressSpaces
  import opened AddressRuns

  /** Every frame of the allocator's region is backed by memory. */
  ghost predicate Backed(m: Machine, base: nat) {
    forall f :: base <= f < m.end && f % FRAME == 0 ==> f in m.mem && |m.mem[f]| == 512
  }

  lemma BackedStep(m: Machine, base: nat, table: nat, i: nat)
    requires Backed(m, base)
    ensures Backed(GetOrCreate(m, table, i).0, base) && GetOrCreate(m, table, i).0.end == m.end
  {
  }

  lemma BackedMap(m: Machine, base: nat, root: nat, v: nat, paddr: nat, writeable: bool)
    requires Backed(m, base)
    ensures Backed(MapPage(m, root, v, paddr, writeable).0, base) && MapPage(m, root, v, paddr, writeable).0.end == m.end
  {
    BackedStep(m, base, root, Index(v, 0));
    var (m1, t1) := GetOrCreate(m, root, Index(v, 0));
    if t1.Some? {
      BackedStep(m1, base, t1.value, Index(v, 1));
      var (m2, t2) := GetOrCreate(m1, t1.value, Index(v, 1));
      if t2.Some? {
        BackedStep(m2, base, t2.value, Index(v, 2));
      }
    }
  }

  lemma BackedDo(s: State, op: Op, base: nat)
    requires Backed(s.m, base) && Enabled(s, op)
    ensures Backed(Do(s, op).m, base) && Do(s, op).m.end == s.m.end && Do(s, op).boot == s.boot
  {
    if op.MapUser? {
      BackedMap(s.m, base, op.space, op.v, op.frame, op.writeable);
    }
  }

  /** What a task of `space` loads from word `j` of the page of `u`. */
  function Load(s: State, space: nat, u: nat, j: nat): Option<nat> {
    var t := Walk(s.m.mem, space, u);
    if t.Some? && t.value.user then Some(Read(s.m.mem, t.value.frame, j)) else None
  }

  /** A user-mode store is seen exactly at the stored word of the stored frame, by whichever spaces
      map that frame, and nowhere else. */
  lemma StoreExact(s: State, g: Layout, mem: Memory, op: Op, space: nat, u: nat, j: nat)
    requires Good(s, g, mem) && Backed(s.m, g.base) && op.Store? && Enabled(s, op)
    requires space in s.spaces && u < LOWER_HALF && j < 512
    ensures Load(Do(s, op), space, u, j) ==
            if (space, Page(u)) in s.view && (op.space, Page(op.v)) in s.view && j == op.i
               && s.view[(space, Page(u))].0 == s.view[(op.space, Page(op.v))].0
            then Some(op.w) else Load(s, space, u, j)
  {
    StoreKeeps(s, g, mem, op);
    var s' := Do(s, op);
    assert Walk(s.m.mem, space, u) == Lookup(s, space, u);
    assert Walk(s'.m.mem, space, u) == Lookup(s', space, u);
    assert DataOk(s, g, s.view[(op.space, Page(op.v))].0);
  }

  // ---- Where runs start ----

  /** The tables a level of the boot half points to. */
  function FirstTables(mem: Memory, boot: nat): set<nat> {
    set i: nat | 256 <= i < 512 && Present(Read(mem, boot, i)) :: Addr(Read(mem, boot, i))
  }

  function Below(mem: Memory, tables: set<nat>): set<nat> {
    set f, i: nat | f in tables && i < 512 && Present(Read(mem, f, i)) && !Huge(Read(mem, f, i)) :: Addr(Read(mem, f, i))
  }

  function AtLevel(tables: set<nat>, level: nat): set<(nat, nat)> {
    set f | f in tables :: (f, level)
  }

  /** Every table a walk of the boot space's upper half can pass through, with its level. */
  function BootTables(mem: Memory, boot: nat): set<(nat, nat)> {
    var one := FirstTables(mem, boot);
    var two := Below(mem, one);
    AtLevel(one, 1) + AtLevel(two, 2) + AtLevel(Below(mem, two), 3)
  }

  predicate Outside(f: nat, base: nat, end: nat) { f < base || end <= f }

  /** A machine fresh from boot. */
  function Booted(mem: Memory, boot: nat, base: nat, end: nat): State {
    State(Machine(mem, base, end), boot, {}, {}, map[])
  }

  /** The layout of a fresh machine: no spaces yet, and the boot half's tables as the kernel's. */
  function BootLayout(mem: Memory, boot: nat, base: nat): Layout {
    Layout(base, map[], BootTables(mem, boot), boot)
  }

  lemma BootClosed(mem: Memory, boot: nat, k: (nat, nat), i: nat)
    requires k in BootTables(mem, boot) && k.1 < 3 && i < 512 && Present(Read(mem, k.0, i)) && !Huge(Read(mem, k.0, i))
    ensures (Addr(Read(mem, k.0, i)), k.1 + 1) in BootTables(mem, boot)
  {
    var one := FirstTables(mem, boot);
    var two := Below(mem, one);
    var a := Addr(Read(mem, k.0, i));
    if k.1 == 1 {
      assert a in two && (a, 2) in AtLevel(two, 2);
    } else {
      assert a in Below(mem, two) && (a, 3) in AtLevel(Below(mem, two), 3);
    }
  }

  /** Any layout a run can start from counts the boot half's tables among the kernel's. */
  lemma BootTablesNeeded(mem: Memory, boot: nat, base: nat, end: nat, g: Layout, k: (nat, nat))
    requires KernelOk(Machine(mem, base, end), g) && g.boot == boot && k in BootTables(mem, boot)
    ensures k in g.kern
  {
    var one := FirstTables(mem, boot);
    var two := Below(mem, one);
    forall f | f in one ensures (f, 1) in g.kern {
    }
    forall f | f in two ensures (f, 2) in g.kern {
      var h, i: nat :| h in one && i < 512 && Present(Read(mem, h, i)) && !Huge(Read(mem, h, i)) && f == Addr(Read(mem, h, i));
      assert (h, 1) in g.kern;
    }
    forall f | f in Below(mem, two) ensures (f, 3) in g.kern {
      var h, i: nat :| h in two && i < 512 && Present(Read(mem, h, i)) && !Huge(Read(mem, h, i)) && f == Addr(Read(mem, h, i));
      assert (h, 2) in g.kern;
    }
  }

  /** A run can start on any memory and any boot PML4 exactly when the allocator's region is aligned,
      inside physical memory, and clear of the boot PML4 and of every table below its upper half. */
  lemma StartIff(mem: Memory, boot: nat, base: nat, end: nat)
    ensures (exists g: Layout :: g.base == base && Start(Booted(mem, boot, base, end), g)) <==>
            && base % FRAME == 0 && base <= end <= ADDR_LIMIT && Outside(boot, base, end)
            && forall k :: k in BootTables(mem, boot) ==> Outside(k.0, base, end)
  {
    var s := Booted(mem, boot, base, end);
    if base % FRAME == 0 && base <= end <= ADDR_LIMIT && Outside(boot, base, end)
       && forall k :: k in BootTables(mem, boot) ==> Outside(k.0, base, end) {
      BootStarts(mem, boot, base, end);
    } else if exists g: Layout :: g.base == base && Start(s, g) {
      var g: Layout :| g.base == base && Start(s, g);
      forall k | k in BootTables(mem, boot) ensures Outside(k.0, base, end) {
        BootTablesNeeded(mem, boot, base, end, g, k);
      }
    }
  }

  lemma BootStarts(mem: Memory, boot: nat, base: nat, end: nat)
    requires base % FRAME == 0 && base <= end <= ADDR_LIMIT && Outside(boot, base, end)
    requires forall k :: k in BootTables(mem, boot) ==> Outside(k.0, base, end)
    ensures BootLayout(mem, boot, base).base == base && Start(Booted(mem, boot, base, end), BootLayout(mem, boot, base))
  {
    var m, g := Machine(mem, base, end), BootLayout(mem, boot, base);
    forall i: nat | 256 <= i < 512 && Present(Read(mem, boot, i)) ensures (Addr(Read(mem, boot, i)), 1) in g.kern {
      assert Addr(Read(mem, boot, i)) in FirstTables(mem, boot);
    }
    forall k, i: nat | k in g.kern && k.1 < 3 && i < 512 && Present(Read(mem, k.0, i)) && !Huge(Read(mem, k.0, i))
      ensures (Addr(Read(mem, k.0, i)), k.1 + 1) in g.kern
    {
      BootClosed(mem, boot, k, i);
    }
  }

  // ---- Runs of user tasks ----

  datatype Act = Spawn(active: nat, blob: seq<nat>) | Write(space: nat, v: nat, i: nat, w: nat)

  /** One act of a run. A spawn that panics ends the run, so it has no successor. */
  ghost predicate Steps(s: State, a: Act, s': State) {
    match a
    case Spawn(active, blob) => exists ss :: SpawnPath(ss, active, blob) && ss[0] == s && ss[6] == s'
    case Write(space, v, i, w) => Enabled(s, Store(space, v, i, w)) && s' == Do(s, Store(space, v, i, w))
  }

  ghost predicate IsTaskRun(ss: seq<State>, acts: seq<Act>) {
    |ss| == |acts| + 1 && forall i :: 0 <= i < |acts| ==> Steps(ss[i], acts[i], ss[i + 1])
  }

  lemma {:induction false} BackedPath(ss: seq<State>, ops: seq<Op>, base: nat, n: nat)
    requires IsRun(ss, ops) && Backed(ss[0].m, base) && n < |ss|
    ensures Backed(ss[n].m, base) && ss[n].m.end == ss[0].m.end && ss[n].boot == ss[0].boot
  {
    if n > 0 {
      BackedPath(ss, ops, base, n - 1);
      BackedDo(ss[n - 1], ops[n - 1], base);
    }
  }

  lemma FreshRoot(s: State, g: Layout)
    requires Inv(s.m, g) && Shape(s, g)
    ensures forall k :: k in s.view ==> k.0 != s.m.next
  {
  }

  lemma SpawnIsolated(ss: seq<State>, g: Layout, mem: Memory, active: nat, blob: seq<nat>) returns (g': Layout)
    requires SpawnPath(ss, active, blob) && Good(ss[0], g, mem) && Private(ss[0]) && Backed(ss[0].m, g.base)
    ensures Good(ss[6], g', mem) && Private(ss[6]) && Backed(ss[6].m, g'.base)
    ensures g'.base == g.base && ss[6].m.end == ss[0].m.end && ss[6].boot == ss[0].boot
  {
    var ops := SpawnOps(ss[0].m.next, active, blob);
    FreshRoot(ss[0], g);
    SpawnExact(ss, active, blob);
    SpawnPrivate(ss[0], g, ss[6].m);
    BackedPath(ss, ops, g.base, 6);
    g' := PathGood(ss, ops, g, mem, 6);
  }

  lemma StepIsolated(s: State, g: Layout, mem: Memory, a: Act, s': State) returns (g': Layout)
    requires Good(s, g, mem) && Private(s) && Backed(s.m, g.base) && Steps(s, a, s')
    ensures Good(s', g', mem) && Private(s') && Backed(s'.m, g'.base)
    ensures g'.base == g.base && s'.m.end == s.m.end && s'.boot == s.boot
  {
    if a.Spawn? {
      var ss :| SpawnPath(ss, a.active, a.blob) && ss[0] == s && ss[6] == s';
      g' := SpawnIsolated(ss, g, mem, a.active, a.blob);
    } else {
      g' := g;
      StoreKeeps(s, g, mem, Store(a.space, a.v, a.i, a.w));
      BackedDo(s, Store(a.space, a.v, a.i, a.w), g.base);
    }
  }

  lemma {:induction false} TasksPrivate(ss: seq<State>, acts: seq<Act>, g0: Layout, n: nat) returns (g: Layout)
    requires IsTaskRun(ss, acts) && Start(ss[0], g0) && Backed(ss[0].m, g0.base) && n < |ss|
    ensures Good(ss[n], g, ss[0].m.mem) && Private(ss[n]) && Backed(ss[n].m, g.base)
    ensures g.base == g0.base && ss[n].m.end == ss[0].m.end && ss[n].boot == ss[0].boot
  {
    if n == 0 {
      g := g0;
    } else {
      var g1 := TasksPrivate(ss, acts, g0, n - 1);
      g := StepIsolated(ss[n - 1], g1, ss[0].m.mem, acts[n - 1], ss[n]);
    }
  }

  /** No user page of the boot half lies in the allocator's region. */
  ghost predicate UpperApart(s: State, base: nat) {
    forall v: nat :: LOWER_HALF <= v < CANONICAL && Walk(s.m.mem, s.boot, v).Some? && Walk(s.m.mem, s.boot, v).value.user ==>
      Outside(Walk(s.m.mem, s.boot, v).value.frame, base, s.m.end)
  }

  /** A store lands in the allocator's region, so pages outside it keep their words. */
  lemma UpperStore(s: State, g: Layout, mem: Memory, op: Op, space: nat, u: nat, j: nat)
    requires Good(s, g, mem) && op.Store? && Enabled(s, op) && space in s.spaces && LOWER_HALF <= u < CANONICAL
    requires var t := Walk(mem, s.boot, u); t.Some? && t.value.user ==> Outside(t.value.frame, g.base, s.m.end)
    ensures Load(Do(s, op), space, u, j) == Load(s, space, u, j)
  {
    StoreKeeps(s, g, mem, op);
    var f := Walk(s.m.mem, op.space, op.v).value.frame;
    assert DataOk(s, g, f);
    assert Walk(s.m.mem, space, u) == Walk(mem, s.boot, u);
    assert Walk(Do(s, op).m.mem, space, u) == Walk(mem, s.boot, u);
  }

  /** In every run, a store by one task changes no word any other task can load, whether through its
      own half or through a user page of the kernel's. */
  lemma TasksIsolated(ss: seq<State>, acts: seq<Act>, g0: Layout, n: nat, other: nat, u: nat, j: nat)
    requires IsTaskRun(ss, acts) && Start(ss[0], g0) && Backed(ss[0].m, g0.base) && n < |acts|
    requires acts[n].Write? && other in ss[n].spaces && other != acts[n].space && j < 512
    requires u < LOWER_HALF || (u < CANONICAL && UpperApart(ss[0], g0.base))
    ensures Load(ss[n + 1], other, u, j) == Load(ss[n], other, u, j)
  {
    var g := TasksPrivate(ss, acts, g0, n);
    assert Steps(ss[n], acts[n], ss[n + 1]);
    var op := Store(acts[n].space, acts[n].v, acts[n].i, acts[n].w);
    if u < LOWER_HALF {
      StoreExact(ss[n], g, ss[0].m.mem, op, other, u, j);
    } else {
      UpperStore(ss[n], g, ss[0].m.mem, op, other, u, j);
    }
  }
}
