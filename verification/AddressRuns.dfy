/** Address spaces over whole runs: any mixture of new spaces, frame allocations, user mappings,
    kernel copies into data frames and user-mode stores keeps every space's translations equal to
    a plain map from (space, page) to (frame, writable). */
module AddressRuns {
  import opened Core
  import opened Paging
  import opened AddressSpaces
  import opened AddressMaps

  /** The machine with the abstract view it should present. `data` are the frames handed out by
      the allocator for user pages. */
  datatype State = State(m: Machine, boot: nat, spaces: set<nat>, data: set<nat>, view: map<(nat, nat), (nat, bool)>)

  datatype Op =
    | New(active: nat)
    | Alloc
    | MapUser(space: nat, v: nat, frame: nat, writeable: bool)
    | Fill(frame: nat, row: seq<nat>)
    | Store(space: nat, v: nat, i: nat, w: nat)

  predicate Enabled(s: State, op: Op) {
    match op
    case New(active) => active in s.spaces || active == s.boot
    case Alloc => true
    case MapUser(space, v, frame, _) => space in s.spaces && v < LOWER_HALF && frame in s.data
    case Fill(frame, row) => frame in s.data && |row| == 512
    case Store(space, v, i, _) =>
      && space in s.spaces && v < LOWER_HALF && i < 512
      && Walk(s.m.mem, space, v).Some? && Walk(s.m.mem, space, v).value.user && Walk(s.m.mem, space, v).value.write
  }

  function Do(s: State, op: Op): State
    requires Enabled(s, op)
  {
    match op
    case New(active) =>
      var (m, f) := NewSpace(s.m, active);
      if f.None? then s.(m := m) else s.(m := m, spaces := s.spaces + {f.value})
    case Alloc =>
      var (m, f) := AllocateFrame(s.m);
      if f.None? then s.(m := m) else s.(m := m, data := s.data + {f.value})
    case MapUser(space, v, frame, writeable) =>
      var (m, ok) := MapPage(s.m, space, v, frame, writeable);
      if ok then s.(m := m, view := s.view[(space, Page(v)) := (frame, writeable)]) else s.(m := m)
    case Fill(frame, row) => s.(m := s.m.(mem := s.m.mem[frame := row]))
    case Store(space, v, i, w) =>
      s.(m := s.m.(mem := Write(s.m.mem, Walk(s.m.mem, space, v).value.frame, i, w)))
  }

  /** What the abstract view says about an address of a space. */
  function Lookup(s: State, r: nat, v: nat): Option<Translation> {
    if (r, Page(v)) in s.view then Some(Translation(3, s.view[(r, Page(v))].0, true, s.view[(r, Page(v))].1)) else None
  }

  /** Every lower-half translation is the view's. */
  ghost predicate Refines(s: State) {
    forall r, v: nat :: r in s.spaces && v < LOWER_HALF ==> Walk(s.m.mem, r, v) == Lookup(s, r, v)
  }

  /** Every upper-half translation, in the boot space and every other, is what it was in `mem`. */
  ghost predicate KernelHalf(s: State, mem: Memory) {
    forall v: nat :: LOWER_HALF <= v < CANONICAL ==>
      && Walk(s.m.mem, s.boot, v) == Walk(mem, s.boot, v)
      && forall r :: r in s.spaces ==> Walk(s.m.mem, r, v) == Walk(mem, s.boot, v)
  }

  ghost predicate DataOk(s: State, g: Layout, f: nat) {
    g.base <= f < s.m.next && f < s.m.end && f % FRAME == 0 && f !in g.own
  }

  /** How the abstract view sits on the layout. */
  ghost predicate Shape(s: State, g: Layout) {
    && g.boot == s.boot
    && (forall f: nat :: f in s.spaces <==> Root(g, f))
    && (forall f :: f in s.data ==> DataOk(s, g, f))
    && (forall k :: k in s.view ==> k.0 in s.spaces && s.view[k].0 in s.data)
  }

  /** Nothing is mapped yet and no frame has been handed out. */
  ghost predicate Start(s: State, g: Layout) {
    Inv(s.m, g) && g.own == map[] && g.boot == s.boot && s.spaces == {} && s.data == {} && s.view == map[]
  }

  ghost predicate Good(s: State, g: Layout, mem: Memory) {
    Inv(s.m, g) && Shape(s, g) && Refines(s) && KernelHalf(s, mem)
  }

  // ---- Each operation ----

  /** The boot space's half is kept by anything that keeps the kernel's words. */
  lemma BootHalf(m: Machine, m': Machine, g: Layout)
    requires KernelOk(m, g)
    requires forall k, i: nat :: k in g.kern ==> Read(m'.mem, k.0, i) == Read(m.mem, k.0, i)
    requires forall j: nat :: Read(m'.mem, g.boot, j) == Read(m.mem, g.boot, j)
    ensures forall v: nat :: LOWER_HALF <= v < CANONICAL ==> Walk(m'.mem, g.boot, v) == Walk(m.mem, g.boot, v)
  {
  }

  /** Memory changes outside the tables keep everything. */
  lemma OutsideKeeps(s: State, g: Layout, mem: Memory, m': Machine)
    requires Good(s, g, mem) && SameWords(s.m, m', g) && m'.end == s.m.end
    requires s.m.next <= m'.next <= s.m.end && m'.next % FRAME == 0
    requires forall f :: f in g.own ==> f in m'.mem && |m'.mem[f]| == 512
    ensures Good(s.(m := m'), g, mem)
  {
    SameWordsKeep(s.m, m', g);
    BootHalf(s.m, m', g);
    var s' := s.(m := m');
    forall f | f in s'.data ensures DataOk(s', g, f) {
      assert DataOk(s, g, f);
    }
    forall r, v: nat | r in s'.spaces && v < LOWER_HALF ensures Walk(s'.m.mem, r, v) == Lookup(s', r, v) {
      assert Walk(s.m.mem, r, v) == Lookup(s, r, v);
    }
  }

  lemma AllocKeeps(s: State, g: Layout, mem: Memory)
    requires Good(s, g, mem)
    ensures Good(Do(s, Alloc), g, mem)
  {
    if s.m.next + FRAME <= s.m.end {
      var m' := s.m.(next := s.m.next + FRAME);
      NextAligned(s.m.next);
      forall f | f in g.own ensures f in m'.mem && |m'.mem[f]| == 512 && f != s.m.next {
        assert FrameOk(s.m, g, f);
      }
      OutsideKeeps(s, g, mem, m');
      var s1 := s.(m := m');
      var s' := s1.(data := s1.data + {s.m.next});
      forall f | f in s'.data ensures DataOk(s', g, f) {
        assert f != s.m.next ==> DataOk(s1, g, f);
      }
      forall r, v: nat | r in s'.spaces && v < LOWER_HALF ensures Walk(s'.m.mem, r, v) == Lookup(s', r, v) {
        assert Walk(s1.m.mem, r, v) == Lookup(s1, r, v);
      }
    }
  }

  /** A data frame is no table of a space or of the kernel, so its contents are free. */
  lemma DataWrite(s: State, g: Layout, mem: Memory, f: nat, row: seq<nat>)
    requires Good(s, g, mem) && f in s.data
    ensures Good(s.(m := s.m.(mem := s.m.mem[f := row])), g, mem)
  {
    var m' := s.m.(mem := s.m.mem[f := row]);
    assert DataOk(s, g, f);
    forall h | h in g.own ensures h in m'.mem && |m'.mem[h]| == 512 {
      assert FrameOk(s.m, g, h);
    }
    OutsideKeeps(s, g, mem, m');
  }

  /** A user-mode store lands in a data frame. */
  lemma StoreKeeps(s: State, g: Layout, mem: Memory, op: Op)
    requires Good(s, g, mem) && op.Store? && Enabled(s, op)
    ensures Good(Do(s, op), g, mem)
    ensures (op.space, Page(op.v)) in s.view && Walk(s.m.mem, op.space, op.v).value.frame == s.view[(op.space, Page(op.v))].0
  {
    assert Walk(s.m.mem, op.space, op.v) == Lookup(s, op.space, op.v);
    var f := Walk(s.m.mem, op.space, op.v).value.frame;
    assert f in s.data;
    if f in s.m.mem && op.i < |s.m.mem[f]| {
      DataWrite(s, g, mem, f, s.m.mem[f][op.i := op.w]);
    }
  }

  lemma MapKeeps(s: State, g: Layout, mem: Memory, op: Op) returns (g': Layout)
    requires Good(s, g, mem) && op.MapUser? && Enabled(s, op)
    ensures Good(Do(s, op), g', mem)
    ensures g'.base == g.base
  {
    var m', ok;
    m', g', ok := MapFacts(s, g, op);
    MapGood(s, g, mem, g', m', ok, op);
  }

  lemma MapFacts(s: State, g: Layout, op: Op) returns (m': Machine, g': Layout, ok: bool)
    requires Inv(s.m, g) && Shape(s, g) && op.MapUser? && Enabled(s, op)
    ensures (m', ok) == MapPage(s.m, op.space, op.v, op.frame, op.writeable)
    ensures Inv(m', g') && Extends(g, g') && Grown(s.m, g, m', g') && m'.end == s.m.end && Mapped(s.m, m', g, ok, op)
    ensures m'.next <= s.m.next + 3 * FRAME && (!ok ==> s.m.end < s.m.next + 3 * FRAME)
    ensures g'.base == g.base
  {
    g' := MapExact(s.m, g, op.space, op.v, op.frame, op.writeable);
    var result := MapPage(s.m, op.space, op.v, op.frame, op.writeable);
    m', ok := result.0, result.1;
    assert DataOk(s, g, op.frame);
    AlignedAddr(op.frame);
  }

  lemma AlignedAddr(f: nat)
    requires f % FRAME == 0 && f < ADDR_LIMIT
    ensures Addr(f) == f
  {
  }

  /** The translations after mapping `op`, as `MapExact` gives them. */
  ghost predicate Mapped(m: Machine, m': Machine, g: Layout, ok: bool, op: Op)
    requires op.MapUser?
  {
    forall r, u: nat :: Root(g, r) && u < CANONICAL ==>
      Walk(m'.mem, r, u) ==
      if ok && r == op.space && Page(u) == Page(op.v) then Some(Translation(3, op.frame, true, op.writeable))
      else Walk(m.mem, r, u)
  }

  function MapView(s: State, m': Machine, ok: bool, op: Op): State
    requires op.MapUser?
  {
    if ok then s.(m := m', view := s.view[(op.space, Page(op.v)) := (op.frame, op.writeable)]) else s.(m := m')
  }

  lemma MapShape(s: State, g: Layout, g': Layout, m': Machine, ok: bool, op: Op)
    requires Shape(s, g) && op.MapUser? && op.space in s.spaces && op.frame in s.data
    requires Extends(g, g') && Grown(s.m, g, m', g') && m'.end == s.m.end
    ensures Shape(MapView(s, m', ok, op), g')
  {
  }

  lemma MapRefines(s: State, g: Layout, m': Machine, ok: bool, op: Op)
    requires Refines(s) && op.MapUser? && Mapped(s.m, m', g, ok, op) && forall f: nat :: f in s.spaces <==> Root(g, f)
    ensures Refines(MapView(s, m', ok, op))
  {
  }

  lemma MapHalf(s: State, g: Layout, mem: Memory, g': Layout, m': Machine, ok: bool, op: Op)
    requires KernelOk(s.m, g) && KernelHalf(s, mem) && op.MapUser? && op.v < LOWER_HALF && Mapped(s.m, m', g, ok, op)
    requires g.boot == s.boot && Grown(s.m, g, m', g') && forall f: nat :: f in s.spaces <==> Root(g, f)
    ensures KernelHalf(MapView(s, m', ok, op), mem)
  {
    BootHalf(s.m, m', g);
    forall r, v: nat | r in s.spaces && LOWER_HALF <= v < CANONICAL ensures Walk(m'.mem, r, v) == Walk(mem, s.boot, v) {
      OtherHalf(v, op.v);
    }
  }

  lemma MapGood(s: State, g: Layout, mem: Memory, g': Layout, m': Machine, ok: bool, op: Op)
    requires Good(s, g, mem) && op.MapUser? && Enabled(s, op)
    requires Inv(m', g') && Extends(g, g') && Grown(s.m, g, m', g') && m'.end == s.m.end && Mapped(s.m, m', g, ok, op)
    ensures Good(MapView(s, m', ok, op), g', mem)
  {
    MapShape(s, g, g', m', ok, op);
    MapRefines(s, g, m', ok, op);
    MapHalf(s, g, mem, g', m', ok, op);
  }

  lemma OtherHalf(v: nat, u: nat)
    requires u < LOWER_HALF <= v
    ensures Page(u) != Page(v)
  {
  }

  lemma NewKeepsAll(s: State, g: Layout, mem: Memory, op: Op) returns (g': Layout)
    requires Good(s, g, mem) && op.New? && Enabled(s, op)
    ensures Good(Do(s, op), g', mem)
    ensures g'.base == g.base
  {
    g' := g;
    if s.m.next + FRAME <= s.m.end {
      NewSpaceExact(s.m, g, op.active);
      g' := AddSpace(g, s.m.next);
      NewGood(s, g, mem, NewSpace(s.m, op.active).0, op.active);
    }
  }

  lemma NewShape(s: State, g: Layout, m': Machine)
    requires Shape(s, g) && s.m.next <= m'.next && m'.end == s.m.end
    ensures Shape(s.(m := m', spaces := s.spaces + {s.m.next}), AddSpace(g, s.m.next))
  {
  }

  lemma NewRefines(s: State, g: Layout, m': Machine)
    requires Refines(s) && SameWalks(s.m, m', g) && Shape(s, g) && s.m.next !in s.spaces
    requires forall v: nat :: v < LOWER_HALF ==> Walk(m'.mem, s.m.next, v) == None
    ensures Refines(s.(m := m', spaces := s.spaces + {s.m.next}))
  {
  }

  lemma NewHalf(s: State, g: Layout, mem: Memory, m': Machine, active: nat)
    requires KernelHalf(s, mem) && KernelOk(s.m, g) && Shape(s, g) && (active in s.spaces || active == s.boot)
    requires SameWords(s.m, m', g) && SameWalks(s.m, m', g)
    requires forall v: nat :: LOWER_HALF <= v < CANONICAL ==> Walk(m'.mem, s.m.next, v) == Walk(s.m.mem, active, v)
    ensures KernelHalf(s.(m := m', spaces := s.spaces + {s.m.next}), mem)
  {
    BootHalf(s.m, m', g);
  }

  lemma NewGood(s: State, g: Layout, mem: Memory, m': Machine, active: nat)
    requires Good(s, g, mem) && (active in s.spaces || active == s.boot)
    requires s.m.next !in g.own && m'.next == s.m.next + FRAME && m'.end == s.m.end
    requires Inv(m', AddSpace(g, s.m.next)) && SameWords(s.m, m', g) && SameWalks(s.m, m', g)
    requires forall v: nat :: v < LOWER_HALF ==> Walk(m'.mem, s.m.next, v) == None
    requires forall v: nat :: LOWER_HALF <= v < CANONICAL ==> Walk(m'.mem, s.m.next, v) == Walk(s.m.mem, active, v)
    ensures Good(s.(m := m', spaces := s.spaces + {s.m.next}), AddSpace(g, s.m.next), mem)
  {
    NewShape(s, g, m');
    NewRefines(s, g, m');
    NewHalf(s, g, mem, m', active);
  }

  // ---- Whole runs ----

  ghost predicate IsRun(ss: seq<State>, ops: seq<Op>) {
    && |ss| == |ops| + 1
    && forall i :: 0 <= i < |ops| ==> Enabled(ss[i], ops[i]) && ss[i + 1] == Do(ss[i], ops[i])
  }

  lemma StepGood(s: State, g: Layout, mem: Memory, op: Op) returns (g': Layout)
    requires Good(s, g, mem) && Enabled(s, op)
    ensures Good(Do(s, op), g', mem)
    ensures g'.base == g.base
  {
    g' := g;
    match op
    case New(_) => g' := NewKeepsAll(s, g, mem, op);
    case Alloc => AllocKeeps(s, g, mem);
    case MapUser(_, _, _, _) => g' := MapKeeps(s, g, mem, op);
    case Fill(frame, row) => DataWrite(s, g, mem, frame, row);
    case Store(_, _, _, _) => StoreKeeps(s, g, mem, op);
  }

  /** In every state of every run, each space translates its lower half exactly as the abstract
      view says and its upper half exactly as the boot space did at the start. */
  lemma {:induction false} RunRefines(ss: seq<State>, ops: seq<Op>, g0: Layout, n: nat) returns (g: Layout)
    requires IsRun(ss, ops) && Start(ss[0], g0) && n < |ss|
    ensures Good(ss[n], g, ss[0].m.mem) && ss[n].boot == ss[0].boot
  {
    if n == 0 {
      g := g0;
    } else {
      var g1 := RunRefines(ss, ops, g0, n - 1);
      g := StepGood(ss[n - 1], g1, ss[0].m.mem, ops[n - 1]);
    }
  }

  // ---- What the layout gives ----

  /** The table a chain of present entries leads to. */
  function TableAt(mem: Memory, root: nat, path: seq<nat>): Option<nat> {
    if path == [] then Some(root)
    else
      var up := TableAt(mem, root, path[..|path| - 1]);
      if up.None? || !Present(Read(mem, up.value, path[|path| - 1])) then None
      else Some(Addr(Read(mem, up.value, path[|path| - 1])))
  }

  lemma {:induction false} TableOwned(m: Machine, g: Layout, root: nat, path: seq<nat>)
    requires Inv(m, g) && Root(g, root) && GoodPath(path) && TableAt(m.mem, root, path).Some?
    ensures var f := TableAt(m.mem, root, path).value; f in g.own && g.own[f] == Node(root, path)
  {
    if path != [] {
      var up, i := path[..|path| - 1], path[|path| - 1];
      TableOwned(m, g, root, up);
      var f := TableAt(m.mem, root, up).value;
      assert LinkOk(m, g, f, i);
      assert up + [i] == path;
    }
  }

  /** Lower-half tables of different spaces, or at different places in one space, never overlap,
      and no table overlaps a data frame. */
  lemma TablesApart(s: State, g: Layout, r: nat, p: seq<nat>, r': nat, p': seq<nat>)
    requires Inv(s.m, g) && Shape(s, g) && r in s.spaces && r' in s.spaces && GoodPath(p) && GoodPath(p')
    requires TableAt(s.m.mem, r, p).Some? && TableAt(s.m.mem, r', p').Some?
    ensures var f, h := TableAt(s.m.mem, r, p).value, TableAt(s.m.mem, r', p').value;
            && ((r, p) != (r', p') ==> f + FRAME <= h || h + FRAME <= f)
            && (forall d :: d in s.data ==> f + FRAME <= d || d + FRAME <= f)
  {
    TableOwned(s.m, g, r, p);
    TableOwned(s.m, g, r', p');
    var f, h := TableAt(s.m.mem, r, p).value, TableAt(s.m.mem, r', p').value;
    assert FrameOk(s.m, g, f) && FrameOk(s.m, g, h);
    if (r, p) != (r', p') {
      FramesApart(f, h);
    }
    forall d | d in s.data ensures f + FRAME <= d || d + FRAME <= f {
      assert DataOk(s, g, d);
      FramesApart(f, d);
    }
  }

  lemma FramesApart(f: nat, h: nat)
    requires f % FRAME == 0 && h % FRAME == 0 && f != h
    ensures f + FRAME <= h || h + FRAME <= f
  {
  }

  // ---- User tasks ----

  const USER_CODE: nat := 0x40_0000
  const USER_STACK: nat := 0x7f_f000

  /** The kernel calls of `spawn_user`, in order: a space, a code and a stack frame, their two
      mappings, and the program copied into the code frame. */
  function SpawnOps(root: nat, active: nat, blob: seq<nat>): seq<Op> {
    [New(active), Alloc, Alloc,
     MapUser(root, USER_CODE, root + FRAME, true),
     MapUser(root, USER_STACK, root + 2 * FRAME, true),
     Fill(root + FRAME, blob)]
  }

  /** A spawn in which no call failed; the kernel panics when one does. */
  ghost predicate SpawnPath(ss: seq<State>, active: nat, blob: seq<nat>) {
    && |ss| == 7 && IsRun(ss, SpawnOps(ss[0].m.next, active, blob)) && ss[0].m.next + 3 * FRAME <= ss[0].m.end
    && (ss[0].m.next, Page(USER_CODE)) in ss[4].view && (ss[0].m.next, Page(USER_STACK)) in ss[5].view
  }

  /** The state a spawned task leaves: one more space, two more data frames, two more pages. */
  function Spawned(s: State, m': Machine): State {
    var root, code, stack := s.m.next, s.m.next + FRAME, s.m.next + 2 * FRAME;
    s.(m := m', spaces := s.spaces + {root}, data := s.data + {code} + {stack},
       view := s.view[(root, Page(USER_CODE)) := (code, true)][(root, Page(USER_STACK)) := (stack, true)])
  }

  /** No frame is mapped by two spaces. */
  ghost predicate Private(s: State) {
    forall k, k' :: k in s.view && k' in s.view && k.0 != k'.0 ==> s.view[k].0 != s.view[k'].0
  }

  lemma {:induction false} PathGood(ss: seq<State>, ops: seq<Op>, g: Layout, mem: Memory, n: nat) returns (g': Layout)
    requires IsRun(ss, ops) && Good(ss[0], g, mem) && n < |ss|
    ensures Good(ss[n], g', mem) && g'.base == g.base
  {
    if n == 0 {
      g' := g;
    } else {
      var g1 := PathGood(ss, ops, g, mem, n - 1);
      g' := StepGood(ss[n - 1], g1, mem, ops[n - 1]);
    }
  }

  /** What the three allocations do to everything but memory. */
  lemma SpawnFrames(ss: seq<State>, active: nat, blob: seq<nat>)
    requires |ss| == 7 && IsRun(ss, SpawnOps(ss[0].m.next, active, blob)) && ss[0].m.next + 3 * FRAME <= ss[0].m.end
    ensures var root := ss[0].m.next;
            && ss[3].spaces == ss[0].spaces + {root} && ss[3].data == ss[0].data + {root + FRAME} + {root + 2 * FRAME}
            && ss[3].view == ss[0].view && ss[3].boot == ss[0].boot
            && ss[3].m.next == root + 3 * FRAME && ss[3].m.end == ss[0].m.end
  {
    var ops := SpawnOps(ss[0].m.next, active, blob);
    assert ss[1] == Do(ss[0], ops[0]);
    assert ss[2] == Do(ss[1], ops[1]);
    assert ss[3] == Do(ss[2], ops[2]);
  }

  /** Spawning a user task adds exactly its space, its two frames and its two pages. */
  lemma SpawnExact(ss: seq<State>, active: nat, blob: seq<nat>)
    requires SpawnPath(ss, active, blob) && forall k :: k in ss[0].view ==> k.0 != ss[0].m.next
    ensures ss[6] == Spawned(ss[0], ss[6].m)
  {
    var root, ops := ss[0].m.next, SpawnOps(ss[0].m.next, active, blob);
    SpawnFrames(ss, active, blob);
    SpawnMap(ss, ops, 3);
    PagesDiffer();
    SpawnMap(ss, ops, 4);
    assert ss[6] == Do(ss[5], ops[5]);
  }

  lemma SpawnMap(ss: seq<State>, ops: seq<Op>, n: nat)
    requires IsRun(ss, ops) && n < |ops| && ops[n].MapUser? && (ops[n].space, Page(ops[n].v)) !in ss[n].view
    ensures ss[n + 1] == ss[n].(m := ss[n + 1].m, view := ss[n + 1].view)
    ensures (ops[n].space, Page(ops[n].v)) in ss[n + 1].view ==>
              ss[n + 1].view == ss[n].view[(ops[n].space, Page(ops[n].v)) := (ops[n].frame, ops[n].writeable)]
  {
  }

  lemma PagesDiffer()
    ensures Page(USER_CODE) != Page(USER_STACK)
  {
  }

  /** Its frames are new, so no other space maps them. */
  lemma SpawnPrivate(s: State, g: Layout, m': Machine)
    requires Shape(s, g) && Private(s)
    ensures Private(Spawned(s, m'))
  {
  }

  /** A mapping takes effect whenever three frames are left, and takes at most three. */
  lemma MapRoom(s: State, g: Layout, op: Op)
    requires Inv(s.m, g) && Shape(s, g) && op.MapUser? && Enabled(s, op)
    ensures var s' := Do(s, op);
            && s'.m.next <= s.m.next + 3 * FRAME && s'.m.end == s.m.end
            && (s.m.next + 3 * FRAME <= s.m.end ==> (op.space, Page(op.v)) in s'.view)
  {
    var m', g', ok := MapFacts(s, g, op);
  }

  /** A spawn cannot run out of frames while nine are left. */
  lemma NineFramesSuffice(ss: seq<State>, g: Layout, mem: Memory, active: nat, blob: seq<nat>)
    requires |ss| == 7 && IsRun(ss, SpawnOps(ss[0].m.next, active, blob)) && Good(ss[0], g, mem)
    requires ss[0].m.next + 9 * FRAME <= ss[0].m.end
    ensures SpawnPath(ss, active, blob)
  {
    var ops := SpawnOps(ss[0].m.next, active, blob);
    SpawnFrames(ss, active, blob);
    MapRoomAt(ss, ops, g, mem, 3);
    MapRoomAt(ss, ops, g, mem, 4);
  }

  lemma MapRoomAt(ss: seq<State>, ops: seq<Op>, g: Layout, mem: Memory, n: nat)
    requires IsRun(ss, ops) && Good(ss[0], g, mem) && n < |ops| && ops[n].MapUser?
    ensures ss[n + 1].m.next <= ss[n].m.next + 3 * FRAME && ss[n + 1].m.end == ss[n].m.end
    ensures ss[n].m.next + 3 * FRAME <= ss[n].m.end ==> (ops[n].space, Page(ops[n].v)) in ss[n + 1].view
  {
    var g' := PathGood(ss, ops, g, mem, n);
    MapRoom(ss[n], g', ops[n]);
  }
}
