/** Why address spaces cannot interfere: every table frame below a space's lower half
    belongs to exactly one space, one level and one path, so a mapping changes the
    translation it names and no other. */
module AddressSpaces {
  import opened Core
  import opened Paging

  /** The place of a table frame: the space it belongs to and the indices leading to it. */
  datatype Node = Node(root: nat, path: seq<nat>)

  /** Ghost bookkeeping: the allocator's region starts at `base`; `own` places every table
      frame; `kern` lists the kernel's shared tables by level; `boot` is the boot PML4. */
  datatype Layout = Layout(base: nat, own: map<nat, Node>, kern: set<(nat, nat)>, boot: nat)

  ghost predicate Root(g: Layout, f: nat) {
    f in g.own && g.own[f] == Node(f, [])
  }

  predicate GoodPath(p: seq<nat>) {
    |p| <= 3 && (forall k :: 0 <= k < |p| ==> p[k] < 512) && (p != [] ==> p[0] < 256)
  }

  ghost predicate FramesOk(m: Machine, g: Layout) {
    && g.base % FRAME == 0 && m.next % FRAME == 0 && g.base <= m.next <= m.end <= ADDR_LIMIT
    && (forall f :: f in g.own ==> FrameOk(m, g, f))
  }

  ghost predicate FrameOk(m: Machine, g: Layout, f: nat)
    requires f in g.own
  {
    && g.base <= f < m.next && f < m.end && f % FRAME == 0
    && f in m.mem && |m.mem[f]| == 512
    && GoodPath(g.own[f].path) && Root(g, g.own[f].root)
    && (g.own[f].path == [] ==> g.own[f].root == f)
  }

  lemma NextAligned(n: nat)
    requires n % FRAME == 0
    ensures (n + FRAME) % FRAME == 0
  {
  }

  ghost predicate Injective(g: Layout) {
    forall f, h :: f in g.own && h in g.own && g.own[f] == g.own[h] ==> f == h
  }

  /** An index a space may use for its own tables: any, except the upper half of the root. */
  predicate OwnIndex(n: Node, i: nat) {
    i < 512 && |n.path| < 3 && (n.path == [] ==> i < 256)
  }

  /** A present entry of a table leads to the table at the extended path, with full rights. */
  ghost predicate LinkOk(m: Machine, g: Layout, f: nat, i: nat)
    requires f in g.own
  {
    var e := Read(m.mem, f, i);
    OwnIndex(g.own[f], i) && Present(e) ==>
      && Addr(e) in g.own && g.own[Addr(e)] == Node(g.own[f].root, g.own[f].path + [i])
      && UserOk(e) && Writable(e) && !Huge(e)
  }

  ghost predicate Links(m: Machine, g: Layout) {
    forall f, i: nat :: f in g.own ==> LinkOk(m, g, f, i)
  }

  /** Every table below a root hangs from its parent. */
  ghost predicate Parented(m: Machine, g: Layout) {
    forall h :: h in g.own && g.own[h].path != [] ==> exists f :: HangsFrom(m, g, h, f)
  }

  ghost predicate HangsFrom(m: Machine, g: Layout, h: nat, f: nat)
    requires h in g.own && g.own[h].path != []
  {
    var n := |g.own[h].path| - 1;
    && f in g.own && g.own[f] == Node(g.own[h].root, g.own[h].path[..n])
    && Present(Read(m.mem, f, g.own[h].path[n])) && Addr(Read(m.mem, f, g.own[h].path[n])) == h
  }

  /** The upper half of a PML4 leads into the kernel's tables. */
  ghost predicate UpperOk(m: Machine, g: Layout, f: nat) {
    forall i: nat :: 256 <= i < 512 && Present(Read(m.mem, f, i)) ==> (Addr(Read(m.mem, f, i)), 1) in g.kern
  }

  ghost predicate KernelOk(m: Machine, g: Layout) {
    && (forall k :: k in g.kern ==> 1 <= k.1 <= 3 && (k.0 < g.base || m.end <= k.0))
    && (forall k, i: nat :: k in g.kern && k.1 < 3 && i < 512 && Present(Read(m.mem, k.0, i)) && !Huge(Read(m.mem, k.0, i)) ==>
          (Addr(Read(m.mem, k.0, i)), k.1 + 1) in g.kern)
    && (g.boot < g.base || m.end <= g.boot) && UpperOk(m, g, g.boot)
    && (forall f :: Root(g, f) ==> UpperOk(m, g, f))
  }

  ghost predicate Inv(m: Machine, g: Layout) {
    FramesOk(m, g) && Injective(g) && Links(m, g) && Parented(m, g) && KernelOk(m, g)
  }

  // ---- Walks depend only on the tables they pass through ----

  /** Memories that agree on the kernel's tables agree on walks through them. */
  lemma {:induction false} KernelWalk(m: Machine, m': Machine, g: Layout, f: nat, level: nat, v: nat, u: bool, w: bool)
    requires KernelOk(m, g) && (f, level) in g.kern && level <= 3
    requires forall k, i: nat :: k in g.kern ==> Read(m'.mem, k.0, i) == Read(m.mem, k.0, i)
    ensures WalkFrom(m'.mem, f, level, v, u, w) == WalkFrom(m.mem, f, level, v, u, w)
    decreases 3 - level
  {
    var e := Read(m.mem, f, Index(v, level));
    assert Read(m'.mem, f, Index(v, level)) == e;
    if Present(e) && level < 3 && !(level > 0 && Huge(e)) {
      KernelWalk(m, m', g, Addr(e), level + 1, v, u && UserOk(e), w && Writable(e));
    }
  }

  /** The step a walk takes from an owned table: into an owned table, or into the kernel. */
  lemma OwnedStep(m: Machine, g: Layout, f: nat, v: nat)
    requires Inv(m, g) && f in g.own && |g.own[f].path| < 3
    requires Present(Read(m.mem, f, Index(v, |g.own[f].path|)))
    ensures var e := Read(m.mem, f, Index(v, |g.own[f].path|));
            if g.own[f].path == [] && Index(v, 0) >= 256 then (Addr(e), 1) in g.kern
            else
              && Addr(e) in g.own && g.own[Addr(e)] == Node(g.own[f].root, g.own[f].path + [Index(v, |g.own[f].path|)])
              && UserOk(e) && Writable(e) && !Huge(e)
  {
    assert LinkOk(m, g, f, Index(v, |g.own[f].path|));
    if g.own[f].path == [] {
      assert Root(g, f);
    }
  }

  /** `m'` holds the same words as `m` in every owned and kernel table, except possibly at (at, i). */
  ghost predicate SameTables(m: Machine, m': Machine, g: Layout, at: nat, i: nat) {
    && (forall f, j: nat :: f in g.own && !(f == at && j == i) ==> Read(m'.mem, f, j) == Read(m.mem, f, j))
    && (forall k, j: nat :: k in g.kern ==> Read(m'.mem, k.0, j) == Read(m.mem, k.0, j))
  }

  // ---- Creating a missing table ----

  /** Hanging an empty table where there was none changes no translation. */
  lemma {:induction false} EmptyTableWalk(m: Machine, m': Machine, g: Layout, at: nat, i: nat, f: nat, v: nat, u: bool, w: bool)
    requires Inv(m, g) && at in g.own && OwnIndex(g.own[at], i) && !Present(Read(m.mem, at, i))
    requires SameTables(m, m', g, at, i)
    requires var e := Read(m'.mem, at, i);
             !Huge(e) && forall j: nat :: !Present(Read(m'.mem, Addr(e), j))
    requires f in g.own
    ensures WalkFrom(m'.mem, f, |g.own[f].path|, v, u, w) == WalkFrom(m.mem, f, |g.own[f].path|, v, u, w)
    decreases 3 - |g.own[f].path|
  {
    var level := |g.own[f].path|;
    var j := Index(v, level);
    if !(f == at && j == i) {
      var e := Read(m.mem, f, j);
      assert Read(m'.mem, f, j) == e;
      if Present(e) && level < 3 && !(level > 0 && Huge(e)) {
        OwnedStep(m, g, f, v);
        if level == 0 && j >= 256 {
          KernelWalk(m, m', g, Addr(e), 1, v, u && UserOk(e), w && Writable(e));
        } else {
          EmptyTableWalk(m, m', g, at, i, Addr(e), v, u && UserOk(e), w && Writable(e));
        }
      }
    }
  }

  ghost predicate SameWalks(m: Machine, m': Machine, g: Layout) {
    forall r, v: nat :: Root(g, r) ==> Walk(m'.mem, r, v) == Walk(m.mem, r, v)
  }

  /** The layout after `GetOrCreate` hangs a new table at index `i` of `at`. */
  function Hang(g: Layout, f: nat, at: nat, i: nat): Layout
    requires at in g.own
  {
    g.(own := g.own[f := Node(g.own[at].root, g.own[at].path + [i])])
  }

  /** Rewriting a word with its own value is nothing. */
  lemma WriteSame(mem: Memory, f: nat, i: nat)
    ensures Write(mem, f, i, Read(mem, f, i)) == mem
  {
    if f in mem && i < |mem[f]| {
      assert mem[f][i := mem[f][i]] == mem[f];
    }
  }

  /** Reading back after a table is zeroed and linked. */
  lemma ReadBack(mem: Memory, f: nat, at: nat, i: nat, w: nat, h: nat, j: nat)
    requires at in mem && i < |mem[at]| && f != at
    ensures Read(Write(mem[f := ZeroFrame()], at, i, w), h, j) ==
            if h == f then 0 else if h == at && j == i then w else Read(mem, h, j)
  {
  }

  lemma CreateWords(m: Machine, m': Machine, g: Layout, at: nat, i: nat)
    requires Inv(m, g) && at in g.own && i < 512 && m.next + FRAME <= m.end
    requires m'.mem == Write(m.mem[m.next := ZeroFrame()], at, i, m.next + TABLE_FLAGS)
    ensures m.next !in g.own && m.next in m'.mem && |m'.mem[m.next]| == 512
    ensures forall f :: f in g.own ==> f in m'.mem && |m'.mem[f]| == 512
    ensures forall h: nat, j: nat ::
              Read(m'.mem, h, j) == if h == m.next then 0 else if h == at && j == i then m.next + TABLE_FLAGS else Read(m.mem, h, j)
  {
    assert FrameOk(m, g, at);
    forall f | f in g.own ensures f != m.next && f in m'.mem && |m'.mem[f]| == 512 {
      assert FrameOk(m, g, f);
    }
    forall h: nat, j: nat
      ensures Read(m'.mem, h, j) == if h == m.next then 0 else if h == at && j == i then m.next + TABLE_FLAGS else Read(m.mem, h, j)
    {
      ReadBack(m.mem, m.next, at, i, m.next + TABLE_FLAGS, h, j);
    }
  }

  lemma CreateMemory(m: Machine, m': Machine, g: Layout, at: nat, i: nat)
    requires Inv(m, g) && at in g.own && OwnIndex(g.own[at], i) && !Present(Read(m.mem, at, i)) && m.next + FRAME <= m.end
    requires m'.mem == Write(m.mem[m.next := ZeroFrame()], at, i, m.next + TABLE_FLAGS)
    requires m'.next == m.next + FRAME && m'.end == m.end
    ensures Created(m, m', g, at, i)
  {
    EntryBits(m.next, TABLE_FLAGS);
    CreateWords(m, m', g, at, i);
  }

  lemma CreateKeeps(m: Machine, m': Machine, g: Layout, at: nat, i: nat)
    requires Inv(m, g) && Created(m, m', g, at, i)
    ensures Inv(m', Hang(g, m.next, at, i)) && SameWalks(m, m', g)
  {
    CreateInjective(m, g, at, i);
    CreateFrames(m, m', g, at, i);
    CreateLinks(m, m', g, at, i);
    CreateParents(m, m', g, at, i);
    CreateKernel(m, m', g, at, i);
    forall r, v: nat | Root(g, r) ensures Walk(m'.mem, r, v) == Walk(m.mem, r, v) {
      EmptyTableWalk(m, m', g, at, i, r, v, true, true);
    }
  }

  /** What `CreateMemory` and `EntryBits` establish about the new table. */
  ghost predicate Created(m: Machine, m': Machine, g: Layout, at: nat, i: nat) {
    && at in g.own && OwnIndex(g.own[at], i) && !Present(Read(m.mem, at, i))
    && m.next !in g.own && m.next + FRAME <= m.end && m'.next == m.next + FRAME && m'.end == m.end
    && m.next in m'.mem && |m'.mem[m.next]| == 512 && (forall j: nat :: Read(m'.mem, m.next, j) == 0)
    && Read(m'.mem, at, i) == m.next + TABLE_FLAGS
    && Present(m.next + TABLE_FLAGS) && UserOk(m.next + TABLE_FLAGS) && Writable(m.next + TABLE_FLAGS)
    && !Huge(m.next + TABLE_FLAGS) && Addr(m.next + TABLE_FLAGS) == m.next
    && SameTables(m, m', g, at, i)
    && (forall f :: f in g.own ==> f in m'.mem && |m'.mem[f]| == 512)
    && (forall j: nat :: Read(m'.mem, g.boot, j) == Read(m.mem, g.boot, j))
  }

  /** No frame already sits at the new path. */
  lemma CreateInjective(m: Machine, g: Layout, at: nat, i: nat)
    requires Inv(m, g) && at in g.own && OwnIndex(g.own[at], i) && !Present(Read(m.mem, at, i)) && m.next !in g.own
    ensures Injective(Hang(g, m.next, at, i))
  {
    var node := Node(g.own[at].root, g.own[at].path + [i]);
    assert node.path[..|node.path| - 1] == g.own[at].path;
    forall h | h in g.own ensures g.own[h] != node {
      assert g.own[h].path != [] ==> exists f :: HangsFrom(m, g, h, f);
    }
  }

  lemma CreateFrames(m: Machine, m': Machine, g: Layout, at: nat, i: nat)
    requires Inv(m, g) && Created(m, m', g, at, i)
    ensures FramesOk(m', Hang(g, m.next, at, i))
  {
    var g' := Hang(g, m.next, at, i);
    NextAligned(m.next);
    forall f | f in g'.own ensures FrameOk(m', g', f) {
      var h := if f == m.next then at else f;
      assert FrameOk(m, g, h);
    }
  }

  lemma CreateLinks(m: Machine, m': Machine, g: Layout, at: nat, i: nat)
    requires Inv(m, g) && Created(m, m', g, at, i)
    ensures Links(m', Hang(g, m.next, at, i))
  {
    var g' := Hang(g, m.next, at, i);
    forall f, j: nat | f in g'.own ensures LinkOk(m', g', f, j) {
      if f in g.own && !(f == at && j == i) {
        assert LinkOk(m, g, f, j);
      }
    }
  }

  lemma CreateParents(m: Machine, m': Machine, g: Layout, at: nat, i: nat)
    requires Inv(m, g) && Created(m, m', g, at, i)
    ensures Parented(m', Hang(g, m.next, at, i))
  {
    var g' := Hang(g, m.next, at, i);
    forall h | h in g'.own && g'.own[h].path != [] ensures exists f :: HangsFrom(m', g', h, f) {
      if h == m.next {
        assert g'.own[h].path[..|g'.own[h].path| - 1] == g.own[at].path;
        assert HangsFrom(m', g', h, at);
      } else {
        var f :| HangsFrom(m, g, h, f);
        var last := g.own[h].path[|g.own[h].path| - 1];
        assert !(f == at && last == i);
        assert HangsFrom(m', g', h, f);
      }
    }
  }

  lemma CreateKernel(m: Machine, m': Machine, g: Layout, at: nat, i: nat)
    requires Inv(m, g) && Created(m, m', g, at, i)
    ensures KernelOk(m', Hang(g, m.next, at, i))
  {
    var g' := Hang(g, m.next, at, i);
    forall f | Root(g', f) ensures UpperOk(m', g', f) {
      assert Root(g, f);
    }
  }

  /** What `GetOrCreate` does to owned tables, whichever way it goes. */
  ghost predicate Stepped(m: Machine, g: Layout, m': Machine, g': Layout, at: nat, i: nat, r: Option<nat>) {
    && at in g.own && Inv(m', g') && SameWalks(m, m', g) && m'.end == m.end && Extends(g, g') && Grown(m, g, m', g')
    && (if Present(Read(m.mem, at, i)) then r == Some(Addr(Read(m.mem, at, i))) && m' == m
        else if m.next + FRAME <= m.end then
          r.Some? && m'.next == m.next + FRAME && forall j: nat :: !Present(Read(m'.mem, r.value, j))
        else r.None? && m' == m)
    && (r.Some? ==> r.value in g'.own && g'.own[r.value] == Node(g.own[at].root, g.own[at].path + [i]))
  }

  /** New tables are new frames, and the kernel's own tables are as they were. */
  ghost predicate Grown(m: Machine, g: Layout, m': Machine, g': Layout) {
    && m.next <= m'.next
    && (forall f :: f in g'.own && f !in g.own ==> m.next <= f)
    && (forall k, j: nat :: k in g.kern ==> Read(m'.mem, k.0, j) == Read(m.mem, k.0, j))
    && (forall j: nat :: Read(m'.mem, g.boot, j) == Read(m.mem, g.boot, j))
  }

  /** `g'` adds tables to `g` and no space. */
  ghost predicate Extends(g: Layout, g': Layout) {
    && g'.base == g.base && g'.kern == g.kern && g'.boot == g.boot
    && (forall f :: f in g.own ==> f in g'.own && g'.own[f] == g.own[f])
    && (forall f :: Root(g', f) <==> Root(g, f))
  }

  lemma TablePresent(m: Machine, g: Layout, at: nat, i: nat)
    requires Inv(m, g) && at in g.own && OwnIndex(g.own[at], i) && Present(Read(m.mem, at, i))
    ensures Stepped(m, g, GetOrCreate(m, at, i).0, g, at, i, GetOrCreate(m, at, i).1)
  {
    assert LinkOk(m, g, at, i);
    WriteSame(m.mem, at, i);
  }

  lemma TableAbsent(m: Machine, m': Machine, g: Layout, at: nat, i: nat)
    requires Inv(m, g) && Created(m, m', g, at, i)
    ensures Stepped(m, g, m', Hang(g, m.next, at, i), at, i, Some(m.next))
  {
    CreateKeeps(m, m', g, at, i);
    HangExtends(g, m.next, at, i);
  }

  lemma HangExtends(g: Layout, f: nat, at: nat, i: nat)
    requires at in g.own && f !in g.own
    ensures Extends(g, Hang(g, f, at, i))
  {
  }

  /** `get_or_create_table_user` on an owned table: the result is the table at the extended
      path, and no translation changes whether it was there, was created, or no frame was left. */
  lemma TableStep(m: Machine, g: Layout, at: nat, i: nat) returns (g': Layout)
    requires Inv(m, g) && at in g.own && OwnIndex(g.own[at], i)
    ensures Stepped(m, g, GetOrCreate(m, at, i).0, g', at, i, GetOrCreate(m, at, i).1)
  {
    g' := g;
    if Present(Read(m.mem, at, i)) {
      TablePresent(m, g, at, i);
    } else if m.next + FRAME <= m.end {
      CreateMemory(m, GetOrCreate(m, at, i).0, g, at, i);
      TableAbsent(m, GetOrCreate(m, at, i).0, g, at, i);
      g' := Hang(g, m.next, at, i);
    }
  }

  // ---- Writing a leaf ----

  /** The table indices a walk uses from `level` down to the last table. */
  function Tail(v: nat, level: nat): seq<nat>
    decreases 3 - level
  {
    if level >= 3 then [] else [Index(v, level)] + Tail(v, level + 1)
  }

  /** The walk for `v` from `h` goes through the last-level table `pt`. */
  ghost predicate Reaches(g: Layout, h: nat, v: nat, pt: nat)
    requires h in g.own && pt in g.own
  {
    g.own[h].root == g.own[pt].root && g.own[h].path + Tail(v, |g.own[h].path|) == g.own[pt].path
  }

  /** Every ancestor of a table has the link that leads towards it. */
  lemma {:induction false} Linked(m: Machine, g: Layout, h: nat, x: nat)
    requires Inv(m, g) && h in g.own && x in g.own
    requires g.own[h].root == g.own[x].root && |g.own[h].path| < |g.own[x].path| && g.own[h].path <= g.own[x].path
    ensures Present(Read(m.mem, h, g.own[x].path[|g.own[h].path|]))
    decreases |g.own[x].path|
  {
    var n := |g.own[x].path| - 1;
    var f :| HangsFrom(m, g, x, f);
    if |g.own[h].path| == n {
      assert g.own[x].path[..n] == g.own[h].path;
    } else {
      Linked(m, g, h, f);
    }
  }

  /** A walk that takes an owned step reaches `pt` from the child exactly when it does from the parent. */
  lemma ReachesStep(g: Layout, h: nat, c: nat, v: nat, pt: nat)
    requires h in g.own && pt in g.own && c in g.own && |g.own[h].path| < 3
    requires g.own[c] == Node(g.own[h].root, g.own[h].path + [Index(v, |g.own[h].path|)])
    ensures Reaches(g, c, v, pt) <==> Reaches(g, h, v, pt)
  {
    var l := |g.own[h].path|;
    assert g.own[h].path + Tail(v, l) == g.own[c].path + Tail(v, l + 1);
  }

  /** A leaf write seen from a last-level table. */
  lemma LeafHere(m: Machine, m': Machine, g: Layout, pt: nat, i: nat, h: nat, v: nat, u: bool, w: bool)
    requires Injective(g) && pt in g.own && |g.own[pt].path| == 3 && h in g.own && |g.own[h].path| == 3
    requires SameTables(m, m', g, pt, i) && Present(Read(m'.mem, pt, i))
    ensures var e := Read(m'.mem, pt, i);
            WalkFrom(m'.mem, h, 3, v, u, w) ==
            if Reaches(g, h, v, pt) && Index(v, 3) == i then Some(Translation(3, Addr(e), u && UserOk(e), w && Writable(e)))
            else WalkFrom(m.mem, h, 3, v, u, w)
  {
    assert g.own[h].path + Tail(v, 3) == g.own[h].path;
  }

  /** A leaf write changes the walks that go through it, and no other. */
  lemma {:induction false} LeafWalk(m: Machine, m': Machine, g: Layout, pt: nat, i: nat, h: nat, v: nat, u: bool, w: bool)
    requires Inv(m, g) && pt in g.own && |g.own[pt].path| == 3 && h in g.own && i < 512
    requires SameTables(m, m', g, pt, i) && Present(Read(m'.mem, pt, i))
    ensures var e := Read(m'.mem, pt, i);
            WalkFrom(m'.mem, h, |g.own[h].path|, v, u, w) ==
            if Reaches(g, h, v, pt) && Index(v, 3) == i then Some(Translation(3, Addr(e), u && UserOk(e), w && Writable(e)))
            else WalkFrom(m.mem, h, |g.own[h].path|, v, u, w)
    decreases 3 - |g.own[h].path|
  {
    var level := |g.own[h].path|;
    if level == 3 {
      LeafHere(m, m', g, pt, i, h, v, u, w);
    } else {
      LeafWalkStep(m, m', g, pt, i, h, v);
      var e := Read(m.mem, h, Index(v, level));
      if Present(e) {
        OwnedStep(m, g, h, v);
        if level == 0 && Index(v, 0) >= 256 {
          KernelWalk(m, m', g, Addr(e), 1, v, u && UserOk(e), w && Writable(e));
        } else {
          ReachesStep(g, h, Addr(e), v, pt);
          LeafWalk(m, m', g, pt, i, Addr(e), v, u, w);
        }
      }
    }
  }

  /** Above the last level the words are the same, and a walk towards `pt` finds its link present. */
  lemma LeafWalkStep(m: Machine, m': Machine, g: Layout, pt: nat, i: nat, h: nat, v: nat)
    requires Inv(m, g) && pt in g.own && |g.own[pt].path| == 3 && h in g.own && |g.own[h].path| < 3
    requires SameTables(m, m', g, pt, i)
    ensures Read(m'.mem, h, Index(v, |g.own[h].path|)) == Read(m.mem, h, Index(v, |g.own[h].path|))
    ensures Reaches(g, h, v, pt) ==>
              Present(Read(m.mem, h, Index(v, |g.own[h].path|))) && (g.own[h].path == [] ==> Index(v, 0) < 256)
  {
    var l := |g.own[h].path|;
    if Reaches(g, h, v, pt) {
      assert FrameOk(m, g, pt);
      assert Tail(v, l)[0] == Index(v, l);
      assert g.own[pt].path[l] == (g.own[h].path + Tail(v, l))[l];
      assert g.own[h].path <= g.own[pt].path;
      Linked(m, g, h, pt);
    }
  }

  lemma LeafKeeps(m: Machine, m': Machine, g: Layout, pt: nat, i: nat)
    requires Inv(m, g) && pt in g.own && |g.own[pt].path| == 3
    requires SameTables(m, m', g, pt, i) && m'.next == m.next && m'.end == m.end
    requires forall f :: f in g.own ==> f in m'.mem && |m'.mem[f]| == 512
    requires forall j: nat :: Read(m'.mem, g.boot, j) == Read(m.mem, g.boot, j)
    ensures Inv(m', g)
  {
    assert FramesOk(m', g) by {
      forall f | f in g.own ensures FrameOk(m', g, f) {
        assert FrameOk(m, g, f);
      }
    }
    forall f, j: nat | f in g.own ensures LinkOk(m', g, f, j) {
      assert LinkOk(m, g, f, j);
    }
    forall h | h in g.own && g.own[h].path != [] ensures exists f :: HangsFrom(m', g, h, f) {
      var f :| HangsFrom(m, g, h, f);
      assert FrameOk(m, g, h);
      assert HangsFrom(m', g, h, f);
    }
    forall f | Root(g, f) ensures UpperOk(m', g, f) {
    }
  }

  // ---- Writes outside the tables ----

  ghost predicate SameWords(m: Machine, m': Machine, g: Layout) {
    && (forall f, j: nat :: f in g.own ==> Read(m'.mem, f, j) == Read(m.mem, f, j))
    && (forall k, j: nat :: k in g.kern ==> Read(m'.mem, k.0, j) == Read(m.mem, k.0, j))
    && (forall j: nat :: Read(m'.mem, g.boot, j) == Read(m.mem, g.boot, j))
  }

  /** Memories that agree on the tables agree on every walk from an owned table. */
  lemma {:induction false} SameWordsWalk(m: Machine, m': Machine, g: Layout, h: nat, v: nat, u: bool, w: bool)
    requires Inv(m, g) && h in g.own && SameWords(m, m', g)
    ensures WalkFrom(m'.mem, h, |g.own[h].path|, v, u, w) == WalkFrom(m.mem, h, |g.own[h].path|, v, u, w)
    decreases 3 - |g.own[h].path|
  {
    var level := |g.own[h].path|;
    var e := Read(m.mem, h, Index(v, level));
    if Present(e) && level < 3 {
      OwnedStep(m, g, h, v);
      if level == 0 && Index(v, 0) >= 256 {
        KernelWalk(m, m', g, Addr(e), 1, v, u && UserOk(e), w && Writable(e));
      } else {
        SameWordsWalk(m, m', g, Addr(e), v, u && UserOk(e), w && Writable(e));
      }
    }
  }

  lemma SameWordsKeep(m: Machine, m': Machine, g: Layout)
    requires Inv(m, g) && SameWords(m, m', g) && m'.end == m.end && m.next <= m'.next <= m.end && m'.next % FRAME == 0
    requires forall f :: f in g.own ==> f in m'.mem && |m'.mem[f]| == 512
    ensures Inv(m', g) && SameWalks(m, m', g)
  {
    forall f | f in g.own ensures FrameOk(m', g, f) {
      assert FrameOk(m, g, f);
    }
    forall f, j: nat | f in g.own ensures LinkOk(m', g, f, j) {
      assert LinkOk(m, g, f, j);
    }
    forall h | h in g.own && g.own[h].path != [] ensures exists f :: HangsFrom(m', g, h, f) {
      var f :| HangsFrom(m, g, h, f);
      assert HangsFrom(m', g, h, f);
    }
    forall r, v: nat | Root(g, r) ensures Walk(m'.mem, r, v) == Walk(m.mem, r, v) {
      SameWordsWalk(m, m', g, r, v, true, true);
    }
  }
}
