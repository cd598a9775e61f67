/** What one `map_page_user_into` and one `new_address_space` change: exactly the page
    mapped, and nothing but the new space. */
module AddressMaps {
  import opened Core
  import opened Paging
  import opened AddressSpaces

  // ---- Mapping a page ----

  /** The tables missing on the way to the page of `v`, from a table at `level` down. */
  function Missing(mem: Memory, table: nat, level: nat, v: nat): (n: nat)
    requires level <= 3
    ensures n <= 3 - level
    decreases 3 - level
  {
    if level == 3 then 0
    else
      var e := Read(mem, table, Index(v, level));
      if !Present(e) then 3 - level else Missing(mem, Addr(e), level + 1, v)
  }

  /** The table steps of `map_page_user_into` from a table at `level` down. */
  function Descend(m: Machine, table: nat, level: nat, v: nat): (Machine, Option<nat>)
    requires level <= 3
    decreases 3 - level
  {
    if level == 3 then (m, Some(table))
    else
      var (m', t) := GetOrCreate(m, table, Index(v, level));
      if t.None? then (m', None) else Descend(m', t.value, level + 1, v)
  }

  lemma MapIsDescend(m: Machine, root: nat, v: nat, paddr: nat, writeable: bool)
    ensures var (m', t) := Descend(m, root, 0, v);
            MapPage(m, root, v, paddr, writeable) ==
            if t.None? then (m', false)
            else (m'.(mem := Write(m'.mem, t.value, Index(v, 3), Addr(paddr) + LeafFlags(writeable))), true)
  {
    var (m1, t1) := GetOrCreate(m, root, Index(v, 0));
    if t1.Some? {
      var (m2, t2) := GetOrCreate(m1, t1.value, Index(v, 1));
      if t2.Some? {
        var (m3, t3) := GetOrCreate(m2, t2.value, Index(v, 2));
        assert Descend(m2, t2.value, 2, v) == (m3, t3);
      }
      assert Descend(m1, t1.value, 1, v) == if t2.None? then (m2, None) else Descend(m2, t2.value, 2, v);
    }
  }

  lemma Chained(m: Machine, m': Machine, m'': Machine, g: Layout, g': Layout, g'': Layout)
    requires SameWalks(m, m', g) && Extends(g, g') && Grown(m, g, m', g')
    requires SameWalks(m', m'', g') && Extends(g', g'') && Grown(m', g', m'', g'')
    ensures SameWalks(m, m'', g) && Extends(g, g'') && Grown(m, g, m'', g'')
  {
    forall r, v: nat | Root(g, r) ensures Walk(m''.mem, r, v) == Walk(m.mem, r, v) {
      assert Walk(m'.mem, r, v) == Walk(m.mem, r, v);
    }
  }

  /** One step and the rest of the way, counted in frames. */
  lemma MissingStep(m: Machine, g: Layout, m': Machine, g': Layout, at: nat, v: nat, r: Option<nat>)
    requires at in g.own && |g.own[at].path| < 3
    requires Stepped(m, g, m', g', at, Index(v, |g.own[at].path|), r)
    ensures var l := |g.own[at].path|;
            && (m.next + FRAME * Missing(m.mem, at, l, v) <= m.end <==>
                r.Some? && m'.next + FRAME * Missing(m'.mem, r.value, l + 1, v) <= m.end)
            && (r.Some? ==> m'.next + FRAME * Missing(m'.mem, r.value, l + 1, v) == m.next + FRAME * Missing(m.mem, at, l, v))
  {
    var l := |g.own[at].path|;
    if !Present(Read(m.mem, at, Index(v, l))) && r.Some? {
      assert Missing(m'.mem, r.value, l + 1, v) == 2 - l;
    }
  }

  /** What the table steps from `at` achieve: every translation is kept, and they succeed exactly
      when the missing tables fit. */
  ghost predicate Descended(m: Machine, g: Layout, at: nat, v: nat, m': Machine, g': Layout, r: Option<nat>) {
    && at in g.own && |g.own[at].path| <= 3
    && Extends(g, g') && Grown(m, g, m', g') && SameWalks(m, m', g) && m'.end == m.end
    && m'.next <= m.next + FRAME * Missing(m.mem, at, |g.own[at].path|, v)
    && (r.Some? <==> m.next + FRAME * Missing(m.mem, at, |g.own[at].path|, v) <= m.end)
    && (r.Some? ==> r.value in g'.own && g'.own[r.value] == Node(g.own[at].root, g.own[at].path + Tail(v, |g.own[at].path|)))
  }

  lemma DescendStep(m: Machine, g: Layout, at: nat, v: nat, m1: Machine, g1: Layout, t: nat, m': Machine, g': Layout, r: Option<nat>)
    requires at in g.own && |g.own[at].path| < 3 && t in g1.own && m1.end == m.end
    requires g1.own[t] == Node(g.own[at].root, g.own[at].path + [Index(v, |g.own[at].path|)])
    requires SameWalks(m, m1, g) && Extends(g, g1) && Grown(m, g, m1, g1) && Descended(m1, g1, t, v, m', g', r)
    requires m.next + FRAME * Missing(m.mem, at, |g.own[at].path|, v) == m1.next + FRAME * Missing(m1.mem, t, |g.own[at].path| + 1, v)
    ensures Descended(m, g, at, v, m', g', r)
  {
    var l := |g.own[at].path|;
    Chained(m, m1, m', g, g1, g');
    assert g.own[at].path + Tail(v, l) == g1.own[t].path + Tail(v, l + 1);
  }

  lemma DescendSome(m: Machine, g: Layout, at: nat, v: nat, m1: Machine, g1: Layout, t: nat, m': Machine, g': Layout, r: Option<nat>)
    requires at in g.own && |g.own[at].path| < 3
    requires Stepped(m, g, m1, g1, at, Index(v, |g.own[at].path|), Some(t)) && Descended(m1, g1, t, v, m', g', r)
    ensures Descended(m, g, at, v, m', g', r)
  {
    MissingStep(m, g, m1, g1, at, v, Some(t));
    DescendStep(m, g, at, v, m1, g1, t, m', g', r);
  }

  lemma DescendNone(m: Machine, g: Layout, at: nat, v: nat, m': Machine, g': Layout)
    requires at in g.own && |g.own[at].path| < 3
    requires Stepped(m, g, m', g', at, Index(v, |g.own[at].path|), None)
    ensures Descended(m, g, at, v, m', g', None)
  {
    MissingStep(m, g, m', g', at, v, None);
  }

  lemma DescendDone(m: Machine, g: Layout, at: nat, v: nat)
    requires Inv(m, g) && at in g.own && |g.own[at].path| == 3
    ensures Descended(m, g, at, v, m, g, Some(at))
  {
    assert g.own[at].path + Tail(v, 3) == g.own[at].path;
  }

  lemma {:induction false} DescendRest(m: Machine, g: Layout, at: nat, v: nat, m1: Machine, g1: Layout, t: Option<nat>)
      returns (m': Machine, g': Layout, r: Option<nat>)
    requires at in g.own && |g.own[at].path| < 3 && v < LOWER_HALF
    requires Stepped(m, g, m1, g1, at, Index(v, |g.own[at].path|), t)
    ensures (m', r) == if t.None? then (m1, None) else Descend(m1, t.value, |g.own[at].path| + 1, v)
    ensures Inv(m', g') && Descended(m, g, at, v, m', g', r)
    decreases 3 - |g.own[at].path|, 0
  {
    if t.None? {
      m', g', r := m1, g1, None;
      DescendNone(m, g, at, v, m1, g1);
    } else {
      m', g', r := DescendExact(m1, g1, t.value, v);
      DescendSome(m, g, at, v, m1, g1, t.value, m', g', r);
    }
  }

  lemma {:induction false} DescendExact(m: Machine, g: Layout, at: nat, v: nat) returns (m': Machine, g': Layout, r: Option<nat>)
    requires Inv(m, g) && at in g.own && |g.own[at].path| <= 3 && v < LOWER_HALF
    ensures (m', r) == Descend(m, at, |g.own[at].path|, v)
    ensures Inv(m', g') && Descended(m, g, at, v, m', g', r)
    decreases 3 - |g.own[at].path|, 1
  {
    var l := |g.own[at].path|;
    if l == 3 {
      m', g', r := m, g, Some(at);
      DescendDone(m, g, at, v);
    } else {
      LowerIndex(v);
      var g1 := TableStep(m, g, at, Index(v, l));
      var step := GetOrCreate(m, at, Index(v, l));
      m', g', r := DescendRest(m, g, at, v, step.0, g1, step.1);
    }
  }

  /** The address field of any word is an aligned physical address. */
  lemma AddrOk(e: nat)
    ensures Addr(e) % FRAME == 0 && Addr(e) < ADDR_LIMIT
  {
  }

  /** Writing the leaf, given the tables. */
  lemma LeafExact(m: Machine, g: Layout, pt: nat, root: nat, v: nat, paddr: nat, writeable: bool, m': Machine)
    requires Inv(m, g) && Root(g, root) && v < LOWER_HALF
    requires pt in g.own && g.own[pt] == Node(root, [Index(v, 0), Index(v, 1), Index(v, 2)])
    requires m' == m.(mem := Write(m.mem, pt, Index(v, 3), Addr(paddr) + LeafFlags(writeable)))
    ensures Inv(m', g) && Grown(m, g, m', g)
    ensures forall r, u: nat :: Root(g, r) && u < CANONICAL ==>
              Walk(m'.mem, r, u) ==
              if r == root && Page(u) == Page(v) then Some(Translation(3, Addr(paddr), true, writeable)) else Walk(m.mem, r, u)
  {
    AddrOk(paddr);
    EntryBits(Addr(paddr), LeafFlags(writeable));
    LeafWords(m, g, pt, Index(v, 3), Addr(paddr) + LeafFlags(writeable), m');
    LeafKeeps(m, m', g, pt, Index(v, 3));
    forall r, u: nat | Root(g, r) && u < CANONICAL
      ensures Walk(m'.mem, r, u) ==
              if r == root && Page(u) == Page(v) then Some(Translation(3, Addr(paddr), true, writeable)) else Walk(m.mem, r, u)
    {
      LeafWalk(m, m', g, pt, Index(v, 3), r, u, true, true);
      WholePath(g, r, u, pt);
      SamePage(u, v);
    }
  }

  lemma LeafWords(m: Machine, g: Layout, pt: nat, i: nat, w: nat, m': Machine)
    requires Inv(m, g) && pt in g.own && i < 512 && m' == m.(mem := Write(m.mem, pt, i, w))
    ensures SameTables(m, m', g, pt, i) && Read(m'.mem, pt, i) == w
    ensures forall f :: f in g.own ==> f in m'.mem && |m'.mem[f]| == 512
    ensures forall j: nat :: Read(m'.mem, g.boot, j) == Read(m.mem, g.boot, j)
  {
    assert FrameOk(m, g, pt);
    forall f | f in g.own ensures f in m'.mem && |m'.mem[f]| == 512 {
      assert FrameOk(m, g, f);
    }
  }

  /** From a root, reaching a last-level table is a matter of its three indices. */
  lemma WholePath(g: Layout, r: nat, u: nat, pt: nat)
    requires Root(g, r) && pt in g.own
    ensures Reaches(g, r, u, pt) <==> g.own[pt] == Node(r, [Index(u, 0), Index(u, 1), Index(u, 2)])
  {
    assert Tail(u, 3) == [];
    assert Tail(u, 2) == [Index(u, 2)];
    assert Tail(u, 1) == [Index(u, 1), Index(u, 2)];
    assert [] + Tail(u, 0) == [Index(u, 0), Index(u, 1), Index(u, 2)];
  }

  /** `map_page_user_into` on a user page: it succeeds exactly when the missing tables fit in the
      frames left; then the page, and only that page of that space, translates to the frame
      with user rights; when it fails no translation of any space has changed. */
  lemma MapExact(m: Machine, g: Layout, root: nat, v: nat, paddr: nat, writeable: bool) returns (g': Layout)
    requires Inv(m, g) && Root(g, root) && v < LOWER_HALF
    ensures var (m', ok) := MapPage(m, root, v, paddr, writeable);
            && Inv(m', g') && Extends(g, g') && Grown(m, g, m', g') && m'.end == m.end
            && m'.next <= m.next + FRAME * Missing(m.mem, root, 0, v)
            && (ok <==> m.next + FRAME * Missing(m.mem, root, 0, v) <= m.end)
            && forall r, u: nat :: Root(g, r) && u < CANONICAL ==>
                 Walk(m'.mem, r, u) ==
                 if ok && r == root && Page(u) == Page(v) then Some(Translation(3, Addr(paddr), true, writeable))
                 else Walk(m.mem, r, u)
  {
    MapIsDescend(m, root, v, paddr, writeable);
    var m1, pt;
    m1, g', pt := DescendExact(m, g, root, v);
    if pt.Some? {
      WholePath(g', root, v, pt.value);
      LeafExact(m1, g', pt.value, root, v, paddr, writeable, MapPage(m, root, v, paddr, writeable).0);
    }
  }

  // ---- A new space ----

  /** Under an upper half that leads to the same words, walks agree. */
  lemma UpperWalk(m: Machine, m': Machine, g: Layout, f: nat, f': nat, v: nat)
    requires KernelOk(m, g) && UpperOk(m, g, f) && LOWER_HALF <= v < CANONICAL
    requires forall k, i: nat :: k in g.kern ==> Read(m'.mem, k.0, i) == Read(m.mem, k.0, i)
    requires forall i: nat :: 256 <= i < 512 ==> Read(m'.mem, f', i) == Read(m.mem, f, i)
    ensures Walk(m'.mem, f', v) == Walk(m.mem, f, v)
  {
    UpperIndex(v);
    var e := Read(m.mem, f, Index(v, 0));
    assert Read(m'.mem, f', Index(v, 0)) == e;
    if Present(e) {
      KernelWalk(m, m', g, Addr(e), 1, v, UserOk(e), Writable(e));
    }
  }

  lemma UpperIndex(v: nat)
    requires LOWER_HALF <= v < CANONICAL
    ensures 256 <= Index(v, 0) < 512
  {
  }

  function AddSpace(g: Layout, f: nat): Layout {
    g.(own := g.own[f := Node(f, [])])
  }

  /** What `new_address_space` writes. */
  ghost predicate SpaceMade(m: Machine, m': Machine, g: Layout, active: nat) {
    && m.next !in g.own && m.next + FRAME <= m.end && m'.next == m.next + FRAME && m'.end == m.end
    && SameWords(m, m', g) && (forall f :: f in g.own ==> f in m'.mem && |m'.mem[f]| == 512)
    && m.next in m'.mem && |m'.mem[m.next]| == 512
    && (forall j: nat :: j < 256 ==> Read(m'.mem, m.next, j) == 0)
    && (forall j: nat :: 256 <= j < 512 ==> Read(m'.mem, m.next, j) == Read(m.mem, active, j))
  }

  lemma NewWords(m: Machine, g: Layout, active: nat)
    requires Inv(m, g) && m.next + FRAME <= m.end
    ensures SpaceMade(m, NewSpace(m, active).0, g, active)
  {
    var m' := NewSpace(m, active).0;
    forall f | f in g.own ensures f != m.next && f in m'.mem && |m'.mem[f]| == 512 {
      assert FrameOk(m, g, f);
    }
  }

  lemma NewFrames(m: Machine, m': Machine, g: Layout, active: nat)
    requires FramesOk(m', g) && Injective(g) && SpaceMade(m, m', g, active)
    requires g.base <= m.next && m.next < m.next + FRAME && m.next % FRAME == 0
    ensures FramesOk(m', AddSpace(g, m.next)) && Injective(AddSpace(g, m.next))
  {
    var g' := AddSpace(g, m.next);
    forall f | f in g'.own ensures FrameOk(m', g', f) {
      if f != m.next {
        assert FrameOk(m', g, f);
      }
    }
    forall f | f in g.own ensures g.own[f] != Node(m.next, []) {
      assert FrameOk(m', g, f);
    }
  }

  lemma NewLinks(m: Machine, m': Machine, g: Layout, active: nat)
    requires Links(m', g) && Parented(m', g) && SpaceMade(m, m', g, active)
    ensures Links(m', AddSpace(g, m.next)) && Parented(m', AddSpace(g, m.next))
  {
    var g' := AddSpace(g, m.next);
    forall f, j: nat | f in g'.own ensures LinkOk(m', g', f, j) {
      if f != m.next {
        assert LinkOk(m', g, f, j);
      }
    }
    forall h | h in g'.own && g'.own[h].path != [] ensures exists f :: HangsFrom(m', g', h, f) {
      var f :| HangsFrom(m', g, h, f);
      assert HangsFrom(m', g', h, f);
    }
  }

  lemma NewKernel(m: Machine, m': Machine, g: Layout, active: nat)
    requires KernelOk(m', g) && KernelOk(m, g) && SpaceMade(m, m', g, active) && UpperOk(m, g, active)
    ensures KernelOk(m', AddSpace(g, m.next))
  {
    var g' := AddSpace(g, m.next);
    forall f | Root(g', f) ensures UpperOk(m', g', f) {
      if f != m.next {
        assert Root(g, f);
      }
    }
  }

  lemma NewKeeps(m: Machine, m': Machine, g: Layout, active: nat)
    requires Inv(m, g) && SpaceMade(m, m', g, active) && UpperOk(m, g, active)
    ensures Inv(m', AddSpace(g, m.next)) && SameWalks(m, m', g)
  {
    NextAligned(m.next);
    SameWordsKeep(m, m', g);
    NewFrames(m, m', g, active);
    NewLinks(m, m', g, active);
    NewKernel(m, m', g, active);
  }

  lemma NewWalks(m: Machine, m': Machine, g: Layout, active: nat)
    requires KernelOk(m, g) && SpaceMade(m, m', g, active) && UpperOk(m, g, active)
    ensures forall v: nat :: v < LOWER_HALF ==> Walk(m'.mem, m.next, v) == None
    ensures forall v: nat :: LOWER_HALF <= v < CANONICAL ==> Walk(m'.mem, m.next, v) == Walk(m.mem, active, v)
  {
    forall v: nat | v < LOWER_HALF ensures Walk(m'.mem, m.next, v) == None {
      LowerIndex(v);
    }
    forall v: nat | LOWER_HALF <= v < CANONICAL ensures Walk(m'.mem, m.next, v) == Walk(m.mem, active, v) {
      UpperWalk(m, m', g, active, m.next, v);
    }
  }

  /** `new_address_space`: the new space has an empty lower half and the active space's upper half,
      and no other space changes. */
  lemma NewSpaceExact(m: Machine, g: Layout, active: nat)
    requires Inv(m, g) && (Root(g, active) || active == g.boot) && m.next + FRAME <= m.end
    ensures var (m', f) := NewSpace(m, active);
            && f == Some(m.next) && !Root(g, m.next)
            && Inv(m', AddSpace(g, m.next)) && SameWords(m, m', g) && SameWalks(m, m', g)
            && (forall v: nat :: v < LOWER_HALF ==> Walk(m'.mem, m.next, v) == None)
            && (forall v: nat :: LOWER_HALF <= v < CANONICAL ==> Walk(m'.mem, m.next, v) == Walk(m.mem, active, v))
  {
    var m' := NewSpace(m, active).0;
    NewWords(m, g, active);
    NewKeeps(m, m', g, active);
    NewWalks(m, m', g, active);
  }
}
