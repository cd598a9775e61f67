/** The memory manager as it runs: a bump allocator and page tables edited in place, and the
    page-by-page check of a user range. */
module PageTables {
  import opened Core
  import opened Paging
  import opened AddressSpaces
  import opened AddressRuns

  const USIZE: nat := 0x1_0000_0000_0000_0000

  /** Present and user-accessible (and writable, if asked) at every level from `level` down. */
  predicate Accessible(mem: Memory, table: nat, level: nat, v: nat, writeable: bool)
    requires level <= 3
    decreases 3 - level
  {
    var e := Read(mem, table, Index(v, level));
    && Present(e) && UserOk(e) && (writeable ==> Writable(e))
    && (level == 3 || Accessible(mem, Addr(e), level + 1, v, writeable))
  }

  predicate Access(mem: Memory, root: nat, v: nat, writeable: bool) {
    Accessible(mem, root, 0, v, writeable)
  }

  /** A range a user may hand to the kernel. */
  ghost predicate RangeOk(mem: Memory, root: nat, start: nat, len: nat, writeable: bool) {
    || len == 0
    || (&& start + len < USIZE && start + len <= LOWER_HALF
        && forall b: nat :: start <= b < start + len ==> Access(mem, root, b, writeable))
  }

  lemma {:induction false} SamePageAccess(mem: Memory, table: nat, level: nat, v: nat, u: nat, writeable: bool)
    requires level <= 3 && v < CANONICAL && u < CANONICAL && Page(v) == Page(u)
    ensures Accessible(mem, table, level, v, writeable) <==> Accessible(mem, table, level, u, writeable)
    decreases 3 - level
  {
    PageFixesIndices(v, u);
    if level < 3 {
      assert Index(v, level) == Index(u, level);
      SamePageAccess(mem, Addr(Read(mem, table, Index(v, level))), level + 1, v, u, writeable);
    }
  }

  /** Page number `p` is accessible at its first byte. */
  predicate PageAccess(mem: Memory, root: nat, p: nat, writeable: bool) {
    Access(mem, root, p * FRAME, writeable)
  }

  /** A page start stands for the bytes of its page. */
  lemma PageByte(mem: Memory, root: nat, b: nat, writeable: bool)
    requires b < LOWER_HALF
    ensures Access(mem, root, b, writeable) <==> PageAccess(mem, root, Page(b), writeable)
  {
    assert Page(Page(b) * FRAME) == Page(b);
    SamePageAccess(mem, root, 0, b, Page(b) * FRAME, writeable);
  }

  /** Every page of a range holds a byte of it. */
  function ByteOf(start: nat, end: nat, p: nat): (b: nat)
    requires start < end && Page(start) <= p <= Page(end - 1)
    ensures start <= b < end && Page(b) == p
  {
    if p == Page(start) then start else p * FRAME
  }

  /** All bytes of a range are accessible exactly when all its pages are. */
  lemma PagesCover(mem: Memory, root: nat, start: nat, end: nat, writeable: bool)
    requires start < end <= LOWER_HALF
    ensures (forall b: nat :: start <= b < end ==> Access(mem, root, b, writeable)) <==>
            (forall p: nat :: Page(start) <= p <= Page(end - 1) ==> PageAccess(mem, root, p, writeable))
  {
    forall b: nat | start <= b < end
      ensures Page(start) <= Page(b) <= Page(end - 1)
      ensures Access(mem, root, b, writeable) <==> PageAccess(mem, root, Page(b), writeable)
    {
      PageByte(mem, root, b, writeable);
    }
    forall p: nat | Page(start) <= p <= Page(end - 1)
      ensures PageAccess(mem, root, p, writeable) <==> Access(mem, root, ByteOf(start, end, p), writeable)
    {
      PageByte(mem, root, ByteOf(start, end, p), writeable);
    }
  }

  // ---- The check agrees with the processor ----

  /** No large page cuts the walk short. */
  predicate NoHuge(mem: Memory, table: nat, level: nat, v: nat)
    requires level <= 3
    decreases 3 - level
  {
    var e := Read(mem, table, Index(v, level));
    level == 3 || ((level == 0 || !Huge(e)) && NoHuge(mem, Addr(e), level + 1, v))
  }

  lemma {:induction false} AccessWalk(mem: Memory, table: nat, level: nat, v: nat, writeable: bool, u: bool, w: bool)
    requires level <= 3 && NoHuge(mem, table, level, v)
    ensures var t := WalkFrom(mem, table, level, v, u, w);
            (Accessible(mem, table, level, v, writeable) && u && (writeable ==> w)) <==>
            t.Some? && t.value.user && (writeable ==> t.value.write)
    decreases 3 - level
  {
    var e := Read(mem, table, Index(v, level));
    if level < 3 && Present(e) {
      AccessWalk(mem, Addr(e), level + 1, v, writeable, u && UserOk(e), w && Writable(e));
    }
    if Present(e) && level == 3 {
      assert WalkFrom(mem, table, level, v, u, w) == Some(Translation(level, Addr(e), u && UserOk(e), w && Writable(e)));
    }
  }

  /** On any tables without large pages, whoever built them, a byte passes the check exactly if the
      processor would let user mode access it: present, user and, if asked, writable at all four levels. */
  lemma AccessIsWalk(mem: Memory, root: nat, v: nat, writeable: bool)
    requires NoHuge(mem, root, 0, v)
    ensures Access(mem, root, v, writeable) <==>
            var t := Walk(mem, root, v); t.Some? && t.value.user && (writeable ==> t.value.write)
  {
    AccessWalk(mem, root, 0, v, writeable, true, true);
  }

  lemma {:induction false} OwnedAccess(m: Machine, g: Layout, h: nat, v: nat, writeable: bool, u: bool, w: bool)
    requires Inv(m, g) && h in g.own && |g.own[h].path| <= 3 && v < LOWER_HALF
    ensures var t := WalkFrom(m.mem, h, |g.own[h].path|, v, u, w);
            Accessible(m.mem, h, |g.own[h].path|, v, writeable) && u && (writeable ==> w) <==>
            t.Some? && t.value.user && (writeable ==> t.value.write)
    decreases 3 - |g.own[h].path|
  {
    var level := |g.own[h].path|;
    var e := Read(m.mem, h, Index(v, level));
    if Present(e) && level < 3 {
      LowerIndex(v);
      OwnedStep(m, g, h, v);
      OwnedAccess(m, g, Addr(e), v, writeable, u && UserOk(e), w && Writable(e));
    }
  }

  /** In a space the kernel built, `validate_user_range` accepts a range exactly when every byte of
      it lies in a page mapped for that space, writable if asked. */
  lemma RangeIsMapped(s: State, g: Layout, mem: Memory, r: nat, start: nat, len: nat, writeable: bool)
    requires Good(s, g, mem) && r in s.spaces
    ensures RangeOk(s.m.mem, r, start, len, writeable) <==>
            || len == 0
            || (&& start + len <= LOWER_HALF
                && forall b: nat :: start <= b < start + len ==>
                     (r, Page(b)) in s.view && (writeable ==> s.view[(r, Page(b))].1))
  {
    forall b: nat | b < LOWER_HALF
      ensures Access(s.m.mem, r, b, writeable) <==>
              (r, Page(b)) in s.view && (writeable ==> s.view[(r, Page(b))].1)
    {
      OwnedAccess(s.m, g, r, b, writeable, true, true);
      assert Walk(s.m.mem, r, b) == Lookup(s, r, b);
    }
  }

  /** Physical memory, the frame allocator and the active PML4. */
  class MemoryManager {
    var mem: Memory
    var nextFree: nat
    var usableEnd: nat
    var cr3: nat
    ghost var regionStart: nat  // where the allocator began
    ghost var handed: set<nat>  // every frame handed out so far

    constructor (mem: Memory, nextFree: nat, usableEnd: nat, cr3: nat)
      ensures Valid() && Snapshot() == Machine(mem, nextFree, usableEnd) && this.cr3 == cr3
      ensures regionStart == nextFree && handed == {}
    {
      this.mem, this.nextFree, this.usableEnd, this.cr3 := mem, nextFree, usableEnd, cr3;
      regionStart, handed := nextFree, {};
    }

    /** Every frame handed out lies in the region, below the next free one. */
    ghost predicate Valid()
      reads this
    {
      regionStart <= nextFree && forall f :: f in handed ==> regionStart <= f && f + FRAME <= nextFree && f + FRAME <= usableEnd
    }

    ghost function Snapshot(): Machine
      reads this
    {
      Machine(mem, nextFree, usableEnd)
    }

    /** `allocate_frame`: a frame of the region above, and so apart from, every frame handed out
        before; none only when less than a frame is left. */
    method AllocateFrame() returns (r: Option<nat>)
      requires Valid()
      modifies this`nextFree, this`handed
      ensures Valid() && (Snapshot(), r) == Paging.AllocateFrame(old(Snapshot()))
      ensures r.None? <==> usableEnd < old(nextFree) + FRAME
      ensures r.None? ==> handed == old(handed)
      ensures r.Some? ==> handed == old(handed) + {r.value} && regionStart <= r.value && r.value + FRAME <= usableEnd
      ensures r.Some? ==> forall f :: f in old(handed) ==> f + FRAME <= r.value
    {
      if nextFree + FRAME <= usableEnd {
        r := Some(nextFree);
        handed := handed + {nextFree};
        nextFree := nextFree + FRAME;
      } else {
        r := None;
      }
    }

    /** `new_address_space`: clear a fresh PML4, then copy the upper half entry by entry. The active
        PML4 is in use, so it is not the next free frame. */
    method NewAddressSpace() returns (r: Option<nat>)
      requires Valid() && cr3 != nextFree
      modifies this`nextFree, this`mem, this`handed
      ensures Valid() && old(handed) <= handed && (Snapshot(), r) == NewSpace(old(Snapshot()), cr3)
      ensures r.Some? ==> r.value in handed && forall f :: f in old(handed) ==> f + FRAME <= r.value
    {
      r := AllocateFrame();
      if r.Some? {
        var f := r.value;
        mem := mem[f := ZeroFrame()];
        for i := 256 to 512
          invariant Valid() && handed == old(handed) + {f} && nextFree == old(nextFree) + FRAME && f in mem && |mem[f]| == 512 && mem == old(mem)[f := mem[f]]
          invariant forall j :: 0 <= j < 256 || i <= j < 512 ==> mem[f][j] == 0
          invariant forall j :: 256 <= j < i ==> mem[f][j] == Read(old(mem), cr3, j)
        {
          mem := Write(mem, f, i, Read(mem, cr3, i));
        }
        assert mem[f] == SpaceRow(old(mem), cr3);
      }
    }

    /** `get_or_create_table_user`. */
    method GetOrCreateTableUser(table: nat, idx: nat) returns (r: Option<nat>)
      requires Valid()
      modifies this`nextFree, this`mem, this`handed
      ensures Valid() && old(handed) <= handed
      ensures (Snapshot(), r) == GetOrCreate(old(Snapshot()), table, idx)
    {
      var entry := Read(mem, table, idx);
      if !Present(entry) {
        r := AllocateFrame();
        if r.Some? {
          mem := mem[r.value := ZeroFrame()];
          mem := Write(mem, table, idx, r.value + TABLE_FLAGS);
        }
      } else {
        mem := Write(mem, table, idx, WithUser(entry));
        r := Some(Addr(entry));
      }
    }

    /** `map_page_user_into`. */
    method MapPageUserInto(pml4: nat, vaddr: nat, paddr: nat, writeable: bool) returns (ok: bool)
      requires Valid()
      modifies this`nextFree, this`mem, this`handed
      ensures Valid() && old(handed) <= handed
      ensures (Snapshot(), ok) == MapPage(old(Snapshot()), pml4, vaddr, paddr, writeable)
    {
      var pdpt := GetOrCreateTableUser(pml4, Index(vaddr, 0));
      if pdpt.None? {
        return false;
      }
      var pd := GetOrCreateTableUser(pdpt.value, Index(vaddr, 1));
      if pd.None? {
        return false;
      }
      var pt := GetOrCreateTableUser(pd.value, Index(vaddr, 2));
      if pt.None? {
        return false;
      }
      mem := Write(mem, pt.value, Index(vaddr, 3), Addr(paddr) + LeafFlags(writeable));
      ok := true;
    }

    /** The four table reads for one page of `validate_user_range`. */
    method PageOk(vaddr: nat, writeable: bool) returns (ok: bool)
      ensures ok <==> Access(mem, cr3, vaddr, writeable)
    {
      var pml4Entry := Read(mem, cr3, Index(vaddr, 0));
      if !Present(pml4Entry) || !UserOk(pml4Entry) || (writeable && !Writable(pml4Entry)) {
        return false;
      }
      var pdptEntry := Read(mem, Addr(pml4Entry), Index(vaddr, 1));
      if !Present(pdptEntry) || !UserOk(pdptEntry) || (writeable && !Writable(pdptEntry)) {
        return false;
      }
      var pdEntry := Read(mem, Addr(pdptEntry), Index(vaddr, 2));
      assert Accessible(mem, cr3, 0, vaddr, writeable) == Accessible(mem, Addr(pdptEntry), 2, vaddr, writeable);
      if !Present(pdEntry) || !UserOk(pdEntry) || (writeable && !Writable(pdEntry)) {
        return false;
      }
      var ptEntry := Read(mem, Addr(pdEntry), Index(vaddr, 3));
      ok := Present(ptEntry) && UserOk(ptEntry) && (writeable ==> Writable(ptEntry));
    }

    /** `validate_user_range`: page by page from the first page of the range to its last. */
    method ValidateUserRange(start: nat, len: nat, writeable: bool) returns (ok: bool)
      requires start < USIZE && len < USIZE
      ensures ok <==> RangeOk(mem, cr3, start, len, writeable)
    {
      if len == 0 {
        return true;
      }
      if start + len >= USIZE || start + len > LOWER_HALF {
        return false;
      }
      var end := start + len;
      PagesCover(mem, cr3, start, end, writeable);
      var endPage := (end - 1) / FRAME * FRAME;
      assert endPage == Page(end - 1) * FRAME;
      var vaddr := start / FRAME * FRAME;
      ghost var p := Page(start);
      while true
        invariant vaddr == p * FRAME && Page(start) <= p <= Page(end - 1)
        invariant forall q: nat :: Page(start) <= q < p ==> PageAccess(mem, cr3, q, writeable)
        decreases Page(end - 1) - p
      {
        ok := PageOk(vaddr, writeable);
        assert ok == PageAccess(mem, cr3, p, writeable);
        if !ok {
          return false;
        }
        if vaddr == endPage {
          return true;
        }
        vaddr := vaddr + FRAME;
        p := p + 1;
      }
    }
  }
}
