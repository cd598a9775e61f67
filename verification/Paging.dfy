/** Four-level page tables on values: the entry format, the processor's walk, and
    what the kernel's mapping routines write. The format is that of section 5.3
    (Long-Mode Page Translation) of the AMD64 Architecture Programmer's Manual,
    Volume 2. Words are 64-bit entries held as naturals. */
module Paging {
  import opened Arith
  import opened Core

  const FRAME: nat := 0x1000
  const ADDR_LIMIT: nat := 0x10_0000_0000_0000  // 2^52, the end of physical addresses
  const LOWER_HALF: nat := 0x8000_0000_0000     // 2^47
  const CANONICAL: nat := 0x1_0000_0000_0000    // 2^48: addresses a walk distinguishes

  type Memory = map<nat, seq<nat>>

  /** The word at index `i` of the frame at `f`; frames not in the map read as zero. */
  function Read(mem: Memory, f: nat, i: nat): nat {
    if f in mem && i < |mem[f]| then mem[f][i] else 0
  }

  function Write(mem: Memory, f: nat, i: nat, w: nat): Memory {
    if f in mem && i < |mem[f]| then
      var row: seq<nat> := mem[f][i := w];
      mem[f := row]
    else mem
  }

  // ---- Entry bits ----

  predicate Present(e: nat) { e % 2 == 1 }
  predicate Writable(e: nat) { e / 2 % 2 == 1 }
  predicate UserOk(e: nat) { e / 4 % 2 == 1 }
  predicate Huge(e: nat) { e / 128 % 2 == 1 }

  /** The frame address field: bits 12 to 51. */
  function Addr(e: nat): nat { e / FRAME % 0x100_0000_0000 * FRAME }

  /** Setting bit 2. */
  function WithUser(e: nat): nat { if UserOk(e) then e else e + 4 }

  const TABLE_FLAGS: nat := 7  // present, writable, user

  function LeafFlags(writeable: bool): nat { if writeable then 7 else 5 }

  lemma LowBits(k: nat, flags: nat)
    requires flags == 7 || flags == 5
    ensures var e := 4096 * k + flags; e % 2 == 1 && e / 2 % 2 == (if flags == 7 then 1 else 0)
  {
    DivModUnique(4096 * k + flags, 2048 * k + flags / 2, 1, 2);
    DivModUnique(2048 * k + flags / 2, 1024 * k + 1, flags / 2 - 2, 2);
  }

  lemma MidBits(k: nat, flags: nat)
    requires flags == 7 || flags == 5
    ensures var e := 4096 * k + flags; e / 4 % 2 == 1 && e / 128 % 2 == 0
  {
    DivModUnique(4096 * k + flags, 1024 * k + 1, flags - 4, 4);
    DivModUnique(1024 * k + 1, 512 * k, 1, 2);
    DivModUnique(4096 * k + flags, 32 * k, flags, 128);
    DivModUnique(32 * k, 16 * k, 0, 2);
  }

  lemma EntryBits(frame: nat, flags: nat)
    requires frame % FRAME == 0 && frame < ADDR_LIMIT && (flags == 7 || flags == 5)
    ensures var e := frame + flags;
            Present(e) && UserOk(e) && Writable(e) == (flags == 7) && !Huge(e) && Addr(e) == frame
  {
    var k := frame / FRAME;
    LowBits(k, flags);
    MidBits(k, flags);
    assert (frame + flags) / FRAME == k;
  }

  // ---- Addresses ----

  /** The 9-bit index a level of the walk uses; level 0 is the PML4. */
  function Index(v: nat, level: nat): (i: nat)
    ensures i < 512
  {
    if level == 0 then v / 0x80_0000_0000 % 512
    else if level == 1 then v / 0x4000_0000 % 512
    else if level == 2 then v / 0x20_0000 % 512
    else v / 0x1000 % 512
  }

  function Page(v: nat): nat { v / FRAME }

  lemma IndicesArePage(v: nat)
    requires v < CANONICAL
    ensures Page(v) == Index(v, 0) * 0x800_0000 + Index(v, 1) * 0x4_0000 + Index(v, 2) * 512 + Index(v, 3)
  {
    var p := v / 4096;
    assert v / 0x20_0000 == p / 512;
    assert v / 0x4000_0000 == p / 512 / 512;
    assert v / 0x80_0000_0000 == p / 512 / 512 / 512;
    assert p / 512 / 512 / 512 < 512;
  }

  lemma PageFixesIndices(v: nat, u: nat)
    requires v < CANONICAL && u < CANONICAL && Page(v) == Page(u)
    ensures Index(v, 0) == Index(u, 0) && Index(v, 1) == Index(u, 1) && Index(v, 2) == Index(u, 2) && Index(v, 3) == Index(u, 3)
  {
    var p := v / 4096;
    assert v / 0x20_0000 == p / 512 == u / 0x20_0000;
    assert v / 0x4000_0000 == p / 512 / 512 == u / 0x4000_0000;
    assert v / 0x80_0000_0000 == p / 512 / 512 / 512 == u / 0x80_0000_0000;
  }

  /** Two addresses share a page exactly when the walk uses the same four indices for both. */
  lemma SamePage(v: nat, u: nat)
    requires v < CANONICAL && u < CANONICAL
    ensures Page(v) == Page(u) <==>
            Index(v, 0) == Index(u, 0) && Index(v, 1) == Index(u, 1) && Index(v, 2) == Index(u, 2) && Index(v, 3) == Index(u, 3)
  {
    if Page(v) == Page(u) {
      PageFixesIndices(v, u);
    } else {
      IndicesArePage(v);
      IndicesArePage(u);
    }
  }

  lemma LowerIndex(v: nat)
    requires v < LOWER_HALF
    ensures Index(v, 0) < 256
  {
  }

  // ---- The walk ----

  /** What a walk yields: the level of the leaf, its frame, and the rights all levels agree on. */
  datatype Translation = Translation(level: nat, frame: nat, user: bool, write: bool)

  function WalkFrom(mem: Memory, table: nat, level: nat, v: nat, user: bool, write: bool): Option<Translation>
    requires level <= 3
    decreases 3 - level
  {
    var e := Read(mem, table, Index(v, level));
    var u, w := user && UserOk(e), write && Writable(e);
    if !Present(e) then None
    else if level == 3 || (level > 0 && Huge(e)) then Some(Translation(level, Addr(e), u, w))
    else WalkFrom(mem, Addr(e), level + 1, v, u, w)
  }

  function Walk(mem: Memory, root: nat, v: nat): Option<Translation> {
    WalkFrom(mem, root, 0, v, true, true)
  }

  // ---- The kernel's routines ----

  /** Physical memory and the bump allocator. */
  datatype Machine = Machine(mem: Memory, next: nat, end: nat)

  function AllocateFrame(m: Machine): (Machine, Option<nat>) {
    if m.next + FRAME <= m.end then (m.(next := m.next + FRAME), Some(m.next)) else (m, None)
  }

  function ZeroFrame(): (s: seq<nat>)
    ensures |s| == 512 && forall i :: 0 <= i < 512 ==> s[i] == 0
  {
    seq(512, _ => 0)
  }

  /** The entries of a new PML4: nothing, then the active PML4's upper half. */
  function SpaceRow(mem: Memory, active: nat): (s: seq<nat>)
    ensures |s| == 512
    ensures forall i :: 0 <= i < 512 ==> s[i] == if i < 256 then 0 else Read(mem, active, i)
  {
    seq(512, i requires 0 <= i => if i < 256 then 0 else Read(mem, active, i))
  }

  /** `new_address_space`: an empty lower half under the active space's upper half. */
  function NewSpace(m: Machine, active: nat): (Machine, Option<nat>) {
    var (m', f) := AllocateFrame(m);
    if f.None? then (m', None)
    else (m'.(mem := m.mem[f.value := SpaceRow(m.mem, active)]), f)
  }

  /** `get_or_create_table_user`. */
  function GetOrCreate(m: Machine, table: nat, i: nat): (Machine, Option<nat>) {
    var e := Read(m.mem, table, i);
    if Present(e) then (m.(mem := Write(m.mem, table, i, WithUser(e))), Some(Addr(e)))
    else
      var (m', f) := AllocateFrame(m);
      if f.None? then (m', None)
      else (m'.(mem := Write(m.mem[f.value := ZeroFrame()], table, i, f.value + TABLE_FLAGS)), f)
  }

  /** `map_page_user_into`; the flag says whether it succeeded. */
  function MapPage(m: Machine, root: nat, v: nat, paddr: nat, writeable: bool): (Machine, bool) {
    var (m1, pdpt) := GetOrCreate(m, root, Index(v, 0));
    if pdpt.None? then (m1, false)
    else
      var (m2, pd) := GetOrCreate(m1, pdpt.value, Index(v, 1));
      if pd.None? then (m2, false)
      else
        var (m3, pt) := GetOrCreate(m2, pd.value, Index(v, 2));
        if pt.None? then (m3, false)
        else (m3.(mem := Write(m3.mem, pt.value, Index(v, 3), Addr(paddr) + LeafFlags(writeable))), true)
  }

  lemma LowKept(e: nat)
    requires e / 4 % 2 == 0
    ensures (e + 4) % 2 == e % 2 && (e + 4) / 2 % 2 == e / 2 % 2 && (e + 4) / 4 % 2 == 1
  {
    assert (e + 4) / 2 == e / 2 + 2 && (e + 4) / 4 == e / 4 + 1;
  }

  /** Setting a clear bit 2 carries into nothing above it. */
  lemma HighKept(e: nat, n: nat, k: nat)
    requires e / 4 % 2 == 0 && n == 8 * k && k > 0
    ensures (e + 4) / n == e / n
  {
    var j, r := e / 8, e % 8;
    assert e == 8 * j + r && r < 4;
    var q, s := j / k, j % k;
    assert j == q * k + s;
    assert 8 * (s + 1) <= n;
    assert e == q * n + (8 * s + r);
    DivModUnique(e, q, 8 * s + r, n);
    DivModUnique(e + 4, q, 8 * s + r + 4, n);
  }

  lemma WithUserBits(e: nat)
    ensures var f := WithUser(e);
            UserOk(f) && Present(f) == Present(e) && Writable(f) == Writable(e) && Huge(f) == Huge(e) && Addr(f) == Addr(e)
  {
    if !UserOk(e) {
      LowKept(e);
      HighKept(e, 128, 16);
      HighKept(e, 4096, 512);
    }
  }

  /** Finding or creating a table, on any memory: afterwards the entry is present, user-accessible and
      leads to the table returned. An entry that was there keeps its frame and its other rights; a new one
      gets all rights and an empty frame; there is none exactly when the allocator has run out. */
  lemma GetOrCreateExact(m: Machine, table: nat, i: nat)
    requires table in m.mem && i < |m.mem[table]| && m.next != table && m.next % FRAME == 0 && m.end <= ADDR_LIMIT
    ensures var (m', f) := GetOrCreate(m, table, i); var e := Read(m.mem, table, i); var e' := Read(m'.mem, table, i);
            && (f.None? <==> !Present(e) && m.end < m.next + FRAME) && m'.end == m.end
            && (f.None? ==> m' == m)
            && (f.Some? ==> Present(e') && UserOk(e') && Addr(e') == f.value)
            && (Present(e) ==>
                  m'.next == m.next && Addr(e') == Addr(e) && Writable(e') == Writable(e) && Huge(e') == Huge(e)
                  && forall t, j: nat :: t != table || j != i ==> Read(m'.mem, t, j) == Read(m.mem, t, j))
            && (!Present(e) && f.Some? ==>
                  && f.value == m.next && m'.next == m.next + FRAME && Writable(e') && !Huge(e')
                  && (forall j: nat :: Read(m'.mem, m.next, j) == 0)
                  && forall t, j: nat :: t != m.next && (t != table || j != i) ==> Read(m'.mem, t, j) == Read(m.mem, t, j))
  {
    WithUserBits(Read(m.mem, table, i));
    if m.next + FRAME <= m.end {
      EntryBits(m.next, TABLE_FLAGS);
    }
  }

  /** The address field is bits 12 to 51, whatever the flags below and the bits above. */
  lemma AddrExact(hi: nat, frame: nat, lo: nat)
    requires frame % FRAME == 0 && frame < ADDR_LIMIT && lo < FRAME
    ensures Addr(hi * ADDR_LIMIT + frame + lo) == frame
  {
    var e, k := hi * ADDR_LIMIT + frame + lo, frame / FRAME;
    assert e == (hi * 0x100_0000_0000 + k) * FRAME + lo;
    DivModUnique(e, hi * 0x100_0000_0000 + k, lo, FRAME);
    DivModUnique(hi * 0x100_0000_0000 + k, hi, k, 0x100_0000_0000);
  }
}
