/** Kernel copies into user buffers: once a range has been accepted by the range check, storing into
    it cannot fault and reaches only frames the caller's own space maps there. */
module KernelCopy {
  import opened Paging
  import opened AddressSpaces
  import opened AddressRuns
  import opened UserIsolation
  import opened PageTables

  /** Stores through addresses of the range, in any order and number. */
  predicate Within(ops: seq<Op>, r: nat, start: nat, len: nat) {
    forall k :: 0 <= k < |ops| ==> ops[k].Store? && ops[k].space == r && start <= ops[k].v < start + len && ops[k].i < 512
  }

  /** The frame is mapped writable at some byte of the range. */
  ghost predicate FrameInRange(s: State, r: nat, start: nat, len: nat, f: nat) {
    exists b: nat :: start <= b < start + len && MapsTo(s, r, b, f)
  }

  predicate MapsTo(s: State, r: nat, b: nat, f: nat) {
    (r, Page(b)) in s.view && s.view[(r, Page(b))] == (f, true)
  }

  /** Nothing but words of the range's frames differs. */
  ghost predicate Confined(s: State, s': State, r: nat, start: nat, len: nat) {
    && s' == s.(m := s.m.(mem := s'.m.mem))
    && forall f, i: nat :: Read(s'.m.mem, f, i) != Read(s.m.mem, f, i) ==> FrameInRange(s, r, start, len, f)
  }

  /** One store: enabled because the range was accepted, and confined to it. */
  lemma CopyStep(s: State, g: Layout, mem: Memory, r: nat, start: nat, len: nat, op: Op)
    requires Good(s, g, mem) && r in s.spaces && RangeOk(s.m.mem, r, start, len, true) && Within([op], r, start, len)
    ensures Enabled(s, op) && Good(Do(s, op), g, mem) && Confined(s, Do(s, op), r, start, len)
  {
    assert [op][0] == op;
    RangeIsMapped(s, g, mem, r, start, len, true);
    assert (r, Page(op.v)) in s.view && s.view[(r, Page(op.v))].1;
    assert Walk(s.m.mem, r, op.v) == Lookup(s, r, op.v);
    StoreKeeps(s, g, mem, op);
    assert MapsTo(s, r, op.v, s.view[(r, Page(op.v))].0);
  }

  /** The abstract view is all the range check looks at, so a confined change keeps it accepted. */
  lemma StillAccepted(s: State, s': State, g: Layout, mem: Memory, r: nat, start: nat, len: nat)
    requires Good(s, g, mem) && Good(s', g, mem) && s'.view == s.view && s'.spaces == s.spaces && r in s.spaces
    requires RangeOk(s.m.mem, r, start, len, true)
    ensures RangeOk(s'.m.mem, r, start, len, true)
  {
    RangeIsMapped(s, g, mem, r, start, len, true);
    RangeIsMapped(s', g, mem, r, start, len, true);
  }

  lemma ConfinedTrans(s: State, s1: State, s2: State, r: nat, start: nat, len: nat)
    requires Confined(s, s1, r, start, len) && Confined(s1, s2, r, start, len)
    ensures Confined(s, s2, r, start, len)
  {
    forall f, i: nat | Read(s2.m.mem, f, i) != Read(s.m.mem, f, i) ensures FrameInRange(s, r, start, len, f) {
      if Read(s2.m.mem, f, i) != Read(s1.m.mem, f, i) {
        assert FrameInRange(s1, r, start, len, f);
        var b: nat :| start <= b < start + len && MapsTo(s1, r, b, f);
        assert MapsTo(s, r, b, f);
      }
    }
  }

  lemma CopyLast(s: State, s1: State, g: Layout, mem: Memory, r: nat, start: nat, len: nat, op: Op) returns (s2: State)
    requires Good(s, g, mem) && Good(s1, g, mem) && Confined(s, s1, r, start, len) && r in s.spaces
    requires RangeOk(s.m.mem, r, start, len, true) && Within([op], r, start, len)
    ensures StoreTo(s1, op, s2) && Good(s2, g, mem) && Confined(s, s2, r, start, len)
  {
    StillAccepted(s, s1, g, mem, r, start, len);
    CopyStep(s1, g, mem, r, start, len, op);
    s2 := Do(s1, op);
    ConfinedTrans(s, s1, s2, r, start, len);
  }

  /** The stores take `s` to `s'`, each of them enabled when its turn comes. */
  ghost predicate Copies(s: State, ops: seq<Op>, s': State) {
    if |ops| == 0 then s' == s
    else
      var before, last := ops[..|ops| - 1], ops[|ops| - 1];
      exists s1 :: Copies(s, before, s1) && StoreTo(s1, last, s')
  }

  ghost predicate StoreTo(s: State, op: Op, s': State) {
    Enabled(s, op) && s' == Do(s, op)
  }

  /** A copy into an accepted range runs to its end without a fault and changes only words of frames
      that the caller's space maps writable inside the range. */
  lemma {:induction false} CopyConfined(s: State, g: Layout, mem: Memory, r: nat, start: nat, len: nat, ops: seq<Op>)
    returns (s': State)
    requires Good(s, g, mem) && r in s.spaces && RangeOk(s.m.mem, r, start, len, true) && Within(ops, r, start, len)
    ensures Copies(s, ops, s') && Good(s', g, mem) && Confined(s, s', r, start, len)
  {
    s' := s;
    if |ops| > 0 {
      var n := |ops| - 1;
      var s1 := CopyConfined(s, g, mem, r, start, len, ops[..n]);
      s' := CopyLast(s, s1, g, mem, r, start, len, ops[n]);
    }
  }

  /** And no other task's loads can see it. */
  lemma CopyPrivate(s: State, g: Layout, mem: Memory, s': State, r: nat, start: nat, len: nat, other: nat, u: nat, j: nat)
    requires Good(s, g, mem) && Good(s', g, mem) && Private(s) && Confined(s, s', r, start, len)
    requires other in s.spaces && other != r && u < LOWER_HALF
    ensures Load(s', other, u, j) == Load(s, other, u, j)
  {
    assert Walk(s.m.mem, other, u) == Lookup(s, other, u);
    assert Walk(s'.m.mem, other, u) == Lookup(s', other, u);
    if (other, Page(u)) in s.view {
      assert !FrameInRange(s, r, start, len, s.view[(other, Page(u))].0);
    }
  }
}
