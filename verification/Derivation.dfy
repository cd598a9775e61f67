/** Slots, derivation chains and the exact set a revocation must clear.

    The specification speaks only of the capabilities present when a revocation
    starts: a slot is derived from an id when a chain of origin links through
    occupied slots leads from it back to that id. */
module Derivation {
  import opened Core

  type SlotRef = (nat, nat)

  predicate LiveAt(tasks: TaskTable, p: SlotRef) {
    && p.0 < |tasks| && tasks[p.0].Some?
    && p.1 < |tasks[p.0].value.capTable| && tasks[p.0].value.capTable[p.1].Some?
  }

  function CapAt(tasks: TaskTable, p: SlotRef): Capability
    requires LiveAt(tasks, p)
  {
    tasks[p.0].value.capTable[p.1].value
  }

  /** Every step of the path is an occupied slot whose origin is the id of the step
      before it, and the first step's origin is the root. */
  ghost predicate Chain(tasks: TaskTable, root: nat, path: seq<SlotRef>) {
    |path| > 0 ==>
      var n := |path| - 1;
      && Chain(tasks, root, path[..n])
      && LiveAt(tasks, path[n])
      && (n > 0 ==> LiveAt(tasks, path[n - 1]))
      && CapAt(tasks, path[n]).origin == Some(if n == 0 then root else CapAt(tasks, path[n - 1]).id)
  }

  ghost predicate ChainTo(tasks: TaskTable, root: nat, p: SlotRef, path: seq<SlotRef>) {
    |path| > 0 && path[|path| - 1] == p && Chain(tasks, root, path)
  }

  ghost predicate Derived(tasks: TaskTable, root: nat, p: SlotRef) {
    exists path :: ChainTo(tasks, root, p, path)
  }

  /** The table with one slot emptied. */
  function ClearSlot(tasks: TaskTable, p: SlotRef): TaskTable
    requires LiveAt(tasks, p)
  {
    var t := tasks[p.0].value;
    tasks[p.0 := Some(t.(capTable := t.capTable[p.1 := None]))]
  }

  ghost function CascadeTable(tasks: TaskTable, root: nat, t: nat): CapTable
    requires t < |tasks| && tasks[t].Some?
  {
    var table := tasks[t].value.capTable;
    seq(|table|, s requires 0 <= s < |table| => if Derived(tasks, root, (t, s)) then None else table[s])
  }

  /** What revoking `root` must leave: derived slots empty, everything else as it was. */
  ghost function Cascade(tasks: TaskTable, root: nat): TaskTable {
    seq(|tasks|, t requires 0 <= t < |tasks| =>
      if tasks[t].None? then None
      else Some(tasks[t].value.(capTable := CascadeTable(tasks, root, t))))
  }

  lemma CascadeSlots(tasks: TaskTable, root: nat, p: SlotRef)
    ensures LiveAt(Cascade(tasks, root), p) <==> LiveAt(tasks, p) && !Derived(tasks, root, p)
    ensures LiveAt(Cascade(tasks, root), p) ==> CapAt(Cascade(tasks, root), p) == CapAt(tasks, p)
  {
  }

  /** `later` is `before` with some slots emptied and nothing else touched. */
  ghost predicate Pruned(before: TaskTable, later: TaskTable) {
    && |later| == |before|
    && (forall t :: 0 <= t < |before| ==> later[t].Some? == before[t].Some?)
    && (forall t :: 0 <= t < |before| && before[t].Some? ==>
          && later[t].value == before[t].value.(capTable := later[t].value.capTable)
          && |later[t].value.capTable| == |before[t].value.capTable|)
    && (forall p :: LiveAt(later, p) ==> LiveAt(before, p) && CapAt(later, p) == CapAt(before, p))
  }

  // ---- Counting occupied slots ----

  function TableCount(table: CapTable): nat {
    if |table| == 0 then 0
    else TableCount(table[..|table| - 1]) + (if table[|table| - 1].Some? then 1 else 0)
  }

  function TaskCount(t: Option<Task>): nat {
    if t.Some? then TableCount(t.value.capTable) else 0
  }

  function LiveCount(tasks: TaskTable): nat {
    if |tasks| == 0 then 0
    else LiveCount(tasks[..|tasks| - 1]) + TaskCount(tasks[|tasks| - 1])
  }

  lemma {:induction false} TableCountBound(table: CapTable)
    ensures TableCount(table) <= |table|
  {
    if |table| > 0 {
      TableCountBound(table[..|table| - 1]);
    }
  }

  lemma {:induction false} TableCountClear(table: CapTable, s: nat)
    requires s < |table| && table[s].Some?
    ensures TableCount(table) == TableCount(table[s := None]) + 1
  {
    var n := |table| - 1;
    if s == n {
      assert table[s := None][..n] == table[..n];
    } else {
      assert table[s := None][..n] == table[..n][s := None];
      TableCountClear(table[..n], s);
    }
  }

  lemma {:induction false} LiveCountBound(tasks: TaskTable, maxCaps: nat)
    requires forall t :: 0 <= t < |tasks| && tasks[t].Some? ==> |tasks[t].value.capTable| <= maxCaps
    ensures LiveCount(tasks) <= |tasks| * maxCaps
  {
    if |tasks| > 0 {
      var n := |tasks| - 1;
      LiveCountBound(tasks[..n], maxCaps);
      if tasks[n].Some? {
        TableCountBound(tasks[n].value.capTable);
      }
      assert (n + 1) * maxCaps == n * maxCaps + maxCaps;
    }
  }

  lemma {:induction false} LiveCountUpdate(tasks: TaskTable, i: nat, t: Option<Task>)
    requires i < |tasks|
    ensures LiveCount(tasks[i := t]) + TaskCount(tasks[i]) == LiveCount(tasks) + TaskCount(t)
  {
    var n := |tasks| - 1;
    if i == n {
      assert tasks[i := t][..n] == tasks[..n];
    } else {
      assert tasks[i := t][..n] == tasks[..n][i := t];
      LiveCountUpdate(tasks[..n], i, t);
    }
  }

  lemma LiveCountClear(tasks: TaskTable, p: SlotRef)
    requires LiveAt(tasks, p)
    ensures LiveCount(tasks) == LiveCount(ClearSlot(tasks, p)) + 1
  {
    TableCountClear(tasks[p.0].value.capTable, p.1);
    LiveCountUpdate(tasks, p.0, ClearSlot(tasks, p)[p.0]);
  }

  // ---- What a partial cascade keeps ----

  /** An id a cascade may hold: the root or the id of a derived slot. */
  ghost predicate RevokedId(before: TaskTable, root: nat, id: nat) {
    id == root || exists p :: LiveAt(before, p) && Derived(before, root, p) && CapAt(before, p).id == id
  }

  /** The state of a cascade after clearing `cleared`, in that order, with `ids` in the scratch set. */
  ghost predicate Cascading(before: TaskTable, root: nat, now: TaskTable, ids: seq<nat>, cleared: seq<SlotRef>) {
    && Pruned(before, now)
    && |ids| == 1 + |cleared|
    && ids[0] == root
    && (forall i :: 0 <= i < |ids| ==> RevokedId(before, root, ids[i]))
    && (forall i :: 0 <= i < |cleared| ==> LiveAt(before, cleared[i]) && !LiveAt(now, cleared[i]))
    && (forall i, j :: 0 <= i < j < |cleared| ==> cleared[i] != cleared[j])
    && (forall p :: LiveAt(before, p) && !LiveAt(now, p) ==>
          p in cleared && Derived(before, root, p) && CapAt(before, p).id in ids)
    && |ids| + LiveCount(now) == 1 + LiveCount(before)
  }

  lemma CascadeStart(before: TaskTable, root: nat)
    ensures Cascading(before, root, before, [root], [])
  {
  }

  /** A slot whose origin is already known to be revoked is derived. */
  lemma DerivedStep(before: TaskTable, root: nat, p: SlotRef)
    requires LiveAt(before, p) && CapAt(before, p).origin.Some?
    requires RevokedId(before, root, CapAt(before, p).origin.value)
    ensures Derived(before, root, p)
  {
    var o := CapAt(before, p).origin.value;
    if o == root {
      assert ChainTo(before, root, p, [p]);
    } else {
      var q :| LiveAt(before, q) && Derived(before, root, q) && CapAt(before, q).id == o;
      var path :| ChainTo(before, root, q, path);
      assert (path + [p])[..|path|] == path;
      assert ChainTo(before, root, p, path + [p]);
    }
  }

  lemma CascadeClear(before: TaskTable, root: nat, now: TaskTable, ids: seq<nat>, cleared: seq<SlotRef>, p: SlotRef)
    requires Cascading(before, root, now, ids, cleared)
    requires LiveAt(now, p) && CapAt(now, p).origin.Some? && CapAt(now, p).origin.value in ids
    ensures Cascading(before, root, ClearSlot(now, p), ids + [CapAt(now, p).id], cleared + [p])
  {
    var next := ClearSlot(now, p);
    DerivedStep(before, root, p);
    LiveCountClear(now, p);
    forall q | LiveAt(next, q) ensures q != p && LiveAt(now, q) && CapAt(next, q) == CapAt(now, q) {
    }
    forall q | LiveAt(now, q) && q != p ensures LiveAt(next, q) {
    }
    assert RevokedId(before, root, CapAt(before, p).id);
    var ids' := ids + [CapAt(now, p).id];
    var cleared' := cleared + [p];
    forall q | LiveAt(before, q) && !LiveAt(next, q)
      ensures q in cleared' && Derived(before, root, q) && CapAt(before, q).id in ids'
    {
      if q == p {
        assert cleared'[|cleared|] == p && ids'[|ids|] == CapAt(now, p).id;
      } else {
        assert !LiveAt(now, q);
      }
    }
  }

  /** No occupied slot has an origin in `ids`. */
  ghost predicate Closed(now: TaskTable, ids: seq<nat>) {
    forall p :: LiveAt(now, p) && CapAt(now, p).origin.Some? ==> CapAt(now, p).origin.value !in ids
  }

  /** At a fixpoint every chain from the root has been cleared, link by link. */
  lemma {:induction false} ClosedClearsChains(before: TaskTable, root: nat, now: TaskTable,
                                              ids: seq<nat>, cleared: seq<SlotRef>, path: seq<SlotRef>)
    requires Cascading(before, root, now, ids, cleared) && Closed(now, ids)
    requires |path| > 0 && Chain(before, root, path)
    ensures !LiveAt(now, path[|path| - 1])
  {
    if |path| > 1 {
      var front := path[..|path| - 1];
      ClosedClearsChains(before, root, now, ids, cleared, front);
      assert CapAt(before, path[|path| - 2]).id in ids;
    }
  }

  lemma CascadeDone(before: TaskTable, root: nat, now: TaskTable, ids: seq<nat>, cleared: seq<SlotRef>)
    requires Cascading(before, root, now, ids, cleared) && Closed(now, ids)
    ensures now == Cascade(before, root)
  {
    var spec := Cascade(before, root);
    forall p | LiveAt(before, p) ensures LiveAt(now, p) <==> !Derived(before, root, p) {
      if Derived(before, root, p) {
        var path :| ChainTo(before, root, p, path);
        ClosedClearsChains(before, root, now, ids, cleared, path);
      }
    }
    forall t | 0 <= t < |before| ensures now[t] == spec[t] {
      if before[t].Some? {
        var a, b := now[t].value.capTable, spec[t].value.capTable;
        forall s | 0 <= s < |a| ensures a[s] == b[s] {
          assert LiveAt(before, (t, s)) <==> before[t].value.capTable[s].Some?;
          assert LiveAt(now, (t, s)) <==> a[s].Some?;
        }
        assert a == b;
      }
    }
  }
}
