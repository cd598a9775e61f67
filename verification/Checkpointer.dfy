/** `capture`, `restore` and the checksum as they run: loops over the scheduler's task table and
    the single snapshot slot. */
module Checkpointer {
  import opened Core
  import opened Hash
  import opened Snapshot

  lemma FoldParts(ps: seq<seq<nat>>, n: nat)
    requires n < |ps|
    ensures Concat(ps[..n + 1]) == Concat(ps[..n]) + ps[n]
  {
    assert ps[..n + 1][..n] == ps[..n];
  }

  lemma {:induction false} FoldAppend(h: nat, a: seq<nat>, b: seq<nat>)
    requires h < WORD
    ensures Fold(h, a + b) == Fold(Fold(h, a), b)
  {
    if b == [] {
      assert a + b == a;
    } else {
      var n := |b| - 1;
      FoldAppend(h, a, b[..n]);
      assert (a + b)[..|a| + n] == a + b[..n];
    }
  }

  lemma FoldOne(h: nat, w: nat)
    requires h < WORD
    ensures Fold(h, [w]) == Mix(h, w)
  {
  }

  lemma FoldTwo(h: nat, a: nat, b: nat)
    requires h < WORD
    ensures Fold(h, [a, b]) == Mix(Mix(h, a), b)
  {
    FoldOne(h, a);
    FoldSnoc(h, [a], b);
    assert [a] + [b] == [a, b];
  }

  lemma FoldThree(h: nat, a: nat, b: nat, c: nat)
    requires h < WORD
    ensures Fold(h, [a, b, c]) == Mix(Mix(Mix(h, a), b), c)
  {
    FoldTwo(h, a, b);
    FoldSnoc(h, [a, b], c);
    assert [a, b] + [c] == [a, b, c];
  }

  lemma FoldFour(h: nat, a: nat, b: nat, c: nat, d: nat)
    requires h < WORD
    ensures Fold(h, [a, b, c, d]) == Mix(Mix(Mix(Mix(h, a), b), c), d)
  {
    FoldThree(h, a, b, c);
    FoldSnoc(h, [a, b, c], d);
    assert [a, b, c] + [d] == [a, b, c, d];
  }

  /** Mixing the words of one capability slot. */
  method MixCap(h0: nat, cap: Option<Capability>) returns (h: nat)
    requires h0 < WORD
    ensures h == Fold(h0, CapWords(cap))
  {
    if cap.None? {
      FoldOne(h0, 0);
      h := Mix(h0, 0);
    } else {
      var c := cap.value;
      var rights := Bit(c.read) + 2 * Bit(c.write) + 4 * Bit(c.grant) + 8 * Bit(c.sealed);
      FoldFour(h0, ResourceCode(c.resource), rights, Word(c.id), OptionWord(c.origin));
      h := Mix(h0, ResourceCode(c.resource));
      h := Mix(h, rights);
      h := Mix(h, Word(c.id));
      h := Mix(h, OptionWord(c.origin));
    }
  }

  /** Mixing the words of one task slot. */
  method MixTask(h0: nat, o: Option<Checkpoint>) returns (h: nat)
    requires h0 < WORD
    ensures h == Fold(h0, TaskWords(o))
  {
    if o.None? {
      FoldOne(h0, 0);
      h := Mix(h0, 0);
      return;
    }
    var cp := o.value;
    FoldThree(h0, 0xF00D, Word(cp.id), StateCode(cp.state));
    h := Mix(h0, 0xF00D);
    h := Mix(h, Word(cp.id));
    h := Mix(h, StateCode(cp.state));
    ghost var h1 := h;
    ghost var ps := TableParts(cp.capTable);
    assert ps[..0] == [];
    for cs := 0 to |cp.capTable|
      invariant h < WORD && h == Fold(h1, Concat(ps[..cs]))
    {
      FoldParts(ps, cs);
      FoldAppend(h1, Concat(ps[..cs]), ps[cs]);
      h := MixCap(h, cp.capTable[cs]);
    }
    assert ps[..|ps|] == ps;
    FoldAppend(h0, HeadWords(cp), Concat(ps));
    FoldAppend(h0, HeadWords(cp) + Concat(ps), TailWords(cp));
    var buffered := if cp.ipcBuffer.None? then 0 else Word(|cp.ipcBuffer.value.payload| + 1);
    FoldTwo(h, buffered, Word(cp.msgQueue.count));
    h := Mix(h, buffered);
    h := Mix(h, Word(cp.msgQueue.count));
  }

  /** The `checksum` function. */
  method ComputeChecksum(s: SystemSnapshot) returns (h: nat)
    ensures h == Checksum(s)
  {
    h := Mix(OFFSET, OptionWord(s.current));
    ghost var h1 := h;
    FoldOne(OFFSET, OptionWord(s.current));
    ghost var ps := TasksParts(s.tasks);
    assert ps[..0] == [];
    for i := 0 to |s.tasks|
      invariant h < WORD && h == Fold(h1, Concat(ps[..i]))
    {
      FoldParts(ps, i);
      FoldAppend(h1, Concat(ps[..i]), ps[i]);
      h := MixTask(h, s.tasks[i]);
    }
    assert ps[..|ps|] == ps;
    FoldAppend(OFFSET, [OptionWord(s.current)], Concat(ps));
  }

  /** The scheduler's table and the snapshot slot. */
  class Persistence {
    var tasks: TaskTable
    var current: Option<nat>
    var snap: SystemSnapshot

    constructor (tasks: TaskTable, current: Option<nat>)
      ensures this.tasks == tasks && this.current == current && !snap.valid
    {
      this.tasks, this.current := tasks, current;
      snap := SystemSnapshot(seq(|tasks|, _ => None), None, 0, false);
    }

    /** `capture`. */
    method Capture()
      modifies this`snap
      ensures snap == Snapshot.Capture(tasks, current)
    {
      var cps: seq<Option<Checkpoint>> := [];
      for i := 0 to |tasks|
        invariant |cps| == i && forall j :: 0 <= j < i ==> cps[j] == CheckpointOf(tasks[j])
      {
        cps := cps + [CheckpointOf(tasks[i])];
      }
      assert cps == Checkpoints(tasks);
      var sum := ComputeChecksum(SystemSnapshot(cps, current, 0, true));
      snap := SystemSnapshot(cps, current, sum, true);
    }

    /** `restore`: nothing is touched unless the checksum still matches. */
    method Restore() returns (r: Result<nat, ()>)
      modifies this`tasks
      ensures (r, tasks) == Snapshot.Restore(snap, old(tasks))
    {
      if !snap.valid {
        return Err(());
      }
      var sum := ComputeChecksum(snap);
      if sum != snap.checksum {
        return Err(());
      }
      var restored := InstallSaved(snap.tasks);
      r := Ok(restored);
    }

    /** The loop of `restore` over the saved tasks. */
    method InstallSaved(cps: seq<Option<Checkpoint>>) returns (restored: nat)
      modifies this`tasks
      ensures (tasks, restored) == InstallAll(old(tasks), cps, |cps|)
    {
      restored := 0;
      for i := 0 to |cps|
        invariant (tasks, restored) == InstallAll(old(tasks), cps, i)
      {
        var cp := cps[i];
        if cp.Some? && HasTask(tasks, cp.value.id) {
          tasks := tasks[cp.value.id := Some(Rollback(tasks[cp.value.id].value, cp.value))];
          restored := restored + 1;
        }
      }
    }
  }
}
