/** Semaphores and mutexes on values: who holds, who waits, and what every run of acquires and
    releases conserves. */
module SyncRuns {
  import opened Core

  const MAX_WAIT: nat := 16
  const I32_MAX: nat := 0x7FFF_FFFF

  /** The fields of a created object the service keeps. */
  datatype Obj = Obj(isMutex: bool, count: nat, waiters: seq<nat>)

  datatype Op = Acquire(task: nat) | Release(task: nat)

  /** What the service answers: a permit at once, a place in the queue, a full queue, a release
      that may hand the permit to a waiter, or nothing because the permit count overflowed and the
      kernel stopped. */
  datatype Outcome = Granted | Queued | Full | Released(woken: Option<nat>) | Halted

  function Apply(o: Obj, op: Op): (Obj, Outcome) {
    match op
    case Acquire(task) =>
      if o.count > 0 then (o.(count := o.count - 1), Granted)
      else if |o.waiters| < MAX_WAIT then (o.(waiters := o.waiters + [task]), Queued)
      else (o, Full)
    case Release(_) =>
      if o.waiters != [] then (o.(waiters := o.waiters[1..]), Released(Some(o.waiters[0])))
      else if !o.isMutex && o.count == I32_MAX then (o, Halted)
      else (o.(count := if o.isMutex then 1 else o.count + 1), Released(None))
  }

  /** An object with its history: permits granted, releases made, who queued up, who was handed a
      permit from the queue, and who holds permits now. */
  datatype Trace = Trace(obj: Obj, grants: nat, releases: nat, arrivals: seq<nat>, handed: seq<nat>, holders: multiset<nat>)

  function Start(isMutex: bool, initial: nat): Trace {
    Trace(Obj(isMutex, initial, []), 0, 0, [], [], multiset{})
  }

  function Step(t: Trace, op: Op): Trace {
    var (o, out) := Apply(t.obj, op);
    match out
    case Granted => t.(obj := o, grants := t.grants + 1, holders := t.holders + multiset{op.task})
    case Queued => t.(obj := o, arrivals := t.arrivals + [op.task])
    case Full => t
    case Halted => t
    case Released(woken) =>
      var left := t.holders - multiset{op.task};
      if woken.None? then t.(obj := o, releases := t.releases + 1, holders := left)
      else t.(obj := o, releases := t.releases + 1, grants := t.grants + 1,
              handed := t.handed + [woken.value], holders := left + multiset{woken.value})
  }

  function Run(isMutex: bool, initial: nat, ops: seq<Op>): Trace {
    if ops == [] then Start(isMutex, initial) else Step(Run(isMutex, initial, ops[..|ops| - 1]), ops[|ops| - 1])
  }

  /** For a semaphore, permits free plus permits granted are always the initial permits plus the
      releases. */
  lemma {:induction false} PermitsConserved(initial: nat, ops: seq<Op>)
    ensures var t := Run(false, initial, ops);
            !t.obj.isMutex && t.obj.count + t.grants == initial + t.releases
  {
    if ops != [] {
      PermitsConserved(initial, ops[..|ops| - 1]);
    }
  }

  /** Created from a byte, the count always fits its 32-bit field, and a release stops the kernel
      exactly when the outstanding releases of a semaphore without waiters have filled it. */
  lemma {:induction false} CountFits(isMutex: bool, initial: Byte, ops: seq<Op>, task: nat)
    ensures var t := Run(isMutex, initial, ops);
            && t.obj.isMutex == isMutex && t.obj.count <= I32_MAX
            && (Apply(t.obj, Release(task)).1 == Halted <==>
                  !isMutex && t.obj.waiters == [] && initial + t.releases == I32_MAX + t.grants)
  {
    if ops != [] {
      CountFits(isMutex, initial, ops[..|ops| - 1], task);
    }
    if !isMutex {
      PermitsConserved(initial, ops);
    }
  }

  ghost predicate InOrder(t: Trace) {
    && (t.obj.waiters != [] ==> t.obj.count == 0) && |t.obj.waiters| <= MAX_WAIT
    && t.arrivals == t.handed + t.obj.waiters
  }

  lemma StepInOrder(t: Trace, op: Op)
    requires InOrder(t)
    ensures InOrder(Step(t, op))
  {
  }

  /** Tasks wait only while no permit is free, at most sixteen of them, and permits are handed over
      in the order the tasks queued up. */
  lemma {:induction false} WaitersInOrder(isMutex: bool, initial: nat, ops: seq<Op>)
    ensures InOrder(Run(isMutex, initial, ops))
  {
    if ops != [] {
      WaitersInOrder(isMutex, initial, ops[..|ops| - 1]);
      StepInOrder(Run(isMutex, initial, ops[..|ops| - 1]), ops[|ops| - 1]);
    }
  }

  // ---- Mutual exclusion ----

  /** The permit is either free or held, once. */
  ghost predicate Exclusive(t: Trace) {
    t.obj.count + |t.holders| == 1
  }

  ghost predicate AlwaysExclusive(ops: seq<Op>) {
    forall n :: 0 <= n <= |ops| ==> Exclusive(Run(true, 1, ops[..n]))
  }

  /** A release made by a task that does not hold the mutex while another does. */
  ghost predicate Stray(t: Trace, op: Op) {
    op.Release? && op.task !in t.holders && |t.holders| > 0
  }

  ghost predicate Disciplined(ops: seq<Op>) {
    forall n :: 0 <= n < |ops| ==> !Stray(Run(true, 1, ops[..n]), ops[n])
  }

  /** Waiters of an exclusive mutex wait for a holder. */
  ghost predicate Held(t: Trace) {
    t.obj.isMutex && (t.obj.waiters != [] ==> t.obj.count == 0)
  }

  /** One step keeps the permit single exactly when it is not a stray release. */
  lemma StepExclusive(t: Trace, op: Op)
    requires Exclusive(t) && Held(t)
    ensures Exclusive(Step(t, op)) <==> !Stray(t, op)
  {
  }

  lemma RunSnoc(isMutex: bool, initial: nat, ops: seq<Op>, n: nat)
    requires n < |ops|
    ensures Run(isMutex, initial, ops[..n + 1]) == Step(Run(isMutex, initial, ops[..n]), ops[n])
  {
    assert ops[..n + 1][..n] == ops[..n];
  }

  lemma {:induction false} RunMutex(ops: seq<Op>, initial: nat)
    ensures Run(true, initial, ops).obj.isMutex
  {
    if ops != [] {
      RunMutex(ops[..|ops| - 1], initial);
    }
  }

  lemma {:induction false} ExclusiveUpTo(ops: seq<Op>, n: nat)
    requires n <= |ops| && forall k :: 0 <= k < n ==> !Stray(Run(true, 1, ops[..k]), ops[k])
    ensures Exclusive(Run(true, 1, ops[..n]))
  {
    if n == 0 {
      assert ops[..0] == [];
    } else {
      ExclusiveUpTo(ops, n - 1);
      RunSnoc(true, 1, ops, n - 1);
      WaitersInOrder(true, 1, ops[..n - 1]);
      RunMutex(ops[..n - 1], 1);
      StepExclusive(Run(true, 1, ops[..n - 1]), ops[n - 1]);
    }
  }

  /** A mutex created with count one is held by at most one task, with the permit never lost or
      doubled, throughout a run if and only if no task releases it while another holds it. */
  lemma MutualExclusionIff(ops: seq<Op>)
    ensures AlwaysExclusive(ops) <==> Disciplined(ops)
  {
    if Disciplined(ops) {
      forall n | 0 <= n <= |ops| ensures Exclusive(Run(true, 1, ops[..n])) {
        ExclusiveUpTo(ops, n);
      }
    } else {
      var n :| 0 <= n < |ops| && Stray(Run(true, 1, ops[..n]), ops[n]);
      RunSnoc(true, 1, ops, n);
      WaitersInOrder(true, 1, ops[..n]);
      RunMutex(ops[..n], 1);
      if Exclusive(Run(true, 1, ops[..n])) {
        StepExclusive(Run(true, 1, ops[..n]), ops[n]);
        assert !Exclusive(Run(true, 1, ops[..n + 1]));
      }
    }
  }

  /** At most one holder: what clients that release only what they hold get. */
  lemma AtMostOneHolder(ops: seq<Op>, n: nat)
    requires n <= |ops|
    requires forall k :: 0 <= k < |ops| && ops[k].Release? ==> ops[k].task in Run(true, 1, ops[..k]).holders
    ensures |Run(true, 1, ops[..n]).holders| <= 1
  {
    assert Disciplined(ops);
    MutualExclusionIff(ops);
    assert Exclusive(Run(true, 1, ops[..n]));
  }

  /** A stray release really does let two tasks in. */
  lemma StrayLetsTwoIn(a: nat, b: nat, c: nat)
    requires a != b && b != c
    ensures Run(true, 1, [Acquire(a), Release(b), Acquire(c)]).holders == multiset{a, c}
  {
    var ops := [Acquire(a), Release(b), Acquire(c)];
    assert ops[..0] == [] && ops[..3] == ops;
    var t1 := Trace(Obj(true, 0, []), 1, 0, [], [], multiset{a});
    assert Step(Start(true, 1), Acquire(a)) == t1;
    var t2 := Trace(Obj(true, 1, []), 1, 1, [], [], multiset{a});
    assert Step(t1, Release(b)) == t2;
    assert Step(t2, Acquire(c)).holders == multiset{a, c};
    RunSnoc(true, 1, ops, 0);
    RunSnoc(true, 1, ops, 1);
    RunSnoc(true, 1, ops, 2);
  }
}
