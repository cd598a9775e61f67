/** Whole runs of capability calls, with the full derivation history kept beside
    the kernel state: what is live, what was ever derived from what, and which
    ids were ever revoked. */
module CapRuns {
  import opened Core
  import opened Derivation
  import opened CapSyscalls

  /** What a capability was when it was installed. */
  datatype Birth = Birth(origin: Option<nat>, resource: Resource, rights: RightsMask)

  function BirthOf(c: Capability): Birth {
    Birth(c.origin, c.resource, RightsMask(c.read, c.write, c.grant))
  }

  /** `born` maps every id ever installed to its birth; `revoked` holds every id
      ever named by a successful revocation. */
  datatype World = World(k: KState, born: map<nat, Birth>, revoked: set<nat>)

  datatype Call =
    | DoGrant(src: nat, target: nat, rights: RightsMask)
    | DoRevoke(target: nat, idx: nat)
    | DoSpawn(blobType: nat, im: Image)
    | DoMint(t: nat, resource: Resource, rights: RightsMask, sealed: bool)  // boot-time root
    | DoLoad(t: nat, im: Image)                                             // boot-time task
    | DoSwitch(next: Option<nat>)                                           // any context switch

  predicate Callable(call: Call) {
    match call
    case DoSpawn(_, im) => 0 < im.queueCapacity
    case DoLoad(_, im) => 0 < im.queueCapacity
    case _ => true
  }

  /** The id the dispatcher passes for the running task. */
  function Caller(k: KState): nat {
    if k.current.Some? then k.current.value else U64_MAX
  }

  ghost function Exec(k: KState, call: Call): KState
    requires Callable(call)
  {
    match call
    case DoGrant(src, target, rights) => GrantCap(k, Caller(k), src, target, rights).0
    case DoRevoke(target, idx) => RevokeCap(k, target, idx).0
    case DoSpawn(blobType, im) => Spawn(k, blobType, im).0
    case DoMint(t, resource, rights, sealed) => Mint(k, t, resource, rights, sealed).0
    case DoLoad(t, im) =>
      if t < |k.tasks| && k.tasks[t].None? then k.(tasks := k.tasks[t := Some(NewTask(t, im))]) else k
    case DoSwitch(next) => k.(current := next)
  }

  /** With no task running, a grant and a revocation are refused. */
  lemma IdleCallsRefused(k: KState, src: nat, target: nat, rights: RightsMask, idx: nat)
    requires k.current.None? && |k.tasks| <= U64_MAX
    ensures Exec(k, DoGrant(src, target, rights)) == k && Exec(k, DoRevoke(target, idx)) == k
  {
  }

  ghost predicate LiveId(tasks: TaskTable, id: nat) {
    exists p :: LiveAt(tasks, p) && CapAt(tasks, p).id == id
  }

  /** The capability installed under `id`, if a slot holds one. */
  ghost function Newborn(tasks: TaskTable, id: nat): Option<Capability> {
    if LiveId(tasks, id) then var p :| LiveAt(tasks, p) && CapAt(tasks, p).id == id; Some(CapAt(tasks, p)) else None
  }

  ghost function Step(w: World, call: Call): World
    requires Callable(call)
  {
    var k' := Exec(w.k, call);
    var c := Newborn(k'.tasks, w.k.nextId);
    var victim := if call.DoRevoke? then RevokeVictim(w.k, call.target, call.idx) else None;
    World(k',
          if c.Some? then w.born[w.k.nextId := BirthOf(c.value)] else w.born,
          if victim.Some? then w.revoked + {victim.value.id} else w.revoked)
  }

  /** An empty machine with `n` task slots; ids start at 1. */
  function Boot(n: nat): World {
    World(KState(seq(n, _ => None), None, 1), map[], {})
  }

  ghost predicate AllCallable(calls: seq<Call>) {
    forall i :: 0 <= i < |calls| ==> Callable(calls[i])
  }

  ghost function Run(n: nat, calls: seq<Call>): World
    requires AllCallable(calls)
  {
    if |calls| == 0 then Boot(n) else Step(Run(n, calls[..|calls| - 1]), calls[|calls| - 1])
  }

  /** `d` is `a` or was derived from it, directly or through intermediate grants,
      whether or not any of them still exists. */
  ghost predicate Descends(born: map<nat, Birth>, a: nat, d: nat)
    decreases d
  {
    || d == a
    || (d in born && born[d].origin.Some? && born[d].origin.value < d && Descends(born, a, born[d].origin.value))
  }

  predicate RightsWithin(a: RightsMask, b: RightsMask) {
    (a.read ==> b.read) && (a.write ==> b.write) && (a.grant ==> b.grant)
  }

  // ---- The run invariant ----

  ghost predicate DistinctIds(tasks: TaskTable) {
    forall p, q :: LiveAt(tasks, p) && LiveAt(tasks, q) && CapAt(tasks, p).id == CapAt(tasks, q).id ==> p == q
  }

  ghost predicate LiveRecorded(w: World) {
    forall p :: LiveAt(w.k.tasks, p) ==>
      var c := CapAt(w.k.tasks, p);
      1 <= c.id < w.k.nextId && c.id in w.born && w.born[c.id] == BirthOf(c)
  }

  ghost predicate OriginsLive(tasks: TaskTable) {
    forall p :: LiveAt(tasks, p) && CapAt(tasks, p).origin.Some? ==>
      CapAt(tasks, p).origin.value < CapAt(tasks, p).id && LiveId(tasks, CapAt(tasks, p).origin.value)
  }

  ghost predicate HistoryConfined(w: World) {
    forall d :: d in w.born ==>
      && 1 <= d < w.k.nextId
      && (w.born[d].origin.Some? ==>
            var o := w.born[d].origin.value;
            && o in w.born && o < d
            && w.born[d].resource == w.born[o].resource
            && RightsWithin(w.born[d].rights, w.born[o].rights)
            && w.born[o].rights.grant)
  }

  ghost predicate RevokedDead(w: World) {
    forall id :: id in w.revoked ==> id in w.born && !LiveId(w.k.tasks, id)
  }

  ghost predicate Inv(w: World) {
    && 1 <= w.k.nextId
    && DistinctIds(w.k.tasks) && LiveRecorded(w) && OriginsLive(w.k.tasks)
    && HistoryConfined(w) && RevokedDead(w)
  }

  /** Two tables hold the same capabilities in the same slots. */
  ghost predicate SameLive(a: TaskTable, b: TaskTable) {
    && (forall p :: LiveAt(a, p) <==> LiveAt(b, p))
    && (forall p :: LiveAt(a, p) ==> CapAt(a, p) == CapAt(b, p))
  }

  /** A step that installs nothing keeps the invariant, whatever it did to the counter. */
  lemma QuietKeeps(w: World, k': KState)
    requires Inv(w) && SameLive(w.k.tasks, k'.tasks) && w.k.nextId <= k'.nextId
    ensures Inv(World(k', w.born, w.revoked))
    ensures Newborn(k'.tasks, w.k.nextId) == None
  {
  }

  /** What an installed capability must satisfy: a root, or attenuated from a live donor. */
  ghost predicate Justified(w: World, c: Capability) {
    c.origin.Some? ==>
      exists p :: LiveAt(w.k.tasks, p) &&
        var donor := CapAt(w.k.tasks, p);
        && donor.id == c.origin.value && donor.grant
        && c.resource == donor.resource && RightsWithin(BirthOf(c).rights, BirthOf(donor).rights)
  }

  /** Installing a justified capability under the fresh id keeps the invariant. */
  lemma InstallKeeps(w: World, loaded: TaskTable, k': KState, p: SlotRef)
    requires Inv(w) && SameLive(w.k.tasks, loaded) && k'.nextId == w.k.nextId + 1
    requires LiveAt(k'.tasks, p) && !LiveAt(loaded, p)
    requires CapAt(k'.tasks, p).id == w.k.nextId && Justified(w, CapAt(k'.tasks, p))
    requires forall q :: q != p ==> (LiveAt(k'.tasks, q) <==> LiveAt(loaded, q))
    requires forall q :: q != p && LiveAt(loaded, q) ==> CapAt(k'.tasks, q) == CapAt(loaded, q)
    ensures Newborn(k'.tasks, w.k.nextId) == Some(CapAt(k'.tasks, p))
    ensures Inv(World(k', w.born[w.k.nextId := BirthOf(CapAt(k'.tasks, p))], w.revoked))
  {
    var n := w.k.nextId;
    var c := CapAt(k'.tasks, p);
    forall q | LiveAt(k'.tasks, q) && q != p
      ensures LiveAt(w.k.tasks, q) && CapAt(k'.tasks, q) == CapAt(w.k.tasks, q) && CapAt(k'.tasks, q).id < n
    {
    }
    forall id | id != n ensures LiveId(w.k.tasks, id) <==> LiveId(k'.tasks, id) {
      if LiveId(w.k.tasks, id) {
        var q :| LiveAt(w.k.tasks, q) && CapAt(w.k.tasks, q).id == id;
        assert LiveAt(k'.tasks, q);
      }
    }
  }

  /** `CapTable::insert` into task `t` after loading (or not) an empty task. */
  lemma InsertKeeps(w: World, loaded: KState, t: nat, c: Capability)
    requires Inv(w) && SameLive(w.k.tasks, loaded.tasks) && loaded.nextId == w.k.nextId
    requires HasTask(loaded.tasks, t) && Justified(w, c)
    ensures var (k', slot) := Insert(loaded, t, c);
            var added := Newborn(k'.tasks, w.k.nextId);
            && added.Some? == slot.Some?
            && (slot.None? ==> SameLive(w.k.tasks, k'.tasks))
            && Inv(World(k', if added.Some? then w.born[w.k.nextId := BirthOf(added.value)] else w.born, w.revoked))
  {
    var (k', slot) := Insert(loaded, t, c);
    if slot.None? {
      QuietKeeps(w, k');
    } else {
      InstallKeeps(w, loaded.tasks, k', (t, slot.value));
    }
  }

  // ---- Revocation ----

  /** Clearing the victim and its cascade removes only capabilities, and keeps every survivor's origin live. */
  lemma RevokeSlots(k: KState, target: nat, idx: nat, p: SlotRef)
    requires RevokeVictim(k, target, idx).Some?
    ensures var id := RevokeVictim(k, target, idx).value.id;
            var after := RevokeCap(k, target, idx).0.tasks;
            var mid := ClearSlot(k.tasks, (target, idx));
            && LiveAt(k.tasks, (target, idx)) && CapAt(k.tasks, (target, idx)).id == id
            && (LiveAt(after, p) <==> LiveAt(k.tasks, p) && p != (target, idx) && !Derived(mid, id, p))
            && (LiveAt(after, p) ==> CapAt(after, p) == CapAt(k.tasks, p))
  {
  }

  /** A survivor's origin survives: had it been cleared, the survivor would be derived too. */
  lemma RevokeKeepsOrigins(k: KState, target: nat, idx: nat)
    requires RevokeVictim(k, target, idx).Some? && OriginsLive(k.tasks)
    ensures OriginsLive(RevokeCap(k, target, idx).0.tasks)
  {
    var id := RevokeVictim(k, target, idx).value.id;
    var after := RevokeCap(k, target, idx).0.tasks;
    var mid := ClearSlot(k.tasks, (target, idx));
    forall p | LiveAt(after, p) && CapAt(after, p).origin.Some?
      ensures CapAt(after, p).origin.value < CapAt(after, p).id && LiveId(after, CapAt(after, p).origin.value)
    {
      RevokeSlots(k, target, idx, p);
      var o := CapAt(k.tasks, p).origin.value;
      var q :| LiveAt(k.tasks, q) && CapAt(k.tasks, q).id == o;
      RevokeSlots(k, target, idx, q);
      assert LiveAt(mid, p) && CapAt(mid, p) == CapAt(k.tasks, p);
      if !LiveAt(after, q) {
        if q != (target, idx) {
          assert LiveAt(mid, q) && CapAt(mid, q) == CapAt(k.tasks, q);
        }
        assert RevokedId(mid, id, o);
        DerivedStep(mid, id, p);
      }
    }
  }

  lemma RevokeKeeps(w: World, target: nat, idx: nat)
    requires Inv(w)
    ensures Inv(Step(w, DoRevoke(target, idx)))
  {
    var victim := RevokeVictim(w.k, target, idx);
    if victim.None? {
      QuietKeeps(w, w.k);
    } else {
      var after := RevokeCap(w.k, target, idx).0.tasks;
      RevokeKeepsOrigins(w.k, target, idx);
      forall p | LiveAt(after, p)
        ensures LiveAt(w.k.tasks, p) && CapAt(after, p) == CapAt(w.k.tasks, p) && p != (target, idx)
      {
        RevokeSlots(w.k, target, idx, p);
      }
      RevokeSlots(w.k, target, idx, (target, idx));
      forall id | LiveId(after, id) ensures LiveId(w.k.tasks, id) && id != victim.value.id {
        var p :| LiveAt(after, p) && CapAt(after, p).id == id;
        assert LiveAt(w.k.tasks, p);
      }
    }
  }

  lemma StepKeeps(w: World, call: Call)
    requires Inv(w) && Callable(call)
    ensures Inv(Step(w, call))
  {
    match call
    case DoGrant(src, target, rights) =>
      var caller := Caller(w.k);
      var (k', r, slot) := GrantCap(w.k, caller, src, target, rights);
      if HasTask(w.k.tasks, caller) && GetCap(w.k.tasks[caller].value.capTable, src).Some?
         && w.k.tasks[caller].value.capTable[src].value.grant && HasTask(w.k.tasks, target) {
        assert LiveAt(w.k.tasks, (caller, src));
        var donor := CapAt(w.k.tasks, (caller, src));
        InsertKeeps(w, w.k, target, Attenuate(donor, rights).value.(origin := Some(donor.id)));
      } else {
        QuietKeeps(w, w.k);
      }
    case DoRevoke(target, idx) =>
      RevokeKeeps(w, target, idx);
    case DoSpawn(blobType, im) =>
      SpawnKeeps(w, blobType, im);
    case DoMint(t, resource, rights, sealed) =>
      if HasTask(w.k.tasks, t) {
        InsertKeeps(w, w.k, t, Capability(resource, rights.read, rights.write, rights.grant, sealed, 0, None));
      } else {
        QuietKeeps(w, w.k);
      }
    case DoLoad(t, im) =>
      QuietKeeps(w, Exec(w.k, call));
    case DoSwitch(next) =>
      QuietKeeps(w, Exec(w.k, call));
  }

  lemma SpawnKeeps(w: World, blobType: nat, im: Image)
    requires Inv(w) && 0 < im.queueCapacity
    ensures Inv(Step(w, DoSpawn(blobType, im)))
  {
    var id := FirstFreeTask(w.k.tasks, 2);
    if w.k.current != Some(INIT_TASK) || id.None? || !(1 <= blobType <= 3) || !HasTask(w.k.tasks, INIT_TASK) {
      QuietKeeps(w, w.k);
    } else {
      var loaded := w.k.(tasks := w.k.tasks[id.value := Some(NewTask(id.value, im))]);
      InsertKeeps(w, loaded, INIT_TASK, ChannelRoot(id.value));
      var (k', slot) := Insert(loaded, INIT_TASK, ChannelRoot(id.value));
      if slot.None? {
        QuietKeeps(w, k'.(tasks := k'.tasks[id.value := None]));
      }
    }
  }

  lemma {:induction false} RunInv(n: nat, calls: seq<Call>)
    requires AllCallable(calls)
    ensures Inv(Run(n, calls))
  {
    if |calls| > 0 {
      RunInv(n, calls[..|calls| - 1]);
      StepKeeps(Run(n, calls[..|calls| - 1]), calls[|calls| - 1]);
    }
  }

  // ---- Main results ----

  /** In every reachable state live ids are pairwise distinct, and a derived
      capability is younger than its donor, which is itself still live. */
  lemma LiveLineage(n: nat, calls: seq<Call>, p: SlotRef, q: SlotRef)
    requires AllCallable(calls)
    requires LiveAt(Run(n, calls).k.tasks, p) && LiveAt(Run(n, calls).k.tasks, q)
    ensures var tasks := Run(n, calls).k.tasks;
            && (CapAt(tasks, p).id == CapAt(tasks, q).id ==> p == q)
            && (CapAt(tasks, p).origin.Some? ==>
                  CapAt(tasks, p).origin.value < CapAt(tasks, p).id && LiveId(tasks, CapAt(tasks, p).origin.value))
  {
    RunInv(n, calls);
  }

  /** Every ancestor of a live capability is live. */
  lemma {:induction false} AncestorsLive(w: World, a: nat, d: nat)
    requires Inv(w) && LiveId(w.k.tasks, d) && Descends(w.born, a, d)
    ensures LiveId(w.k.tasks, a)
    decreases d
  {
    if d != a {
      var p :| LiveAt(w.k.tasks, p) && CapAt(w.k.tasks, p).id == d;
      AncestorsLive(w, a, w.born[d].origin.value);
    }
  }

  lemma {:induction false} RevokedGrows(n: nat, calls: seq<Call>, more: seq<Call>)
    requires AllCallable(calls) && AllCallable(calls + more)
    ensures Run(n, calls).revoked <= Run(n, calls + more).revoked
    decreases |more|
  {
    if |more| == 0 {
      assert calls + more == calls;
    } else {
      var front := more[..|more| - 1];
      assert (calls + more)[..|calls + more| - 1] == calls + front;
      RevokedGrows(n, calls, front);
    }
  }

  /** Once an id is revoked, nothing in its derivation tree, as recorded at any
      later time, is ever live again. */
  lemma RevokedForever(n: nat, calls: seq<Call>, more: seq<Call>, root: nat, d: nat)
    requires AllCallable(calls) && AllCallable(calls + more)
    requires root in Run(n, calls).revoked
    requires Descends(Run(n, calls + more).born, root, d)
    ensures !LiveId(Run(n, calls + more).k.tasks, d)
  {
    var w := Run(n, calls + more);
    RunInv(n, calls + more);
    RevokedGrows(n, calls, more);
    if LiveId(w.k.tasks, d) {
      AncestorsLive(w, root, d);
    }
  }

  /** A slot derived through present capabilities descends in the history. */
  lemma {:induction false} ChainDescends(w: World, target: nat, idx: nat, path: seq<SlotRef>)
    requires Inv(w) && LiveAt(w.k.tasks, (target, idx)) && |path| > 0
    requires Chain(ClearSlot(w.k.tasks, (target, idx)), CapAt(w.k.tasks, (target, idx)).id, path)
    ensures LiveAt(w.k.tasks, path[|path| - 1])
    ensures Descends(w.born, CapAt(w.k.tasks, (target, idx)).id, CapAt(w.k.tasks, path[|path| - 1]).id)
  {
    var mid := ClearSlot(w.k.tasks, (target, idx));
    var p := path[|path| - 1];
    assert LiveAt(mid, p) && CapAt(mid, p) == CapAt(w.k.tasks, p);
    if |path| > 1 {
      ChainDescends(w, target, idx, path[..|path| - 1]);
    }
  }

  /** Conversely, a live history descendant is derived or is the victim itself. */
  lemma {:induction false} DescendsChain(w: World, target: nat, idx: nat, p: SlotRef)
    requires Inv(w) && LiveAt(w.k.tasks, (target, idx)) && LiveAt(w.k.tasks, p)
    requires Descends(w.born, CapAt(w.k.tasks, (target, idx)).id, CapAt(w.k.tasks, p).id)
    ensures p == (target, idx) || Derived(ClearSlot(w.k.tasks, (target, idx)), CapAt(w.k.tasks, (target, idx)).id, p)
    decreases CapAt(w.k.tasks, p).id
  {
    var mid := ClearSlot(w.k.tasks, (target, idx));
    var root := CapAt(w.k.tasks, (target, idx)).id;
    if p != (target, idx) {
      var o := CapAt(w.k.tasks, p).origin.value;
      var q :| LiveAt(w.k.tasks, q) && CapAt(w.k.tasks, q).id == o;
      DescendsChain(w, target, idx, q);
      assert LiveAt(mid, p) && CapAt(mid, p) == CapAt(w.k.tasks, p);
      if q != (target, idx) {
        assert LiveAt(mid, q) && CapAt(mid, q) == CapAt(w.k.tasks, q);
      }
      assert RevokedId(mid, root, o);
      DerivedStep(mid, root, p);
    }
  }

  /** A successful revocation ends exactly the victim's derivation tree: a capability
      survives if and only if it does not descend from the revoked one. */
  lemma RevokeExact(n: nat, calls: seq<Call>, target: nat, idx: nat, p: SlotRef)
    requires AllCallable(calls)
    requires RevokeVictim(Run(n, calls).k, target, idx).Some?
    requires LiveAt(Run(n, calls).k.tasks, p)
    ensures var w := Run(n, calls);
            && LiveAt(Step(w, DoRevoke(target, idx)).k.tasks, p)
               == !Descends(w.born, RevokeVictim(w.k, target, idx).value.id, CapAt(w.k.tasks, p).id)
  {
    var w := Run(n, calls);
    RunInv(n, calls);
    RevokeSlots(w.k, target, idx, p);
    var id := RevokeVictim(w.k, target, idx).value.id;
    var mid := ClearSlot(w.k.tasks, (target, idx));
    if Descends(w.born, id, CapAt(w.k.tasks, p).id) {
      DescendsChain(w, target, idx, p);
    } else if Derived(mid, id, p) {
      var path :| ChainTo(mid, id, p, path);
      ChainDescends(w, target, idx, path);
    }
  }

  lemma {:induction false} HistoryConfines(w: World, a: nat, d: nat)
    requires HistoryConfined(w) && d in w.born && Descends(w.born, a, d)
    ensures a in w.born
    ensures w.born[d].resource == w.born[a].resource
    ensures RightsWithin(w.born[d].rights, w.born[a].rights)
    decreases d
  {
    if d != a {
      HistoryConfines(w, a, w.born[d].origin.value);
    }
  }

  /** Authority confinement: a live capability names the resource of every ancestor,
      holds no right any ancestor lacked, and its ancestors are live up to a root. */
  lemma AuthorityConfined(n: nat, calls: seq<Call>, p: SlotRef, a: nat)
    requires AllCallable(calls) && LiveAt(Run(n, calls).k.tasks, p)
    requires Descends(Run(n, calls).born, a, CapAt(Run(n, calls).k.tasks, p).id)
    ensures var w := Run(n, calls);
            var c := CapAt(w.k.tasks, p);
            && a in w.born && LiveId(w.k.tasks, a)
            && c.resource == w.born[a].resource
            && RightsWithin(BirthOf(c).rights, w.born[a].rights)
            && (a != c.id ==> w.born[a].rights.grant)
  {
    var w := Run(n, calls);
    RunInv(n, calls);
    var c := CapAt(w.k.tasks, p);
    AncestorsLive(w, a, c.id);
    HistoryConfines(w, a, c.id);
    if a != c.id {
      DonorGrants(w, a, c.id);
    }
  }

  /** A proper ancestor held the grant right. */
  lemma {:induction false} DonorGrants(w: World, a: nat, d: nat)
    requires HistoryConfined(w) && d in w.born && a != d && Descends(w.born, a, d)
    ensures a in w.born && w.born[a].rights.grant
    decreases d
  {
    var o := w.born[d].origin.value;
    if o != a {
      DonorGrants(w, a, o);
    }
  }

  /** Every capability ever installed has a kernel-minted ancestor. */
  lemma {:induction false} RootExists(w: World, d: nat) returns (a: nat)
    requires HistoryConfined(w) && d in w.born
    ensures Descends(w.born, a, d) && a in w.born && w.born[a].origin == None
    decreases d
  {
    a := d;
    if w.born[d].origin.Some? {
      a := RootExists(w, w.born[d].origin.value);
    }
  }
}
