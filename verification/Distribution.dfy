/** The distribution layer as it runs: the routing table and the remote node's slots edited in
    place, the scheduler's task table, and the transport inbox. */
module Distribution {
  import opened Core
  import Derivation
  import opened Ipc
  import opened Slots
  import opened Snapshot
  import opened DistRuns

  predicate Holds<T>(e: Option<(nat, T)>, key: nat) {
    e.Some? && e.value.0 == key
  }

  /** The first slot of a key is the one found and overwritten. */
  lemma {:induction false} FirstMatch<T>(es: Entries<T>, key: nat, v: T, i: nat)
    requires i < |es| && Holds(es[i], key) && forall j :: 0 <= j < i ==> !Holds(es[j], key)
    ensures Find(es, key) == Some(es[i].value.1) && Overwrite(es, key, v) == es[i := Some((key, v))]
  {
    if i > 0 {
      assert !Holds(es[0], key);
      assert forall j :: 0 <= j < |es[1..]| ==> es[1..][j] == es[j + 1];
      FirstMatch(es[1..], key, v, i - 1);
      assert [es[0]] + es[1..][i - 1 := Some((key, v))] == es[i := Some((key, v))];
    }
  }

  lemma {:induction false} NoMatch<T>(es: Entries<T>, key: nat)
    requires forall j :: 0 <= j < |es| ==> !Holds(es[j], key)
    ensures Find(es, key) == None
  {
    if es != [] {
      assert !Holds(es[0], key);
      assert forall j :: 0 <= j < |es[1..]| ==> es[1..][j] == es[j + 1];
      NoMatch(es[1..], key);
    }
  }

  lemma {:induction false} FirstFree<T>(es: Entries<T>, key: nat, v: T, i: nat)
    requires i <= |es| && (i < |es| ==> es[i].None?) && forall j :: 0 <= j < i ==> es[j].Some?
    ensures Fill(es, key, v) == if i < |es| then es[i := Some((key, v))] else es
  {
    if es != [] && i > 0 {
      assert es[0].Some?;
      assert forall j :: 0 <= j < |es[1..]| ==> es[1..][j] == es[j + 1];
      FirstFree(es[1..], key, v, i - 1);
      assert [es[0]] + es[1..] == es;
      if i < |es| {
        assert [es[0]] + es[1..][i - 1 := Some((key, v))] == es[i := Some((key, v))];
      }
    }
  }

  /** Taking the first free slot, as `host` does. */
  method FillSlots<T>(a: array<Option<(nat, T)>>, key: nat, v: T)
    modifies a
    ensures a[..] == Fill(old(a[..]), key, v)
  {
    ghost var es := a[..];
    for i := 0 to a.Length
      invariant a[..] == es && forall j :: 0 <= j < i ==> es[j].Some?
    {
      if a[i].None? {
        FirstFree(es, key, v, i);
        a[i] := Some((key, v));
        assert a[..] == es[i := Some((key, v))];
        return;
      }
    }
    FirstFree(es, key, v, |es|);
  }

  /** `ServiceRegistry::set`: the service's slot if it has one, else the first free slot. */
  method SetSlots<T>(a: array<Option<(nat, T)>>, key: nat, v: T)
    modifies a
    ensures a[..] == Set(old(a[..]), key, v)
  {
    ghost var es := a[..];
    for i := 0 to a.Length
      invariant a[..] == es && forall j :: 0 <= j < i ==> !Holds(es[j], key)
    {
      if Holds(a[i], key) {
        FirstMatch(es, key, v, i);
        a[i] := Some((key, v));
        assert a[..] == es[i := Some((key, v))];
        return;
      }
    }
    NoMatch(es, key);
    FillSlots(a, key, v);
  }

  class Router {
    const registry: array<Option<(nat, Location)>>
    const services: array<Option<(nat, Checkpoint)>>
    const nodeId: nat
    var inbox: MessageQueue
    var delivered: nat
    var tasks: TaskTable
    var current: Option<nat>

    ghost function Abstract(): Dist
      reads this, registry, services
    {
      Dist(registry[..], Host(nodeId, inbox, services[..], delivered), tasks, current)
    }

    constructor (slots: nat, nodeId: nat, capacity: nat, tasks: TaskTable, current: Option<nat>)
      requires capacity > 0 && QueuesValid(tasks)
      ensures Valid(Abstract()) && fresh(registry) && fresh(services) && this.tasks == tasks && this.current == current
      ensures forall svc :: Find(registry[..], svc) == None && Find(services[..], svc) == None
    {
      registry := new Option<(nat, Location)>[slots](_ => None);
      services := new Option<(nat, Checkpoint)>[slots](_ => None);
      this.nodeId, this.inbox, this.delivered := nodeId, EmptyQueue(capacity), 0;
      this.tasks, this.current := tasks, current;
      new;
      forall svc ensures Find(registry[..], svc) == None && Find(services[..], svc) == None {
        FreeFindsNone(registry[..], svc);
        FreeFindsNone(services[..], svc);
      }
    }

    /** `register`. */
    method Register(svc: nat, loc: Location)
      requires Valid(Abstract())
      modifies registry
      ensures Abstract() == Do(old(Abstract()), DistRuns.Register(svc, loc)) && Valid(Abstract())
    {
      StepValid(Abstract(), DistRuns.Register(svc, loc));
      SetSlots(registry, svc, loc);
    }

    /** `route_send`: the caller never looks at where the service is. */
    method RouteSend(cap: Capability, payload: seq<Byte>, serial: nat) returns (r: Routed)
      requires Valid(Abstract())
      modifies this`tasks, this`inbox
      ensures (Abstract(), r) == DistRuns.RouteSend(old(Abstract()), cap, payload, serial) && Valid(Abstract())
    {
      StepValid(Abstract(), Send(cap, payload, serial));
      if !cap.resource.Service? {
        return Unknown;
      }
      var loc := Find(registry[..], cap.resource.svc);
      if loc.None? {
        return Unknown;
      }
      var msg := Wrap(current, payload, serial);
      match loc.value
      case Local(tid) =>
        tasks := Deliver(tasks, tid, msg);
        r := ToLocal(tid);
      case Remote(node) =>
        if nodeId == node {
          inbox := Offer(inbox, msg);
        }
        r := ToRemote(node);
    }

    /** `migrate`: checkpoint, transfer, re-point the route, tear down. */
    method Migrate(svc: nat, dest: nat) returns (r: Result<nat, ()>)
      requires Valid(Abstract())
      modifies this`tasks, registry, services
      ensures (Abstract(), r) == DistRuns.Migrate(old(Abstract()), svc, dest) && Valid(Abstract())
    {
      StepValid(Abstract(), MoveOut(svc, dest));
      var loc := Find(registry[..], svc);
      if loc.None? || !loc.value.Local? {
        return Err(());
      }
      var tid := loc.value.task;
      if !HasTask(tasks, tid) {
        return Err(());
      }
      var cp := CheckpointOf(tasks[tid]).value;
      FillSlots(services, svc, cp);
      SetSlots(registry, svc, Remote(dest));
      tasks := tasks[tid := None];
      r := Ok(Derivation.TableCount(cp.capTable));
    }

    /** `pump_remote`: take messages until the inbox is empty. */
    method PumpRemote() returns (count: nat)
      requires Valid(Abstract())
      modifies this`inbox, this`delivered
      ensures (Abstract(), count) == DistRuns.PumpRemote(old(Abstract())) && Valid(Abstract())
    {
      StepValid(Abstract(), Pump);
      count := 0;
      ghost var q := inbox;
      var next := inbox.Dequeue();
      while next.Some?
        invariant inbox.Valid() && next == inbox.Dequeue() && delivered == old(delivered) + count
        invariant Drain(q) == (Drain(inbox).0, count + Drain(inbox).1)
        decreases inbox.count
      {
        inbox := next.value.1;
        delivered := delivered + 1;
        count := count + 1;
        next := inbox.Dequeue();
      }
    }

    /** `failover`: rebuild the service on a live replica from the hosted checkpoint. */
    method Failover(svc: nat, replica: nat) returns (r: Result<nat, ()>)
      requires Valid(Abstract())
      modifies this`tasks, registry
      ensures (Abstract(), r) == DistRuns.Failover(old(Abstract()), svc, replica) && Valid(Abstract())
    {
      StepValid(Abstract(), FailOver(svc, replica));
      var cp := Find(services[..], svc);
      if cp.None? || !HasTask(tasks, replica) {
        return Err(());
      }
      var t := tasks[replica].value;
      tasks := tasks[replica := Some(t.(capTable := cp.value.capTable, ipcBuffer := cp.value.ipcBuffer, msgQueue := cp.value.msgQueue))];
      SetSlots(registry, svc, Local(replica));
      r := Ok(Derivation.TableCount(cp.value.capTable));
    }
  }
}
