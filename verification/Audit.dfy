/** The kernel-only capability audit trail: a fixed ring that overwrites its
    oldest record, with counters for the records kept and lost. */
module Audit {
  import opened Arith
  import opened Core

  datatype AuditKind = Grant | Revoke | RevokePropagated

  datatype AuditEvent = AuditEvent(kind: AuditKind, actor: nat, target: nat, resource: Resource, slot: nat)

  /** The sentinel actor of kernel-internal actions. */
  const KERNEL_ACTOR: nat := U64_MAX

  class AuditLog {
    const buffer: array<Option<AuditEvent>>
    var next: nat
    var total: nat
    var dropped: nat
    /** Everything ever recorded, oldest first. */
    ghost var trail: seq<AuditEvent>

    /** The ring holds the newest records of the trail and counts the rest as dropped. */
    ghost predicate Valid()
      reads this, buffer
    {
      && 0 < buffer.Length
      && total == |trail|
      && next == total % buffer.Length
      && dropped == (if total <= buffer.Length then 0 else total - buffer.Length)
      && (forall k :: 0 <= k < total && total - buffer.Length <= k ==>
            buffer[k % buffer.Length] == Some(trail[k]))
      && (forall k :: total <= k < buffer.Length ==> buffer[k] == None)
    }

    constructor (capacity: nat)
      requires 0 < capacity
      ensures Valid() && trail == [] && fresh(buffer) && buffer.Length == capacity
    {
      buffer := new Option<AuditEvent>[capacity](_ => None);
      next, total, dropped, trail := 0, 0, 0, [];
    }

    method Push(ev: AuditEvent)
      requires Valid()
      modifies this, buffer
      ensures Valid()
      ensures trail == old(trail) + [ev]
    {
      ghost var n := buffer.Length;
      ghost var t := total;
      if t >= n {
        ModTurn(t - n, n);
      } else {
        ModWrap(t, n);
      }
      if buffer[next].Some? {
        dropped := dropped + 1;
      }
      forall k | 0 <= k < t && t - n < k
        ensures k % n != t % n
      {
        ModApart(k, t, n);
      }
      ModShift(t, 1, n);
      buffer[next] := Some(ev);
      next := (next + 1) % buffer.Length;
      total := total + 1;
      trail := trail + [ev];
    }

    /** The walk of `dump`, oldest surviving record to newest. */
    method Dump() returns (events: seq<AuditEvent>)
      requires Valid()
      ensures |events| == if |trail| <= buffer.Length then |trail| else buffer.Length
      ensures events == trail[|trail| - |events|..]
    {
      var wrapped := total > buffer.Length;
      var count := if wrapped then buffer.Length else total;
      var start := if wrapped then next else 0;
      events := [];
      for i := 0 to count
        invariant |events| == i
        invariant events == trail[total - count..total - count + i]
      {
        var idx := (start + i) % buffer.Length;
        assert idx == (total - count + i) % buffer.Length by {
          if wrapped {
            ModShift(total, i, buffer.Length);
            ModTurn(total - count + i, buffer.Length);
          }
        }
        var ev := buffer[idx];
        if ev.Some? {
          events := events + [ev.value];
        }
      }
    }
  }
}
