/** The log service on values: an unbounded publish history and one cursor per reader, and what
    every reader is guaranteed over whole runs. */
module LogRuns {
  import opened Core

  datatype Entry = Entry(tick: nat, producer: nat, kind: Byte, text: seq<Byte>)

  const CAPACITY: nat := 128

  datatype LogState = LogState(history: seq<Entry>, cursors: seq<nat>)

  /** The oldest position the ring still holds. */
  function Oldest(h: seq<Entry>): (p: nat)
    ensures p <= |h| <= p + CAPACITY
  {
    if |h| > CAPACITY then |h| - CAPACITY else 0
  }

  /** The first position from `from` on that holds an entry of this kind. */
  function FirstOf(h: seq<Entry>, from: nat, kind: Byte): (r: Option<nat>)
    ensures r.Some? ==> from <= r.value < |h| && h[r.value].kind == kind && forall p :: from <= p < r.value ==> h[p].kind != kind
    ensures r.None? ==> forall p :: from <= p < |h| ==> h[p].kind != kind
    decreases |h| - from
  {
    if from >= |h| then None else if h[from].kind == kind then Some(from) else FirstOf(h, from + 1, kind)
  }

  function ScanFrom(s: LogState, reader: nat): nat
    requires reader < |s.cursors|
  {
    if s.cursors[reader] < Oldest(s.history) then Oldest(s.history) else s.cursors[reader]
  }

  datatype Op = Publish(entry: Entry) | Read(reader: nat, kind: Byte)

  predicate Enabled(s: LogState, op: Op) {
    op.Read? ==> op.reader < |s.cursors|
  }

  /** The position a read returns. */
  function Answer(s: LogState, op: Op): Option<nat>
    requires Enabled(s, op) && op.Read?
  {
    FirstOf(s.history, ScanFrom(s, op.reader), op.kind)
  }

  function Do(s: LogState, op: Op): LogState
    requires Enabled(s, op)
  {
    match op
    case Publish(e) => s.(history := s.history + [e])
    case Read(reader, _) =>
      s.(cursors := s.cursors[reader := if Answer(s, op).Some? then Answer(s, op).value + 1 else |s.history|])
  }

  /** A read answers with the first entry of the kind that is at or past the reader's cursor and among the
      last 128, and leaves the cursor just past it; with none it leaves the cursor at the end. Other cursors
      and the history stay. */
  lemma ReadExact(s: LogState, reader: nat, kind: Byte, r: nat)
    requires reader < |s.cursors| && r < |s.cursors|
    ensures var op := Read(reader, kind); var a := Answer(s, op); var s' := Do(s, op);
            && (a.Some? ==>
                  && a.value < |s.history| && s.history[a.value].kind == kind && s.cursors[reader] <= a.value
                  && |s.history| <= a.value + 128
                  && (forall p :: s.cursors[reader] <= p < a.value && |s.history| <= p + 128 ==> s.history[p].kind != kind)
                  && s'.cursors[reader] == a.value + 1)
            && (a.None? ==>
                  && (forall p :: s.cursors[reader] <= p < |s.history| && |s.history| <= p + 128 ==> s.history[p].kind != kind)
                  && s'.cursors[reader] == |s.history|)
            && s'.history == s.history && |s'.cursors| == |s.cursors| && (r != reader ==> s'.cursors[r] == s.cursors[r])
  {
  }

  ghost predicate IsRun(ss: seq<LogState>, ops: seq<Op>) {
    && |ss| == |ops| + 1 && (forall r :: 0 <= r < |ss[0].cursors| ==> ss[0].cursors[r] == 0)
    && forall i :: 0 <= i < |ops| ==> Enabled(ss[i], ops[i]) && ss[i + 1] == Do(ss[i], ops[i])
  }

  /** Cursors stay within the history. */
  ghost predicate Bounded(s: LogState) {
    forall r :: 0 <= r < |s.cursors| ==> s.cursors[r] <= |s.history|
  }

  /** Between two moments of a run the history only grows and cursors only move forward. */
  lemma {:induction false} Advances(ss: seq<LogState>, ops: seq<Op>, a: nat, b: nat)
    requires IsRun(ss, ops) && a <= b < |ss|
    ensures Bounded(ss[b]) && ss[a].history <= ss[b].history && |ss[a].cursors| == |ss[b].cursors|
    ensures forall r :: 0 <= r < |ss[a].cursors| ==> ss[a].cursors[r] <= ss[b].cursors[r]
    decreases b
  {
    if a < b {
      Advances(ss, ops, a, b - 1);
      assert ss[b] == Do(ss[b - 1], ops[b - 1]);
    } else if a > 0 {
      Advances(ss, ops, a - 1, b - 1);
      assert ss[b] == Do(ss[b - 1], ops[b - 1]);
    }
  }

  /** Step `t` of the run is a read by `reader` that answered `p`. */
  ghost predicate Delivers(ss: seq<LogState>, ops: seq<Op>, t: nat, reader: nat, p: nat)
    requires IsRun(ss, ops) && t < |ops|
  {
    ops[t].Read? && ops[t].reader == reader && Answer(ss[t], ops[t]) == Some(p)
  }

  /** A returned position names an entry the ring still holds, of the kind asked for. */
  lemma NeverOverwritten(ss: seq<LogState>, ops: seq<Op>, t: nat, reader: nat, p: nat)
    requires IsRun(ss, ops) && t < |ops| && Delivers(ss, ops, t, reader, p)
    ensures Oldest(ss[t].history) <= p < |ss[t].history| && ss[t].history[p].kind == ops[t].kind
    ensures ss[t].cursors[reader] <= p < ss[t + 1].cursors[reader]
  {
  }

  /** Positions returned to one reader strictly increase. */
  lemma PositionsIncrease(ss: seq<LogState>, ops: seq<Op>, t: nat, u: nat, reader: nat, p: nat, q: nat)
    requires IsRun(ss, ops) && t < u < |ops| && Delivers(ss, ops, t, reader, p) && Delivers(ss, ops, u, reader, q)
    ensures p < q
  {
    NeverOverwritten(ss, ops, t, reader, p);
    NeverOverwritten(ss, ops, u, reader, q);
    Advances(ss, ops, t + 1, u);
  }

  /** Step `t` moves the reader's cursor past position `p`. */
  ghost predicate Passes(ss: seq<LogState>, t: nat, reader: nat, p: nat)
    requires t + 1 < |ss|
  {
    reader < |ss[t].cursors| && reader < |ss[t + 1].cursors| && ss[t].cursors[reader] <= p < ss[t + 1].cursors[reader]
  }

  /** A passing step is a read by that reader, and it delivers the entry exactly when it asked for
      the entry's kind and the ring still held it. */
  lemma PassingDelivers(ss: seq<LogState>, ops: seq<Op>, t: nat, reader: nat, p: nat)
    requires IsRun(ss, ops) && t < |ops| && Passes(ss, t, reader, p)
    ensures ops[t].Read? && ops[t].reader == reader && p < |ss[t].history|
    ensures Delivers(ss, ops, t, reader, p) <==> ops[t].kind == ss[t].history[p].kind && Oldest(ss[t].history) <= p
  {
  }

  lemma {:induction false} FindPassing(ss: seq<LogState>, ops: seq<Op>, n: nat, reader: nat, p: nat) returns (t: nat)
    requires IsRun(ss, ops) && n < |ss| && reader < |ss[n].cursors| && p < ss[n].cursors[reader]
    ensures t < n && Passes(ss, t, reader, p)
  {
    if n > 0 {
      Advances(ss, ops, n - 1, n);
      if p < ss[n - 1].cursors[reader] {
        t := FindPassing(ss, ops, n - 1, reader, p);
      } else {
        t := n - 1;
      }
    }
  }

  /** Every entry behind a reader's cursor was passed by exactly one of its reads, and was delivered
      at some step if and only if that read asked for the entry's kind while the entry was among
      the last 128 published. */
  lemma DeliveredIff(ss: seq<LogState>, ops: seq<Op>, n: nat, reader: nat, p: nat) returns (t: nat)
    requires IsRun(ss, ops) && n < |ss| && reader < |ss[n].cursors| && p < ss[n].cursors[reader]
    ensures t < n && ops[t].Read? && ops[t].reader == reader && p < |ss[t].history| <= |ss[n].history|
    ensures Passes(ss, t, reader, p) && forall u: nat :: u < n && Passes(ss, u, reader, p) ==> u == t
    ensures (exists u :: 0 <= u < n && Delivers(ss, ops, u, reader, p)) <==>
            ops[t].kind == ss[n].history[p].kind && |ss[t].history| <= p + CAPACITY
  {
    t := FindPassing(ss, ops, n, reader, p);
    PassingDelivers(ss, ops, t, reader, p);
    Advances(ss, ops, t, n);
    forall u: nat | u < n && Passes(ss, u, reader, p) ensures u == t {
      PassedOnce(ss, ops, t, u, reader, p);
    }
    forall u | 0 <= u < n && Delivers(ss, ops, u, reader, p) ensures u == t {
      NeverOverwritten(ss, ops, u, reader, p);
      assert Passes(ss, u, reader, p);
    }
  }

  /** A cursor goes past a position once. */
  lemma PassedOnce(ss: seq<LogState>, ops: seq<Op>, t: nat, u: nat, reader: nat, p: nat)
    requires IsRun(ss, ops) && t < |ops| && u < |ops| && Passes(ss, t, reader, p) && Passes(ss, u, reader, p)
    ensures t == u
  {
    if u < t {
      Advances(ss, ops, u + 1, t);
    } else if t < u {
      Advances(ss, ops, t + 1, u);
    }
  }

  /** A reader that only ever asks for one kind is given every entry of that kind its cursor has
      passed, except exactly those more than 128 publishes behind at the read that passed them. */
  lemma OneKindReader(ss: seq<LogState>, ops: seq<Op>, n: nat, reader: nat, kind: Byte, p: nat) returns (t: nat)
    requires IsRun(ss, ops) && n < |ss| && reader < |ss[n].cursors| && p < ss[n].cursors[reader]
    requires forall u :: 0 <= u < n && ops[u].Read? && ops[u].reader == reader ==> ops[u].kind == kind
    requires p < |ss[n].history| && ss[n].history[p].kind == kind
    ensures t < n && Passes(ss, t, reader, p) && forall u: nat :: u < n && Passes(ss, u, reader, p) ==> u == t
    ensures (exists u :: 0 <= u < n && Delivers(ss, ops, u, reader, p)) <==> |ss[t].history| <= p + CAPACITY
  {
    t := DeliveredIff(ss, ops, n, reader, p);
  }

  /** A reader that mixes kinds can lose an entry the ring still holds: reading the second entry's
      kind moves its only cursor past the first. */
  lemma MixedReaderLoses(a: Entry, b: Entry)
    requires a.kind != b.kind
    ensures var s := Do(Do(LogState([], [0]), Publish(a)), Publish(b));
            && Answer(s, Read(0, b.kind)) == Some(1)
            && Oldest(Do(s, Read(0, b.kind)).history) == 0 && Answer(Do(s, Read(0, b.kind)), Read(0, a.kind)) == None
  {
    var s := Do(Do(LogState([], [0]), Publish(a)), Publish(b));
    assert s.history == [a, b];
    assert FirstOf(s.history, 1, b.kind) == Some(1);
    assert Do(s, Read(0, b.kind)).cursors[0] == 2;
  }
}
