/** The log service as it runs: a ring of 128 entries overwritten in place, a cursor per task, and
    the message handler. */
module LogService {
  import opened Arith
  import opened Core
  import opened LogRuns

  const TEXT: nat := 64
  const KINDS: nat := 16

  /** A reply code and, after a successful read, the entry. */
  datatype Reply = Reply(code: nat, entry: Option<Entry>)

  predicate GivesAccess(c: Option<Capability>, kind: Byte, write: bool) {
    && c.Some? && c.value.resource.LogChannel? && c.value.resource.kind == kind
    && (if write then c.value.resource.writable && c.value.write else c.value.resource.readable && c.value.read)
  }

  /** Some capability of the task gives the access. */
  ghost predicate MayAccess(tasks: TaskTable, id: nat, kind: Byte, write: bool) {
    HasTask(tasks, id) && exists c :: c in tasks[id].value.capTable && GivesAccess(c, kind, write)
  }

  /** What a message asks of the log, if the handler lets it through. */
  ghost function Request(tasks: TaskTable, msg: Message, tick: nat): Result<Op, nat> {
    if msg.tag == LogPublish then
      if msg.payload == [] then Err(2)
      else if msg.payload[0] >= KINDS then Err(3)
      else if !MayAccess(tasks, msg.sender, msg.payload[0], true) then Err(1)
      else Ok(Publish(Entry(tick, msg.sender, msg.payload[0], Text(msg.payload))))
    else if msg.tag == LogRead then
      if msg.payload == [] || msg.payload[0] >= KINDS then Err(3)
      else if !MayAccess(tasks, msg.sender, msg.payload[0], false) then Err(1)
      else Ok(Read(msg.sender, msg.payload[0]))
    else Err(3)
  }

  /** At most 64 bytes after the kind. */
  function Text(payload: seq<Byte>): (r: seq<Byte>)
    requires payload != []
    ensures |r| <= 64 && |r| < |payload| && (|r| == 64 || |r| == |payload| - 1)
    ensures forall i :: 0 <= i < |r| ==> r[i] == payload[i + 1]
  {
    if |payload| - 1 <= TEXT then payload[1..] else payload[1..1 + TEXT]
  }

  /** The sender holds a log capability of the kind with the right and the access both ways round. */
  ghost predicate HoldsLog(tasks: TaskTable, id: nat, kind: Byte, write: bool) {
    && HasTask(tasks, id)
    && exists i :: && 0 <= i < |tasks[id].value.capTable| && tasks[id].value.capTable[i].Some?
                   && var c := tasks[id].value.capTable[i].value;
                      && c.resource.LogChannel? && c.resource.kind == kind
                      && (write ==> c.resource.writable && c.write) && (!write ==> c.resource.readable && c.read)
  }

  lemma MayAccessIff(tasks: TaskTable, id: nat, kind: Byte, write: bool)
    ensures MayAccess(tasks, id, kind, write) <==> HoldsLog(tasks, id, kind, write)
  {
    if HasTask(tasks, id) {
      var table := tasks[id].value.capTable;
      if MayAccess(tasks, id, kind, write) {
        var c :| c in table && GivesAccess(c, kind, write);
        var i :| 0 <= i < |table| && table[i] == c;
        assert table[i].Some?;
      }
      if HoldsLog(tasks, id, kind, write) {
        var i :| 0 <= i < |table| && table[i].Some?
                 && table[i].value.resource.LogChannel? && table[i].value.resource.kind == kind
                 && (write ==> table[i].value.resource.writable && table[i].value.write)
                 && (!write ==> table[i].value.resource.readable && table[i].value.read);
        assert table[i] in table && GivesAccess(table[i], kind, write);
      }
    }
  }

  /** A publish goes through exactly for a kind below sixteen the sender may write, and records the tick,
      the true sender, the kind and the text; a read exactly for such a kind it may read; the refusals say
      why. */
  lemma RequestExact(tasks: TaskTable, msg: Message, tick: nat)
    ensures var r := Request(tasks, msg, tick); var named := msg.payload != [] && msg.payload[0] < 16;
            && (r.Ok? && r.value.Publish? <==> msg.tag == LogPublish && named && HoldsLog(tasks, msg.sender, msg.payload[0], true))
            && (r.Ok? && r.value.Read? <==> msg.tag == LogRead && named && HoldsLog(tasks, msg.sender, msg.payload[0], false))
            && (r.Ok? && r.value.Publish? ==>
                  r.value.entry.tick == tick && r.value.entry.producer == msg.sender && r.value.entry.kind == msg.payload[0]
                  && r.value.entry.text <= msg.payload[1..] && (|r.value.entry.text| == 64 || r.value.entry.text == msg.payload[1..]))
            && (r.Ok? && r.value.Read? ==> r.value.reader == msg.sender && r.value.kind == msg.payload[0])
            && (r == Err(1) <==> (msg.tag == LogPublish || msg.tag == LogRead) && named
                                 && !HoldsLog(tasks, msg.sender, msg.payload[0], msg.tag == LogPublish))
            && (r == Err(2) <==> msg.tag == LogPublish && msg.payload == [])
            && (r.Err? ==> r.error in {1, 2, 3})
  {
    if msg.payload != [] {
      MayAccessIff(tasks, msg.sender, msg.payload[0], true);
      MayAccessIff(tasks, msg.sender, msg.payload[0], false);
    }
  }

  /** `check_log_sender_cap`. */
  method CheckSender(tasks: TaskTable, id: nat, kind: Byte, write: bool) returns (ok: bool)
    ensures ok <==> MayAccess(tasks, id, kind, write)
  {
    if !HasTask(tasks, id) {
      return false;
    }
    var table := tasks[id].value.capTable;
    for i := 0 to |table|
      invariant forall j :: 0 <= j < i ==> !GivesAccess(table[j], kind, write)
    {
      if GivesAccess(table[i], kind, write) {
        return true;
      }
    }
    ok := false;
  }

  class Log {
    const buffer: array<Entry>
    const cursors: array<nat>
    var writePos: nat
    ghost var history: seq<Entry>

    /** The ring agrees with the history on its live window. */
    ghost predicate Valid()
      reads this, buffer
    {
      && buffer.Length == CAPACITY && writePos == |history|
      && forall p :: Oldest(history) <= p < |history| ==> buffer[p % CAPACITY] == history[p]
    }

    ghost function Abstract(): LogState
      reads this, cursors
    {
      LogState(history, cursors[..])
    }

    constructor (readers: nat)
      ensures Valid() && Abstract() == LogState([], seq(readers, _ => 0)) && fresh(buffer) && fresh(cursors)
    {
      buffer := new Entry[CAPACITY](_ => Entry(0, 0, 0, []));
      cursors := new nat[readers](_ => 0);
      writePos, history := 0, [];
      new;
      assert cursors[..] == seq(readers, _ => 0);
    }

    /** `push`: the new entry overwrites the one 128 publishes back. */
    method Push(e: Entry)
      requires Valid()
      modifies this, buffer
      ensures Valid() && history == old(history) + [e]
    {
      forall p | Oldest(history + [e]) <= p < |history| ensures p % CAPACITY != writePos % CAPACITY {
        ModApart(p, writePos, CAPACITY);
      }
      buffer[writePos % CAPACITY] := e;
      writePos := writePos + 1;
      history := history + [e];
    }

    /** The read path of the handler. */
    method ReadNext(reader: nat, kind: Byte) returns (found: Option<Entry>)
      requires Valid() && reader < cursors.Length
      modifies cursors
      ensures Valid() && Abstract() == Do(old(Abstract()), Read(reader, kind))
      ensures var p := Answer(old(Abstract()), Read(reader, kind));
              found == if p.Some? then Some(history[p.value]) else None
    {
      var oldest := if writePos > CAPACITY then writePos - CAPACITY else 0;
      var from := if cursors[reader] < oldest then oldest else cursors[reader];
      ghost var s := Abstract();
      found := None;
      var idx := from;
      while idx < writePos
        invariant from <= idx && FirstOf(history, from, kind) == FirstOf(history, idx, kind)
      {
        var entry := buffer[idx % CAPACITY];
        if entry.kind == kind {
          found := Some(entry);
          break;
        }
        idx := idx + 1;
      }
      if found.Some? {
        cursors[reader] := idx + 1;
      } else {
        cursors[reader] := writePos;
      }
      assert cursors[..] == s.cursors[reader := cursors[reader]];
    }

    /** One turn of the service loop: what the message asks for happens exactly when the sender
        holds a capability for it, and the reply says which. */
    method Handle(tasks: TaskTable, msg: Message, tick: nat) returns (reply: Reply)
      requires Valid() && cursors.Length == |tasks|
      modifies this, buffer, cursors
      ensures Valid()
      ensures var req := Request(tasks, msg, tick); var s := old(Abstract());
              match req
              case Err(code) => Abstract() == s && reply == Reply(code, None)
              case Ok(op) =>
                && Enabled(s, op) && Abstract() == Do(s, op)
                && reply == (if op.Publish? then Reply(0, None)
                             else if Answer(s, op).Some? then Reply(0, Some(s.history[Answer(s, op).value]))
                             else Reply(2, None))
    {
      if msg.tag == LogPublish {
        if |msg.payload| < 1 {
          return Reply(2, None);
        }
        var kind := msg.payload[0];
        if kind >= KINDS {
          return Reply(3, None);
        }
        var ok := CheckSender(tasks, msg.sender, kind, true);
        if !ok {
          return Reply(1, None);
        }
        Push(Entry(tick, msg.sender, kind, Text(msg.payload)));
        reply := Reply(0, None);
      } else if msg.tag == LogRead {
        if |msg.payload| < 1 {
          return Reply(3, None);
        }
        var kind := msg.payload[0];
        if kind >= KINDS {
          return Reply(3, None);
        }
        var ok := CheckSender(tasks, msg.sender, kind, false);
        if !ok {
          return Reply(1, None);
        }
        var found := ReadNext(msg.sender, kind);
        reply := if found.Some? then Reply(0, found) else Reply(2, None);
      } else {
        reply := Reply(3, None);
      }
    }
  }
}
