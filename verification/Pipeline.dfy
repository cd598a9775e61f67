/** `simulate_pipeline`: four stage registers advanced cycle by cycle, and the closed form of what
    they count. */
module Pipeline {
  import opened Core

  datatype InstrKind = Alu | Load | Store | Branch

  datatype Instr = Instr(kind: InstrKind, rd: Byte, rs1: Byte, rs2: Byte)

  datatype PipeStats = PipeStats(instrs: nat, cycles: nat, stalls: nat)

  /** `a` writes a register `b` reads. */
  predicate Raw(a: Instr, b: Instr) {
    a.rd != 0 && (a.rd == b.rs1 || a.rd == b.rs2)
  }

  /** The adjacent dependent pairs among the first `m` instructions. */
  function RawPairs(prog: seq<Instr>, m: nat): nat
    requires m <= |prog|
  {
    if m < 2 then 0 else RawPairs(prog, m - 1) + if Raw(prog[m - 2], prog[m - 1]) then 1 else 0
  }

  /** The instructions that read a register the one just before them writes; register 0 is never written. */
  ghost function Dependent(prog: seq<Instr>, m: nat): (r: set<nat>)
    requires m <= |prog|
    ensures forall i :: i in r <==>
              1 <= i < m && prog[i - 1].rd != 0 && (prog[i - 1].rd == prog[i].rs1 || prog[i - 1].rd == prog[i].rs2)
    ensures |r| == RawPairs(prog, m)
  {
    if m < 2 then {}
    else if Raw(prog[m - 2], prog[m - 1]) then Dependent(prog, m - 1) + {m - 1}
    else Dependent(prog, m - 1)
  }

  function At(prog: seq<Instr>, i: int): Option<Instr> {
    if 0 <= i < |prog| then Some(prog[i]) else None
  }

  /** How many instructions have an index below `i`. */
  function Below(prog: seq<Instr>, i: int): (n: nat)
    ensures n <= |prog|
  {
    if i < 0 then 0 else if i <= |prog| then i else |prog|
  }

  /** Where the bubble of the last stall is. */
  datatype Bubble = NoBubble | InEx | InMem

  /** The stage registers after `q` cycles that fetched and any that stalled. */
  ghost predicate Flow(prog: seq<Instr>, q: nat, b: Bubble, pc: nat,
                       ifStage: Option<Instr>, idStage: Option<Instr>, exStage: Option<Instr>, memStage: Option<Instr>)
  {
    && pc == Below(prog, q) && ifStage == At(prog, q - 1) && idStage == At(prog, q - 2) && q <= |prog| + 4
    && match b
       case NoBubble => exStage == At(prog, q - 3) && memStage == At(prog, q - 4)
       case InEx => exStage == None && memStage == At(prog, q - 3) && 0 <= q - 3 && q - 2 < |prog| && Raw(prog[q - 3], prog[q - 2])
       case InMem => exStage == At(prog, q - 3) && memStage == None && 0 <= q - 3 < |prog|
  }

  ghost predicate Counted(prog: seq<Instr>, q: nat, b: Bubble, stats: PipeStats) {
    && stats.cycles == q + stats.stalls
    && stats.instrs == Below(prog, if b.NoBubble? then q - 4 else q - 3)
    && stats.stalls == RawPairs(prog, Below(prog, if b.InEx? then q - 1 else q - 2))
  }

  /** Every instruction retires, each adjacent dependent pair stalls once, and a non-empty program
      takes its length, its stalls and four cycles to drain. The execute register has just been
      emptied when hazards are checked, so only the memory register can raise one. */
  method SimulatePipeline(prog: seq<Instr>) returns (stats: PipeStats)
    ensures stats == if prog == [] then PipeStats(0, 0, 0)
                     else PipeStats(|prog|, |prog| + RawPairs(prog, |prog|) + 4, RawPairs(prog, |prog|))
    ensures stats.stalls == |Dependent(prog, |prog|)|
  {
    stats := PipeStats(0, 0, 0);
    if prog == [] {
      return;
    }
    var ifStage: Option<Instr>, idStage: Option<Instr>, exStage: Option<Instr>, memStage: Option<Instr> := None, None, None, None;
    var pc := 0;
    ghost var q, b := 0, NoBubble;
    while pc < |prog| || ifStage.Some? || idStage.Some? || exStage.Some? || memStage.Some?
      invariant Flow(prog, q, b, pc, ifStage, idStage, exStage, memStage) && Counted(prog, q, b, stats)
      decreases |prog| + 4 - q, if b.InEx? then 0 else 1
    {
      stats := stats.(cycles := stats.cycles + 1);
      if memStage.Some? {
        stats := stats.(instrs := stats.instrs + 1);
      }
      memStage := exStage;
      exStage := None;
      var stall := false;
      if idStage.Some? {
        if memStage.Some? && Raw(memStage.value, idStage.value) {
          stall := true;
          stats := stats.(stalls := stats.stalls + 1);
        } else {
          exStage := idStage;
          idStage := None;
        }
      }
      if stall {
        b := InEx;
      } else {
        idStage := ifStage;
        ifStage := None;
        if pc < |prog| {
          ifStage := Some(prog[pc]);
          pc := pc + 1;
        }
        q, b := q + 1, if b.InEx? then InMem else NoBubble;
      }
    }
  }
}
