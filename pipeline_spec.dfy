/** The clock cycle of the pipeline simulator (`program_simulate`,
    project2/Vsim.c) as functions on a value `Machine` holding every
    variable that survives from one cycle to the next.

    The C code keeps each latch as a group of `int32_t` globals whose
    instruction word is 0 when the latch is empty; a `Latch` or `Post`
    value is such a group. Words are kept as their 32-bit patterns, the
    `willwrite`, `ww` and `wr` bitmasks as the sets of register numbers
    whose bit is set. */
module Pipeline {
  import opened Word32
  import opened Fields
  import BinText

  /** `pre_*_ins`, with its two operands (`addr`/`val` or `lhs`/`rhs`). */
  datatype Latch = Latch(ins: Word, x: Word, y: Word)

  /** `post_*_ins` and `post_*_val`. */
  datatype Post = Post(ins: Word, val: Word)

  /** The state between two cycles. `stage1`-`stage3` are the staging
      latches `pre_alu*_ins2` that issue fills during a cycle; `alu1`-`alu3`
      are `pre_alu*_ins`. */
  datatype Machine = Machine(
    pc: Word,
    regs: seq<Word>,
    willwrite: set<int>,
    mem: seq<Word>,
    queue: seq<Word>,
    branch: Word,
    stage1: Latch, stage2: Latch, stage3: Latch,
    alu1: Latch, alu2: Latch, alu3: Latch,
    preMem: Latch,
    postMem: Post, postAlu2: Post, postAlu3: Post)

  /** The word 0 stands for an empty latch or queue slot. */
  const Free: Latch := Latch(0, 0, 0)
  const FreePost: Post := Post(0, 0)

  /** The state `program_simulate` starts from: static storage is zero,
      `pc` is 256 and memory is what `program_load` read. */
  function Initial(mem: seq<Word>): Machine
  {
    Machine(256, seq(32, _ => 0), {}, mem, seq(4, _ => 0), 0,
            Free, Free, Free, Free, Free, Free, Free, FreePost, FreePost, FreePost)
  }

  // ---------------------------------------------------------------------
  // Opcode classes.

  predicate IsBranch(op: int) { op == OP_BEQ || op == OP_BNE || op == OP_BLT }

  predicate IsMemOp(op: int) { op == OP_SW || op == OP_LW }

  predicate IsAlu2Op(op: int) { op == OP_ADD || op == OP_SUB || op == OP_ADDI }

  predicate IsAlu3Op(op: int)
  {
    op == OP_AND || op == OP_OR || op == OP_ANDI || op == OP_ORI || op == OP_SLL || op == OP_SRA
  }

  /** The opcodes fetch puts into the pre-issue queue. */
  predicate IsQueued(op: int) { IsMemOp(op) || IsAlu2Op(op) || IsAlu3Op(op) }

  // ---------------------------------------------------------------------
  // The register file and the queue.

  /** `rset`: register 0 is hard-wired, any other register takes the value
      and loses its pending-write bit. */
  function Rset(m: Machine, id: int, v: Word): Machine
    requires |m.regs| == 32 && 0 <= id < 32
  {
    if id != 0 then m.(regs := m.regs[id := v], willwrite := m.willwrite - {id}) else m
  }

  /** The first empty slot of the queue at or after `j`, or `|q|`. */
  function FirstEmptyFrom(q: seq<Word>, j: nat): (n: nat)
    requires j <= |q|
    ensures j <= n <= |q|
    decreases |q| - j
  {
    if j == |q| || q[j] == 0 then j else FirstEmptyFrom(q, j + 1)
  }

  function FirstEmpty(q: seq<Word>): (n: nat)
    ensures n <= |q|
  {
    FirstEmptyFrom(q, 0)
  }

  /** The queue holds its entries in a prefix: no entry follows an empty slot. */
  predicate QueueForm(q: seq<Word>)
  {
    forall j, k :: 0 <= j < k < |q| && q[j] == 0 ==> q[k] == 0
  }

  /** The entries of a queue. */
  function Entries(q: seq<Word>): seq<Word>
  {
    q[..FirstEmpty(q)]
  }

  /** 32 registers and four queue slots. */
  predicate Sized(m: Machine)
  {
    |m.regs| == 32 && |m.queue| == 4
  }

  /** The shape every reachable state has. */
  predicate Shape(m: Machine)
  {
    Sized(m) && QueueForm(m.queue)
  }

  // ---------------------------------------------------------------------
  // Issue.

  /** The state of the issue scan: the entries kept so far, `willwrite`,
      the accumulators `ww`, `wr` and `has_store`, and the staging latches. */
  datatype Scan = Scan(kept: seq<Word>, willwrite: set<int>, ww: set<int>, wr: set<int>,
                       hasStore: bool, s1: Latch, s2: Latch, s3: Latch)

  /** An entry that stays queued; its registers are recorded for the entries behind it. */
  function Hold(a: Scan, ins: Word, w: set<int>, r: set<int>): Scan
  {
    a.(kept := a.kept + [ins], ww := a.ww + w, wr := a.wr + r)
  }

  /** An entry that leaves the queue: `ww |= willwrite`. */
  function Leave(a: Scan): Scan
  {
    a.(ww := a.ww + a.willwrite)
  }

  /** One entry of the issue scan (the `switch` in the issue loop).
      `busy2`/`busy3` say whether `pre_alu2_ins`/`pre_alu3_ins` are occupied. */
  function IssueOne(a: Scan, ins: Word, regs: seq<Word>, busy2: bool, busy3: bool): Scan
    requires |regs| == 32
  {
    var op, rd, rs1, rs2 := Opcode(ins), Rd(ins), Rs1(ins), Rs2(ins);
    if op == OP_SW then
      if a.s1.ins != 0 || rs1 in a.ww + a.wr || rs2 in a.ww || a.hasStore then
        a.(kept := a.kept + [ins], hasStore := true, wr := a.wr + {rs1, rs2})
      else Leave(a.(s1 := Latch(ins, Wrap(regs[rs2] + Imm1(ins)), regs[rs1])))
    else if op == OP_ADD || op == OP_SUB then
      if a.s2.ins != 0 || busy2 || rd in a.ww + a.wr || rs1 in a.ww || rs2 in a.ww then
        Hold(a, ins, {rd}, {rs1, rs2})
      else Leave(a.(s2 := Latch(ins, regs[rs1], regs[rs2]), willwrite := a.willwrite + {rd}))
    else if op == OP_AND || op == OP_OR then
      if a.s3.ins != 0 || busy3 || rd in a.ww + a.wr || rs1 in a.ww || rs2 in a.ww then
        Hold(a, ins, {rd}, {rs1, rs2})
      else Leave(a.(s3 := Latch(ins, regs[rs1], regs[rs2]), willwrite := a.willwrite + {rd}))
    else if op == OP_ADDI then
      if a.s2.ins != 0 || busy2 || rd in a.ww + a.wr || rs1 in a.ww then
        Hold(a, ins, {rd}, {rs1})
      else Leave(a.(s2 := Latch(ins, regs[rs1], Wrap(Imm3(ins))), willwrite := a.willwrite + {rd}))
    else if op == OP_ANDI || op == OP_ORI || op == OP_SLL || op == OP_SRA then
      if a.s3.ins != 0 || busy3 || rd in a.ww + a.wr || rs1 in a.ww then
        Hold(a, ins, {rd}, {rs1})
      else Leave(a.(s3 := Latch(ins, regs[rs1], Wrap(Imm3(ins))), willwrite := a.willwrite + {rd}))
    else if op == OP_LW then
      if a.s1.ins != 0 || rd in a.ww + a.wr || rs1 in a.ww || a.hasStore then
        Hold(a, ins, {rd}, {rs1})
      else Leave(a.(s1 := a.s1.(ins := ins, x := Wrap(regs[rs1] + Imm3(ins))), willwrite := a.willwrite + {rd}))
    else Leave(a)
  }

  /** The scan after the first `k` entries of `p`. */
  function IssueUpTo(a0: Scan, p: seq<Word>, k: nat, regs: seq<Word>, busy2: bool, busy3: bool): (a: Scan)
    requires k <= |p| && |regs| == 32
    ensures |a.kept| <= |a0.kept| + k
  {
    if k == 0 then a0
    else IssueOne(IssueUpTo(a0, p, k - 1, regs, busy2, busy3), p[k - 1], regs, busy2, busy3)
  }

  /** The scan of a cycle starts with `ww = willwrite`, `wr = 0` and no store held. */
  function ScanStart(m: Machine): Scan
  {
    Scan([], m.willwrite, m.willwrite, {}, false, m.stage1, m.stage2, m.stage3)
  }

  /** The whole issue scan of a cycle. */
  function IssueScan(m: Machine): (a: Scan)
    requires Sized(m)
    ensures |a.kept| <= |Entries(m.queue)|
  {
    var p := Entries(m.queue);
    IssueUpTo(ScanStart(m), p, |p|, m.regs, m.alu2.ins != 0, m.alu3.ins != 0)
  }

  /** The machine after issue: the kept entries, compacted, then empty slots. */
  function AfterIssue(m: Machine, a: Scan): (m': Machine)
    requires |a.kept| <= 4
    ensures |m'.queue| == 4 && m'.regs == m.regs && m'.mem == m.mem
  {
    m.(queue := a.kept + BinText.Zeros(4 - |a.kept|), willwrite := a.willwrite,
       stage1 := a.s1, stage2 := a.s2, stage3 := a.s3)
  }

  // ---------------------------------------------------------------------
  // Fetch.

  datatype Fetch = Fetched(m: Machine, executed: Word) | BadOpcode(op: int) | Unmapped

  /** One round of the fetch loop either goes on to the next round or stops the loop. */
  datatype Round = More(m: Machine) | Stop(f: Fetch)

  /** One round of the fetch loop: stop when the queue is full, otherwise
      read the word at `pc`; a branch goes to `branch`, a queued
      instruction to the first empty slot, `jal` and `break` execute. */
  function FetchOne(m: Machine): (r: Round)
    requires Sized(m)
    ensures r.More? ==> Sized(r.m) && r.m.mem == m.mem
    ensures r.Stop? && r.f.Fetched? ==> Sized(r.f.m) && r.f.m.mem == m.mem
  {
    var slot := FirstEmpty(m.queue);
    if slot == 4 then Stop(Fetched(m, 0))
    else if !InMem(m.mem, m.pc) then Stop(Unmapped)
    else
      var ins := m.mem[Cell(m.pc)];
      var op, pc := Opcode(ins), Wrap(m.pc + 4);
      if IsBranch(op) then Stop(Fetched(m.(pc := pc, branch := ins), 0))
      else if IsQueued(op) then More(m.(pc := pc, queue := m.queue[slot := ins]))
      else if op == OP_JAL then
        Stop(Fetched(Rset(m.(pc := pc), Rd(ins), pc).(pc := Wrap(pc - 4 + 2 * Imm4(ins))), ins))
      else if op == OP_BREAK then Stop(Fetched(m.(pc := pc), ins))
      else Stop(BadOpcode(op))
  }

  /** Rounds `i` to 1 of the fetch loop. */
  function FetchLoop(m: Machine, i: nat): (r: Fetch)
    requires Sized(m)
    ensures r.Fetched? ==> Sized(r.m) && r.m.mem == m.mem
    decreases 2 - i
  {
    if i >= 2 then Fetched(m, 0)
    else
      match FetchOne(m)
      case More(m') => FetchLoop(m', i + 1)
      case Stop(f) => f
  }

  /** Fetch is skipped while a branch waits. */
  function FetchStage(m: Machine): (r: Fetch)
    requires Sized(m)
    ensures r.Fetched? ==> Sized(r.m) && r.m.mem == m.mem
  {
    if m.branch != 0 then Fetched(m, 0) else FetchLoop(m, 0)
  }

  // ---------------------------------------------------------------------
  // Branch resolution and the back end.

  /** Whether a waiting branch is taken on the current registers. */
  predicate Taken(b: Word, regs: seq<Word>)
    requires |regs| == 32
  {
    var op, x, y := Opcode(b), regs[Rs1(b)], regs[Rs2(b)];
    (op == OP_BEQ && x == y) || (op == OP_BNE && x != y) || (op == OP_BLT && Signed(x) < Signed(y))
  }

  /** A waiting branch whose sources are not in `ww` resolves: taken, it
      sets `pc = pc - 4 + (imm1 << 1)`; it becomes the executed instruction. */
  function Resolve(m: Machine, ww: set<int>, executed: Word): (Machine, Word)
    requires |m.regs| == 32
  {
    var b := m.branch;
    if b != 0 && !(Rs1(b) in ww || Rs2(b) in ww) then
      (m.(pc := if Taken(b, m.regs) then Wrap(m.pc - 4 + 2 * Imm1(b)) else m.pc, branch := 0), b)
    else (m, executed)
  }

  /** One post latch writes back. */
  function Retire(m: Machine, p: Post): Machine
    requires |m.regs| == 32
  {
    if p.ins != 0 then Rset(m, Rd(p.ins), p.val) else m
  }

  /** WB: post-MEM, then post-ALU2, then post-ALU3; each is emptied. */
  function WriteBack(m: Machine): (m': Machine)
    requires |m.regs| == 32
    ensures |m'.regs| == 32 && m'.queue == m.queue
  {
    var m1 := Retire(m, m.postMem).(postMem := m.postMem.(ins := 0));
    var m2 := Retire(m1, m.postAlu2).(postAlu2 := m.postAlu2.(ins := 0));
    Retire(m2, m.postAlu3).(postAlu3 := m.postAlu3.(ins := 0))
  }

  /** The memory access of MEM stays inside the buffer. */
  predicate MemDefined(m: Machine)
  {
    m.preMem.ins == 0 || !IsMemOp(Opcode(m.preMem.ins)) || InMem(m.mem, m.preMem.x)
  }

  /** MEM: lw moves to post-MEM with the loaded word, sw stores. */
  function MemStage(m: Machine): Machine
    requires MemDefined(m)
  {
    var p := m.preMem;
    if p.ins == 0 then m
    else
      var m1 := if Opcode(p.ins) == OP_LW then m.(postMem := Post(p.ins, m.mem[Cell(p.x)]))
                else if Opcode(p.ins) == OP_SW then m.(mem := m.mem[Cell(p.x) := p.y])
                else m;
      m1.(preMem := p.(ins := 0))
  }

  /** The shift amount of ALU3 is one the C shift defines. */
  predicate Alu3Defined(m: Machine)
  {
    var op := Opcode(m.alu3.ins);
    m.alu3.ins == 0 || !(op == OP_SLL || op == OP_SRA) || m.alu3.y < 32
  }

  /** ALU3: `&`, `|`, `<<`, `>>` on the operands; an opcode of no case
      leaves `post_alu3_val` as it was. */
  function Alu3Stage(m: Machine): Machine
    requires Alu3Defined(m)
  {
    var p := m.alu3;
    var op := Opcode(p.ins);
    if p.ins == 0 then m
    else
      var v := if op == OP_AND || op == OP_ANDI then And(p.x, p.y)
               else if op == OP_OR || op == OP_ORI then Or(p.x, p.y)
               else if op == OP_SLL then ShiftLeft(p.x, p.y)
               else if op == OP_SRA then ShiftRightArith(p.x, p.y)
               else m.postAlu3.val;
      m.(postAlu3 := Post(p.ins, v))
  }

  /** ALU2: `+` for add and addi, `-` for sub. */
  function Alu2Stage(m: Machine): Machine
  {
    var p := m.alu2;
    var op := Opcode(p.ins);
    if p.ins == 0 then m
    else
      var v := if op == OP_ADD || op == OP_ADDI then Wrap(p.x as int + p.y)
               else if op == OP_SUB then Wrap(p.x as int - p.y)
               else m.postAlu2.val;
      m.(postAlu2 := Post(p.ins, v))
  }

  /** ALU1 forwards its latch (the address is computed at issue) to pre-MEM. */
  function Alu1Stage(m: Machine): Machine
  {
    if m.alu1.ins != 0 then m.(preMem := m.alu1) else m
  }

  /** The staging latches move into the pre latches and are emptied. */
  function Rotate(m: Machine): Machine
  {
    m.(alu1 := m.stage1, stage1 := m.stage1.(ins := 0),
       alu2 := m.stage2, stage2 := m.stage2.(ins := 0),
       alu3 := m.stage3, stage3 := m.stage3.(ins := 0))
  }

  // ---------------------------------------------------------------------
  // The cycle and the run.

  datatype Cycle = Cycled(m: Machine, executed: Word) | Aborted(op: int) | Undefined

  /** The back end of a cycle, after fetch: branch resolution, WB, MEM,
      ALU3, ALU2, ALU1 and the rotation of the staging latches. */
  function BackEnd(m: Machine, ww: set<int>, executed: Word): (r: Cycle)
    requires Sized(m)
    ensures r.Cycled? ==> Sized(r.m) && r.m.queue == m.queue
  {
    var (m1, ex) := Resolve(m, ww, executed);
    var m2 := WriteBack(m1);
    if !MemDefined(m2) then Undefined
    else
      var m3 := MemStage(m2);
      if !Alu3Defined(m3) then Undefined
      else Cycled(Rotate(Alu1Stage(Alu2Stage(Alu3Stage(m3)))), ex)
  }

  /** One pass of the `goto cycle` loop, without the trace output. */
  function Step(m: Machine): (r: Cycle)
    requires Sized(m)
    ensures r.Cycled? ==> Sized(r.m)
  {
    var a := IssueScan(m);
    match FetchStage(AfterIssue(m, a))
    case Fetched(m1, ex) => BackEnd(m1, a.ww, ex)
    case BadOpcode(op) => Aborted(op)
    case Unmapped => Undefined
  }

  /** The loop ends when the executed instruction is break. */
  predicate Halts(executed: Word)
  {
    Opcode(executed) == OP_BREAK
  }

  datatype Outcome = Halted(m: Machine, cycles: nat) | Exited(op: int, cycles: nat) | Running(m: Machine) | Undef

  /** At most `fuel` cycles from `m`, `done` of them already run. */
  function Run(m: Machine, fuel: nat, done: nat): Outcome
    requires Sized(m)
    decreases fuel, 1
  {
    if fuel == 0 then Running(m) else Continue(m, fuel, done)
  }

  /** One cycle from `m`, then the remaining `fuel - 1`. */
  function Continue(m: Machine, fuel: nat, done: nat): Outcome
    requires Sized(m) && fuel > 0
    decreases fuel, 0
  {
    match Step(m)
    case Cycled(m', ex) =>
      if Halts(ex) then Halted(m', done + 1) else Run(m', fuel - 1, done + 1)
    case Aborted(op) => Exited(op, done + 1)
    case Undefined => Undef
  }

  /** The outcome of a run of at most `fuel` cycles from `m` with `done`
      cycles behind it: `Run` under a name whose equations leave the
      cycles unexpanded until a proof asks for one. */
  function RunOutcome(m: Machine, fuel: nat, done: nat): Outcome
    requires Sized(m)
  {
    Run(m, fuel, done)
  }
}
