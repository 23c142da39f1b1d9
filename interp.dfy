/** The single-cycle interpreter of project1/Vsim.c: `process_instruction`
    decodes a word by category (`ins & 3`) and sub-operation
    (`ins >> 2 & 31`) and executes it on `struct program`; `simulate_to`
    repeats fetch, `pc += 4`, execute until `pc` is 0.

    The executable part is the class `Program`, whose methods update the
    register array, `pc` and the memory buffer in place; each is proved
    against the value-level definitions `Decode`, `Exec` and `Next`, about
    which the properties of the instruction set are proved as lemmas. */
module Interp {
  import opened Word32
  import opened Fields
  import Loader1

  /** A decoded instruction, one constructor per case of the switch. */
  datatype Instr =
    | Beq(rs1: int, rs2: int, imm: int)
    | Bne(rs1: int, rs2: int, imm: int)
    | Blt(rs1: int, rs2: int, imm: int)
    | Sw(rs1: int, rs2: int, imm: int)
    | Add(rd: int, rs1: int, rs2: int)
    | Sub(rd: int, rs1: int, rs2: int)
    | AndReg(rd: int, rs1: int, rs2: int)
    | OrReg(rd: int, rs1: int, rs2: int)
    | Addi(rd: int, rs1: int, imm: int)
    | Andi(rd: int, rs1: int, imm: int)
    | Ori(rd: int, rs1: int, imm: int)
    | Sll(rd: int, rs1: int, imm: int)
    | Sra(rd: int, rs1: int, imm: int)
    | Lw(rd: int, rs1: int, imm: int)
    | Jal(rd: int, imm: int)
    | Break
    | Invalid

  /** Every register operand names one of the 32 registers. */
  predicate Operands(i: Instr)
  {
    match i
    case Beq(rs1, rs2, _) => IsReg(rs1) && IsReg(rs2)
    case Bne(rs1, rs2, _) => IsReg(rs1) && IsReg(rs2)
    case Blt(rs1, rs2, _) => IsReg(rs1) && IsReg(rs2)
    case Sw(rs1, rs2, _) => IsReg(rs1) && IsReg(rs2)
    case Add(rd, rs1, rs2) => IsReg(rd) && IsReg(rs1) && IsReg(rs2)
    case Sub(rd, rs1, rs2) => IsReg(rd) && IsReg(rs1) && IsReg(rs2)
    case AndReg(rd, rs1, rs2) => IsReg(rd) && IsReg(rs1) && IsReg(rs2)
    case OrReg(rd, rs1, rs2) => IsReg(rd) && IsReg(rs1) && IsReg(rs2)
    case Addi(rd, rs1, _) => IsReg(rd) && IsReg(rs1)
    case Andi(rd, rs1, _) => IsReg(rd) && IsReg(rs1)
    case Ori(rd, rs1, _) => IsReg(rd) && IsReg(rs1)
    case Sll(rd, rs1, _) => IsReg(rd) && IsReg(rs1)
    case Sra(rd, rs1, _) => IsReg(rd) && IsReg(rs1)
    case Lw(rd, rs1, _) => IsReg(rd) && IsReg(rs1)
    case Jal(rd, _) => IsReg(rd)
    case Break => true
    case Invalid => true
  }

  /** The instructions an encoding exists for: operands in range and the
      immediate representable in its field. */
  predicate WellFormed(i: Instr)
  {
    && Operands(i)
    && match i
       case Beq(_, _, imm) => -2048 <= imm < 2048
       case Bne(_, _, imm) => -2048 <= imm < 2048
       case Blt(_, _, imm) => -2048 <= imm < 2048
       case Sw(_, _, imm) => -2048 <= imm < 2048
       case Addi(_, _, imm) => -2048 <= imm < 2048
       case Andi(_, _, imm) => -2048 <= imm < 2048
       case Ori(_, _, imm) => -2048 <= imm < 2048
       case Sll(_, _, imm) => -2048 <= imm < 2048
       case Sra(_, _, imm) => -2048 <= imm < 2048
       case Lw(_, _, imm) => -2048 <= imm < 2048
       case Jal(_, imm) => -0x8_0000 <= imm < 0x8_0000
       case Invalid => false
       case _ => true
  }

  /** The decoding switch of `process_instruction`. Category 1 takes
      `imm1`, category 3 `imm3`, `jal` `imm4`; every other case is `invalid`. */
  function Decode(w: Word): (i: Instr)
    ensures Operands(i)
  {
    var cat, sub := Category(w), SubOp(w);
    var rd, rs1, rs2 := Rd(w), Rs1(w), Rs2(w);
    if cat == 0 then
      if sub == 0 then Beq(rs1, rs2, Imm1(w))
      else if sub == 1 then Bne(rs1, rs2, Imm1(w))
      else if sub == 2 then Blt(rs1, rs2, Imm1(w))
      else if sub == 3 then Sw(rs1, rs2, Imm1(w))
      else Invalid
    else if cat == 1 then
      if sub == 0 then Add(rd, rs1, rs2)
      else if sub == 1 then Sub(rd, rs1, rs2)
      else if sub == 2 then AndReg(rd, rs1, rs2)
      else if sub == 3 then OrReg(rd, rs1, rs2)
      else Invalid
    else if cat == 2 then
      if sub == 0 then Addi(rd, rs1, Imm3(w))
      else if sub == 1 then Andi(rd, rs1, Imm3(w))
      else if sub == 2 then Ori(rd, rs1, Imm3(w))
      else if sub == 3 then Sll(rd, rs1, Imm3(w))
      else if sub == 4 then Sra(rd, rs1, Imm3(w))
      else if sub == 5 then Lw(rd, rs1, Imm3(w))
      else Invalid
    else
      if sub == 0 then Jal(rd, Imm4(w))
      else if sub == 31 then Break
      else Invalid
  }

  /** The canonical word for an instruction (unused bits zero). */
  function Encode(i: Instr): Word
    requires WellFormed(i)
  {
    match i
    case Beq(rs1, rs2, imm) => EncodeS(OP_BEQ, rs1, rs2, imm)
    case Bne(rs1, rs2, imm) => EncodeS(OP_BNE, rs1, rs2, imm)
    case Blt(rs1, rs2, imm) => EncodeS(OP_BLT, rs1, rs2, imm)
    case Sw(rs1, rs2, imm) => EncodeS(OP_SW, rs1, rs2, imm)
    case Add(rd, rs1, rs2) => EncodeR(OP_ADD, rd, rs1, rs2)
    case Sub(rd, rs1, rs2) => EncodeR(OP_SUB, rd, rs1, rs2)
    case AndReg(rd, rs1, rs2) => EncodeR(OP_AND, rd, rs1, rs2)
    case OrReg(rd, rs1, rs2) => EncodeR(OP_OR, rd, rs1, rs2)
    case Addi(rd, rs1, imm) => EncodeI(OP_ADDI, rd, rs1, imm)
    case Andi(rd, rs1, imm) => EncodeI(OP_ANDI, rd, rs1, imm)
    case Ori(rd, rs1, imm) => EncodeI(OP_ORI, rd, rs1, imm)
    case Sll(rd, rs1, imm) => EncodeI(OP_SLL, rd, rs1, imm)
    case Sra(rd, rs1, imm) => EncodeI(OP_SRA, rd, rs1, imm)
    case Lw(rd, rs1, imm) => EncodeI(OP_LW, rd, rs1, imm)
    case Jal(rd, imm) => EncodeJ(OP_JAL, rd, imm)
    case Break => OP_BREAK
  }

  /** The opcode of the canonical encoding. */
  function OpcodeOf(i: Instr): int
  {
    match i
    case Beq(_, _, _) => OP_BEQ
    case Bne(_, _, _) => OP_BNE
    case Blt(_, _, _) => OP_BLT
    case Sw(_, _, _) => OP_SW
    case Add(_, _, _) => OP_ADD
    case Sub(_, _, _) => OP_SUB
    case AndReg(_, _, _) => OP_AND
    case OrReg(_, _, _) => OP_OR
    case Addi(_, _, _) => OP_ADDI
    case Andi(_, _, _) => OP_ANDI
    case Ori(_, _, _) => OP_ORI
    case Sll(_, _, _) => OP_SLL
    case Sra(_, _, _) => OP_SRA
    case Lw(_, _, _) => OP_LW
    case Jal(_, _) => OP_JAL
    case Break => OP_BREAK
    case Invalid => -1
  }

  /** The category/sub-operation switch and the 7-bit opcode table agree:
      a word decodes to a valid instruction exactly when its low seven bits
      are one of the sixteen opcodes, and then to the instruction of that opcode. */
  lemma {:induction false} DecodeIsOpcode(w: Word)
    ensures Decode(w) != Invalid <==> IsOpcode(Opcode(w))
    ensures Decode(w) != Invalid ==> OpcodeOf(Decode(w)) == Opcode(w)
  {
    CategorySubOpIsOpcode(w);
  }

  /** Decoding the canonical encoding gives back the instruction. */
  lemma {:induction false} DecodeEncode(i: Instr)
    requires WellFormed(i)
    ensures Decode(Encode(i)) == i
  {
    var w := Encode(i);
    CategorySubOpIsOpcode(w);
    match i
    case Beq(rs1, rs2, imm) => EncodeSFields(OP_BEQ, rs1, rs2, imm);
    case Bne(rs1, rs2, imm) => EncodeSFields(OP_BNE, rs1, rs2, imm);
    case Blt(rs1, rs2, imm) => EncodeSFields(OP_BLT, rs1, rs2, imm);
    case Sw(rs1, rs2, imm) => EncodeSFields(OP_SW, rs1, rs2, imm);
    case Add(rd, rs1, rs2) => EncodeRFields(OP_ADD, rd, rs1, rs2);
    case Sub(rd, rs1, rs2) => EncodeRFields(OP_SUB, rd, rs1, rs2);
    case AndReg(rd, rs1, rs2) => EncodeRFields(OP_AND, rd, rs1, rs2);
    case OrReg(rd, rs1, rs2) => EncodeRFields(OP_OR, rd, rs1, rs2);
    case Addi(rd, rs1, imm) => EncodeIFields(OP_ADDI, rd, rs1, imm);
    case Andi(rd, rs1, imm) => EncodeIFields(OP_ANDI, rd, rs1, imm);
    case Ori(rd, rs1, imm) => EncodeIFields(OP_ORI, rd, rs1, imm);
    case Sll(rd, rs1, imm) => EncodeIFields(OP_SLL, rd, rs1, imm);
    case Sra(rd, rs1, imm) => EncodeIFields(OP_SRA, rd, rs1, imm);
    case Lw(rd, rs1, imm) => EncodeIFields(OP_LW, rd, rs1, imm);
    case Jal(rd, imm) => EncodeJFields(OP_JAL, rd, imm);
    case Break =>
  }

  // ---------------------------------------------------------------------
  // Machine state and execution.

  /** `regs`, `pc` and the memory buffer of `struct program`; the buffer's
      word k sits at byte address 256 + 4k. */
  datatype State = State(regs: seq<Word>, pc: Word, mem: seq<Word>)

  predicate Wf(st: State)
  {
    |st.regs| == 32
  }

  /** The address `sw`/`lw` touch: a register plus the immediate, in 32-bit arithmetic. */
  function EffAddr(base: Word, imm: int): Word
  {
    Wrap(base + imm)
  }

  /** The target of a taken branch or a jal: the instruction's own address
      plus twice the immediate (`addr + (imm << 1)`). */
  function Target(addr: Word, imm: int): Word
  {
    Wrap(addr + 2 * imm)
  }

  /** The cases the C code defines: memory accesses inside the buffer and
      shift amounts below 32. `lw`, `sll` and `sra` with `rd = 0` make no
      access and no shift (the `if (program && rd)` guard), so every address
      and every amount is defined for them. */
  predicate Defined(st: State, i: Instr)
    requires Wf(st) && Operands(i)
  {
    match i
    case Sw(_, rs2, imm) => InMem(st.mem, EffAddr(st.regs[rs2], imm))
    case Lw(rd, rs1, imm) => rd == 0 || InMem(st.mem, EffAddr(st.regs[rs1], imm))
    case Sll(rd, _, imm) => rd == 0 || 0 <= imm < 32
    case Sra(rd, _, imm) => rd == 0 || 0 <= imm < 32
    case _ => true
  }

  /** `if (rd) regs[rd] = v`. */
  function SetReg(st: State, rd: int, v: Word): State
    requires Wf(st) && IsReg(rd)
  {
    if rd == 0 then st else st.(regs := st.regs[rd := v])
  }

  /** The effect of the instruction `i` fetched from `addr`, on a state
      whose `pc` has already been advanced past it. */
  function Exec(st: State, i: Instr, addr: Word): State
    requires Wf(st) && Operands(i) && Defined(st, i)
  {
    var r := st.regs;
    match i
    case Beq(rs1, rs2, imm) => if r[rs1] == r[rs2] then st.(pc := Target(addr, imm)) else st
    case Bne(rs1, rs2, imm) => if r[rs1] != r[rs2] then st.(pc := Target(addr, imm)) else st
    case Blt(rs1, rs2, imm) => if Signed(r[rs1]) < Signed(r[rs2]) then st.(pc := Target(addr, imm)) else st
    case Sw(rs1, rs2, imm) => st.(mem := st.mem[Cell(EffAddr(r[rs2], imm)) := r[rs1]])
    case Add(rd, rs1, rs2) => SetReg(st, rd, Wrap(r[rs1] as int + r[rs2]))
    case Sub(rd, rs1, rs2) => SetReg(st, rd, Wrap(r[rs1] as int - r[rs2]))
    case AndReg(rd, rs1, rs2) => SetReg(st, rd, And(r[rs1], r[rs2]))
    case OrReg(rd, rs1, rs2) => SetReg(st, rd, Or(r[rs1], r[rs2]))
    case Addi(rd, rs1, imm) => SetReg(st, rd, Wrap(r[rs1] + imm))
    case Andi(rd, rs1, imm) => SetReg(st, rd, And(r[rs1], Wrap(imm)))
    case Ori(rd, rs1, imm) => SetReg(st, rd, Or(r[rs1], Wrap(imm)))
    case Sll(rd, rs1, imm) => if rd == 0 then st else SetReg(st, rd, ShiftLeft(r[rs1], imm))
    case Sra(rd, rs1, imm) => if rd == 0 then st else SetReg(st, rd, ShiftRightArith(r[rs1], imm))
    case Lw(rd, rs1, imm) => if rd == 0 then st else SetReg(st, rd, st.mem[Cell(EffAddr(r[rs1], imm))])
    case Jal(rd, imm) => SetReg(st, rd, st.pc).(pc := Target(addr, imm))
    case Break => st.(pc := 0)
    case Invalid => st
  }

  /** The word at `pc`. */
  function Fetch(st: State): Word
    requires InMem(st.mem, st.pc)
  {
    st.mem[Cell(st.pc)]
  }

  /** `pc += 4`, as `simulate_to` does before executing. */
  function Advance(st: State): State
  {
    st.(pc := Wrap(st.pc + 4))
  }

  /** One pass of the `simulate_to` loop is defined. */
  predicate StepOk(st: State)
  {
    Wf(st) && InMem(st.mem, st.pc) && Defined(Advance(st), Decode(Fetch(st)))
  }

  /** One pass of the `simulate_to` loop: fetch, advance, execute with the old pc. */
  function Next(st: State): State
    requires StepOk(st)
  {
    Exec(Advance(st), Decode(Fetch(st)), st.pc)
  }

  /** At most `fuel` passes of the loop, all of them defined. */
  predicate Runs(st: State, fuel: nat)
    decreases fuel, 1
  {
    Wf(st) && (fuel == 0 || st.pc == 0 || RunsOn(st, fuel))
  }

  /** One defined pass from `st`, then at most `fuel - 1` more. */
  predicate RunsOn(st: State, fuel: nat)
    requires fuel > 0
    decreases fuel, 0
  {
    StepOk(st) && Runs(Next(st), fuel - 1)
  }

  /** The state after `fuel` passes, or earlier once `pc` is 0. */
  function Run(st: State, fuel: nat): (r: State)
    requires Runs(st, fuel)
    ensures Wf(r)
    decreases fuel, 1
  {
    if fuel == 0 || st.pc == 0 then st else RunOn(st, fuel)
  }

  /** One pass from `st`, then the remaining `fuel - 1`. */
  function RunOn(st: State, fuel: nat): (r: State)
    requires fuel > 0 && Wf(st) && RunsOn(st, fuel)
    ensures Wf(r)
    decreases fuel, 0
  {
    Run(Next(st), fuel - 1)
  }

  // ---------------------------------------------------------------------
  // Properties of the instruction set.

  /** The register an instruction may write, or -1. */
  function Dest(i: Instr): int
  {
    match i
    case Add(rd, _, _) => rd
    case Sub(rd, _, _) => rd
    case AndReg(rd, _, _) => rd
    case OrReg(rd, _, _) => rd
    case Addi(rd, _, _) => rd
    case Andi(rd, _, _) => rd
    case Ori(rd, _, _) => rd
    case Sll(rd, _, _) => rd
    case Sra(rd, _, _) => rd
    case Lw(rd, _, _) => rd
    case Jal(rd, _) => rd
    case _ => -1
  }

  /** An instruction changes no register but its destination, and with
      destination 0 it changes none: `regs[0]` is never written. */
  lemma {:induction false} ExecRegs(st: State, i: Instr, addr: Word)
    requires Wf(st) && Operands(i) && Defined(st, i)
    ensures |Exec(st, i, addr).regs| == 32
    ensures forall r :: 0 <= r < 32 && r != Dest(i) ==> Exec(st, i, addr).regs[r] == st.regs[r]
    ensures Dest(i) <= 0 ==> Exec(st, i, addr).regs == st.regs
  {
  }

  /** Only `sw` changes memory, and only the word at its effective address. */
  lemma {:induction false} ExecMem(st: State, i: Instr, addr: Word)
    requires Wf(st) && Operands(i) && Defined(st, i)
    ensures !i.Sw? ==> Exec(st, i, addr).mem == st.mem
    ensures i.Sw? ==> Exec(st, i, addr).mem == st.mem[Cell(EffAddr(st.regs[i.rs2], i.imm)) := st.regs[i.rs1]]
  {
  }

  /** `regs[0]` stays 0 along any run. */
  lemma {:induction false} RunKeepsZero(st: State, fuel: nat)
    requires Runs(st, fuel) && st.regs[0] == 0
    ensures Run(st, fuel).regs[0] == 0
    decreases fuel
  {
    if fuel > 0 && st.pc != 0 {
      ExecRegs(Advance(st), Decode(Fetch(st)), st.pc);
      RunKeepsZero(Next(st), fuel - 1);
    }
  }

  /** Control flow of one pass: branches and jal jump relative to the
      address they were fetched from; everything else except break falls
      through to the next word. */
  lemma {:induction false} StepControl(st: State)
    requires StepOk(st)
    ensures var i, n, a := Decode(Fetch(st)), Next(st), st.pc;
      && (i.Beq? ==> n.pc == if st.regs[i.rs1] == st.regs[i.rs2] then Wrap(a + 2 * i.imm) else Wrap(a + 4))
      && (i.Bne? ==> n.pc == if st.regs[i.rs1] != st.regs[i.rs2] then Wrap(a + 2 * i.imm) else Wrap(a + 4))
      && (i.Blt? ==> n.pc == if Signed(st.regs[i.rs1]) < Signed(st.regs[i.rs2]) then Wrap(a + 2 * i.imm) else Wrap(a + 4))
      && (i.Jal? ==> n.pc == Wrap(a + 2 * i.imm) && (i.rd != 0 ==> n.regs[i.rd] == Wrap(a + 4)))
      && (i.Break? ==> n.pc == 0 && n.regs == st.regs && n.mem == st.mem)
      && (!(i.Beq? || i.Bne? || i.Blt? || i.Jal? || i.Break?) ==> n.pc == Wrap(a + 4))
  {
  }

  /** `sw` stores `regs[rs1]` at `regs[rs2] + imm`; `lw` loads the word at
      `regs[rs1] + imm` into `rd` (unless `rd` is 0). */
  lemma {:induction false} StepMemory(st: State)
    requires StepOk(st)
    ensures var i, n := Decode(Fetch(st)), Next(st);
      && (i.Sw? ==> n.regs == st.regs && n.mem == st.mem[Cell(EffAddr(st.regs[i.rs2], i.imm)) := st.regs[i.rs1]])
      && (i.Lw? ==> n.mem == st.mem)
      && (i.Lw? && i.rd == 0 ==> n.regs == st.regs)
      && (i.Lw? && i.rd != 0 ==> n.regs == st.regs[i.rd := st.mem[Cell(EffAddr(st.regs[i.rs1], i.imm))]])
  {
  }

  /** A word that is none of the sixteen opcodes changes nothing but the `pc += 4`. */
  lemma {:induction false} StepInvalid(st: State)
    requires StepOk(st) && !IsOpcode(Opcode(Fetch(st)))
    ensures Next(st) == Advance(st)
  {
    DecodeIsOpcode(Fetch(st));
  }

  /** The break word ends `simulate_to` after the pass that executes it. */
  lemma {:induction false} BreakEnds(st: State, fuel: nat)
    requires StepOk(st) && st.pc != 0 && Fetch(st) == OP_BREAK && fuel > 0
    ensures Runs(st, fuel)
    ensures Run(st, fuel) == Next(st) == st.(pc := 0)
  {
    assert Decode(OP_BREAK) == Break;
    assert Runs(Next(st), fuel - 1) && Run(Next(st), fuel - 1) == Next(st);
  }

  /** A run stops as soon as `pc` is 0 and never resumes. */
  lemma {:induction false} RunHalted(st: State, fuel: nat)
    requires Runs(st, fuel) && st.pc == 0
    ensures Run(st, fuel) == st
  {
  }

  /** Running in two legs is running once: the loop has no hidden state. */
  lemma {:induction false} RunSplit(st: State, m: nat, k: nat)
    requires Runs(st, m + k)
    ensures Runs(st, m) && Runs(Run(st, m), k)
    ensures Run(Run(st, m), k) == Run(st, m + k)
    decreases m
  {
    if m > 0 && st.pc != 0 {
      RunSplit(Next(st), m - 1, k);
    }
  }

  // ---------------------------------------------------------------------
  // The imperative interpreter.

  /** `struct program`: the register file, `pc`, the memory bounds and the buffer. */
  class Program {
    const regs: array<Word>
    var pc: Word
    var memSize: int
    var memLower: int
    var memData: int
    var memUpper: int
    const mem: array<Word>

    predicate Valid()
      reads this
    {
      regs.Length == 32 && regs != mem
    }

    function Abs(): State
      reads this, regs, mem
    {
      State(regs[..], pc, mem[..])
    }

    /** The `memset` and field assignments ending `init_program_from_fd`. */
    constructor (img: Loader1.Image)
      requires img.pc == 256
      ensures Valid() && Abs() == State(seq(32, _ => 0), 256, img.mem)
      ensures memSize == img.memSize && memLower == img.memLower
      ensures memData == img.memData && memUpper == img.memUpper
    {
      regs := new Word[32](_ => 0);
      pc := 256;
      memSize := img.memSize;
      memLower := img.memLower;
      memData := img.memData;
      memUpper := img.memUpper;
      var m := new Word[|img.mem|](k requires 0 <= k < |img.mem| => img.mem[k]);
      mem := m;
    }

    /** `process_instruction` with a non-NULL program, without the trace
        output: the switch on the category `ins & 3`. */
    method ProcessInstruction(ins: Word, addr: Word)
      requires Valid() && Defined(Abs(), Decode(ins))
      modifies this, regs, mem
      ensures Valid() && Abs() == Exec(old(Abs()), Decode(ins), addr)
      ensures memSize == old(memSize) && memLower == old(memLower)
      ensures memData == old(memData) && memUpper == old(memUpper)
    {
      var cat := Category(ins);
      if cat == 0 {
        Category1(ins, addr);
      } else if cat == 1 {
        Category2(ins);
      } else if cat == 2 {
        Category3(ins);
      } else {
        Category4(ins, addr);
      }
    }

    /** beq, bne, blt, sw. */
    method Category1(ins: Word, addr: Word)
      requires Valid() && Category(ins) == 0 && Defined(Abs(), Decode(ins))
      modifies this, mem
      ensures Valid() && Abs() == Exec(old(Abs()), Decode(ins), addr)
      ensures memSize == old(memSize) && memLower == old(memLower)
      ensures memData == old(memData) && memUpper == old(memUpper)
    {
      var rs1, rs2, imm := Rs1(ins), Rs2(ins), Imm1(ins);
      var sub := SubOp(ins);
      if sub == 0 {
        if regs[rs1] == regs[rs2] {
          pc := Wrap(addr + 2 * imm);
        }
      } else if sub == 1 {
        if regs[rs1] != regs[rs2] {
          pc := Wrap(addr + 2 * imm);
        }
      } else if sub == 2 {
        if Signed(regs[rs1]) < Signed(regs[rs2]) {
          pc := Wrap(addr + 2 * imm);
        }
      } else if sub == 3 {
        mem[(Wrap(regs[rs2] as int + imm) - 256) / 4] := regs[rs1];
      }
    }

    /** add, sub, and, or. */
    method Category2(ins: Word)
      requires Valid() && Category(ins) == 1 && Defined(Abs(), Decode(ins))
      modifies regs
      ensures Valid() && Abs() == Exec(old(Abs()), Decode(ins), 0)
    {
      var rd, rs1, rs2 := Rd(ins), Rs1(ins), Rs2(ins);
      var sub := SubOp(ins);
      if rd == 0 || sub > 3 {
        return;
      }
      var a, b := regs[rs1], regs[rs2];
      var v := if sub == 0 then Wrap(a as int + b)
        else if sub == 1 then Wrap(a as int - b)
        else if sub == 2 then And(a, b)
        else Or(a, b);
      regs[rd] := v;
      assert regs[..] == old(regs[..])[rd := v];
    }

    /** addi, andi, ori, sll, sra, lw. */
    method Category3(ins: Word)
      requires Valid() && Category(ins) == 2 && Defined(Abs(), Decode(ins))
      modifies regs
      ensures Valid() && Abs() == Exec(old(Abs()), Decode(ins), 0)
    {
      var rd, rs1, imm := Rd(ins), Rs1(ins), Imm3(ins);
      var sub := SubOp(ins);
      if rd == 0 || sub > 5 {
        return;
      }
      var a := regs[rs1];
      var v := if sub == 5 then mem[(Wrap(a as int + imm) - 256) / 4]
        else if sub == 0 then Wrap(a as int + imm)
        else if sub == 1 then And(a, Wrap(imm))
        else if sub == 2 then Or(a, Wrap(imm))
        else if sub == 3 then ShiftLeft(a, imm)
        else ShiftRightArith(a, imm);
      regs[rd] := v;
      assert regs[..] == old(regs[..])[rd := v];
    }

    /** jal, break. */
    method Category4(ins: Word, addr: Word)
      requires Valid() && Category(ins) == 3 && Defined(Abs(), Decode(ins))
      modifies this, regs
      ensures Valid() && Abs() == Exec(old(Abs()), Decode(ins), addr)
      ensures memSize == old(memSize) && memLower == old(memLower)
      ensures memData == old(memData) && memUpper == old(memUpper)
    {
      var rd, imm := Rd(ins), Imm4(ins);
      var sub := SubOp(ins);
      if sub == 0 {
        if rd != 0 {
          regs[rd] := pc;
        }
        pc := Wrap(addr + 2 * imm);
      } else if sub == 31 {
        pc := 0;
      }
    }

    /** One pass of the `simulate_to` loop. */
    method Step()
      requires Valid() && StepOk(Abs())
      modifies this, regs, mem
      ensures Valid() && Abs() == Next(old(Abs()))
      ensures memSize == old(memSize) && memLower == old(memLower)
      ensures memData == old(memData) && memUpper == old(memUpper)
    {
      var addr := pc;
      var ins := mem[(addr - 256) / 4];
      pc := Wrap(pc + 4);
      ProcessInstruction(ins, addr);
    }

    /** `simulate_to`, for at most `fuel` passes; `cycles` is the pass counter. */
    method SimulateTo(fuel: nat) returns (cycles: nat)
      requires Valid() && Runs(Abs(), fuel)
      modifies this, regs, mem
      ensures Valid() && Abs() == Run(old(Abs()), fuel)
      ensures cycles <= fuel && (cycles < fuel ==> pc == 0)
    {
      ghost var final := Run(Abs(), fuel);
      var n := 0;
      while pc != 0 && n < fuel
        invariant Valid() && 0 <= n <= fuel && Runs(Abs(), fuel - n)
        invariant Run(Abs(), fuel - n) == final
        decreases fuel - n
      {
        Step();
        n := n + 1;
      }
      return n;
    }
  }
}
