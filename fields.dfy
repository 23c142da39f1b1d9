/** The instruction encoding shared by both simulators: the 7-bit opcode
    table and the operand-field extractors of project2/Vsim.c (the same
    expressions project1/Vsim.c computes inline), together with encoders
    that build a word from its fields and the round trips between them. */
module Fields {
  import opened Word32

  const OP_BEQ: int := 0
  const OP_BNE: int := 4
  const OP_BLT: int := 8
  const OP_SW: int := 12
  const OP_ADD: int := 1
  const OP_SUB: int := 5
  const OP_AND: int := 9
  const OP_OR: int := 13
  const OP_ADDI: int := 2
  const OP_ANDI: int := 6
  const OP_ORI: int := 10
  const OP_SLL: int := 14
  const OP_SRA: int := 18
  const OP_LW: int := 22
  const OP_JAL: int := 3
  const OP_BREAK: int := 127

  /** The sixteen opcodes the instruction set defines. */
  predicate IsOpcode(op: int)
  {
    op in {OP_BEQ, OP_BNE, OP_BLT, OP_SW, OP_ADD, OP_SUB, OP_AND, OP_OR,
           OP_ADDI, OP_ANDI, OP_ORI, OP_SLL, OP_SRA, OP_LW, OP_JAL, OP_BREAK}
  }

  /** Low 7 bits. */
  function Opcode(w: Word): (r: int)
    ensures 0 <= r < 128
    ensures w - r == w / 128 * 128
  {
    w % 128
  }

  /** Bits 7-11. */
  function Rd(w: Word): (r: int)
    ensures 0 <= r < 32
  {
    w / 0x80 % 32
  }

  /** Bits 15-19. */
  function Rs1(w: Word): (r: int)
    ensures 0 <= r < 32
  {
    w / 0x8000 % 32
  }

  /** Bits 20-24. */
  function Rs2(w: Word): (r: int)
    ensures 0 <= r < 32
  {
    w / 0x10_0000 % 32
  }

  /** `imm3`: the arithmetic shift `ins >> 20`, i.e. bits 20-31 read as a
      signed 12-bit number. */
  function Imm3(w: Word): (r: int)
    ensures -2048 <= r < 2048
    ensures r >= 0 <==> w < 0x8000_0000
  {
    Signed(w) / 0x10_0000
  }

  /** `imm4`: the arithmetic shift `ins >> 12`, bits 12-31 as a signed 20-bit number. */
  function Imm4(w: Word): (r: int)
    ensures -0x8_0000 <= r < 0x8_0000
    ensures r >= 0 <==> w < 0x8000_0000
  {
    Signed(w) / 0x1000
  }

  /** `imm1`: `(ins >> 7 & 31) | (ins >> 20 & ~31)`. The two operands have
      no bit in common (the second has its low five bits cleared), so the
      `|` is a sum; clearing the low five bits of `imm3` subtracts
      `imm3 % 32`. The result joins bits 7-11 (low part) with the
      sign-extended bits 25-31 (high part). */
  function Imm1(w: Word): (r: int)
    ensures -2048 <= r < 2048
    ensures r % 32 == Rd(w)
    ensures r / 32 == Signed(w) / 0x200_0000
  {
    Rd(w) + (Imm3(w) - Imm3(w) % 32)
  }

  /** project1 splits the opcode into a category (`ins & 3`) and a sub-operation (`ins >> 2 & 31`). */
  function Category(w: Word): (r: int)
    ensures 0 <= r < 4
  {
    w % 4
  }

  function SubOp(w: Word): (r: int)
    ensures 0 <= r < 32
  {
    w / 4 % 32
  }

  /** The category/sub-operation pair is exactly the 7-bit opcode: `op = cat | sub << 2`. */
  lemma {:induction false} CategorySubOpIsOpcode(w: Word)
    ensures Opcode(w) == Category(w) + 4 * SubOp(w)
  {
    var q := w / 128;
    DivModUnique(w, 128, q, Opcode(w));
    DivModUnique(w, 4, w / 4, Category(w));
    DivModUnique(Opcode(w), 4, Opcode(w) / 4, Category(w));
    FieldAt(w, 4, Category(w), Opcode(w) / 4, q);
  }

  /** Memory is a word array based at byte address 256 (`MEM32` in
      project1, `mem32` in project2): the access at byte address `a` is
      defined when it is aligned and inside the buffer. */
  predicate InMem(mem: seq<Word>, a: int)
  {
    256 <= a && (a - 256) % 4 == 0 && (a - 256) / 4 < |mem|
  }

  /** Index of the buffer word at byte address `a`. */
  function Cell(a: int): int
  {
    (a - 256) / 4
  }

  // ---------------------------------------------------------------------
  // Encoders: the inverse direction of the extractors.

  predicate IsReg(r: int) { 0 <= r < 32 }

  function EncodeR(op: int, rd: int, rs1: int, rs2: int): Word
    requires 0 <= op < 128 && IsReg(rd) && IsReg(rs1) && IsReg(rs2)
  {
    op + 0x80 * rd + 0x8000 * rs1 + 0x10_0000 * rs2
  }

  function EncodeI(op: int, rd: int, rs1: int, imm: int): Word
    requires 0 <= op < 128 && IsReg(rd) && IsReg(rs1) && -2048 <= imm < 2048
  {
    op + 0x80 * rd + 0x8000 * rs1 + 0x10_0000 * (imm % 0x1000)
  }

  /** Split-immediate form of beq/bne/blt/sw: low five immediate bits in 7-11, the rest in 25-31. */
  function EncodeS(op: int, rs1: int, rs2: int, imm: int): Word
    requires 0 <= op < 128 && IsReg(rs1) && IsReg(rs2) && -2048 <= imm < 2048
  {
    op + 0x80 * (imm % 32) + 0x8000 * rs1 + 0x10_0000 * rs2 + 0x200_0000 * (imm / 32 % 128)
  }

  function EncodeJ(op: int, rd: int, imm: int): Word
    requires 0 <= op < 128 && IsReg(rd) && -0x8_0000 <= imm < 0x8_0000
  {
    op + 0x80 * rd + 0x1000 * (imm % 0x10_0000)
  }

  lemma {:induction false} EncodeRFields(op: int, rd: int, rs1: int, rs2: int)
    requires 0 <= op < 128 && IsReg(rd) && IsReg(rs1) && IsReg(rs2)
    ensures var w := EncodeR(op, rd, rs1, rs2);
      Opcode(w) == op && Rd(w) == rd && Rs1(w) == rs1 && Rs2(w) == rs2
  {
    var w := EncodeR(op, rd, rs1, rs2);
    DivModUnique(w, 128, rd + 0x100 * rs1 + 0x2000 * rs2, op);
    FieldAt(w, 0x80, op, rd, 8 * rs1 + 0x100 * rs2);
    FieldAt(w, 0x8000, op + 0x80 * rd, rs1, rs2);
    FieldAt(w, 0x10_0000, op + 0x80 * rd + 0x8000 * rs1, rs2, 0);
  }

  lemma {:induction false} EncodeIFields(op: int, rd: int, rs1: int, imm: int)
    requires 0 <= op < 128 && IsReg(rd) && IsReg(rs1) && -2048 <= imm < 2048
    ensures var w := EncodeI(op, rd, rs1, imm);
      Opcode(w) == op && Rd(w) == rd && Rs1(w) == rs1 && Imm3(w) == imm
  {
    var w := EncodeI(op, rd, rs1, imm);
    var u := imm % 0x1000;
    var base := op + 0x80 * rd + 0x8000 * rs1;
    DivModUnique(w, 128, rd + 0x100 * rs1 + 0x2000 * u, op);
    FieldAt(w, 0x80, op, rd, 8 * rs1 + 0x100 * u);
    FieldAt(w, 0x8000, op + 0x80 * rd, rs1, u);
    assert Signed(w) == base + 0x10_0000 * imm;
    DivModUnique(Signed(w), 0x10_0000, imm, base);
  }

  lemma {:induction false} EncodeSFields(op: int, rs1: int, rs2: int, imm: int)
    requires 0 <= op < 128 && IsReg(rs1) && IsReg(rs2) && -2048 <= imm < 2048
    ensures var w := EncodeS(op, rs1, rs2, imm);
      Opcode(w) == op && Rs1(w) == rs1 && Rs2(w) == rs2 && Imm1(w) == imm
  {
    var w := EncodeS(op, rs1, rs2, imm);
    var lo, h := imm % 32, imm / 32;
    var u := h % 128;
    DivModUnique(w, 128, lo + 0x100 * rs1 + 0x2000 * rs2 + 0x4_0000 * u, op);
    FieldAt(w, 0x80, op, lo, 8 * rs1 + 0x100 * rs2 + 0x2000 * u);
    FieldAt(w, 0x8000, op + 0x80 * lo, rs1, rs2 + 32 * u);
    FieldAt(w, 0x10_0000, op + 0x80 * lo + 0x8000 * rs1, rs2, u);
    EncodeSImm3(op, rs1, rs2, imm);
    assert Imm3(w) % 32 == rs2 && Imm3(w) - rs2 == 32 * h;
    DivModUnique(imm, 32, h, lo);
  }

  /** The upper immediate bits of the split form come back, sign-extended, in `imm3`. */
  lemma {:induction false} EncodeSImm3(op: int, rs1: int, rs2: int, imm: int)
    requires 0 <= op < 128 && IsReg(rs1) && IsReg(rs2) && -2048 <= imm < 2048
    ensures var w := EncodeS(op, rs1, rs2, imm);
      Imm3(w) == rs2 + 32 * (imm / 32) && Imm3(w) % 32 == rs2
  {
    var w := EncodeS(op, rs1, rs2, imm);
    var lo, h := imm % 32, imm / 32;
    var base := op + 0x80 * lo + 0x8000 * rs1 + 0x10_0000 * rs2;
    assert 0 <= base < 0x200_0000;
    if h >= 0 {
      assert h % 128 == h;
      assert w == base + 0x200_0000 * h;
      assert Signed(w) == w;
    } else {
      assert h % 128 == h + 128;
      assert w == base + 0x200_0000 * h + TWO32;
      assert Signed(w) == w - TWO32;
    }
    DivModUnique(Signed(w), 0x10_0000, rs2 + 32 * h, op + 0x80 * lo + 0x8000 * rs1);
    DivModUnique(Imm3(w), 32, h, rs2);
  }

  lemma {:induction false} EncodeJFields(op: int, rd: int, imm: int)
    requires 0 <= op < 128 && IsReg(rd) && -0x8_0000 <= imm < 0x8_0000
    ensures var w := EncodeJ(op, rd, imm);
      Opcode(w) == op && Rd(w) == rd && Imm4(w) == imm
  {
    var w := EncodeJ(op, rd, imm);
    var u := imm % 0x10_0000;
    DivModUnique(w, 128, rd + 0x20 * u, op);
    FieldAt(w, 0x80, op, rd, u);
    assert Signed(w) == op + 0x80 * rd + 0x1000 * imm;
    DivModUnique(Signed(w), 0x1000, imm, op + 0x80 * rd);
  }
}
