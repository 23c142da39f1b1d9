/** The rules of the pipeline cycle of project2/Vsim.c, stated on the
    functions of module `Pipeline` in terms that do not mention how those
    functions compute: the register file, the hazard and structural rules
    of issue, the fetch rules, branch resolution and write-back. */
module PipelineRules {
  import opened Word32
  import opened Fields
  import opened Pipeline
  import PipelineProps
  import Interp

  // ---------------------------------------------------------------------
  // The register file.

  /** `rset(0, v)` changes nothing; for any other register it sets the
      register, clears only its pending-write bit, and changes nothing else. */
  lemma {:induction false} RsetEffect(m: Machine, id: int, v: Word)
    requires |m.regs| == 32 && 0 <= id < 32
    ensures id == 0 ==> Rset(m, id, v) == m
    ensures id != 0 ==> var r := Rset(m, id, v);
      && |r.regs| == 32 && r.regs[id] == v
      && (forall j :: 0 <= j < 32 && j != id ==> r.regs[j] == m.regs[j])
      && r.willwrite == m.willwrite - {id}
      && r == m.(regs := r.regs, willwrite := r.willwrite)
  {
  }

  // ---------------------------------------------------------------------
  // Issue: what an entry reads and which staging latch it needs.

  /** The registers an entry reads: both source fields for sw and the
      register forms, `rs1` alone for the immediate forms and lw. */
  function Sources(ins: Word): set<int>
  {
    var op := Opcode(ins);
    if op == OP_SW || op == OP_ADD || op == OP_SUB || op == OP_AND || op == OP_OR
    then {Rs1(ins), Rs2(ins)} else {Rs1(ins)}
  }

  /** The staging latch an entry of opcode `op` needs is empty, and for
      ALU2 and ALU3 so is the pre latch behind it. */
  predicate UnitFree(a: Scan, op: int, busy2: bool, busy3: bool)
  {
    && (IsMemOp(op) ==> a.s1.ins == 0)
    && (IsAlu2Op(op) ==> a.s2.ins == 0 && !busy2)
    && (IsAlu3Op(op) ==> a.s3.ins == 0 && !busy3)
  }

  /** The staging latch that receives an entry of opcode `op`. */
  function UnitOf(a: Scan, op: int): Latch
  {
    if IsMemOp(op) then a.s1 else if IsAlu2Op(op) then a.s2 else a.s3
  }

  /** The operands issue reads for an entry from the register file: the
      address for sw and lw, the two values for the register forms, the
      value and the immediate for the immediate forms. */
  function Operand1(ins: Word, regs: seq<Word>): Word
    requires |regs| == 32
  {
    var op := Opcode(ins);
    if op == OP_SW then Wrap(regs[Rs2(ins)] + Imm1(ins))
    else if op == OP_LW then Wrap(regs[Rs1(ins)] + Imm3(ins))
    else regs[Rs1(ins)]
  }

  function Operand2(ins: Word, regs: seq<Word>): Word
    requires |regs| == 32
  {
    var op := Opcode(ins);
    if op == OP_SW then regs[Rs1(ins)]
    else if op == OP_ADD || op == OP_SUB || op == OP_AND || op == OP_OR then regs[Rs2(ins)]
    else Wrap(Imm3(ins))
  }

  /** The hazard rule for an instruction with a destination (the ALU forms
      and lw): it issues exactly when its unit is free, its `rd` is neither
      pending nor read or written by an earlier held entry, none of its
      sources is pending or written by an earlier held entry, and, for lw,
      no store has been held back. Issuing stages it with the operands read
      now and marks `rd` pending, for the rest of the scan as well; holding
      it records `rd` as written and its sources as read. */
  lemma {:induction false} HazardRule(a: Scan, ins: Word, regs: seq<Word>, busy2: bool, busy3: bool)
    requires |regs| == 32 && IsQueued(Opcode(ins)) && Opcode(ins) != OP_SW
    ensures var a', op, rd := IssueOne(a, ins, regs, busy2, busy3), Opcode(ins), Rd(ins);
      && (a'.kept == a.kept <==>
           && UnitFree(a, op, busy2, busy3)
           && rd !in a.ww + a.wr
           && Sources(ins) !! a.ww
           && (op == OP_LW ==> !a.hasStore))
      && (a'.kept == a.kept ==>
           && UnitOf(a', op).ins == ins && UnitOf(a', op).x == Operand1(ins, regs)
           && (op != OP_LW ==> UnitOf(a', op).y == Operand2(ins, regs))
           && a'.willwrite == a.willwrite + {rd} && rd in a'.ww)
      && (a'.kept != a.kept ==>
           && a'.kept == a.kept + [ins] && a'.willwrite == a.willwrite
           && a'.ww == a.ww + {rd} && a'.wr == a.wr + Sources(ins))
  {
  }

  /** The rule for sw: it issues exactly when ALU1's staging latch is free,
      the register holding the value is neither pending nor read by an
      earlier held entry, the address register is not pending, and no
      earlier store was held back. A held store blocks every later sw and
      lw of the scan. */
  lemma {:induction false} StoreRule(a: Scan, ins: Word, regs: seq<Word>, busy2: bool, busy3: bool)
    requires |regs| == 32 && Opcode(ins) == OP_SW
    ensures var a' := IssueOne(a, ins, regs, busy2, busy3);
      && (a'.kept == a.kept <==>
           a.s1.ins == 0 && Rs1(ins) !in a.ww + a.wr && Rs2(ins) !in a.ww && !a.hasStore)
      && (a'.kept == a.kept ==>
           && a'.s1 == Latch(ins, Operand1(ins, regs), Operand2(ins, regs))
           && a'.willwrite == a.willwrite)
      && (a'.kept != a.kept ==>
           a'.kept == a.kept + [ins] && a'.hasStore && a'.ww == a.ww && a'.wr == a.wr + Sources(ins))
  {
  }

  /** While bit 0 of `willwrite` is set, no entry that reads or writes
      register 0 leaves the queue. */
  lemma {:induction false} PendingZeroBlocks(a: Scan, ins: Word, regs: seq<Word>, busy2: bool, busy3: bool)
    requires |regs| == 32 && IsQueued(Opcode(ins)) && 0 in a.ww
    requires 0 in Sources(ins) || (Opcode(ins) != OP_SW && Rd(ins) == 0)
    ensures IssueOne(a, ins, regs, busy2, busy3).kept == a.kept + [ins]
  {
    if Opcode(ins) == OP_SW {
      StoreRule(a, ins, regs, busy2, busy3);
    } else {
      HazardRule(a, ins, regs, busy2, busy3);
    }
  }

  // ---------------------------------------------------------------------
  // Issue: the whole scan.

  /** Along the scan the pending and accumulated registers only grow, a
      held store stays held, and an occupied staging latch keeps its
      entry: each staging latch takes at most one instruction per cycle. */
  predicate Grows(a0: Scan, a: Scan)
  {
    && a0.willwrite <= a.willwrite && a0.ww <= a.ww && a0.wr <= a.wr
    && (a0.hasStore ==> a.hasStore)
    && (a0.s1.ins != 0 ==> a.s1 == a0.s1)
    && (a0.s2.ins != 0 ==> a.s2 == a0.s2)
    && (a0.s3.ins != 0 ==> a.s3 == a0.s3)
  }

  lemma {:induction false} IssueOneGrows(a: Scan, ins: Word, regs: seq<Word>, busy2: bool, busy3: bool)
    requires |regs| == 32 && ins != 0
    ensures Grows(a, IssueOne(a, ins, regs, busy2, busy3))
  {
  }

  lemma {:induction false} IssueUpToGrows(a0: Scan, p: seq<Word>, k: nat, regs: seq<Word>, busy2: bool, busy3: bool)
    requires k <= |p| && |regs| == 32 && 0 !in p
    ensures Grows(a0, IssueUpTo(a0, p, k, regs, busy2, busy3))
  {
    if k > 0 {
      IssueUpToGrows(a0, p, k - 1, regs, busy2, busy3);
      assert p[k - 1] in p;
      IssueOneGrows(IssueUpTo(a0, p, k - 1, regs, busy2, busy3), p[k - 1], regs, busy2, busy3);
    }
  }

  /** `idx` lists, in increasing order, positions of `t` holding the elements of `s`. */
  predicate Picks(s: seq<Word>, t: seq<Word>, idx: seq<int>)
  {
    && |idx| == |s|
    && (forall i :: 0 <= i < |idx| ==> 0 <= idx[i] < |t| && s[i] == t[idx[i]])
    && (forall i, j :: 0 <= i < j < |idx| ==> idx[i] < idx[j])
  }

  /** The positions of the first `k` entries that the scan keeps. */
  lemma {:induction false} KeptPositions(a0: Scan, p: seq<Word>, k: nat, regs: seq<Word>, busy2: bool, busy3: bool)
      returns (idx: seq<int>)
    requires k <= |p| && |regs| == 32 && a0.kept == []
    ensures Picks(IssueUpTo(a0, p, k, regs, busy2, busy3).kept, p, idx)
    ensures forall i :: 0 <= i < |idx| ==> idx[i] < k
  {
    if k == 0 {
      idx := [];
    } else {
      var a := IssueUpTo(a0, p, k - 1, regs, busy2, busy3);
      idx := KeptPositions(a0, p, k - 1, regs, busy2, busy3);
      PipelineProps.IssueOneKept(a, p[k - 1], regs, busy2, busy3);
      if IssueOne(a, p[k - 1], regs, busy2, busy3).kept != a.kept {
        idx := idx + [k - 1];
      }
    }
  }

  /** The entries that stay queued keep their order: the queue after issue
      is a subsequence of the entries before it, followed by empty slots. */
  lemma {:induction false} IssueKeepsOrder(m: Machine)
    requires Shape(m)
    ensures exists idx :: Picks(IssueScan(m).kept, Entries(m.queue), idx)
    ensures AfterIssue(m, IssueScan(m)).queue == IssueScan(m).kept + BinText.Zeros(4 - |IssueScan(m).kept|)
  {
    var p := Entries(m.queue);
    var idx := KeptPositions(ScanStart(m), p, |p|, m.regs, m.alu2.ins != 0, m.alu3.ins != 0);
    assert Picks(IssueScan(m).kept, p, idx);
  }

  /** Every entry issued in a cycle lands in a staging latch that was
      empty when the cycle began, and a latch that was full stays as it
      was; `willwrite` only gains bits during issue. */
  lemma {:induction false} IssueScanGrows(m: Machine)
    requires Shape(m)
    ensures Grows(ScanStart(m), IssueScan(m))
  {
    PipelineProps.EntriesForm(m.queue);
    var p := Entries(m.queue);
    IssueUpToGrows(ScanStart(m), p, |p|, m.regs, m.alu2.ins != 0, m.alu3.ins != 0);
  }

  // ---------------------------------------------------------------------
  // Fetch.

  /** A queue whose slots are all occupied stops the fetch loop before it reads memory. */
  lemma {:induction false} FetchFull(m: Machine)
    requires Sized(m) && forall j :: 0 <= j < 4 ==> m.queue[j] != 0
    ensures FetchOne(m) == Stop(Fetched(m, 0))
  {
    PipelineProps.FirstEmptyFromIs(m.queue, 0);
  }

  /** Nothing is fetched while a branch waits. */
  lemma {:induction false} FetchWaits(m: Machine)
    requires Sized(m) && m.branch != 0
    ensures FetchStage(m) == Fetched(m, 0)
  {
  }

  /** `FirstEmpty` is the length of the run of occupied slots at the front. */
  lemma {:induction false} FirstEmptyIs(q: seq<Word>, j: nat, n: nat)
    requires j <= n <= |q| && (forall t :: j <= t < n ==> q[t] != 0) && (n < |q| ==> q[n] == 0)
    ensures FirstEmptyFrom(q, j) == n
    decreases n - j
  {
    if j < n {
      FirstEmptyIs(q, j + 1, n);
    }
  }

  /** The entries before and after a fetch round: a queued word goes to the
      end of the entries, anything else leaves the queue as it was. */
  lemma {:induction false} FetchOneAppends(m: Machine)
    requires Shape(m)
    ensures FetchOne(m).More? ==>
      && InMem(m.mem, m.pc) && IsQueued(Opcode(m.mem[Cell(m.pc)])) && !IsBranch(Opcode(m.mem[Cell(m.pc)]))
      && Entries(FetchOne(m).m.queue) == Entries(m.queue) + [m.mem[Cell(m.pc)]]
    ensures FetchOne(m).Stop? && FetchOne(m).f.Fetched? ==> FetchOne(m).f.m.queue == m.queue
  {
    var q, n := m.queue, FirstEmpty(m.queue);
    PipelineProps.FirstEmptyFromIs(q, 0);
    if FetchOne(m).More? {
      var ins := m.mem[Cell(m.pc)];
      PipelineProps.QueuedNonzero(ins);
      var q' := q[n := ins];
      if n + 1 < 4 {
        assert q'[n + 1] == q[n + 1] == 0;
      }
      FirstEmptyIs(q', 0, n + 1);
      assert q'[..n + 1] == q[..n] + [ins];
    }
  }

  /** Rounds `i` to 1 add at most `2 - i` entries to the end of the
      queue, each a queued opcode (a branch never enters the queue). */
  lemma {:induction false} FetchLoopAppends(m: Machine, i: nat)
    requires Shape(m) && i <= 2
    ensures FetchLoop(m, i).Fetched? ==>
      var e, e' := Entries(m.queue), Entries(FetchLoop(m, i).m.queue);
      && |e| <= |e'| <= |e| + (2 - i) && e'[..|e|] == e
      && (forall j :: |e| <= j < |e'| ==> IsQueued(Opcode(e'[j])) && !IsBranch(Opcode(e'[j])))
    decreases 2 - i
  {
    if i < 2 {
      FetchOneAppends(m);
      PipelineProps.FetchOneForm(m);
      if FetchOne(m).More? {
        var m1 := FetchOne(m).m;
        FetchLoopAppends(m1, i + 1);
        var e, e1 := Entries(m.queue), Entries(m1.queue);
        if FetchLoop(m1, i + 1).Fetched? {
          var e' := Entries(FetchLoop(m1, i + 1).m.queue);
          assert e'[..|e|] == e1[..|e|] == e by {
            assert e'[..|e|] == e'[..|e1|][..|e|];
          }
          forall j | |e| <= j < |e'|
            ensures IsQueued(Opcode(e'[j])) && !IsBranch(Opcode(e'[j]))
          {
            if j < |e1| {
              assert e'[j] == e1[j];
            }
          }
        }
      }
    }
  }

  /** A cycle's fetch adds at most two entries, after the ones already
      queued, and none of them is a branch. */
  lemma {:induction false} FetchStageAppends(m: Machine)
    requires Shape(m)
    ensures FetchStage(m).Fetched? ==>
      var e, e' := Entries(m.queue), Entries(FetchStage(m).m.queue);
      && |e| <= |e'| <= |e| + 2 && e'[..|e|] == e
      && (forall j :: |e| <= j < |e'| ==> IsQueued(Opcode(e'[j])) && !IsBranch(Opcode(e'[j])))
  {
    if m.branch == 0 {
      FetchLoopAppends(m, 0);
    } else {
      assert Entries(m.queue)[..|Entries(m.queue)|] == Entries(m.queue);
    }
  }

  /** jal executes at fetch: `rd` (unless it is 0) gets the address after
      the jal, `pc` becomes the jal's own address plus twice `imm4`, and
      fetch stops with the jal as the executed instruction. */
  lemma {:induction false} FetchJal(m: Machine)
    requires Sized(m) && FirstEmpty(m.queue) < 4 && InMem(m.mem, m.pc)
    requires Opcode(m.mem[Cell(m.pc)]) == OP_JAL
    ensures var ins := m.mem[Cell(m.pc)];
      FetchOne(m) == Stop(Fetched(Rset(m, Rd(ins), Wrap(m.pc + 4)).(pc := Wrap(m.pc + 2 * Imm4(ins))), ins))
  {
    var ins := m.mem[Cell(m.pc)];
    WrapAdd(m.pc + 4, -4 + 2 * Imm4(ins));
  }

  /** A fetched break stops fetch: `pc` moves past it, nothing is queued,
      and it becomes the instruction executed this cycle. */
  lemma {:induction false} FetchBreak(m: Machine)
    requires Sized(m) && FirstEmpty(m.queue) < 4 && InMem(m.mem, m.pc)
    requires Opcode(m.mem[Cell(m.pc)]) == OP_BREAK
    ensures FetchOne(m) == Stop(Fetched(m.(pc := Wrap(m.pc + 4)), m.mem[Cell(m.pc)]))
  {
  }

  /** A word with none of the sixteen opcodes aborts the fetch, and an
      abort is only ever caused by such a word. */
  lemma {:induction false} FetchUnknown(m: Machine)
    requires Sized(m) && FirstEmpty(m.queue) < 4 && InMem(m.mem, m.pc)
    requires !IsOpcode(Opcode(m.mem[Cell(m.pc)]))
    ensures FetchOne(m) == Stop(BadOpcode(Opcode(m.mem[Cell(m.pc)])))
  {
  }

  lemma {:induction false} FetchLoopAborts(m: Machine, i: nat)
    requires Sized(m)
    ensures FetchLoop(m, i).BadOpcode? ==> !IsOpcode(FetchLoop(m, i).op)
    decreases 2 - i
  {
    if i < 2 && FetchOne(m).More? {
      FetchLoopAborts(FetchOne(m).m, i + 1);
    }
  }

  lemma {:induction false} FetchStageAborts(m: Machine)
    requires Sized(m)
    ensures FetchStage(m).BadOpcode? ==> !IsOpcode(FetchStage(m).op)
  {
    FetchLoopAborts(m, 0);
  }

  /** A branch fetched in rounds `i` to 1 is the word at `pc - 4`: fetch
      stops right after it, so `pc - 4` stays the branch's own address. */
  lemma {:induction false} FetchLoopBranch(m: Machine, i: nat)
    requires Sized(m) && m.branch == 0
    ensures FetchLoop(m, i).Fetched? && FetchLoop(m, i).m.branch != 0 ==>
      var m' := FetchLoop(m, i).m;
      && InMem(m.mem, Wrap(m'.pc - 4)) && m'.branch == m.mem[Cell(Wrap(m'.pc - 4))]
      && IsBranch(Opcode(m'.branch)) && FetchLoop(m, i).executed == 0
    decreases 2 - i
  {
    if i < 2 {
      match FetchOne(m)
      case More(m1) =>
        FetchLoopBranch(m1, i + 1);
      case Stop(f) =>
        if f.Fetched? && f.m.branch != 0 {
          WrapAdd(m.pc + 4, -4);
        }
    }
  }

  // ---------------------------------------------------------------------
  // Write-back.

  /** The register a post latch writes: none when the latch is empty or
      names register 0. */
  function Writes(p: Post): set<int>
  {
    if p.ins != 0 && Rd(p.ins) != 0 then {Rd(p.ins)} else {}
  }

  /** The registers a write-back retires. */
  function Retired(m: Machine): set<int>
  {
    Writes(m.postMem) + Writes(m.postAlu2) + Writes(m.postAlu3)
  }

  /** The value register `r` holds after write-back: post-ALU3 wins over
      post-ALU2, which wins over post-MEM, because they retire in that
      order. */
  function WbValue(m: Machine, r: int): Word
    requires |m.regs| == 32 && 0 <= r < 32
  {
    if r in Writes(m.postAlu3) then m.postAlu3.val
    else if r in Writes(m.postAlu2) then m.postAlu2.val
    else if r in Writes(m.postMem) then m.postMem.val
    else m.regs[r]
  }

  /** One post latch retires: only its destination register and its
      pending bit change. */
  lemma {:induction false} RetireEffect(m: Machine, p: Post)
    requires |m.regs| == 32
    ensures var m' := Retire(m, p);
      && m' == m.(regs := m'.regs, willwrite := m.willwrite - Writes(p))
      && |m'.regs| == 32
      && forall r :: 0 <= r < 32 ==> m'.regs[r] == if r in Writes(p) then p.val else m.regs[r]
  {
  }

  /** WB: register 0 keeps its value, every other register holds `WbValue`,
      the retired registers lose their pending bits, the three post
      latches are emptied and nothing else changes. */
  lemma {:induction false} WriteBackEffect(m: Machine)
    requires |m.regs| == 32
    ensures var m' := WriteBack(m);
      && m' == m.(regs := m'.regs, willwrite := m.willwrite - Retired(m),
                  postMem := m.postMem.(ins := 0), postAlu2 := m.postAlu2.(ins := 0),
                  postAlu3 := m.postAlu3.(ins := 0))
      && m'.regs[0] == m.regs[0]
      && forall r :: 0 <= r < 32 ==> m'.regs[r] == WbValue(m, r)
  {
    var m1 := Retire(m, m.postMem);
    RetireEffect(m, m.postMem);
    var n1 := m1.(postMem := m.postMem.(ins := 0));
    var m2 := Retire(n1, m.postAlu2);
    RetireEffect(n1, m.postAlu2);
    var n2 := m2.(postAlu2 := m.postAlu2.(ins := 0));
    RetireEffect(n2, m.postAlu3);
    assert 0 !in Retired(m);
  }

  /** The back end changes `pc` and `branch` only through branch
      resolution, moves the staging latches into the pre latches and
      empties them, and never clears the pending bit of register 0. MEM
      empties pre-MEM, and ALU1 then moves its own latch there when it
      holds an instruction. */
  lemma {:induction false} BackEndFrame(m: Machine, ww: set<int>, ex: Word)
    requires Sized(m) && BackEnd(m, ww, ex).Cycled?
    ensures var (m1, ex1) := Resolve(m, ww, ex);
      var m' := BackEnd(m, ww, ex).m;
      && m'.pc == m1.pc && m'.branch == m1.branch && BackEnd(m, ww, ex).executed == ex1
      && m'.alu1 == m.stage1 && m'.alu2 == m.stage2 && m'.alu3 == m.stage3
      && m'.stage1.ins == 0 && m'.stage2.ins == 0 && m'.stage3.ins == 0
      && (0 in m.willwrite ==> 0 in m'.willwrite)
      && m'.preMem == (if m.alu1.ins != 0 then m.alu1 else m.preMem.(ins := 0))
  {
    var (m1, ex1) := Resolve(m, ww, ex);
    var m2 := WriteBack(m1);
    WriteBackEffect(m1);
    assert 0 !in Retired(m1);
    var m3 := MemStage(m2);
    assert m3.pc == m1.pc && m3.branch == m1.branch && m3.willwrite == m2.willwrite;
    assert m3.stage1 == m.stage1 && m3.stage2 == m.stage2 && m3.stage3 == m.stage3;
    assert m3.alu1 == m.alu1 && m3.preMem == m.preMem.(ins := 0);
    var m4 := Alu3Stage(m3);
    assert m4 == m3.(postAlu3 := m4.postAlu3);
    var m5 := Alu1Stage(Alu2Stage(m4));
    assert m5 == m4.(postAlu2 := m5.postAlu2, preMem := m5.preMem);
    assert BackEnd(m, ww, ex) == Cycled(Rotate(m5), ex1);
  }

  /** What fetch changes: `pc`, the registers and pending bits (through
      jal's `rset`, which never clears the bit of register 0), the queue
      and `branch`. */
  lemma {:induction false} FetchLoopFrame(m: Machine, i: nat)
    requires Sized(m)
    ensures FetchLoop(m, i).Fetched? ==>
      var m' := FetchLoop(m, i).m;
      && m' == m.(pc := m'.pc, regs := m'.regs, willwrite := m'.willwrite, queue := m'.queue, branch := m'.branch)
      && (0 in m.willwrite ==> 0 in m'.willwrite)
    decreases 2 - i
  {
    if i < 2 && FetchOne(m).More? {
      FetchLoopFrame(FetchOne(m).m, i + 1);
    }
  }

  /** After a cycle the staging latches are empty and the pre latches of
      ALU1, ALU2 and ALU3 hold what issue staged in that cycle. */
  lemma {:induction false} StepStaging(m: Machine)
    requires Sized(m) && Step(m).Cycled?
    ensures var a, m' := IssueScan(m), Step(m).m;
      && m'.stage1.ins == 0 && m'.stage2.ins == 0 && m'.stage3.ins == 0
      && m'.alu1 == a.s1 && m'.alu2 == a.s2 && m'.alu3 == a.s3
  {
    var a := IssueScan(m);
    var m1 := AfterIssue(m, a);
    FetchLoopFrame(m1, 0);
    var f := FetchStage(m1);
    assert Step(m) == BackEnd(f.m, a.ww, f.executed);
    BackEndFrame(f.m, a.ww, f.executed);
  }

  /** Once the pending bit of register 0 is set (an instruction with
      `rd = 0` issued), no cycle clears it: `rset` and write-back skip
      register 0. */
  lemma {:induction false} ZeroBitSticks(m: Machine)
    requires Shape(m) && 0 in m.willwrite && Step(m).Cycled?
    ensures 0 in Step(m).m.willwrite
  {
    var a := IssueScan(m);
    IssueScanGrows(m);
    var m1 := AfterIssue(m, a);
    FetchLoopFrame(m1, 0);
    var f := FetchStage(m1);
    assert Step(m) == BackEnd(f.m, a.ww, f.executed);
    BackEndFrame(f.m, a.ww, f.executed);
  }

  // ---------------------------------------------------------------------
  // A waiting branch.

  /** A cycle that begins with a waiting branch fetches nothing. The branch
      resolves exactly when neither of its sources is in `ww`: then it is
      the executed instruction, `branch` is cleared, and `pc` moves to the
      branch's own address plus twice `imm1` when the condition holds on
      the registers (equality, inequality, signed less-than) and stays
      otherwise. Until then `pc` and `branch` do not change. */
  lemma {:induction false} WaitingBranch(m: Machine)
    requires Shape(m) && m.branch != 0 && Step(m).Cycled?
    ensures var b, ww, m', ex := m.branch, IssueScan(m).ww, Step(m).m, Step(m).executed;
      && Entries(m'.queue) == IssueScan(m).kept
      && (Rs1(b) in ww || Rs2(b) in ww ==> m'.pc == m.pc && m'.branch == b && ex == 0)
      && (Rs1(b) !in ww && Rs2(b) !in ww ==>
           && m'.branch == 0 && ex == b
           && m'.pc == if Taken(b, m.regs) then Wrap(m.pc - 4 + 2 * Imm1(b)) else m.pc)
  {
    var a := IssueScan(m);
    var m1 := AfterIssue(m, a);
    PipelineProps.IssueScanKept(m);
    assert FetchStage(m1) == Fetched(m1, 0);
    assert Step(m) == BackEnd(m1, a.ww, 0);
    BackEndFrame(m1, a.ww, 0);
    EntriesOfPrefix(a.kept, 4 - |a.kept|);
  }

  /** A cycle that begins with no waiting branch and fetches one. The
      branch is the word just before the new `pc`, and it resolves in the
      same cycle exactly when neither of its sources is in that cycle's
      `ww`: then it is the executed instruction, `branch` is cleared, and
      `pc` moves to the branch's own address plus twice `imm1` when the
      condition holds and stays after the branch otherwise. Else it waits,
      with `pc` unchanged and nothing executed. */
  lemma {:induction false} FetchedBranch(m: Machine)
    requires Sized(m) && m.branch == 0 && Step(m).Cycled?
    ensures var a := IssueScan(m);
      BranchRule(m.mem, a.ww, FetchStage(AfterIssue(m, a)), Step(m))
  {
    var a := IssueScan(m);
    var m1 := AfterIssue(m, a);
    var f := FetchStage(m1);
    StepIsBackEnd(m);
    if f.m.branch != 0 {
      BackEndResolves(f.m, a.ww, f.executed, Step(m));
      BranchCycle(m1, a.ww, f, Step(m));
    }
  }

  /** The fetch half of `FetchedBranch`: the facts fetch gives about the
      branch, joined to what the back end did with it. */
  lemma {:induction false} BranchCycle(m: Machine, ww: set<int>, f: Fetch, c: Cycle)
    requires Sized(m) && m.branch == 0 && f == FetchStage(m) && f.Fetched? && f.m.branch != 0
    requires c.Cycled? && |f.m.regs| == 32 && Resolution(f.m, ww, f.executed, c)
    ensures BranchRule(m.mem, ww, f, c)
  {
    FetchedBranchWord(m);
  }

  /** What a cycle that fetched a branch `b` into `branch` does with it: `b`
      is the word just before the new `pc`; it resolves when neither source
      is in `ww`, becoming the executed word, clearing `branch` and moving
      `pc` to its own address plus twice `imm1` when taken; otherwise it
      waits, with `pc` where fetch left it and nothing executed. */
  predicate BranchRule(mem: seq<Word>, ww: set<int>, f: Fetch, c: Cycle)
  {
    f.Fetched? && c.Cycled? && |f.m.regs| == 32 && f.m.branch != 0 ==>
      var b, addr, m' := f.m.branch, Wrap(f.m.pc - 4), c.m;
      && InMem(mem, addr) && mem[Cell(addr)] == b && IsBranch(Opcode(b))
      && (Rs1(b) !in ww && Rs2(b) !in ww ==>
           && m'.branch == 0 && c.executed == b
           && m'.pc == if Taken(b, f.m.regs) then Wrap(addr + 2 * Imm1(b)) else f.m.pc)
      && (Rs1(b) in ww || Rs2(b) in ww ==> m'.branch == b && m'.pc == f.m.pc && c.executed == 0)
  }

  /** With no branch waiting, a branch that fetch leaves in `branch` is the
      word just before the new `pc`, and nothing was executed. */
  lemma {:induction false} FetchedBranchWord(m: Machine)
    requires Sized(m) && m.branch == 0 && FetchStage(m).Fetched? && FetchStage(m).m.branch != 0
    ensures var f := FetchStage(m);
      && InMem(m.mem, Wrap(f.m.pc - 4)) && m.mem[Cell(Wrap(f.m.pc - 4))] == f.m.branch
      && IsBranch(Opcode(f.m.branch)) && f.executed == 0
  {
    assert FetchStage(m) == FetchLoop(m, 0);
    FetchLoopBranch(m, 0);
  }

  /** A cycle is issue, then fetch, then the back end. */
  lemma {:induction false} StepIsBackEnd(m: Machine)
    requires Sized(m) && Step(m).Cycled?
    ensures var a := IssueScan(m);
      var f := FetchStage(AfterIssue(m, a));
      f.Fetched? && Step(m) == BackEnd(f.m, a.ww, f.executed)
  {
  }

  /** What branch resolution leaves in the cycle `c` for the waiting branch
      of `m`: resolved when neither source is in `ww`, waiting otherwise. */
  predicate Resolution(m: Machine, ww: set<int>, ex: Word, c: Cycle)
    requires |m.regs| == 32 && c.Cycled?
  {
    var b := m.branch;
    && (Rs1(b) !in ww && Rs2(b) !in ww ==>
         && c.m.branch == 0 && c.executed == b
         && c.m.pc == if Taken(b, m.regs) then Wrap(Wrap(m.pc - 4) + 2 * Imm1(b)) else m.pc)
    && (Rs1(b) in ww || Rs2(b) in ww ==> c.m.branch == b && c.m.pc == m.pc && c.executed == ex)
  }

  /** The back end on a waiting branch: it resolves exactly when neither
      source is in `ww`. */
  lemma {:induction false} BackEndResolves(m: Machine, ww: set<int>, ex: Word, c: Cycle)
    requires Sized(m) && m.branch != 0 && c == BackEnd(m, ww, ex) && c.Cycled?
    ensures Resolution(m, ww, ex, c)
  {
    BackEndFrame(m, ww, ex);
    ResolveEffect(m, ww, ex);
  }

  /** `Resolve` on its own, stated with the branch's own address `pc - 4`. */
  lemma {:induction false} ResolveEffect(m: Machine, ww: set<int>, ex: Word)
    requires |m.regs| == 32 && m.branch != 0
    ensures var (m1, ex1) := Resolve(m, ww, ex);
      Resolution(m, ww, ex, Cycled(m1, ex1))
  {
    WrapAdd(m.pc - 4, 2 * Imm1(m.branch));
  }

  /** The entries of a queue made of entries and then empty slots. */
  lemma {:induction false} EntriesOfPrefix(k: seq<Word>, n: nat)
    requires 0 !in k
    ensures Entries(k + BinText.Zeros(n)) == k
  {
    var q := k + BinText.Zeros(n);
    forall t | 0 <= t < |k|
      ensures q[t] != 0
    {
      assert q[t] == k[t] && k[t] in k;
    }
    FirstEmptyIs(q, 0, |k|);
  }

  // ---------------------------------------------------------------------
  // The pipeline computes what the single-cycle simulator of project1
  // computes: an instruction staged with the operands read at issue
  // produces the value `Interp.Exec` writes to `rd`, the load it reads
  // and the store it makes.

  /** ALU2 (add, sub, addi). */
  lemma {:induction false} Alu2AgreesWithInterp(m: Machine, regs: seq<Word>, pc: Word)
    requires |regs| == 32 && IsAlu2Op(Opcode(m.alu2.ins))
    requires m.alu2.x == Operand1(m.alu2.ins, regs) && m.alu2.y == Operand2(m.alu2.ins, regs)
    ensures var ins, st := m.alu2.ins, Interp.State(regs, pc, m.mem);
      && Interp.Defined(st, Interp.Decode(ins))
      && Alu2Stage(m).postAlu2.ins == ins
      && Interp.Exec(st, Interp.Decode(ins), pc) == Interp.SetReg(st, Rd(ins), Alu2Stage(m).postAlu2.val)
  {
    var ins := m.alu2.ins;
    var op, rd, rs1 := Opcode(ins), Rd(ins), Rs1(ins);
    CategorySubOpIsOpcode(ins);
    if op == OP_ADD {
      assert Interp.Decode(ins) == Interp.Add(rd, rs1, Rs2(ins));
    } else if op == OP_SUB {
      assert Interp.Decode(ins) == Interp.Sub(rd, rs1, Rs2(ins));
    } else {
      assert Interp.Decode(ins) == Interp.Addi(rd, rs1, Imm3(ins));
      WrapAdd(Imm3(ins), regs[rs1]);
    }
  }

  /** ALU3 (and, or, andi, ori, sll, sra). A shift ALU3 defines is one the
      single-cycle simulator defines; for `rd != 0` the two define exactly the
      same amounts. With `rd = 0` the single-cycle simulator shifts nothing,
      so every amount is defined there, while ALU3 still shifts. */
  lemma {:induction false} Alu3AgreesWithInterp(m: Machine, regs: seq<Word>, pc: Word)
    requires |regs| == 32 && IsAlu3Op(Opcode(m.alu3.ins))
    requires m.alu3.x == Operand1(m.alu3.ins, regs) && m.alu3.y == Operand2(m.alu3.ins, regs)
    ensures var ins, st := m.alu3.ins, Interp.State(regs, pc, m.mem);
      && (Alu3Defined(m) ==> Interp.Defined(st, Interp.Decode(ins)))
      && (Rd(ins) != 0 ==> (Interp.Defined(st, Interp.Decode(ins)) <==> Alu3Defined(m)))
      && (Rd(ins) == 0 ==> Interp.Defined(st, Interp.Decode(ins)) && Interp.Exec(st, Interp.Decode(ins), pc) == st)
      && (Alu3Defined(m) ==>
           && Alu3Stage(m).postAlu3.ins == ins
           && Interp.Exec(st, Interp.Decode(ins), pc) == Interp.SetReg(st, Rd(ins), Alu3Stage(m).postAlu3.val))
  {
    var op := Opcode(m.alu3.ins);
    CategorySubOpIsOpcode(m.alu3.ins);
    PipelineProps.QueuedNonzero(m.alu3.ins);
    if op == OP_SLL || op == OP_SRA {
      ShiftAgrees(m, regs, pc);
    } else {
      LogicAgrees(m, regs, pc);
    }
  }

  lemma {:induction false} LogicAgrees(m: Machine, regs: seq<Word>, pc: Word)
    requires |regs| == 32 && m.alu3.ins != 0
    requires var op := Opcode(m.alu3.ins); op == OP_AND || op == OP_OR || op == OP_ANDI || op == OP_ORI
    requires m.alu3.x == Operand1(m.alu3.ins, regs) && m.alu3.y == Operand2(m.alu3.ins, regs)
    ensures var ins, st := m.alu3.ins, Interp.State(regs, pc, m.mem);
      && Interp.Defined(st, Interp.Decode(ins)) && Alu3Defined(m)
      && Alu3Stage(m).postAlu3.ins == ins
      && Interp.Exec(st, Interp.Decode(ins), pc) == Interp.SetReg(st, Rd(ins), Alu3Stage(m).postAlu3.val)
  {
    var ins := m.alu3.ins;
    var op, rd, rs1 := Opcode(ins), Rd(ins), Rs1(ins);
    CategorySubOpIsOpcode(ins);
    if op == OP_AND || op == OP_OR {
      RegLogicAgrees(m, regs, pc);
    } else {
      ImmLogicAgrees(m, regs, pc);
    }
  }

  lemma {:induction false} RegLogicAgrees(m: Machine, regs: seq<Word>, pc: Word)
    requires |regs| == 32 && m.alu3.ins != 0
    requires Opcode(m.alu3.ins) == OP_AND || Opcode(m.alu3.ins) == OP_OR
    requires m.alu3.x == regs[Rs1(m.alu3.ins)] && m.alu3.y == regs[Rs2(m.alu3.ins)]
    ensures var ins, st := m.alu3.ins, Interp.State(regs, pc, m.mem);
      && Interp.Decode(ins) == (if Opcode(ins) == OP_AND then Interp.AndReg(Rd(ins), Rs1(ins), Rs2(ins))
                                else Interp.OrReg(Rd(ins), Rs1(ins), Rs2(ins)))
      && Interp.Exec(st, Interp.Decode(ins), pc) == Interp.SetReg(st, Rd(ins), Alu3Stage(m).postAlu3.val)
  {
    CategorySubOpIsOpcode(m.alu3.ins);
  }

  lemma {:induction false} ImmLogicAgrees(m: Machine, regs: seq<Word>, pc: Word)
    requires |regs| == 32 && m.alu3.ins != 0
    requires Opcode(m.alu3.ins) == OP_ANDI || Opcode(m.alu3.ins) == OP_ORI
    requires m.alu3.x == regs[Rs1(m.alu3.ins)] && m.alu3.y == Wrap(Imm3(m.alu3.ins))
    ensures var ins, st := m.alu3.ins, Interp.State(regs, pc, m.mem);
      && Interp.Decode(ins) == (if Opcode(ins) == OP_ANDI then Interp.Andi(Rd(ins), Rs1(ins), Imm3(ins))
                                else Interp.Ori(Rd(ins), Rs1(ins), Imm3(ins)))
      && Interp.Exec(st, Interp.Decode(ins), pc) == Interp.SetReg(st, Rd(ins), Alu3Stage(m).postAlu3.val)
  {
    CategorySubOpIsOpcode(m.alu3.ins);
  }

  lemma {:induction false} ShiftAgrees(m: Machine, regs: seq<Word>, pc: Word)
    requires |regs| == 32 && m.alu3.ins != 0
    requires Opcode(m.alu3.ins) == OP_SLL || Opcode(m.alu3.ins) == OP_SRA
    requires m.alu3.x == Operand1(m.alu3.ins, regs) && m.alu3.y == Operand2(m.alu3.ins, regs)
    ensures var ins, st := m.alu3.ins, Interp.State(regs, pc, m.mem);
      && (Alu3Defined(m) ==> Interp.Defined(st, Interp.Decode(ins)))
      && (Rd(ins) != 0 ==> (Interp.Defined(st, Interp.Decode(ins)) <==> Alu3Defined(m)))
      && (Rd(ins) == 0 ==> Interp.Defined(st, Interp.Decode(ins)) && Interp.Exec(st, Interp.Decode(ins), pc) == st)
      && (Alu3Defined(m) ==>
           && Alu3Stage(m).postAlu3.ins == ins
           && Interp.Exec(st, Interp.Decode(ins), pc) == Interp.SetReg(st, Rd(ins), Alu3Stage(m).postAlu3.val))
  {
    var ins := m.alu3.ins;
    var op, rd, rs1, imm := Opcode(ins), Rd(ins), Rs1(ins), Imm3(ins);
    CategorySubOpIsOpcode(ins);
    if imm < 0 {
      assert Wrap(imm) == imm + TWO32;
    }
    var d := Interp.Decode(ins);
    if op == OP_SLL {
      assert d == Interp.Sll(rd, rs1, imm);
    } else {
      assert d == Interp.Sra(rd, rs1, imm);
    }
  }

  /** MEM (lw, sw). An access MEM defines is one the single-cycle simulator
      defines; for sw, and for lw with `rd != 0`, both define exactly the
      addresses inside the buffer. `lw x0` makes no access in the
      single-cycle simulator, so it is defined there for every address,
      while MEM still reads. lw loads the word the single-cycle simulator
      loads, sw makes the store it makes and changes no register. */
  lemma {:induction false} MemAgreesWithInterp(m: Machine, regs: seq<Word>, pc: Word)
    requires |regs| == 32 && IsMemOp(Opcode(m.preMem.ins))
    requires m.preMem.x == Operand1(m.preMem.ins, regs)
    requires Opcode(m.preMem.ins) == OP_SW ==> m.preMem.y == Operand2(m.preMem.ins, regs)
    ensures var ins, st := m.preMem.ins, Interp.State(regs, pc, m.mem);
      && (MemDefined(m) ==> Interp.Defined(st, Interp.Decode(ins)))
      && (Opcode(ins) == OP_SW || Rd(ins) != 0 ==> (Interp.Defined(st, Interp.Decode(ins)) <==> MemDefined(m)))
      && (Opcode(ins) == OP_LW && Rd(ins) == 0 ==>
           Interp.Defined(st, Interp.Decode(ins)) && Interp.Exec(st, Interp.Decode(ins), pc) == st)
      && (MemDefined(m) && Opcode(ins) == OP_LW ==>
           && MemStage(m).postMem.ins == ins && MemStage(m).mem == m.mem
           && Interp.Exec(st, Interp.Decode(ins), pc) == Interp.SetReg(st, Rd(ins), MemStage(m).postMem.val))
      && (MemDefined(m) && Opcode(ins) == OP_SW ==>
           && Interp.Exec(st, Interp.Decode(ins), pc) == st.(mem := MemStage(m).mem))
  {
    var ins := m.preMem.ins;
    CategorySubOpIsOpcode(ins);
    PipelineProps.QueuedNonzero(ins);
  }
}
