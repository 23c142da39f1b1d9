/** The pipeline simulator's state as the C code holds it: the globals of
    project2/Vsim.c become the fields of `Simulator` (`pre_issue`, `regs`
    and `mem` are arrays), and each part of the cycle body of
    `program_simulate` is a method proved to perform the corresponding
    function of module `Pipeline` on `Abs()`. */
module PipelineSim {
  import opened Word32
  import opened Fields
  import opened Pipeline
  import PipelineProps
  import BinText
  import Loader2

  /** Fetch either goes on (with `fetch_executed`) or stops the program with `exit(155)`. */
  datatype FetchStatus = Go(executed: Word) | Bad(op: int)

  datatype StepStatus = Continue(executed: Word) | Abort(op: int)

  /** How `program_simulate` ends: at a break, at an invalid opcode, or
      not within the given number of cycles. */
  datatype Status = AtBreak | InvalidOpcode(op: int) | OutOfCycles

  /** The outcome of `Run` that a status, a cycle count and a final state report. */
  function Reported(status: Status, cycles: nat, m: Machine): Outcome
  {
    match status
    case AtBreak => Halted(m, cycles)
    case InvalidOpcode(op) => Exited(op, cycles)
    case OutOfCycles => Running(m)
  }

  class Simulator {
    const regs: array<Word>
    const queue: array<Word>
    const mem: array<Word>
    const memData: int
    const memEnd: int
    var pc: Word
    var willwrite: set<int>
    var branch: Word
    var stage1: Latch
    var stage2: Latch
    var stage3: Latch
    var alu1: Latch
    var alu2: Latch
    var alu3: Latch
    var preMem: Latch
    var postMem: Post
    var postAlu2: Post
    var postAlu3: Post

    predicate Valid()
      reads this
    {
      regs.Length == 32 && queue.Length == 4 && regs != queue && regs != mem && queue != mem
    }

    function Abs(): Machine
      reads this, regs, queue, mem
    {
      Machine(pc, regs[..], willwrite, mem[..], queue[..], branch,
              stage1, stage2, stage3, alu1, alu2, alu3, preMem, postMem, postAlu2, postAlu3)
    }

    /** The globals after `program_load`. */
    constructor (img: Loader2.Image)
      ensures Valid() && Abs() == Initial(img.mem)
      ensures memData == img.memData && memEnd == img.memEnd
    {
      regs := new Word[32](_ => 0);
      queue := new Word[4](_ => 0);
      mem := new Word[|img.mem|](k requires 0 <= k < |img.mem| => img.mem[k]);
      memData := img.memData;
      memEnd := img.memEnd;
      pc := 256;
      willwrite := {};
      branch := 0;
      stage1, stage2, stage3 := Free, Free, Free;
      alu1, alu2, alu3 := Free, Free, Free;
      preMem := Free;
      postMem, postAlu2, postAlu3 := FreePost, FreePost, FreePost;
      new;
      assert regs[..] == seq(32, _ => 0);
      assert queue[..] == seq(4, _ => 0);
    }

    /** `rset`. */
    method Rset(id: int, val: Word)
      requires Valid() && 0 <= id < 32
      modifies this`willwrite, regs
      ensures Abs() == Pipeline.Rset(old(Abs()), id, val)
    {
      if id != 0 {
        regs[id] := val;
        willwrite := willwrite - {id};
      }
    }

    // -------------------------------------------------------------------
    // Issue.

    /** The `switch` of the issue loop for the entry `ins`: either it
        leaves for a staging latch, or it stays (`held`) and its registers
        are recorded in the accumulators. */
    method IssueEntry(ins: Word, busy2: bool, busy3: bool, ww: set<int>, wr: set<int>, hasStore: bool,
                      ghost kept: seq<Word>)
      returns (held: bool, ww': set<int>, wr': set<int>, hasStore': bool)
      requires Valid()
      modifies this`willwrite, this`stage1, this`stage2, this`stage3
      ensures Scan(if held then kept + [ins] else kept, willwrite, ww', wr', hasStore', stage1, stage2, stage3)
           == IssueOne(Scan(kept, old(willwrite), ww, wr, hasStore, old(stage1), old(stage2), old(stage3)),
                       ins, regs[..], busy2, busy3)
    {
      var op, rd, rs1, rs2 := Opcode(ins), Rd(ins), Rs1(ins), Rs2(ins);
      held, ww', wr', hasStore' := false, ww, wr, hasStore;
      if op == OP_SW {
        if stage1.ins != 0 || rs1 in ww + wr || rs2 in ww || hasStore {
          held, hasStore', wr' := true, true, wr + {rs1, rs2};
          return;
        }
        stage1 := Latch(ins, Wrap(regs[rs2] + Imm1(ins)), regs[rs1]);
      } else if op == OP_ADD || op == OP_SUB {
        if stage2.ins != 0 || busy2 || rd in ww + wr || rs1 in ww || rs2 in ww {
          held, ww', wr' := true, ww + {rd}, wr + {rs1, rs2};
          return;
        }
        stage2 := Latch(ins, regs[rs1], regs[rs2]);
        willwrite := willwrite + {rd};
      } else if op == OP_AND || op == OP_OR {
        if stage3.ins != 0 || busy3 || rd in ww + wr || rs1 in ww || rs2 in ww {
          held, ww', wr' := true, ww + {rd}, wr + {rs1, rs2};
          return;
        }
        stage3 := Latch(ins, regs[rs1], regs[rs2]);
        willwrite := willwrite + {rd};
      } else if op == OP_ADDI {
        if stage2.ins != 0 || busy2 || rd in ww + wr || rs1 in ww {
          held, ww', wr' := true, ww + {rd}, wr + {rs1};
          return;
        }
        stage2 := Latch(ins, regs[rs1], Wrap(Imm3(ins)));
        willwrite := willwrite + {rd};
      } else if op == OP_ANDI || op == OP_ORI || op == OP_SLL || op == OP_SRA {
        if stage3.ins != 0 || busy3 || rd in ww + wr || rs1 in ww {
          held, ww', wr' := true, ww + {rd}, wr + {rs1};
          return;
        }
        stage3 := Latch(ins, regs[rs1], Wrap(Imm3(ins)));
        willwrite := willwrite + {rd};
      } else if op == OP_LW {
        if stage1.ins != 0 || rd in ww + wr || rs1 in ww || hasStore {
          held, ww', wr' := true, ww + {rd}, wr + {rs1};
          return;
        }
        stage1 := stage1.(ins := ins, x := Wrap(regs[rs1] + Imm3(ins)));
        willwrite := willwrite + {rd};
      }
      ww' := ww' + willwrite;
    }

    /** Removing entry `i`: entries `i+1..3` move one slot left and slot 3 empties. */
    method RemoveAt(i: int)
      requires Valid() && 0 <= i < 4
      modifies queue
      ensures queue[..] == old(queue[..i]) + old(queue[i + 1..]) + [0]
    {
      ghost var q := queue[..];
      for j := i to 3
        invariant forall t :: 0 <= t < i ==> queue[t] == q[t]
        invariant forall t :: i <= t < j ==> queue[t] == q[t + 1]
        invariant forall t :: j <= t < 4 ==> queue[t] == q[t]
      {
        queue[j] := queue[j + 1];
      }
      queue[3] := 0;
      assert queue[..] == q[..i] + q[i + 1..] + [0];
    }

    /** The issue loop's locals `ww`, `wr`, the store flag, and the globals
        it changes are those of the scan `a`. */
    predicate InScan(a: Scan, ww: set<int>, wr: set<int>, hasStore: bool)
      reads this
    {
      a.willwrite == willwrite && a.ww == ww && a.wr == wr && a.hasStore == hasStore
      && a.s1 == stage1 && a.s2 == stage2 && a.s3 == stage3
    }

    /** The invariant of the issue loop: `k` of the entries `p` have been
        examined, `a` is the scan after them, and the queue holds the kept
        entries, then the unexamined ones, then empty slots. */
    predicate IssueInv(a0: Scan, p: seq<Word>, k: nat, a: Scan, busy2: bool, busy3: bool,
                       i: int, ww: set<int>, wr: set<int>, hasStore: bool)
      reads this, regs, queue
      requires Valid()
    {
      && k <= |p|
      && a == IssueUpTo(a0, p, k, regs[..], busy2, busy3)
      && PipelineProps.Scanning(p, k, a.kept, i, queue[..])
      && InScan(a, ww, wr, hasStore)
    }

    /** One iteration of the issue loop, on the entry in slot `i`. */
    method IssueNext(ghost a0: Scan, ghost p: seq<Word>, ghost k: nat, ghost a: Scan,
                     busy2: bool, busy3: bool, i: int, ww: set<int>, wr: set<int>, hasStore: bool)
      returns (i': int, ww': set<int>, wr': set<int>, hasStore': bool, ghost a': Scan)
      requires Valid() && 0 <= i < 4 && queue[i] != 0
      requires IssueInv(a0, p, k, a, busy2, busy3, i, ww, wr, hasStore)
      modifies this`willwrite, this`stage1, this`stage2, this`stage3, queue
      ensures IssueInv(a0, p, k + 1, a', busy2, busy3, i', ww', wr', hasStore')
    {
      PipelineProps.ScanningNext(p, k, a.kept, i, queue[..]);
      PipelineProps.IssueUpToNext(a0, p, k, regs[..], busy2, busy3);
      var held;
      held, ww', wr', hasStore' := IssueEntry(queue[i], busy2, busy3, ww, wr, hasStore, a.kept);
      a' := IssueOne(a, p[k], regs[..], busy2, busy3);
      i' := i;
      if held {
        PipelineProps.HoldNext(p, k, a.kept, i, queue[..]);
        i' := i + 1;
      } else {
        ghost var q := queue[..];
        RemoveAt(i);
        PipelineProps.LeaveNext(p, k, a.kept, i, q, queue[..]);
      }
    }

    /** The issue loop: every entry of `p`, in order, until the first empty
        slot; an entry that leaves is removed and the slot it vacated is
        examined again. `ww` starts as `willwrite` and `wr` as 0. */
    method IssueLoop(ghost a0: Scan, ghost p: seq<Word>, busy2: bool, busy3: bool) returns (ww: set<int>, ghost a: Scan)
      requires Valid() && PipelineProps.Scanning(p, 0, [], 0, queue[..])
      requires a0 == Scan([], willwrite, willwrite, {}, false, stage1, stage2, stage3)
      modifies this`willwrite, this`stage1, this`stage2, this`stage3, queue
      ensures a == IssueUpTo(a0, p, |p|, regs[..], busy2, busy3)
      ensures |a.kept| <= 4 && queue[..] == a.kept + BinText.Zeros(4 - |a.kept|)
      ensures InScan(a, ww, a.wr, a.hasStore)
    {
      a := a0;
      ww := willwrite;
      var wr: set<int> := {};
      var hasStore := false;
      var i := 0;
      ghost var k: nat := 0;
      while i < 4 && queue[i] != 0
        invariant IssueInv(a0, p, k, a, busy2, busy3, i, ww, wr, hasStore)
        decreases |p| - k
      {
        i, ww, wr, hasStore, a := IssueNext(a0, p, k, a, busy2, busy3, i, ww, wr, hasStore);
        k := k + 1;
      }
      PipelineProps.ScanningDone(p, k, a.kept, i, queue[..]);
    }

    /** The issue part of the cycle. */
    method Issue() returns (ww: set<int>)
      requires Valid() && Shape(Abs())
      modifies this`willwrite, this`stage1, this`stage2, this`stage3, queue
      ensures Valid()
      ensures Abs() == AfterIssue(old(Abs()), IssueScan(old(Abs())))
      ensures ww == IssueScan(old(Abs())).ww
    {
      ghost var m0 := Abs();
      PipelineProps.EntriesForm(m0.queue);
      assert PipelineProps.Scanning(Entries(m0.queue), 0, [], 0, queue[..]);
      var busy2, busy3 := alu2.ins != 0, alu3.ins != 0;
      ghost var a;
      ww, a := IssueLoop(ScanStart(m0), Entries(m0.queue), busy2, busy3);
    }

    // -------------------------------------------------------------------
    // Fetch.

    /** The `while (pre_issue[slot])` scan for the first empty slot. */
    method FreeSlot() returns (slot: int)
      requires Valid()
      ensures slot == FirstEmpty(queue[..])
    {
      slot := 0;
      while slot < 4 && queue[slot] != 0
        invariant 0 <= slot <= 4 && FirstEmptyFrom(queue[..], slot) == FirstEmpty(queue[..])
        decreases 4 - slot
      {
        slot := slot + 1;
      }
    }

    /** One round of the fetch loop. */
    method FetchRound() returns (more: bool, r: FetchStatus)
      requires Valid() && Sized(Abs()) && FetchOne(Abs()) != Stop(Unmapped)
      modifies this`pc, this`willwrite, this`branch, regs, queue
      ensures Valid()
      ensures more ==> FetchOne(old(Abs())) == More(Abs())
      ensures !more ==> FetchOne(old(Abs())).Stop? && var f := FetchOne(old(Abs())).f;
        (f.Fetched? ==> Abs() == f.m && r == Go(f.executed)) && (f.BadOpcode? ==> r == Bad(f.op))
    {
      ghost var m0 := Abs();
      var slot := FreeSlot();
      if slot == 4 {
        return false, Go(0);
      }
      var ins := mem[(pc - 256) / 4];
      pc := Wrap(pc + 4);
      ghost var m1 := Abs();
      assert m1 == m0.(pc := pc) && ins == m0.mem[Cell(m0.pc)];
      var op := Opcode(ins);
      if IsBranch(op) {
        branch := ins;
        assert FetchOne(m0) == Stop(Fetched(m1.(branch := ins), 0));
        return false, Go(0);
      } else if IsQueued(op) {
        queue[slot] := ins;
        assert queue[..] == m0.queue[slot := ins];
        assert FetchOne(m0) == More(m1.(queue := m0.queue[slot := ins]));
        return true, Go(0);
      } else if op == OP_JAL {
        Rset(Rd(ins), pc);
        ghost var m2 := Abs();
        pc := Wrap(pc - 4 + 2 * Imm4(ins));
        assert FetchOne(m0) == Stop(Fetched(m2.(pc := pc), ins));
        return false, Go(ins);
      } else if op == OP_BREAK {
        assert FetchOne(m0) == Stop(Fetched(m1, ins));
        return false, Go(ins);
      } else {
        assert FetchOne(m0) == Stop(BadOpcode(op));
        return false, Bad(op);
      }
    }

    /** Up to two fetch rounds, skipped while a branch waits. */
    method Fetch() returns (r: FetchStatus)
      requires Valid() && Sized(Abs()) && !FetchStage(Abs()).Unmapped?
      modifies this`pc, this`willwrite, this`branch, regs, queue
      ensures Valid()
      ensures FetchStage(old(Abs())).Fetched? ==>
        Abs() == FetchStage(old(Abs())).m && r == Go(FetchStage(old(Abs())).executed)
      ensures FetchStage(old(Abs())).BadOpcode? ==> r == Bad(FetchStage(old(Abs())).op)
    {
      if branch != 0 {
        return Go(0);
      }
      var i := 0;
      while i < 2
        invariant 0 <= i <= 2 && Valid() && Sized(Abs())
        invariant FetchLoop(Abs(), i) == FetchLoop(old(Abs()), 0)
        decreases 2 - i
      {
        var more;
        more, r := FetchRound();
        if !more {
          return;
        }
        i := i + 1;
      }
      return Go(0);
    }

    // -------------------------------------------------------------------
    // The back end.

    /** Resolution of a waiting branch whose sources are not in `ww`. */
    method ResolveBranch(ww: set<int>, executed: Word) returns (ex: Word)
      requires Valid()
      modifies this`pc, this`branch
      ensures (Abs(), ex) == Resolve(old(Abs()), ww, executed)
    {
      ex := executed;
      if branch != 0 && !(Rs1(branch) in ww || Rs2(branch) in ww) {
        var op, x, y := Opcode(branch), regs[Rs1(branch)], regs[Rs2(branch)];
        if op == OP_BEQ {
          if x == y {
            pc := Wrap(pc - 4 + 2 * Imm1(branch));
          }
        } else if op == OP_BNE {
          if x != y {
            pc := Wrap(pc - 4 + 2 * Imm1(branch));
          }
        } else if op == OP_BLT {
          if Signed(x) < Signed(y) {
            pc := Wrap(pc - 4 + 2 * Imm1(branch));
          }
        }
        ex := branch;
        branch := 0;
      }
    }

    /** WB. */
    method WriteBackStage()
      requires Valid()
      modifies this`willwrite, this`postMem, this`postAlu2, this`postAlu3, regs
      ensures Abs() == WriteBack(old(Abs()))
    {
      if postMem.ins != 0 {
        Rset(Rd(postMem.ins), postMem.val);
        postMem := postMem.(ins := 0);
      }
      if postAlu2.ins != 0 {
        Rset(Rd(postAlu2.ins), postAlu2.val);
        postAlu2 := postAlu2.(ins := 0);
      }
      if postAlu3.ins != 0 {
        Rset(Rd(postAlu3.ins), postAlu3.val);
        postAlu3 := postAlu3.(ins := 0);
      }
    }

    /** MEM. */
    method Memory()
      requires Valid() && MemDefined(Abs())
      modifies this`postMem, this`preMem, mem
      ensures Abs() == MemStage(old(Abs()))
    {
      if preMem.ins != 0 {
        var op := Opcode(preMem.ins);
        if op == OP_LW {
          postMem := Post(preMem.ins, mem[(preMem.x - 256) / 4]);
        } else if op == OP_SW {
          mem[(preMem.x - 256) / 4] := preMem.y;
        }
        preMem := preMem.(ins := 0);
      }
    }

    /** ALU3. */
    method Alu3()
      requires Valid() && Alu3Defined(Abs())
      modifies this`postAlu3
      ensures Abs() == Alu3Stage(old(Abs()))
    {
      if alu3.ins != 0 {
        var op := Opcode(alu3.ins);
        var v := postAlu3.val;
        if op == OP_AND || op == OP_ANDI {
          v := And(alu3.x, alu3.y);
        } else if op == OP_OR || op == OP_ORI {
          v := Or(alu3.x, alu3.y);
        } else if op == OP_SLL {
          v := ShiftLeft(alu3.x, alu3.y);
        } else if op == OP_SRA {
          v := ShiftRightArith(alu3.x, alu3.y);
        }
        postAlu3 := Post(alu3.ins, v);
      }
    }

    /** ALU2. */
    method Alu2()
      requires Valid()
      modifies this`postAlu2
      ensures Abs() == Alu2Stage(old(Abs()))
    {
      if alu2.ins != 0 {
        var op := Opcode(alu2.ins);
        var v := postAlu2.val;
        if op == OP_ADD || op == OP_ADDI {
          v := Wrap(alu2.x as int + alu2.y);
        } else if op == OP_SUB {
          v := Wrap(alu2.x as int - alu2.y);
        }
        postAlu2 := Post(alu2.ins, v);
      }
    }

    /** ALU1. */
    method Alu1()
      requires Valid()
      modifies this`preMem
      ensures Abs() == Alu1Stage(old(Abs()))
    {
      if alu1.ins != 0 {
        preMem := alu1;
      }
    }

    /** The staging latches move into the pre latches. */
    method RotateLatches()
      requires Valid()
      modifies this`alu1, this`alu2, this`alu3, this`stage1, this`stage2, this`stage3
      ensures Abs() == Rotate(old(Abs()))
    {
      alu1, stage1 := stage1, stage1.(ins := 0);
      alu2, stage2 := stage2, stage2.(ins := 0);
      alu3, stage3 := stage3, stage3.(ins := 0);
    }

    // -------------------------------------------------------------------
    // The cycle.

    /** One pass of the `goto cycle` loop, without the trace output. */
    method Cycle() returns (r: StepStatus)
      requires Valid() && Shape(Abs()) && !Step(Abs()).Undefined?
      modifies this, regs, queue, mem
      ensures Valid()
      ensures Step(old(Abs())).Cycled? ==> Abs() == Step(old(Abs())).m && r == Continue(Step(old(Abs())).executed)
      ensures Step(old(Abs())).Aborted? ==> r == Abort(Step(old(Abs())).op)
    {
      ghost var m0 := Abs();
      var ww := Issue();
      var f := Fetch();
      if f.Bad? {
        return Abort(f.op);
      }
      var ex := ResolveBranch(ww, f.executed);
      WriteBackStage();
      Memory();
      Alu3();
      Alu2();
      Alu1();
      RotateLatches();
      r := Continue(ex);
    }

    /** One pass of the loop of `program_simulate`, seen from the run it
        belongs to: `n` cycles remain, `c` are done, and `o` is the outcome. */
    method SimStep(ghost g: Machine, ghost n: nat, ghost c: nat, ghost o: Outcome) returns (stop: bool, status: Status, ghost g': Machine)
      requires Valid() && g == Abs() && Shape(g) && n > 0 && RunOutcome(g, n, c) == o && !o.Undef?
      modifies this, regs, queue, mem
      ensures Valid() && g' == Abs()
      ensures !stop ==> Shape(g') && RunOutcome(g', n - 1, c + 1) == o
      ensures stop ==> !o.Running?
      ensures stop && o.Halted? ==> status == AtBreak && g' == o.m && o.cycles == c + 1
      ensures stop && o.Exited? ==> status == InvalidOpcode(o.op) && o.cycles == c + 1
    {
      PipelineProps.StepShape(g);
      PipelineProps.RunStep(g, n, c);
      var r := Cycle();
      g' := Abs();
      if r.Abort? {
        return true, InvalidOpcode(r.op), g';
      }
      if Halts(r.executed) {
        return true, AtBreak, g';
      }
      return false, OutOfCycles, g';
    }

    /** `program_simulate` for at most `fuel` cycles; `cycles` is `cycle_num`. */
    method Simulate(fuel: nat) returns (status: Status, cycles: nat)
      requires Valid() && Shape(Abs()) && !RunOutcome(Abs(), fuel, 0).Undef?
      modifies this, regs, queue, mem
      ensures Valid()
      ensures RunOutcome(old(Abs()), fuel, 0) == Reported(status, cycles, Abs())
      ensures status == OutOfCycles ==> cycles == fuel
    {
      ghost var g := Abs();
      ghost var o := RunOutcome(g, fuel, 0);
      var n := 0;
      while n < fuel
        invariant Valid() && g == Abs() && Shape(g) && 0 <= n <= fuel
        invariant RunOutcome(g, fuel - n, n) == o
      {
        var stop;
        stop, status, g := SimStep(g, fuel - n, n, o);
        n := n + 1;
        if stop {
          return status, n;
        }
      }
      return OutOfCycles, n;
    }
  }
}
