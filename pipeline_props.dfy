/** Properties of the pipeline cycle of project2/Vsim.c, stated on the
    functions of module `Pipeline`. */
module PipelineProps {
  import opened Word32
  import opened Fields
  import opened Pipeline
  import opened BinText

  // ---------------------------------------------------------------------
  // The queue.

  /** `FirstEmptyFrom` finds the first empty slot at or after `j`. */
  lemma {:induction false} FirstEmptyFromIs(q: seq<Word>, j: nat)
    requires j <= |q|
    ensures forall t :: j <= t < FirstEmptyFrom(q, j) ==> q[t] != 0
    ensures FirstEmptyFrom(q, j) < |q| ==> q[FirstEmptyFrom(q, j)] == 0
    decreases |q| - j
  {
    if j < |q| && q[j] != 0 {
      FirstEmptyFromIs(q, j + 1);
    }
  }

  /** No entry is the empty word. */
  lemma {:induction false} EntriesNonzero(q: seq<Word>)
    ensures forall j :: 0 <= j < |Entries(q)| ==> Entries(q)[j] != 0
    ensures 0 !in Entries(q)
  {
    FirstEmptyFromIs(q, 0);
  }

  /** A queue in prefix form is its entries followed by empty slots. */
  lemma {:induction false} EntriesForm(q: seq<Word>)
    requires QueueForm(q)
    ensures q == Entries(q) + Zeros(|q| - |Entries(q)|)
    ensures forall j :: 0 <= j < |Entries(q)| ==> Entries(q)[j] != 0
    ensures 0 !in Entries(q)
  {
    EntriesNonzero(q);
    FirstEmptyFromIs(q, 0);
    var n := FirstEmpty(q);
    forall t | n <= t < |q|
      ensures q[t] == 0
    {
      if t > n {
        assert q[n] == 0;
      }
    }
    assert q == q[..n] + Zeros(|q| - n);
  }

  /** Entries followed by empty slots are in prefix form. */
  lemma {:induction false} PrefixForm(k: seq<Word>, n: nat)
    requires 0 !in k
    ensures QueueForm(k + Zeros(n))
  {
    forall j | 0 <= j < |k|
      ensures k[j] != 0
    {
      assert k[j] in k;
    }
  }

  // ---------------------------------------------------------------------
  // The issue loop: the array holds the entries kept so far, then the
  // entries not yet examined, then empty slots.

  predicate Scanning(p: seq<Word>, k: nat, kept: seq<Word>, i: int, q: seq<Word>)
  {
    && k <= |p| <= 4 && |kept| <= k
    && (forall j :: 0 <= j < |p| ==> p[j] != 0)
    && i == |kept| && q == kept + p[k..] + Zeros(4 - |kept| - (|p| - k))
  }

  /** Each examined entry either stays or leaves: the kept entries grow by at most that entry. */
  lemma {:induction false} IssueOneKept(a: Scan, ins: Word, regs: seq<Word>, busy2: bool, busy3: bool)
    requires |regs| == 32
    ensures var a' := IssueOne(a, ins, regs, busy2, busy3);
      a'.kept == a.kept || a'.kept == a.kept + [ins]
  {
  }

  /** The slot the loop examines holds the next entry. */
  lemma {:induction false} ScanningNext(p: seq<Word>, k: nat, kept: seq<Word>, i: int, q: seq<Word>)
    requires Scanning(p, k, kept, i, q) && 0 <= i < 4 && q[i] != 0
    ensures k < |p| && q[i] == p[k]
  {
    assert q[i..] == p[k..] + Zeros(4 - |kept| - (|p| - k));
  }

  /** An entry that stays: the loop moves to the next slot. */
  lemma {:induction false} HoldNext(p: seq<Word>, k: nat, kept: seq<Word>, i: int, q: seq<Word>)
    requires Scanning(p, k, kept, i, q) && k < |p|
    ensures Scanning(p, k + 1, kept + [p[k]], i + 1, q)
  {
    assert p[k..] == [p[k]] + p[k + 1..];
    assert kept + p[k..] == kept + [p[k]] + p[k + 1..];
  }

  /** An entry that leaves: the slots behind it move left and the same slot is examined again. */
  lemma {:induction false} LeaveNext(p: seq<Word>, k: nat, kept: seq<Word>, i: int, q: seq<Word>, q': seq<Word>)
    requires Scanning(p, k, kept, i, q) && k < |p|
    requires 0 <= i < |q| && q' == q[..i] + q[i + 1..] + [0]
    ensures Scanning(p, k + 1, kept, i, q')
  {
    var z := 4 - |kept| - (|p| - k);
    assert q[..i] == kept;
    assert q[i + 1..] == p[k + 1..] + Zeros(z);
    assert Zeros(z) + [0] == Zeros(z + 1);
  }

  /** The loop stops after the last entry, with the kept entries compacted at the front. */
  lemma {:induction false} ScanningDone(p: seq<Word>, k: nat, kept: seq<Word>, i: int, q: seq<Word>)
    requires Scanning(p, k, kept, i, q) && !(i < 4 && q[i] != 0)
    ensures k == |p| && |kept| <= 4 && q == kept + Zeros(4 - |kept|)
  {
    assert q[i..] == p[k..] + Zeros(4 - |kept| - (|p| - k));
    assert p[|p|..] == [];
  }

  /** One more step of the scan. */
  lemma {:induction false} IssueUpToNext(a0: Scan, p: seq<Word>, k: nat, regs: seq<Word>, busy2: bool, busy3: bool)
    requires k < |p| && |regs| == 32
    ensures IssueUpTo(a0, p, k + 1, regs, busy2, busy3)
         == IssueOne(IssueUpTo(a0, p, k, regs, busy2, busy3), p[k], regs, busy2, busy3)
  {
  }

  // ---------------------------------------------------------------------
  // The queue keeps its prefix form.

  /** The kept entries are entries of the queue, so none of them is 0. */
  lemma {:induction false} KeptNonzero(a0: Scan, p: seq<Word>, k: nat, regs: seq<Word>, busy2: bool, busy3: bool)
    requires k <= |p| && |regs| == 32 && 0 !in p && 0 !in a0.kept
    ensures 0 !in IssueUpTo(a0, p, k, regs, busy2, busy3).kept
  {
    if k > 0 {
      KeptNonzero(a0, p, k - 1, regs, busy2, busy3);
      IssueOneKept(IssueUpTo(a0, p, k - 1, regs, busy2, busy3), p[k - 1], regs, busy2, busy3);
    }
  }

  /** The scan of a cycle keeps only entries of the queue. */
  lemma {:induction false} IssueScanKept(m: Machine)
    requires Shape(m)
    ensures 0 !in IssueScan(m).kept
  {
    EntriesForm(m.queue);
    KeptNonzero(ScanStart(m), Entries(m.queue), |Entries(m.queue)|, m.regs, m.alu2.ins != 0, m.alu3.ins != 0);
  }

  /** A queued opcode is never the empty word. */
  lemma {:induction false} QueuedNonzero(ins: Word)
    requires IsQueued(Opcode(ins))
    ensures ins != 0
  {
  }

  /** A fetch round appends at the first empty slot, which keeps the prefix form. */
  lemma {:induction false} FetchOneForm(m: Machine)
    requires Sized(m) && QueueForm(m.queue)
    ensures FetchOne(m).More? ==> QueueForm(FetchOne(m).m.queue)
    ensures FetchOne(m).Stop? && FetchOne(m).f.Fetched? ==> FetchOne(m).f.m.queue == m.queue
  {
    var slot := FirstEmpty(m.queue);
    if slot < 4 && InMem(m.mem, m.pc) {
      var ins := m.mem[Cell(m.pc)];
      if IsQueued(Opcode(ins)) && !IsBranch(Opcode(ins)) {
        FirstEmptyFromIs(m.queue, 0);
        QueuedNonzero(ins);
        var q := m.queue[slot := ins];
        forall j, t | 0 <= j < t < |q| && q[j] == 0
          ensures q[t] == 0
        {
          assert j > slot;
        }
      }
    }
  }

  lemma {:induction false} FetchLoopForm(m: Machine, i: nat)
    requires Sized(m) && QueueForm(m.queue)
    ensures FetchLoop(m, i).Fetched? ==> QueueForm(FetchLoop(m, i).m.queue)
    decreases 2 - i
  {
    if i < 2 {
      FetchOneForm(m);
      if FetchOne(m).More? {
        FetchLoopForm(FetchOne(m).m, i + 1);
      }
    }
  }

  /** How `Run` takes one cycle. */
  lemma {:induction false} RunStep(m: Machine, fuel: nat, done: nat)
    requires Sized(m) && fuel > 0 && !Run(m, fuel, done).Undef?
    ensures !Step(m).Undefined?
    ensures Step(m).Cycled? && Halts(Step(m).executed) ==> Run(m, fuel, done) == Halted(Step(m).m, done + 1)
    ensures Step(m).Cycled? && !Halts(Step(m).executed) ==> Run(m, fuel, done) == Run(Step(m).m, fuel - 1, done + 1)
    ensures Step(m).Aborted? ==> Run(m, fuel, done) == Exited(Step(m).op, done + 1)
  {
  }

  /** Every cycle keeps the queue in prefix form. */
  lemma {:induction false} StepShape(m: Machine)
    requires Shape(m)
    ensures Step(m).Cycled? ==> Shape(Step(m).m)
  {
    var a := IssueScan(m);
    IssueScanKept(m);
    var m1 := AfterIssue(m, a);
    PrefixForm(a.kept, 4 - |a.kept|);
    if m1.branch == 0 {
      FetchLoopForm(m1, 0);
    }
  }
}
