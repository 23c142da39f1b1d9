# Two simulators for a 16-instruction load/store ISA, modelled in Dafny

The repository holds two C simulators for the same 32-bit instruction set
(beq, bne, blt, sw, add, sub, and, or, addi, andi, ori, sll, sra, lw, jal,
break). Both load a program written as text of '0'/'1' characters into a word
array based at byte address 256.

- `project1/Vsim.c` is a single-cycle interpreter. `init_program_from_fd`
  assembles the words and finds the first `break` (the word 127).
  `process_instruction` decodes by category (`ins & 3`) and sub-operation
  (`ins >> 2 & 31`) and executes on `struct program`. `simulate_to` runs
  fetch, `pc += 4`, execute until `pc` is 0. `write_bin32` renders a word as
  32 characters, most significant bit first.
- `project2/Vsim.c` is a cycle-accurate pipeline. `program_load` assembles
  the words into a buffer of `st_size >> 5` words. `program_simulate` runs one
  clock cycle per pass of a `goto cycle` loop, in this order:
  - issue from a 4-entry pre-issue queue into staging latches, with hazard
    tracking through the `willwrite` bitmask and the per-cycle `ww`/`wr`
    accumulators;
  - fetch of up to two words, with branches waiting in `branch`;
  - branch resolution;
  - write-back, MEM, ALU3, ALU2, ALU1;
  - rotation of the staging latches into the pre latches.

  The loop ends when a `break` is the instruction executed that cycle.

## How the model is organised

- `word32.dfy` (module `Word32`): 32-bit words.
  - `Word` is the bit pattern as an integer in `[0, 2^32)`.
  - `Wrap` is reduction modulo 2^32. C's wrapping `+`, `-` and `<<` are
    modelled with it.
  - `Signed` is the `int32_t` view.
  - `&` and `|` go through `bv32`.
  - `<<` and arithmetic `>>` take a shift amount in 0..31.
- `fields.dfy` (module `Fields`): the opcode table, the field macros of
  project2 (lines 39-46), the category/sub-operation decoding of project1, and
  the memory addressing (`mem32`/`MEM32`).
- `bintext.dfy` (module `BinText`):
  - the bit-text rule shared by both loaders: '0' gives `w << 1`, '1' gives
    `w << 1 | 1`, and every other character is skipped;
  - `write_bin32` as a method proved against `Bin32`;
  - the round trip from `Bin32` back to the word.
- `loader1.dfy` and `loader2.dfy`: the two loaders.
  - Each is an imperative loop over the characters (`InitProgram`,
    `ProgramLoad`) proved equal to a function on values (`Load`).
  - Each `Load` is characterised by lemmas.
- `interp.dfy` (module `Interp`): project1's interpreter.
  - `Decode` maps a word to an `Instr`, and `Exec` gives the effect of an
    instruction.
  - `Next` is one pass of the `simulate_to` loop, and `Run` is at most
    `fuel` passes.
  - The class `Program` holds `struct program`, with `regs` and `mem` as
    arrays. Its methods `ProcessInstruction`, `Step` and `SimulateTo` are
    proved to perform `Exec`, `Next` and `Run`.
- `pipeline_spec.dfy` (module `Pipeline`): project2's cycle as functions on a
  value `Machine`. It holds every global of `program_simulate`; a latch is
  empty when its instruction word is 0, as in the C code.
  - `IssueScan` is the issue loop, `FetchStage` the fetch loop, and `BackEnd`
    the rest of the cycle.
  - `Step` is one cycle, and `Run` is at most `fuel` cycles.
- `pipeline.dfy` (module `PipelineSim`): the class `Simulator`.
  - Its fields are the globals. `pre_issue`, `regs` and `mem` are arrays.
  - Each part of the cycle body is a method proved to perform the
    corresponding function on `Abs()`.
  - `Simulate` runs the `goto cycle` loop.
- `pipeline_props.dfy` (module `PipelineProps`): invariants of the cycle. The
  pre-issue queue stays in prefix form (entries, then empty slots), which the
  issue loop depends on.
- `pipeline_rules.dfy` (module `PipelineRules`): the rules of the pipeline,
  stated without reference to how the functions compute them:
  - `rset`;
  - the hazard and structural rules of issue;
  - the order of the surviving queue entries;
  - the fetch rules;
  - branch resolution;
  - write-back;
  - the staging latches.

  It also proves that each execution unit computes what project1's `Exec`
  computes for the same instruction and operands. The one difference is
  `lw`, `sll` and `sra` with `rd = 0`, which project1 skips.

### Where the code does more than its description

The model follows the C code in each of these points:

- **A pending bit on x0 is never cleared.** Issuing an instruction with
  `rd = 0` sets bit 0 of `willwrite`, and `rset(0, …)` never clears it. From
  then on, every entry that reads or writes x0 is held back for good
  (`PendingZeroBlocks`, `ZeroBitSticks`).
- **The word 0 stops fetch.** A queue slot holding the word 0 counts as
  empty. The word 0 is the encoding of `beq x0, x0, 0`, which fetch puts in
  `branch`. Since `branch` is then 0, this is indistinguishable from having no
  waiting branch.
- **jal clears a pending bit.** jal's `rset` at fetch clears the pending bit
  of its `rd`, even when an instruction still in flight will write that
  register.
- **A branch can resolve in the cycle it is fetched.** Resolution uses the
  `ww` left by that cycle's issue scan (`FetchedBranch`).
- **The branch target comes from the advanced `pc`.** The target is computed
  as `pc - 4 + 2*imm1`. Fetch stops after a branch, so `pc - 4` is the
  branch's own address (`FetchLoopBranch`).
- **project1's loader ignores a trailing partial word.** Its bits are dropped
  without an error.
- **project1 skips `lw`, `sll` and `sra` with `rd = 0`; project2 does not.**
  project1 guards each of them with `if (program && rd)`, so `lw x0` reads no
  memory and `sll x0`/`sra x0` shift nothing. project2 issues them like any
  other instruction: MEM still reads the address and ALU3 still shifts, and
  only the write-back to x0 is dropped (`Alu3AgreesWithInterp`,
  `MemAgreesWithInterp`).
- **project2's `mem_data` is set by the last break.** It is the address after
  the *last* word equal to 127, not the first. Without such a word it stays 0.

## Model

| member | source | states |
|---|---|---|
| Word32.Wrap | project1/Vsim.c:195-202 | the result is congruent to the input modulo 2^32 and equals it when already in range |
| Word32.Signed | project1/Vsim.c:172 | the `int32_t` view is in `[-2^31, 2^31)`, wraps back to the word, and is negative exactly when bit 31 is set |
| Word32.ShiftLeft | project1/Vsim.c:252 | `<<` by n in 0..31 clears the low n bits and moves the low 32 - n bits of the operand above them; the top n bits are lost |
| Word32.ShiftRightArith | project1/Vsim.c:259 | on a word whose sign bit is clear, `>>` is division by 2^n |
| Word32.ShiftRightArithSigned | project1/Vsim.c:259 | the arithmetic `>>` divides the signed value by 2^n (flooring) and keeps its sign |
| Word32.ShiftLeftSignFree | project1/Vsim.c:252 | `<<` gives the same word whether the operand is read signed or unsigned |
| Word32.WrapAdd | project2/Vsim.c:319 | wrapping an intermediate sum does not change the wrapped total |
| Fields.Opcode | project2/Vsim.c:39 | `ins & 127` is in 0..127 and is what remains after removing the multiples of 128 |
| Fields.Rd | project2/Vsim.c:40 | `rd` names a register 0..31 |
| Fields.Rs1 | project2/Vsim.c:41 | `rs1` names a register 0..31 |
| Fields.Rs2 | project2/Vsim.c:42 | `rs2` names a register 0..31 |
| Fields.Imm3 | project2/Vsim.c:44 | `imm3` lies in -2048..2047 and is negative exactly when bit 31 is set |
| Fields.Imm4 | project2/Vsim.c:45 | `imm4` lies in -2^19..2^19-1 and is negative exactly when bit 31 is set |
| Fields.Imm1 | project2/Vsim.c:43 | `imm1` lies in -2048..2047; its low five bits are bits 7-11 and the rest are the sign-extended bits 25-31 |
| Fields.Category | project1/Vsim.c:148 | the category `ins & 3` is 0..3 |
| Fields.SubOp | project1/Vsim.c:154 | the sub-operation `ins >> 2 & 31` is 0..31 |
| Fields.CategorySubOpIsOpcode | project1/Vsim.c:148-154 | category plus four times sub-operation is the 7-bit opcode of project2 |
| Fields.EncodeRFields | project2/Vsim.c:39-42 | the field macros recover opcode, rd, rs1 and rs2 from an R-form word |
| Fields.EncodeIFields | project2/Vsim.c:39-44 | the field macros recover opcode, rd, rs1 and `imm3` from an I-form word |
| Fields.EncodeSFields | project2/Vsim.c:39-43 | the field macros recover opcode, rs1, rs2 and `imm1` from an S-form word |
| Fields.EncodeSImm3 | project2/Vsim.c:43-44 | on an S-form word `imm3` is rs2 plus the high part of `imm1` |
| Fields.EncodeJFields | project2/Vsim.c:39-45 | the field macros recover opcode, rd and `imm4` from a J-form word |
| BinText.Bits | project1/Vsim.c:93-99 | the characters kept are all '0'/'1' and no more than the input |
| BinText.Words | project1/Vsim.c:100-111 | a bit string yields one word per full 32 bits |
| BinText.Bin32 | project1/Vsim.c:29-36 | the rendering of a word is 32 bit characters |
| BinText.Text | project1/Vsim.c:29-36 | a list of words renders as 32 bit characters per word |
| BinText.WriteBin32 | project1/Vsim.c:29-36 | the loop over `i` from 0 to 31 produces `Bin32(word)` |
| BinText.AssembleBin32Prefix | project1/Vsim.c:93-96 | shifting in the first k characters of the rendering gives the top k bits of the word |
| BinText.Bin32RoundTrip | project1/Vsim.c:29-36 | shifting in all 32 characters of `write_bin32`'s output rebuilds the word |
| BinText.BitsOfBits | project1/Vsim.c:93-99 | a string of bit characters passes the filter unchanged |
| BinText.WordsOfText | project1/Vsim.c:92-111 | assembling the rendering of a list of words gives the list back |
| BinText.BitsSnoc | project1/Vsim.c:93-99 | one more character adds itself to the kept bits exactly when it is '0' or '1' |
| BinText.Pending | project1/Vsim.c:100 | the bits not yet forming a word are fewer than 32 |
| BinText.WordsSnoc | project1/Vsim.c:100-111 | the 32nd bit completes a word (shifted in); any other bit adds no word |
| BinText.PendingSnoc | project1/Vsim.c:100-110 | the pending bits restart when a word completes and grow by one otherwise |
| BinText.AssembleSnoc | project1/Vsim.c:93-96 | shifting in one more bit applies `w << 1` or `w << 1 \| 1` |
| BinText.WordsAppend | project1/Vsim.c:100-111 | word assembly of a whole number of words followed by more bits splits at the boundary |
| BinText.BitsPrefix | project1/Vsim.c:92-99 | filtering a string splits at any position |
| BinText.CharBits | project1/Vsim.c:93-99 | filtering a string is filtering its first character, then the rest |
| BinText.Zeros | project2/Vsim.c:102 | n zero words, as `calloc` provides |
| BinText.PadUpdate | project2/Vsim.c:120 | storing at the first free cell of words followed by zeros appends the word |
| BinText.Scan | project2/Vsim.c:108-129 | the characters read so far produce fewer words than their count allows and a partial count below 32 |
| BinText.ScanIsWords | project2/Vsim.c:108-129 | the character loop's state is the complete words of the bits read, the count of pending bits and their value |
| BinText.ScanPrefix | project2/Vsim.c:108-129 | reading further only adds words at the end |
| Loader1.FirstBreak | project1/Vsim.c:106 | the index of the first break is at most the length |
| Loader1.FirstBreakIsFirst | project1/Vsim.c:106-108 | it is a word 127 and no earlier word is 127 |
| Loader1.FirstBreakSnoc | project1/Vsim.c:106-108 | an added word moves the first break only if there was none and it is 127 |
| Loader1.BreakAddrSnoc | project1/Vsim.c:103-108 | `mem_data` is set once, to the address after the first 127 word |
| Loader1.Place | project1/Vsim.c:121-127 | a loaded image's memory has the buffer's size |
| Loader1.SkipChar | project1/Vsim.c:97-98 | a character other than '0'/'1' leaves the loop state as it was |
| Loader1.ShiftChar | project1/Vsim.c:93-101 | a bit that does not complete a word shifts into `word` and counts |
| Loader1.StoreWord | project1/Vsim.c:100-111 | the 32nd bit stores the word at `mem_size + 256`, sets `mem_data` at the first 127, and resets the counters |
| Loader1.InitProgram | project1/Vsim.c:92-128 | the character loop produces `Load(s)` |
| Loader1.Finish | project1/Vsim.c:115-128 | at the end the result is an error without a break, and otherwise the program with pc 256 and the bounds set |
| Loader1.LoadIsWords | project1/Vsim.c:92-128 | loading places the complete words of the bit characters; it fails exactly when no word is 127 |
| Loader1.LoadExact | project1/Vsim.c:92-128 | loading exactly the bits of a word list gives those words, `mem_data` after the first break, `mem_upper = 256 + 4n` |
| Loader1.LoadText | project1/Vsim.c:92-128 | loading the rendering of a word list gives that image, or the error without a break |
| Loader1.Load | project1/Vsim.c:92-128 | the loader's result on the file's characters; `LoadIsWords`, `LoadExact`, `LoadText` and `IgnoresNonBits` state it |
| Loader1.IgnoresNonBits | project1/Vsim.c:97-98 | inserting a non-bit character changes neither the error, `mem_data`, `mem_upper` nor the loaded words |
| Loader2.LastBreakEnd | project2/Vsim.c:121-123 | the position after the last break is at most the length |
| Loader2.LastBreakIsLast | project2/Vsim.c:121-123 | the word before it is 127 and no later word is 127 |
| Loader2.LastBreakSnoc | project2/Vsim.c:121-123 | every 127 word overwrites `mem_data` with the address after it |
| Loader2.Place | project2/Vsim.c:101-104 | the memory has the `st_size >> 5` cells allocated |
| Loader2.StopWhenFull | project2/Vsim.c:124-126 | once the buffer is full, later characters add no word |
| Loader2.SkipChar | project2/Vsim.c:114-115 | a character other than '0'/'1' leaves the loop state as it was |
| Loader2.ShiftChar | project2/Vsim.c:110-118 | a bit that does not complete a word shifts into `value` and decrements `nbits` |
| Loader2.StoreWord | project2/Vsim.c:117-128 | the 32nd bit stores at `cur`, sets `mem_data` on a 127, and stopping when full loses no word |
| Loader2.Finish | project2/Vsim.c:137-139 | at the end `mem_end` is `cur * 4 + 256` and the image is `Load(s)` |
| Loader2.ProgramLoad | project2/Vsim.c:101-139 | the character loop produces `Load(s)` |
| Loader2.LoadIsWords | project2/Vsim.c:101-139 | loading places the complete words of the bit characters, up to the buffer size |
| Loader2.LoadText | project2/Vsim.c:101-139 | loading the rendering of a word list gives those words, `mem_data` after the last break, `mem_end = 256 + 4n` |
| Loader2.Load | project2/Vsim.c:101-139 | the loader's result on the file's characters; `LoadIsWords`, `LoadText` and `LoadExact` state it |
| Loader2.LoadExact | project2/Vsim.c:101-139 | loading exactly the bits of a word list gives the same image |
| Interp.Decode | project1/Vsim.c:148-296 | every decoded instruction names registers 0..31 |
| Interp.DecodeIsOpcode | project1/Vsim.c:148-296 | a word decodes to an instruction exactly when its low 7 bits are one of the 16 opcodes, and then to that opcode's instruction |
| Interp.DecodeEncode | project1/Vsim.c:148-296 | decoding the canonical encoding of a well-formed instruction gives it back |
| Interp.Run | project1/Vsim.c:330-356 | a run keeps 32 registers; it is defined for every program whose passes make only in-buffer accesses and 0..31 shifts, including `lw`/`sll`/`sra` with rd = 0, which do neither |
| Interp.ExecRegs | project1/Vsim.c:194-291 | an instruction changes no register but its destination, and none when the destination is x0 or absent |
| Interp.ExecMem | project1/Vsim.c:176-182 | only sw changes memory, writing `regs[rs1]` at `regs[rs2] + imm` |
| Interp.RunKeepsZero | project1/Vsim.c:194-283 | x0 stays 0 through any run (no rd = 0 write lands) |
| Interp.StepControl | project1/Vsim.c:155-291 | taken beq/bne/blt (signed) and jal go to their own address + 2·imm, an untaken branch to address + 4; jal links address + 4; break sets pc to 0 |
| Interp.StepMemory | project1/Vsim.c:176-268 | sw stores `regs[rs1]` at `regs[rs2] + imm` and changes no register; lw with rd ≠ 0 loads `regs[rs1] + imm` into rd; lw x0 changes nothing |
| Interp.StepInvalid | project1/Vsim.c:296 | an unrecognised word only advances pc by 4 |
| Interp.BreakEnds | project1/Vsim.c:287-291 | a break ends the run with pc 0 and nothing else changed |
| Interp.RunHalted | project1/Vsim.c:330 | with pc 0 the loop does not run |
| Interp.RunSplit | project1/Vsim.c:330-356 | a run of m + k passes is a run of m followed by a run of k |
| Interp.Program.constructor | project1/Vsim.c:121-127 | the program starts with zero registers, pc 256 and the loaded memory and bounds |
| Interp.Program.ProcessInstruction | project1/Vsim.c:143-297 | executing a word performs `Exec` of its decoding and keeps the bounds; lw/sll/sra with rd = 0 are accepted at any address or amount and change nothing |
| Interp.Program.Category1 | project1/Vsim.c:150-184 | the category-0 switch performs `Exec` |
| Interp.Program.Category2 | project1/Vsim.c:186-220 | the category-1 switch performs `Exec` |
| Interp.Program.Category3 | project1/Vsim.c:222-270 | the category-2 switch performs `Exec`; with rd = 0 it returns before any shift or load |
| Interp.Program.Category4 | project1/Vsim.c:272-294 | the category-3 switch performs `Exec` |
| Interp.Program.Step | project1/Vsim.c:331-339 | one pass of the loop performs `Next`, for every fetched word whose access or shift the C code makes is defined |
| Interp.Program.SimulateTo | project1/Vsim.c:326-357 | the loop performs `Run` and stops early only with pc 0 |
| Interp.Defined | project1/Vsim.c:176-268 | the accesses and shifts the C code makes: sw's address, lw's address when rd ≠ 0, and the sll/sra amount when rd ≠ 0; `Exec` requires exactly these, and the agreement lemmas compare them with project2's |
| Interp.Exec | project1/Vsim.c:143-297 | the effect of one instruction on the state; `ExecRegs`, `ExecMem`, `StepControl` and `StepMemory` state which registers, memory and pc it changes |
| Interp.StepOk | project1/Vsim.c:330-339 | a pass is defined when the fetch is in the buffer and the fetched instruction is `Defined` after `pc += 4` |
| Interp.Next | project1/Vsim.c:330-339 | fetch, `pc += 4`, execute with the old pc; `StepControl`, `StepMemory` and `StepInvalid` state its effect |
| Pipeline.FirstEmptyFrom | project2/Vsim.c:290-295 | the search for an empty slot ends within the queue |
| Pipeline.IssueScan | project2/Vsim.c:204-282 | the scan keeps no more entries than it examined |
| Pipeline.AfterIssue | project2/Vsim.c:204-282 | issue leaves four slots, the registers and memory |
| Pipeline.FetchOne | project2/Vsim.c:290-328 | a fetch round keeps the machine's shape and memory |
| Pipeline.WriteBack | project2/Vsim.c:352-363 | WB keeps 32 registers and the queue |
| Pipeline.BackEnd | project2/Vsim.c:332-435 | the back end keeps the shape and the queue |
| Pipeline.Initial | project2/Vsim.c:50-63 | the static initial values: pc 256, zero registers, empty queue and latches; `Simulator.constructor` builds it |
| Pipeline.Rset | project2/Vsim.c:147-153 | `rset`; `RsetEffect` states its effect |
| Pipeline.IssueOne | project2/Vsim.c:205-275 | the issue switch for one entry; `HazardRule`, `StoreRule`, `PendingZeroBlocks` and `IssueOneGrows` state its rules |
| Pipeline.IssueUpTo | project2/Vsim.c:204-282 | the issue loop over the first k entries keeps at most k more entries; `IssueUpToGrows` and `KeptPositions` state the rest |
| Pipeline.FetchLoop | project2/Vsim.c:289-329 | the remaining fetch rounds keep the shape and memory; `FetchLoopAppends`, `FetchLoopAborts`, `FetchLoopBranch` and `FetchLoopFrame` state what they do |
| Pipeline.FetchStage | project2/Vsim.c:285-330 | a cycle's fetch keeps the shape and memory; `FetchWaits`, `FetchStageAppends` and `FetchStageAborts` state what it does |
| Pipeline.Taken | project2/Vsim.c:334-347 | the beq/bne/blt condition on the registers (signed for blt); `WaitingBranch` uses it |
| Pipeline.Resolve | project2/Vsim.c:333-349 | branch resolution; `FetchedBranch` (a branch fetched this cycle) and `WaitingBranch` (one waiting since an earlier cycle) state when it fires and where pc goes |
| Pipeline.Retire | project2/Vsim.c:352-363 | one post latch writes back; `RetireEffect` states its effect |
| Pipeline.MemStage | project2/Vsim.c:365-377 | MEM; `MemAgreesWithInterp` relates it to project1's lw and sw, and `BackEndFrame` says pre-MEM is emptied |
| Pipeline.Alu3Stage | project2/Vsim.c:379-398 | ALU3; `Alu3AgreesWithInterp` relates it to project1 |
| Pipeline.Alu2Stage | project2/Vsim.c:400-412 | ALU2; `Alu2AgreesWithInterp` relates it to project1 |
| Pipeline.Alu1Stage | project2/Vsim.c:414-419 | ALU1 moves its latch into pre-MEM; `BackEndFrame` states where pre-MEM stands after a cycle |
| Pipeline.Rotate | project2/Vsim.c:421-435 | the staging latches move into the pre latches; `StepStaging` and `BackEndFrame` state it |
| Pipeline.Step | project2/Vsim.c:197-435 | one cycle keeps the machine's shape; `StepShape`, `StepStaging`, `ZeroBitSticks` and `WaitingBranch` state its effects |
| Pipeline.Run | project2/Vsim.c:185-505 | at most `fuel` cycles, ending at a break or an invalid opcode; `RunStep` states how a run proceeds |
| PipelineSim.Simulator.constructor | project2/Vsim.c:54-63 | the initial machine: pc 256, zero registers and latches, the loaded memory |
| PipelineSim.Simulator.Rset | project2/Vsim.c:147-153 | the method performs `rset` |
| PipelineSim.Simulator.IssueEntry | project2/Vsim.c:205-275 | one entry of the issue switch performs `IssueOne` |
| PipelineSim.Simulator.RemoveAt | project2/Vsim.c:277-280 | removing entry i shifts the later entries left and empties slot 3 |
| PipelineSim.Simulator.IssueLoop | project2/Vsim.c:204-282 | the in-place loop computes `IssueUpTo` over the entries and leaves the kept ones compacted at the front |
| PipelineSim.Simulator.Issue | project2/Vsim.c:199-282 | issue performs `AfterIssue` of `IssueScan` and returns its `ww` |
| PipelineSim.Simulator.FreeSlot | project2/Vsim.c:290-295 | the slot found is `FirstEmpty` |
| PipelineSim.Simulator.FetchRound | project2/Vsim.c:290-328 | one round of the fetch loop performs `FetchOne` |
| PipelineSim.Simulator.Fetch | project2/Vsim.c:285-330 | the fetch stage performs `FetchStage` |
| PipelineSim.Simulator.ResolveBranch | project2/Vsim.c:332-349 | the method performs `Resolve` |
| PipelineSim.Simulator.WriteBackStage | project2/Vsim.c:351-363 | the method performs `WriteBack` |
| PipelineSim.Simulator.Memory | project2/Vsim.c:365-377 | the method performs `MemStage` |
| PipelineSim.Simulator.Alu3 | project2/Vsim.c:379-398 | the method performs `Alu3Stage` |
| PipelineSim.Simulator.Alu2 | project2/Vsim.c:400-412 | the method performs `Alu2Stage` |
| PipelineSim.Simulator.Alu1 | project2/Vsim.c:414-419 | the method performs `Alu1Stage` |
| PipelineSim.Simulator.RotateLatches | project2/Vsim.c:421-435 | the method performs `Rotate` |
| PipelineSim.Simulator.Cycle | project2/Vsim.c:197-435 | one pass of the cycle body performs `Step`, or reports the invalid opcode |
| PipelineSim.Simulator.SimStep | project2/Vsim.c:197-502 | one cycle either continues the same run or stops it at a break or an invalid opcode |
| PipelineSim.Simulator.Simulate | project2/Vsim.c:185-505 | the `goto cycle` loop reports exactly the outcome of `Run`: a halt at a break with the cycle count, an exit on an invalid opcode, or the state after `fuel` cycles |
| PipelineProps.FirstEmptyFromIs | project2/Vsim.c:290-295 | the slots before the one found are occupied and the one found is empty |
| PipelineProps.EntriesNonzero | project2/Vsim.c:204 | no queued entry is the word 0 |
| PipelineProps.EntriesForm | project2/Vsim.c:277-280 | a queue in prefix form is its entries followed by empty slots |
| PipelineProps.PrefixForm | project2/Vsim.c:277-280 | entries followed by empty slots are in prefix form |
| PipelineProps.IssueOneKept | project2/Vsim.c:205-275 | each entry either stays at the end of the kept list or leaves |
| PipelineProps.LeaveNext | project2/Vsim.c:276-281 | removing an entry moves the rest left and re-examines the same index |
| PipelineProps.ScanningDone | project2/Vsim.c:204 | the scan stops after the last entry with the kept ones compacted at the front |
| PipelineProps.KeptNonzero | project2/Vsim.c:204-282 | the kept entries are nonempty |
| PipelineProps.IssueScanKept | project2/Vsim.c:204-282 | the kept entries of a cycle's scan are nonempty |
| PipelineProps.QueuedNonzero | project2/Vsim.c:304-315 | a queued opcode is never the empty word |
| PipelineProps.FetchOneForm | project2/Vsim.c:290-316 | a fetch round fills the first empty slot, keeping the prefix form |
| PipelineProps.FetchLoopForm | project2/Vsim.c:289-329 | the fetch loop keeps the prefix form |
| PipelineProps.RunStep | project2/Vsim.c:500-502 | a run halts after a cycle that executed a break, exits on an invalid opcode, and otherwise goes on with the next cycle |
| PipelineProps.StepShape | project2/Vsim.c:197-435 | every cycle keeps the queue in prefix form |
| PipelineRules.RsetEffect | project2/Vsim.c:147-153 | `rset(0, v)` changes nothing; otherwise it sets that register, clears only its pending bit, and nothing else changes |
| PipelineRules.HazardRule | project2/Vsim.c:216-275 | an ALU form or lw issues exactly when its unit is free, rd is not in `ww\|wr`, no source is in `ww`, and for lw no store is held; issuing stages its operands and marks rd pending; holding adds rd to `ww` and the sources to `wr` |
| PipelineRules.StoreRule | project2/Vsim.c:206-215 | sw issues exactly when ALU1's staging latch is free, rs1 is not in `ww\|wr`, rs2 is not in `ww` and no store is held; held, it sets `has_store` |
| PipelineRules.PendingZeroBlocks | project2/Vsim.c:204-275 | once bit 0 is pending, an entry that reads or writes x0 stays queued |
| PipelineRules.IssueOneGrows | project2/Vsim.c:205-276 | one entry only adds to `willwrite`, `ww`, `wr` and `has_store`, and never replaces a staged latch |
| PipelineRules.IssueUpToGrows | project2/Vsim.c:204-282 | so does the whole scan: at most one instruction enters each staging latch per cycle, and a held store blocks every later memory op |
| PipelineRules.KeptPositions | project2/Vsim.c:204-282 | the kept entries are a subsequence of the examined entries (given by increasing positions) |
| PipelineRules.IssueKeepsOrder | project2/Vsim.c:204-282 | after issue the queue is the surviving entries, in their original order, followed by empty slots |
| PipelineRules.IssueScanGrows | project2/Vsim.c:199-282 | a cycle's scan only adds to the pending bits and accumulators |
| PipelineRules.FetchFull | project2/Vsim.c:290-295 | with all four slots occupied fetch reads nothing |
| PipelineRules.FetchWaits | project2/Vsim.c:285-287 | nothing is fetched while a branch waits |
| PipelineRules.FirstEmptyIs | project2/Vsim.c:290-295 | the search finds the first empty slot |
| PipelineRules.FetchOneAppends | project2/Vsim.c:296-316 | a round that goes on read a queued, non-branch word and appended it to the entries; a round that stops leaves the queue |
| PipelineRules.FetchLoopAppends | project2/Vsim.c:289-329 | the remaining rounds append at most that many queued, non-branch words after the existing entries |
| PipelineRules.FetchStageAppends | project2/Vsim.c:285-329 | a cycle's fetch appends at most two words, never a branch, after the existing entries |
| PipelineRules.FetchBreak | project2/Vsim.c:322-324 | a fetched break moves pc past it, queues nothing, stops fetch and is the executed instruction |
| PipelineRules.FetchJal | project2/Vsim.c:317-321 | jal sets rd (unless x0) to pc + 4, moves pc to its own address + 2·imm4, and stops fetch as the executed instruction |
| PipelineRules.FetchUnknown | project2/Vsim.c:325-327 | a word with an unknown opcode aborts with that opcode |
| PipelineRules.FetchLoopAborts | project2/Vsim.c:298-328 | the fetch loop aborts only on a word that is none of the 16 opcodes |
| PipelineRules.FetchStageAborts | project2/Vsim.c:285-329 | a cycle's fetch aborts only on an unknown opcode |
| PipelineRules.FetchLoopBranch | project2/Vsim.c:299-303 | a fetched branch is the word at `pc - 4`, and is not the executed instruction |
| PipelineRules.RetireEffect | project2/Vsim.c:352-363 | a post latch retiring changes only its destination register and that register's pending bit |
| PipelineRules.WriteBackEffect | project2/Vsim.c:351-363 | after WB x0 is unchanged, every other register holds the latest of post-ALU3, post-ALU2 and post-MEM that writes it, the retired registers' pending bits are cleared, the post latches are empty, and nothing else changes |
| PipelineRules.BackEndFrame | project2/Vsim.c:332-435 | the back end changes pc and `branch` only by branch resolution, moves the staging latches into the pre latches, empties them, and never clears bit 0; pre-MEM then holds ALU1's instruction if there was one and is empty otherwise |
| PipelineRules.FetchLoopFrame | project2/Vsim.c:289-329 | fetch changes only pc, registers, pending bits, queue and `branch`, and never clears bit 0 |
| PipelineRules.StepStaging | project2/Vsim.c:421-435 | after a cycle the staging latches are empty and the pre latches hold what issue staged |
| PipelineRules.ZeroBitSticks | project2/Vsim.c:147-153 | once bit 0 of `willwrite` is set, no cycle clears it |
| PipelineRules.FetchedBranch | project2/Vsim.c:298-349 | a branch fetched in a cycle that began with none waiting is the word at pc − 4; it resolves in that cycle exactly when neither source is in `ww`, and is then executed and cleared, with pc at its own address + 2·imm1 when beq/bne/blt (signed) holds and after it otherwise; else it waits with pc unchanged and nothing executed |
| PipelineRules.BackEndResolves | project2/Vsim.c:332-349 | on a waiting branch the back end resolves it exactly when neither source is in `ww`, clearing it and moving pc to pc − 4 + 2·imm1 when taken; otherwise `branch`, pc and the executed word stay |
| PipelineRules.ResolveEffect | project2/Vsim.c:333-349 | `Resolve` on a waiting branch: with neither source in `ww` it clears `branch`, makes the branch the executed word and moves pc to pc − 4 + 2·imm1 exactly when beq/bne/blt (signed) holds; otherwise `branch`, pc and the executed word stay |
| PipelineRules.BranchCycle | project2/Vsim.c:296-303 | with no branch waiting, a branch that fetch leaves in `branch` is the memory word at pc − 4 and has a branch opcode; joined to the resolution facts of the back end it gives the rule `FetchedBranch` states |
| PipelineRules.WaitingBranch | project2/Vsim.c:332-349 | a waiting branch resolves exactly when neither source is in `ww`. It is then executed and cleared, and pc moves to its own address + 2·imm1 when beq/bne/blt (signed) holds. Until then pc and `branch` stay |
| PipelineRules.EntriesOfPrefix | project2/Vsim.c:277-280 | the entries of a compacted queue are the kept entries |
| PipelineRules.Alu2AgreesWithInterp | project2/Vsim.c:400-412 | ALU2 on operands read at issue gives the value project1 writes to rd for add, sub and addi |
| PipelineRules.Alu3AgreesWithInterp | project2/Vsim.c:379-398 | a shift ALU3 defines is defined in project1, and for rd ≠ 0 the two define the same amounts; with rd = 0 project1 does nothing; ALU3 gives the value project1 writes to rd for and, or, andi, ori, sll and sra |
| PipelineRules.MemAgreesWithInterp | project2/Vsim.c:365-377 | an access MEM defines is defined in project1, and for sw and for lw with rd ≠ 0 the two define the same addresses; `lw x0` is a no-op in project1. lw loads the word project1 loads; sw makes the same store and changes no register |

## Left out

- File and process plumbing is not modelled: `open`, `fstat`, `read`, `close`, `fopen`, `main`'s argument checks and exit codes, `err`/`err_sys`. Each loader is a method over the file's characters as a `seq<char>`, one character per byte of the file; a multi-byte character encoding is not modelled. A read error is not modelled.
- The allocation size comes from the file size: the loader takes the character sequence and derives `st_size / 8` bytes (project1) or `st_size >> 5` words (project2) from its length, which stands for `st_size`, the file's byte count. `calloc` failure is not modelled.
- The trace and disassembly output is not modelled: `print_instruction`, the per-cycle `fprintf` blocks, `disassemble_to` and `simulate`. The models compute the states and the end status only.
- `Interp.Program.SimulateTo`, `PipelineSim.Simulator.Simulate`: both C loops may never end. The models run at most `fuel` iterations, and a run that does not end within `fuel` is reported as still running.
- C's undefined behaviour is modelled as defined behaviour or excluded by preconditions:
  - signed overflow and `<<` of a negative value are modelled as 32-bit wrap-around;
  - an arithmetic `>>` of a negative value floors;
  - shift amounts outside 0..31 are excluded by preconditions (`Defined`, `Alu3Defined`), where the C code actually shifts: project1 makes no shift for rd = 0, and there every amount is allowed.
- Memory accesses outside the buffer or at unaligned addresses are excluded by preconditions, not modelled: `InMem` on fetch, lw and sw. project1's `lw x0` makes no access, and any address is allowed there.
- `Pipeline.FetchOne`: an unmapped fetch address is a separate `Unmapped` result that the simulator methods exclude by precondition, not a model of the out-of-bounds read.
- The memory is the word buffer. The byte view of `MEM32` (in project1 an address is bytes into `mem`) appears only through the aligned-address precondition.
