# Proofs about xcc

xcc is a self-hosting C compiler for x86-64 with its own assembler, preprocessor
and run-time allocator, and a WebAssembly back end (`wcc`). This project models
the parts of it that keep invariants over many steps, and proves what they are
for:

- **Register allocation** (`Liveness`, `Intervals`, `LinearScan`,
  `ScanInvariant`, `LivingRegs`, `Frame`, `SpillCode`, `RegAlloc`). Each pass is
  a method proved against a specification. `Machine` gives two machines, one on
  virtual registers and one on physical registers and frame bytes;
  `AllocTheorem` shows that the allocated code simulates every run. The scan's
  expiry rule gives a live register away in one case only, a dead definition at
  the head of a block. `NeededRuns` shows that a run is preserved all the same
  unless it reads such a value later, `ClashTheorem` that it is changed then, and
  `HeadClashExample` is a function on which the allocator does that. `SpilledCond`
  is about spilled results of comparisons, and `ThreeToTwo` about the rewriting
  ahead of allocation.
- **Calls** (`CallSequence`, `CallTheorem`, `CallEmitter`): calls nested in the
  arguments of calls, stack alignment, caller-saved registers.
- **Block cleanup** (`BlockGraph`, `BlockCleanup`, `BlockTidy`): the result runs as the
  original does, for every meaning of its instructions and every run.
- **Statements** (`Structured`) mean one thing for two back ends: basic blocks
  (`LowerCode`, `LowerGen`, `LowerCond`, `LowerLabels`, `LowerSwitch`,
  `LowerTheorem`, `LowerEmitter`) and structured WebAssembly (`WasmCode`,
  `WasmGen`, `WasmSim`, `WasmCond`, `WasmTheorem`, `WasmFunction`,
  `WasmEmitter`). Both are proved to implement it, divergence included.
- **The assembler** (`AsmItems`, `AsmRound`, `AsmMinimal`, `AsmRelax`,
  `AsmEmit`, `AsmImage`, `AsmMain`): the settle loop ends, its displacements are right and
  its long jumps are the fewest, and bytes are emitted where addresses say.
- **The run-time allocator** (`UmallocHeap`, `Umalloc`).
- **The hash table and interned names** (`HashTable`, `NameTable`).
- **Conditional inclusion** (`Preprocess`, `PreprocessNesting`).
- **The quicksort** (`Qsort`), as the other parts use it.

`Options`, `Ir`, `Conditions`, `Orders` and `Util` hold what several parts share.
Check everything with `dafny verify dfyconfig.toml`.

## How to read the results

What an instruction, an expression or a callee does is a parameter throughout
(the `Sem` datatypes): the theorems hold for every such function. Code that the
program appends to a buffer is specified by a function (`Emit`, `Gen`,
`EmitCall`), the class that mirrors the program is proved to append just that,
and the meaning is proved of the function.

Register allocation is proved under hypotheses the program relies on, each a
predicate: `Ir.WellFormed` (jumps stand last in their blocks, an
address-of names a variable in memory), `AllocSim.Emittable` (at most one
spilled operand, spilled operands only in instructions that
`insert_load_store_spilled` handles, of matching width), `FrameLayout.ParamsPlaced`
(no preset offset among the allocated slots, so no variadic function) and, for
whole functions, `AllocTheorem.NoSharedHead`, which `NoHeadClash` implies and
which can be checked ahead of the scan. Single runs need less, see `RunPreserved`.
At the entry of the function the two machines agree on what is live.

That hypotheses can be met is shown by `NeededValueOverwritten`, `ParsedItems`,
`BlockGraph.LoopIsValid`, `NestedIsWellFormed`, `BytesAreTyped`, `LoopIsTyped` and
the constructors of the classes.

A switch works on the values of its type. Case values are kept as 64-bit signed
numbers, so those of an unsigned 64-bit type are the signed ones with the same
bits (`LowerSwitch.KeptUnsigned`).

Where the code does less than one would expect:

- A dead definition at the head of a block can get the register of a value that
  is live into the block and starts there (`src/cc/regalloc.c:113`). A run
  is preserved unless it executes the head and reads the value later
  (`RunPreserved`); if one does, there are instructions for which the results
  differ (`ClashChangesResults`, with `NeededValueOverwritten` as an instance).
- `new_ir_cond` leaves `ir->size` at -1 (`src/cc/ir.c:317-321`), and the spill
  store of its result takes over that size: `SpilledCondIff`. The emitter's
  assertion stops at such a store (`src/cc/ir.c:1300`).
- `gen_break` and `gen_continue` write a branch depth as one raw byte
  (`wasm/src/gen_wasm.c:1118-1126`): right exactly below depth 128, see
  `FunctionReads` and `ManyCases`.
- The binary dispatch of a switch compares signed even for unsigned types
  (`src/cc/codegen.c:222-230`). It is right exactly when there are at most two
  cases with values or all lie on one side of the sign bit: `DispatchRightIff`.
- `fix_section_size` neither aligns the start of the code section nor the start
  of `.bss` as the layout does (`src/as/gen.c:43-55`): they agree exactly under
  the condition of `FixedStartsAgree`, and `CodeAlignmentMissed` fails it.
- The parser's flags for `break` and `continue` are one bit
  (`src/cc/parser.c:15-16`), so it lets a `continue` pass in a switch outside of
  loops, and only that: `ValidIffAccepted`.

## Model

| member | source | states |
|---|---|---|
| `Qsort.Partition` | src/util/util.c:178-203 | Hoare partitioning that follows the pivot as it is moved splits the range into elements not after it and not before it, and stays in bounds |
| `Qsort.MyQsort` | src/util/util.c:172-208 | the result is a permutation of the range in which nothing sorts strictly before its predecessor, for any comparator whose `< 0` test is a strict weak order; of two elements that tie the second comes first |
| `Intervals.SortLiveIntervalIsWeak` | src/cc/regalloc.c:82-88 | the inconsistent comparator's `< 0` test is a strict weak order, and that of the starts, when every start is at most its end |
| `Intervals.SortIntervals` | src/cc/regalloc.c:168-172 | the returned order is a permutation of the intervals, sorted by start, with a pair of one start exchanged |
| `Liveness.ScanBlock` | src/cc/regalloc.c:356-385 | a block's `in` starts as the registers read before any assignment, and its assigned registers are collected |
| `Liveness.Pass` | src/cc/regalloc.c:388-416 | one pass keeps the flow below every solution, and reports no change only when the equations hold |
| `Liveness.AnalyzeRegFlow` | src/cc/regalloc.c:351-417 | the loop ends with the least sets that satisfy the dataflow equations |
| `Liveness.LiveInIsNeeded` | src/cc/regalloc.c:351-417 | a register is in a block's `in` exactly when some path reads it before assigning it |
| `Intervals.CheckLiveInterval` | src/cc/regalloc.c:133-176 | every interval is the hull of the positions where the register is mentioned or crosses a block boundary |
| `Intervals.HullSpans` | src/cc/regalloc.c:122-169 | a hull's ends are positions of events, and every event lies between them |
| `Intervals.HullCovers` | src/cc/regalloc.c:133-169 | a register mentioned or live at a linear position is covered there by its interval |
| `Intervals.LiveIsCovered` | src/cc/regalloc.c:122-169 | a register live inside a block is mentioned or live across an end of it, so its hull covers it |
| `LinearScan.InsertActive` | src/cc/regalloc.c:59-70 | the interval is inserted before the first active one that ends later, in place |
| `LinearScan.FreeExpired` | src/cc/regalloc.c:105-117 | counts the leading active intervals that are over, and frees just their registers |
| `LinearScan.ExpireOldIntervals` | src/cc/regalloc.c:105-120 | the active list loses its expired prefix, and the bits in use those registers |
| `LinearScan.SplitAtInterval` | src/cc/regalloc.c:90-103 | the interval that ends last, of the active ones and the new one, is spilled, and the new one takes its register if it stays |
| `ScanInvariant.ExpireKeepsList` | src/cc/regalloc.c:105-120 | expiry keeps the active list sorted by end, in distinct registers that are just the bits in use |
| `ScanInvariant.FreeStep` | src/cc/regalloc.c:222-236 | taking a free register keeps the scan's invariant |
| `ScanInvariant.StealStep` | src/cc/regalloc.c:90-103 | spilling the active interval that ends last keeps the scan's invariant |
| `ScanInvariant.KeepStep` | src/cc/regalloc.c:90-103 | spilling the new interval keeps the scan's invariant |
| `ScanInvariant.ScanRunKeeps` | src/cc/regalloc.c:178-243 | every reachable scan state has sorted active lists in distinct registers equal to the bits in use, and settled intervals that do not overlap in one register |
| `ScanInvariant.ScanAllocates` | src/cc/regalloc.c:178-243 | at the end intervals of one class in one register do not overlap, and one is spilled only where as many active intervals as registers overlap a start |
| `ScanInvariant.LinearScanRegisterAllocation` | src/cc/regalloc.c:178-243 | the method in place computes the specified scan and the sets of registers used |
| `LivingRegs.RankStep` | src/cc/regalloc.c:426-445 | one step of the sweep never clears a bit another interval has set |
| `LivingRegs.DetectLivingRegisters` | src/cc/regalloc.c:419-455 | the mask of a call at position n has a register's bit exactly when an allocated interval in it starts at or before n and ends after it |
| `FrameLayout.LayoutFrame` | src/cc/regalloc.c:575-604 | spilled registers get aligned slots that do not overlap, within the frame size |
| `SpillCode.InsertLoadStoreSpilled` | src/cc/regalloc.c:245-349 | every instruction is surrounded by the loads and stores of its spilled operands, in place, and the result tells whether any was inserted |
| `SpillCode.GroupIs` | src/cc/regalloc.c:255-345 | of every kind that is not passed over an operand in the frame is loaded ahead of the instruction at the width used, and a result in the frame is stored behind it |
| `RegAlloc.PrepareIntervals` | src/cc/regalloc.c:542-567 | constants are left out, parameters and forced registers are put into memory |
| `RegAlloc.AllocPhysicalRegisters` | src/cc/regalloc.c:537-613 | the whole allocation is the composition of its passes |
| `RegAlloc.FrontIsScanned` | src/cc/regalloc.c:537-573 | what reaches the later passes is sorted, in range and free of overlaps |
| `AllocSim.LoadsSim` | src/cc/regalloc.c:310-325 | behind its loads an instruction finds its operands' values, the one spilled operand in the work register |
| `AllocSim.InstrSim` | src/cc/regalloc.c:245-349 | an instruction and its spill code do on registers and frame what the instruction does on virtual registers |
| `AllocTheorem.AllocReady` | src/cc/regalloc.c:537-613 | what the allocator produces has no instruction that disturbs a register still needed |
| `AllocTheorem.AllocationPreservesMeaning` | src/cc/regalloc.c:537-613 | after any number of steps of the code on virtual registers the allocated code gets to the same point, with every live value in its place and at least as many steps taken |
| `AllocTheorem.SameResults` | src/cc/regalloc.c:537-613 | the allocated code returns with a world exactly when the original does |
| `AllocTheorem.NoHeadClashSuffices` | src/cc/regalloc.c:105-120 | the hypothesis of these holds if no dead definition at a block's head competes with an interval of its class that starts there, which can be seen ahead of the scan |
| `AllocTheorem.OverwritesIffHeadClash` | src/cc/regalloc.c:105-120 | instructions overwrite live values at heads of blocks only, by dead definitions where the interval starts |
| `NeededRuns.RunPreserved` | src/cc/regalloc.c:537-613 | with nothing assumed of clashes, a run that never reads a value overwritten so is preserved: the same points in the same world, every value still read in its place |
| `ClashTheorem.ClashChangesResults` | src/cc/regalloc.c:105-120 | if a run does read one, then under some meaning, from states that agree, the function sees a value that the allocated code never sees |
| `HeadClashExample.NeededValueOverwritten` | src/cc/regalloc.c:537-613 | on this function the allocator's own output returns zeros where the function returns ones |
| `SpilledCond.SpilledCondIff` | src/cc/regalloc.c:334-345 | the store behind a spilled comparison result has the instruction's size, and is right in every state exactly at 4 bytes |
| `SpilledCond.CondResultLost` | src/cc/ir.c:317-321 | at the size that the compiler gives it, nothing is stored |
| `ThreeToTwo.ConvertBlock` | src/cc/ir.c:1504-1544 | the pass over a block, which inserts in place, yields the rewritten block |
| `ThreeToTwo.TwoOperands` | src/cc/ir.c:1509-1536 | behind the pass each of the fourteen operations works on its destination |
| `ThreeToTwo.ConvertIsSame` | src/cc/ir.c:1502-1544 | a block whose destinations are fresh computes what it did |
| `ThreeToTwo.KeptIffFresh` | src/cc/ir.c:1502-1544 | freshness cannot be dropped: with an operation that returns its second operand the meaning is kept exactly when that is not the destination, or the first one is |
| `CallEmitter.Emitter.PreCall` | src/cc/ir.c:992-1017 | room is made for the live caller-saved registers and up to alignment, and `stackpos` counts it |
| `CallEmitter.Emitter.PushCallerSaveRegs` | src/cc/ir.c:1432-1453 | the live caller-saved registers are saved one word apart from the base on |
| `CallEmitter.Emitter.PopCallerSaveRegs` | src/cc/ir.c:1455-1479 | they are restored in the same order, and `stackpos` gives their room back |
| `CallEmitter.Emitter.CallOut` | src/cc/ir.c:1043-1091 | saves, pops register arguments, calls, drops stack arguments and restores |
| `CallEmitter.Emitter.EmitCallSequence` | src/cc/codegen_expr.c:405-470 | with any calls nested in its arguments a call appends its code and leaves `stackpos` as it was |
| `CallTheorem.ArgsSim` | src/cc/codegen_expr.c:412-447 | behind the arguments' code each value lies in its slot or among the pushes in order, whatever calls were nested in them |
| `CallTheorem.RestoreSim` | src/cc/ir.c:1455-1479 | every live register gets its own value back |
| `CallTheorem.CallSim` | src/cc/ir.c:992-1091 | the code runs without misalignment at any call, gives each callee its own arguments, keeps live registers, and restores the stack pointer and what lies above it |
| `CallTheorem.LiveKept` | src/cc/ir.c:66-82 | behind a call RBX, R12, R13, R14 and every register of the live mask hold what they held ahead of it |
| `CallTheorem.KeepsIff` | src/cc/ir.c:66-82 | what a call keeps is RBX, R12, R13, R14 and the registers of its mask, and no others |
| `Conditions.InvertCondNegates` | src/cc/ir.c:21-28 | the inverted condition holds of flags exactly when the condition does not, and inverting twice is the identity |
| `BlockCleanup.BBContainer.ReplaceJmpDestination` | src/cc/ir.c:1351-1362 | jumps to one block are redirected to another, except its own |
| `BlockCleanup.BBContainer.Turn` | src/cc/ir.c:1368-1402 | one turn of the inner loop, in place |
| `BlockCleanup.BBContainer.RemoveUnnecessaryBb` | src/cc/ir.c:1364-1412 | the loops end with the specified graph, whose `next` chain is the list order and whose jumps lead into the list |
| `BlockCleanup.RedirectedSame` | src/cc/ir.c:1372-1375 | redirecting jumps past a block that does nothing changes no run |
| `BlockCleanup.RemovedSame` | src/cc/ir.c:1395-1401 | taking out a block that does nothing and is not fallen into, or only towards its own target, changes no run |
| `BlockCleanup.InvertedSame` | src/cc/ir.c:1383-1391 | inverting the jump over a jump-only block and removing that block changes no run |
| `BlockCleanup.DropJumpsSame` | src/cc/ir.c:1405-1411 | dropping jumps to the next block changes no run |
| `BlockCleanup.CleanupSame` | src/cc/ir.c:1364-1412 | the whole pass: every point of a run has a point of the other with the same trace and state, and one run ends exactly when the other does |
| `BlockTidy.CleanTidy` | src/cc/ir.c:1366-1403 | the first loop leaves no empty block but the last, and a block that only jumps elsewhere only where the one ahead of it can fall into it |
| `BlockTidy.DroppedTidy` | src/cc/ir.c:1405-1411 | behind the second loop no block but the last ends with a jump to the next |
| `LowerCond.CondChoice` | src/cc/codegen_expr.c:41-64 | the condition chosen for operands possibly exchanged and possibly unsigned tells their comparison from the flags |
| `LowerCond.CompareStep` | src/cc/codegen_expr.c:66-92 | whichever of the three compare forms is chosen, its flags tell the comparison, with the effects of both operands in order |
| `LowerCond.CompareForms` | src/cc/codegen_expr.c:71-80 | a `test` only asks for equality with zero, and an immediate operand fits 32 bits unless its type does |
| `LowerCond.CondSim` | src/cc/codegen_expr.c:100-161 | the code of a condition reaches the given block exactly when its truth is the given one, else its own end, with short-circuit effects in source order |
| `LowerLabels.GenLabels` | src/cc/codegen.c:123-373 | the blocks a statement begins are new, each begun once, and each case label's just once |
| `LowerSwitch.OrderKeeps` | src/cc/codegen.c:186-198 | the order of the cases is by value with `default` last |
| `LowerSwitch.OneOrder` | src/cc/codegen.c:246-252 | labels in that order are in no other |
| `LowerEmitter.SortCases` | src/cc/codegen.c:186-252 | the quicksort with `compare_cases` yields that order |
| `LowerSwitch.DispatchSim` | src/cc/codegen.c:200-233 | whatever the values and cases, the dispatch leaves to the label that its comparisons select |
| `LowerSwitch.SelectMisses` | src/cc/codegen.c:200-233 | of more than two cases on both sides of the sign bit one is not selected by its own value |
| `LowerSwitch.DispatchRightIff` | src/cc/codegen.c:200-233 | the dispatch leaves to the matching case, else the default, else behind the switch, for every value of the type, exactly when there are at most two cases with values or all lie on one side of the sign bit |
| `LowerSwitch.SwitchSim` | src/cc/codegen.c:235-262 | under that condition the head of a switch evaluates its value once and goes to the matching case, else the default, else behind the switch |
| `LowerSwitch.UnsignedMisses` | src/cc/codegen.c:222-230 | with three cases the largest unsigned value misses its case |
| `LowerTheorem.IfSim` | src/cc/codegen.c:169-184 | an if statement's blocks end as it does |
| `LowerTheorem.WhileSim` | src/cc/codegen.c:294-312 | a while loop's blocks, from its test, end as it does, with a step for each iteration |
| `LowerTheorem.DoSim` | src/cc/codegen.c:314-330 | the same of a do loop |
| `LowerTheorem.ForSim` | src/cc/codegen.c:332-359 | the same of a for loop |
| `LowerTheorem.SwitchStmtSim` | src/cc/codegen.c:264-292 | a switch, fallthrough and missing default included, ends as it does |
| `LowerTheorem.StmtSim` | src/cc/codegen.c:420-447 | every statement, entered at its start or at one of its case labels, ends as it does from there |
| `LowerTheorem.FunctionSim` | src/cc/codegen.c:449-493 | a function's blocks run to their end exactly when its statements end or return, in the same state, and otherwise run on for as many steps as iterations are allowed |
| `LowerEmitter.Generator.GenCondJmp` | src/cc/codegen_expr.c:100-161 | appends the code of the condition, new blocks numbered in order |
| `LowerEmitter.Generator.GenDispatchCode` | src/cc/codegen.c:200-233 | appends the dispatch |
| `LowerEmitter.Generator.GenSwitch` | src/cc/codegen.c:264-292 | appends the switch and restores the break block |
| `LowerEmitter.Generator.GenFor` | src/cc/codegen.c:332-359 | appends the loop and restores both blocks |
| `LowerEmitter.Generator.GenStmt` | src/cc/codegen.c:420-447 | appends the code of any statement and restores what `break` and `continue` refer to |
| `Structured.ValidIffAccepted` | src/cc/parser.c:834-990 | what the parser accepts is valid exactly when no `continue` stands in a switch outside of loops |
| `Structured.SwitchLoose` | src/cc/parser.c:15-16 | a switch that holds nothing but a `continue` is accepted and not valid |
| `Structured.NoStray` | src/cc/parser.c:979-990 | a statement that the parser accepts ends in `break` only where one may stand, and in `continue` only when it has one outside of loops |
| `WasmCode.UlebRoundTrip` | wasm/src/gen_wasm.c:46-58 | LEB128 reads back what was written |
| `WasmCode.RawByteReads` | wasm/src/gen_wasm.c:1118-1126 | one raw byte reads as the depth exactly below 128 |
| `WasmCond.CondExec` | wasm/src/gen_wasm.c:920-989 | a condition's code leaves on the stack whether its truth is the wanted one, with short-circuit effects in source order |
| `WasmSim.EmitCloses` | wasm/src/gen_wasm.c:1206-1231 | a statement's code closes one construct for each case label in it, and no other it did not open |
| `WasmTheorem.DispatchExec` | wasm/src/gen_wasm.c:1015-1028 | the tests of a switch branch to the first label with the value, else fall out |
| `WasmTheorem.SwitchHead` | wasm/src/gen_wasm.c:997-1031 | a switch goes behind the label its value selects, the default included, else behind the whole |
| `WasmTheorem.WhileSim` | wasm/src/gen_wasm.c:1049-1066 | a while loop's code runs as the loop does |
| `WasmTheorem.DoWhileSim` | wasm/src/gen_wasm.c:1068-1088 | the same of a do loop |
| `WasmTheorem.ForSim` | wasm/src/gen_wasm.c:1090-1116 | the same of a for loop |
| `WasmTheorem.StmtSim` | wasm/src/gen_wasm.c:1206-1231 | a statement's code, in any nest of constructs and entered at its start or behind one of its labels, ends as the statement does: normally, by break, continue or return, or out of fuel |
| `WasmFunction.ReadsIffFits` | wasm/src/gen_wasm.c:1118-1126 | every branch of a statement reads as it was meant exactly when no break or continue depth reaches 128 |
| `WasmFunction.EmitValid` | wasm/src/gen_wasm.c:1206-1231 | the code is well nested where it stands and every branch depth is in range |
| `WasmFunction.FunctionSim` | wasm/src/gen_wasm.c:1385-1394 | a function's code is valid, reads as meant, and reaches its end in the state its statements end or return in, or runs on as they do |
| `WasmFunction.FunctionReads` | wasm/src/gen_wasm.c:1385-1394 | all its branches read as meant exactly when every break and continue depth fits one byte |
| `WasmFunction.ManyCases` | wasm/src/gen_wasm.c:1118-1121 | an early break in a switch with 129 cases or more does not read as meant |
| `WasmEmitter.Emitter.GenCond` | wasm/src/gen_wasm.c:920-989 | appends the condition's code and leaves the depth as it was |
| `WasmEmitter.Emitter.GenSwitch` | wasm/src/gen_wasm.c:997-1040 | appends the switch's code and restores depth and break number |
| `WasmEmitter.Emitter.GenStmt` | wasm/src/gen_wasm.c:1206-1231 | appends the statement's code; the depth falls by the case labels in it and both numbers are restored |
| `WasmEmitter.Emitter.GenDefun` | wasm/src/gen_wasm.c:1385-1394 | appends a function's code and ends at depth 0 |
| `AsmItems.PutThenRead` | src/as/ir_asm.c:154-159 | what is written little-endian reads back, signed, exactly when it fits the field |
| `AsmImage.CalcMeans` | src/as/ir_asm.c:165-220 | an expression is found to have a value exactly when its labels are defined and its operations yield that value, division dropping the fraction |
| `AsmImage.LabelOffset` | src/as/ir_asm.c:194-195 | so a label with a number added or taken away has that address |
| `AsmRelax.PutValueInto` | src/as/ir_asm.c:154-159 | the byte loop writes those bytes and leaves the rest |
| `AsmRelax.Assembler.CalcLabelAddress` | src/as/ir_asm.c:89-152 | every item and label gets the address of the layout, and the result is false exactly when a section asked for more alignment |
| `AsmRelax.Assembler.ResolveRelativeAddress` | src/as/ir_asm.c:222-410 | every item is resolved against the addresses, the result telling whether a jump has grown, or nothing is changed when one cannot be |
| `AsmRound.RoundDrops` | src/as/as.c:569-574 | a round never adds short jumps, loses one when a jump grows, and leaves no alignment outstanding |
| `AsmRelax.Assembler.Settle` | src/as/as.c:567-574 | the settle loop ends; if it does not give up, every displacement leads to its target under the final addresses, and in sections without alignments the long jumps are within those of every consistent choice |
| `AsmMinimal.UpgradeIsForced` | src/as/ir_asm.c:285-299 | a jump that does not reach now is long in every choice in which all short jumps reach |
| `AsmMinimal.LinkedIsConsistent` | src/as/ir_asm.c:285-299 | where the loop ends is itself such a choice |
| `AsmEmit.Buffer.Put` | src/util/util.c:243-258 | bytes are appended, the storage growing when it must |
| `AsmEmit.Buffer.Align` | src/util/util.c:260-272 | zeros are appended up to the alignment |
| `AsmEmit.Output.EmitIrs` | src/as/ir_asm.c:412-448 | the buffers hold what the items emit in order |
| `AsmEmit.ImageSize` | src/as/gen.c:20-41 | an item's offset in its buffer is its address less the section's start, though one side aligns sizes and the other addresses |
| `AsmEmit.EmissionAgrees` | src/as/ir_asm.c:412-448 | after the settle loop the bytes of every item lie where its address says |
| `AsmImage.LinkedStands` | src/as/ir_asm.c:412-448 | read back from the image, the bytes of a jump are its opcode and the distance to its target, those of a call or address its own with that distance modulo 2 to the 32, those of a value item its expression's value, and all others as given |
| `AsmEmit.FixedStartsAgree` | src/as/gen.c:43-55 | the start addresses written out are those of the layout exactly when the load address meets the code alignment and the data section starts at a multiple of the alignment of `.bss` |
| `AsmEmit.BssAgrees` | src/as/gen.c:20-31 | the size emitted for `.bss` is the room its items take in the layout |
| `AsmMain.CodeAlignmentMissed` | src/as/gen.c:43-44 | with code aligned to 512 bytes the two differ |
| `AsmMain.Assemble` | src/as/as.c:565-582 | from parsed items to section buffers: every item's bytes stand at its address in the buffers with that meaning, the data section begins a page, and the size of `.bss` is the room laid out for it |
| `UmallocHeap.FreeKeeps` | lib/umalloc.c:31-46 | freeing, with either neighbour merged or none, keeps the circular address order, the division of memory among blocks, and no two free blocks touching |
| `UmallocHeap.TakeKeeps` | lib/umalloc.c:78-80 | taking a block of the very size keeps them |
| `UmallocHeap.SplitKeeps` | lib/umalloc.c:81-85 | cutting off a block's tail keeps them |
| `UmallocHeap.GrowKeeps` | lib/umalloc.c:57-62 | memory from `sbrk` joins as one block in use |
| `Umalloc.Heap.FindPlace` | lib/umalloc.c:34-36 | the search ends at the free block that the freed one belongs behind |
| `Umalloc.Heap.Free` | lib/umalloc.c:25-48 | the block joins the free ones, everything else in use keeps its units and their contents, and nothing happens for null |
| `Umalloc.Heap.Morecore` | lib/umalloc.c:50-65 | whole pages are added and freed, or nothing changes when `sbrk` fails |
| `Umalloc.Heap.Malloc` | lib/umalloc.c:67-91 | the search ends with a new block of the units asked for; memory grows only when no free block fits, and it fails only when `sbrk` does then |
| `Umalloc.Heap.Realloc` | lib/umalloc.c:103-123 | every byte asked for that the old block had is the new block's, and nothing is changed on failure |
| `HashTable.Table.FindEntry` | src/util/table.c:66-81 | probing ends at the key's entry, or at the first tombstone on its way or the free entry behind it when there is none |
| `HashTable.PutKeeps` | src/util/table.c:146-154 | filling a key's place keeps every key reachable and listed once |
| `HashTable.DeleteKeeps` | src/util/table.c:167-168 | so does a tombstone in its place |
| `HashTable.Table.AdjustCapacity` | src/util/table.c:83-109 | the contents stay, tombstones go |
| `HashTable.Table.Get` | src/util/table.c:116-137 | returns the map's value of the key, or nothing |
| `HashTable.Table.Put` | src/util/table.c:139-156 | updates the map, and tells whether the key is new |
| `HashTable.Table.Delete` | src/util/table.c:158-171 | removes the key from the map, and tells whether it was there |
| `HashTable.Table.Iterate` | src/util/table.c:173-187 | returns the next live entry and the position behind it |
| `HashTable.Table.VisitAll` | src/util/table.c:173-187 | iterating from the start visits every live key once, with its value |
| `NameTable.HashString` | src/util/table.c:8-15 | the loop computes the FNV-1a fold |
| `NameTable.HashValues` | src/util/table.c:8-15 | three known values of that hash |
| `NameTable.NameTable.FindNameTable` | src/util/table.c:21-38 | finds the name with these bytes, or there is none |
| `NameTable.NameTable.AllocName` | src/util/table.c:40-58 | returns the one name with these bytes, made when there is none |
| `NameTable.EqualName` | src/util/table.c:60-62 | two interned names are identical exactly when their bytes are equal |
| `Preprocess.CondValueReads` | src/cpp/preprocessor.c:372-378 | both flags come back out of the one number they are kept in |
| `Preprocess.PreprocessFile` | src/cpp/preprocessor.c:418-508 | the loop computes the machine's run |
| `Preprocess.SkipSim` | src/cpp/preprocessor.c:448-481 | groups inside a skipped group are skipped and leave the flags as they were |
| `Preprocess.GroupSim` | src/cpp/preprocessor.c:448-481 | a group that is processed yields the state and lines of the selected groups in it, and its flags come back |
| `Preprocess.FileSim` | src/cpp/preprocessor.c:418-508 | a file of nested groups is processed as they say: a line is enabled exactly in the selected group of every conditional around it |
| `Preprocess.FirstGroupLines` | src/cpp/preprocessor.c:448-462 | in the output of a conditional the lines of its first group are processed exactly when the macro of `#ifdef` is defined, that of `#ifndef` is not, or the value of `#if` is not zero, and blank otherwise |
| `PreprocessNesting.AcceptedIffNested` | src/cpp/preprocessor.c:448-508 | the directives are accepted exactly when the file consists of nested groups |

## Left out

- Integers and addresses are unbounded: wrap-around at 64 bits is not modelled. Where the program stores a value in a byte, a 32-bit field or a signed byte, that width is modelled.
- Sets of registers (`using_bits`, `living_pregs`, `in_regs`, `out_regs`) are sets, intervals are referred to by index instead of by pointer, and basic blocks and allocator headers by number with their fields in maps.
- Register allocation: variadic functions and parameters passed on the stack of a variadic function, whose offsets are set beforehand (`src/cc/regalloc.c:457-535`), and code behind a `goto` in the middle of a block.
- The constant folding of `new_ir_bop`, which does not compute what the operators name, and x86 encodings other than the lengths of jumps and the place of their displacement.
- Floating-point values and their instructions; registers for them are modelled in allocation and in the masks, where they are numbered behind the others.
- Calls: structures copied onto the stack as arguments, the numbering of integer and floating-point argument registers apart from each other, and the saving of callee-saved registers in the prologue.
- Statements: `goto`, labels, inline assembly, declarations, returning a structure. Case labels stand directly in the body of their switch or in plain blocks, as the WebAssembly back end demands; the native one takes more.
- LowerSwitch.DispatchRightIff: case values are values of the switched type, and the difference that `compare_cases` takes does not overflow.
- ClashTheorem.ClashChangesResults: the value overwritten is of a type with at least one byte.
- WasmTheorem.DispatchExec: case constants are compared as they are, where `i32.const` keeps 32 bits of them.
- WasmFunction.FunctionReads: a branch operand of one raw byte from 128 on does not read as meant; that a decoder takes the byte behind it too is not followed up.
- WebAssembly expressions are abstract effects that leave a value; so are the compare instructions for the several operand types, and the frame set up around a function's statements.
- The assembler's object-file mode, where labels may stay unresolved. Undefined labels, a division by zero in an expression and a jump that no field can hold are all one outcome, giving up.
- AsmRelax.Assembler.ResolveRelativeAddress: a `call` or `lea` displacement is stored modulo 2 to the 32, as the program does without a range check; only the jumps are proved to fit.
- The assembler's expression folding during parsing, its parser, and ELF headers and relocations.
- The run-time allocator counts memory in headers of 16 bytes and leaves out the 32-bit width of a header's size, and `calloc`. `base` lies below all memory from `sbrk`, which is new and does not overlap what it gave before, as `free` relies on.
- Hash tables: memory for entries is always there, and the bits beyond 32 of counts are not considered. `table_get` returns null for a missing key as well as for a stored null; the model keeps the two apart.
- Preprocess.PreprocessFile: lines arrive joined and with block comments gone; what a directive inside an enabled group does (`#include`, `#define`, `#pragma`) is an abstract step, and evaluating the condition of a skipped `#if` has no effects.
- The lexer, the declaration parser, types and initializers, the linker's and the compiler's files and processes, printing, and the C library: bulky rather than hard, or foreign calls.
