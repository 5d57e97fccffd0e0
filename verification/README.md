# Verified model of the spimulator assembler back end, CPU and memory core

This project models, in Dafny, the parts of a MIPS32 simulator where meaning is easiest to lose:

- the assembler's emitters, which turn an instruction with a 32-bit or still undefined immediate into a
  `lui`/`ori`/`addu` sequence through `$at`, and the label fix-up that patches them later;
- the pseudo-instructions, each a short program with hard-coded skips;
- instruction execution, the delayed-load pipeline, exceptions and interrupts over whole runs;
- segmented memory with automatic stack growth and the memory-mapped console;
- binary encoding, the label hash table and the layout of data;
- two self-contained programs: the POSIX checksum and a first-fit heap.

One instruction set model (`Isa.dfy`) is shared by every execution claim. Default machine throughout: not bare,
little-endian, `delayed_branches` off (except in `DelaySlots.dfy` and where a claim has both modes), `delayed_loads`
off (except in `DelayedLoads.dfy`). The host (console input, timer expiry, the answer of `brk`) is a parameter.

## Files

| file | content |
|---|---|
| `Words.dfy`, `Bits.dfy`, `MemModel.dfy`, `Multiply.dfy`, `Isa.dfy` | machine words and their bits, memory and devices as values, multiplication, one instruction |
| `InstructionMeaning.dfy`, `Calls.dfy` | what each instruction computes, by bits, congruences and comparisons; calls and returns |
| `DelayedLoads.dfy` | the two-slot delayed-load register against immediate loads |
| `Assembler.dfy`, `Legalise.dfy`, `WideImmediates.dfy` | the emitters, the code they produce, executing it |
| `Fixup.dfy`, `ForwardConstants.dfy`, `BranchTargets.dfy`, `AssemblerLoop.dfy` | forward accesses, forward constants (`la`), branches and jumps; the same in place |
| `DelaySlots.dfy` | branches and jumps with their delay slots |
| `Blocks.dfy`, `PseudoSteps.dfy`, `PseudoOps.dfy`, `PseudoArith.dfy`, `Rotate.dfy` | pseudo-instructions |
| `PseudoBranches.dfy`, `BranchAssembly.dfy`, `ForwardBranches.dfy` | compare-and-branch, to defined and to forward labels |
| `ByteMap.dfy`, `Memory.dfy`, `Accesses.dfy`, `Unaligned.dfy`, `UnalignedCode.dfy`, `Devices.dfy` | memory as bytes, the segments in place, loads and stores, unaligned accesses, the console |
| `Exceptions.dfy`, `Timer.dfy`, `RunLoop.dfy` | the exception protocol and the timer over event runs, the run loop in place |
| `Encoding.dfy` | encode and decode |
| `SymbolTable.dfy`, `DataLayout.dfy`, `EmitLoop.dfy` | label table, data layout, the emit loop in place |
| `CrcTable.dfy`, `Cksum.dfy`, `Heap.dfy` | the two programs |

Imperative source is modelled by classes whose methods are proved equal to functions (`RunLoop.Machine`,
`Memory.Segments`, `Devices.Registers`, `AssemblerLoop.TextAssembler`, `SymbolTable.HashTable`,
`EmitLoop.Emitter`, `DataLayout.DataImage`, `Heap.Allocator`, the loops of `Cksum`); the lemmas are about those
functions.

## What the proofs found

Places where the code does not do what its general description says. Each is kept in the model, with a lemma that
exhibits it and the exact condition under which the code is right.

- **A stolen carry.** A forward reference to `L` that waits in a `lui` is patched correctly unless the statement on
  `L`'s own line is itself an access of `L` whose whole value is a negative 16-bit number, and sits two words behind
  that `lui`: its carry goes into a `lui` that is not its own. This hits loads and stores
  (`Fixup.ForwardAccessResolves`, `Fixup.CornerSteals`) and constants: `la $8, L` directly before
  `L: lw $9, L-0x40000c($10)` gives `$8` 0x410008 for 0x400008 (`ForwardConstants.ForwardConstantResolves`,
  `ForwardConstants.CornerStealsConstant`). Branches and jumps are never hit (`Fixup.WaitingSettles`).
- **The branch window moves.** With `delayed_branches` the reachable displacements are -0x7ffc to +0x8000 instead of
  -0x8000 to +0x7fff (`BranchTargets.BranchLandsIff`, and run in `DelaySlots.DelayedBranchReachesIff`).
- **The jump region moves.** With `delayed_branches` the target of `j` and `jal` is worked out after the slot has run,
  so the 256 MB region is that of PC + 8 instead of PC (`DelaySlots.DelayedJumpLandsIff`, against
  `BranchTargets.JumpLandsIff`).
- **An exception in a delay slot is lost.** It is recorded (EXL, EPC at the branch, BD), but the branch then overwrites
  the address of the handler: execution goes on at the target, and for `j` and `jal` in the handler's 256 MB region
  (`DelaySlots.SlotExceptionLost`). An interrupt pending there runs one instruction of the handler in place of the slot
  (`DelaySlots.InterruptReplacesSlot`).
- **`bgt`/`ble` with the immediate 2^31 - 1** always decide wrongly (`PseudoBranches.BranchImmDecidesIff`).
- **`mulo` into `$at`** never traps (`PseudoArith.MuloIntoAtNeverTraps`).
- **`divu` of 0x80000000 by 0xffffffff** leaves HI and LO alone (`PseudoArith.DivuKeepsIff`).
- **An interrupt at an unaligned PC** resumes at the address rounded down (`Exceptions.InterruptReturns`).
- **A label defined twice at address 0** is linked to itself in the list of local labels, and the walk at the end of
  the file never ends (`SymbolTable.ZeroAddressNeverEnds`). It ends if and only if no label is recorded twice while
  local (`SymbolTable.EndsIff`, `SymbolTable.FlushRemovesExactly`).
- **A label defined twice** is reported, but is moved by the alignment that follows, after its uses were patched
  (`DataLayout.RedefinitionMoves`). The addresses handed out stay right if and only if no such move happens
  (`DataLayout.AddressesExactIff`).
- **`mtc0` to Cause** may set and clear the console's interrupt lines, since the mask of writable bits includes them
  (`Devices.CauseWriteForges`); in every other run they agree with the devices (`Devices.RunConsistent`).
- **A heap break that wraps** past 2^32 destroys the tiling (`Heap.GrowthTilesIff`, `Heap.ExtendValid`).
- **Likely branches.** The comment over the delayed branch macro suggests that nullified branches matter only with
  delay slots; the code skips the next instruction after an untaken likely branch in every mode
  (`BranchTargets.UntakenLikelySkips`).

## Model

| member | source | states |
|---|---|---|
| Multiply.UnsignedMultiplyExact | src/run.c:1572-1598 | HI:LO of the 16-bit-limb multiply is the exact 64-bit unsigned product |
| Multiply.SignedMultiplyExact | src/run.c:1600-1622 | HI:LO of the sign-fixing wrapper is the exact signed product in two's complement, INT_MIN included |
| Multiply.AccumulateExact | src/run.c:615-635 | the carries of madd/maddu and the borrows of msub/msubu give HI:LO plus or minus the product, modulo 2^64 |
| Multiply.SignedProductFits | src/run.c:1600-1622 | the signed product fits 32 bits if and only if HI is the sign of LO, and then LO is the product |
| DelayedLoads.ExecFramed | src/run.c:89-122 | an instruction that neither reads nor writes a register commutes with writing that register |
| DelayedLoads.StepSimulates | src/run.c:104-122 | one step through the two-slot shift register simulates one step with immediate loads |
| DelayedLoads.DelayedSimulatesImmediate | src/run.c:89-122 | every exception-free run that leaves the destination of the previous load alone is simulated step for step, up to the loads in flight |
| DelayedLoads.DelayedLoadsAreInvisible | src/run.c:89-122 | after such a run the machines agree on everything except at most the registers still waiting for a load |
| DelayedLoads.HazardIsVisible | src/run.c:89-122 | an instruction that does read the register just loaded sees the old value |
| Legalise.EmitsLegal | src/instruction.c:196-331 | for a known value the three mutually recursive emitters append exactly the legal code for it and record no use |
| WideImmediates.WideImmediateComputes | src/instruction.c:196-331 | executing that code computes rs op imm for every 32-bit immediate: the exact sum for addi, the sum modulo 2^32 for addiu, and, or and exclusive or bit by bit, the signed and unsigned comparison; it changes nothing else but `$at`; exactly when addi overflows it takes exception 12, with EPC at the last instruction and memory, HI and LO as they were |
| InstructionMeaning.ComputingRuns | src/run.c:236-1116 | every computing instruction writes rt or rd and nothing else, with the value its name says: logic and shifts bit by bit, leading bits counted, sums modulo 2^32, signed and unsigned comparisons |
| InstructionMeaning.BranchesRun | src/run.c:259-349 | the sixteen conditional branches test equality, the sign bit or zero, link before the test, and skip when likely and untaken |
| InstructionMeaning.TrapsRun | src/run.c:1028-1104 | a trap instruction raises exception 13 exactly when its comparison, with a sign-extended immediate, holds |
| InstructionMeaning.HiLoRuns | src/run.c:385-760 | the multiply, accumulate, divide and move instructions change HI and LO as named and nothing else |
| InstructionMeaning.MulRuns | src/run.c:733-736 | mul writes the low word of the signed product and leaves the product in HI:LO |
| InstructionMeaning.SumsRun | src/run.c:215-234 | add, addi and sub write the exact result, or raise exception 12 exactly when it has no 32-bit form |
| InstructionMeaning.MovesRun | src/run.c:645-661 | mfhi, mflo, movn and movz |
| InstructionMeaning.ControlRuns | src/run.c:686-716 | mtc0 changes exactly the bits of Status, Cause and Config that can be written, and writing Compare clears the timer's bit of Cause |
| InstructionMeaning.RaiseRecords | src/run.c:1634-1679 | an exception records its code, EXL and, unless EXL was set, the address of the instruction, and changes nothing else |
| InstructionMeaning.BreaksRun | src/run.c:351-355 | break raises exception 9, and an instruction that does not exist exception 10 |
| Bits.XorBit | src/run.c:1106-1112 | a bit of an exclusive or is set if and only if exactly one operand has it |
| Bits.OrBit | src/run.c:750-757 | a bit of an or is set if and only if some operand has it |
| Bits.AndBit | src/run.c:250-257 | a bit of an and is set if and only if both operands have it |
| Bits.SarBit | src/run.c:849-872 | an arithmetic shift right moves the bits down and copies the sign into the upper ones |
| Bits.BitsDetermine | src/run.c:236-1116 | two numbers with the same bits are equal, so the statements by bits have one result |
| Calls.CallLinks | src/run.c:428-444 | jal, jalr and the linking branches, taken or not, leave the address of the next instruction in the link register; jalr jumps to the old value of its register |
| Calls.CallReturns | src/run.c:428-450 | after a call, any run that does not write the link register and jr of it, execution continues behind the call |
| Calls.SavedLinkReturns | src/run.c:428-450 | the same through any register that holds the saved link |
| Calls.RunKeepsRegister | src/run.c:213-1116 | an instruction changes no general register but those it names as written |
| Calls.DelayedCallLinks | src/run.c:428-444 | with delay slots the link is the address behind the slot, unless the slot writes the link register |
| Calls.DelayedCallReturns | src/run.c:428-450 | and a later jr of it continues there |
| Fixup.ForwardAccessResolves | src/symbol-table.c:198-291 | a waiting load or store becomes the code for its full address, through any statements in between, if and only if its carry is not stolen |
| Fixup.ForwardLabelReached | src/symbol-table.c:198-291 | so a forward access addresses exactly base + label + offset |
| Fixup.KnownLabelReached | src/instruction.c:246-293 | an access of a defined label addresses exactly base + label + offset |
| Fixup.WaitingSettles | src/symbol-table.c:198-313 | a waiting instruction other than a `lui` is patched with its expression's final value, whatever is assembled in between and on the label's own line |
| ForwardConstants.ForwardConstantResolves | src/instruction.c:246-331 | a computing immediate of a forward label becomes lui, ori and the register form for label + offset, through any statements and any line, if and only if its carry is not stolen |
| ForwardConstants.ForwardConstantComputes | src/instruction.c:294-331 | executing that code computes rs op value, or traps as the instruction would |
| ForwardConstants.ForwardConstantReached | src/parser.c:1565-1579 | so from source line to result, a forward `la` or immediate computes rs op (label + offset) |
| ForwardConstants.CornerStealsConstant | src/symbol-table.c:260-283 | a `la` whose `lui` gets the carry of another instruction |
| Fixup.EmitAllGrows | src/symbol-table.c:167-183 | assembling any statements keeps the use lists descending and the slots waiting for an undefined label untouched |
| Fixup.CornerSteals | src/symbol-table.c:260-283 | a concrete program in which the carry is stolen |
| BranchTargets.BranchLandsIff | src/symbol-table.c:236-246 | a patched branch lands on its target if and only if the displacement is in the window of its mode |
| BranchTargets.BackwardBranch | src/symbol-table.c:229-246 | a branch to a defined label is one instruction with the field of its final address, whatever its stale offset |
| BranchTargets.ForwardBranch | src/symbol-table.c:198-246 | the same for a label defined later, whatever statement is on the label's line |
| BranchTargets.TakenBranchLands | src/run.c:60-87 | without delay slots a taken branch continues at its landing address |
| BranchTargets.UntakenLikelySkips | src/run.c:60-74 | an untaken likely branch skips the next instruction, also without delay slots |
| DelaySlots.TakenBranchLandsDelayed | src/run.c:60-87 | with delay slots a taken branch continues at its landing address, whatever the slot does, a branch or an exception included |
| DelaySlots.DelayedBranchReachesIff | src/run.c:60-87 | with the patched field it reaches its label if and only if the displacement is in the window of that mode |
| DelaySlots.SlotThenGoal | src/run.c:76-87 | a transfer has the whole effect of its slot, then goes to its goal |
| DelaySlots.SlotExceptionLost | src/run.c:1651-1660 | an exception in a slot sets EXL, EPC to the transfer and BD, and execution continues at the transfer's goal instead of the handler |
| DelaySlots.InterruptReplacesSlot | src/run.c:152-163 | an interrupt pending at a slot is recorded for the transfer, and the handler's first instruction runs instead of the slot's |
| DelaySlots.DelayedBranchRuns | src/run.c:60-87 | a taken branch is its slot followed by the landing address |
| DelaySlots.DelayedJumpLandsIff | src/run.c:424-433 | a delayed jump lands on its target if and only if it is aligned and in the region of PC + 8 |
| DelaySlots.SlotEnds | src/run.c:76-87 | an instruction that is no transfer ends at the next PC |
| DelaySlots.UntakenDelayed | src/run.c:60-74 | an untaken branch runs no slot, links if it links, and skips the next instruction if it is likely |
| DelaySlots.DelayedEretReturns | src/run.c:418-422 | eret runs its slot with EXL off and continues at EPC |
| BranchTargets.JumpLandsIff | src/run.c:424-433 | a patched jump lands on its target if and only if it is aligned and in the same 256 MB region |
| BranchTargets.BackwardJump | src/instruction.c:337-353 | a jump to a defined label gets the field of its address |
| BranchTargets.ForwardJump | src/symbol-table.c:247-259 | the same for a label defined later, whatever statement is on the label's line |
| AssemblerLoop.TextAssembler.ResolveAt | src/symbol-table.c:223-313 | patching in place, with the carry pushed back, is the function the lemmas are about |
| AssemblerLoop.TextAssembler.IType | src/instruction.c:196-244 | the recursive emitter, terminating, appends what the function appends |
| AssemblerLoop.TextAssembler.FullWord | src/instruction.c:246-308 | splitting an immediate in place is the function the lemmas are about |
| AssemblerLoop.TextAssembler.Immediate | src/instruction.c:310-331 | producing a constant in place is the function the lemmas are about |
| AssemblerLoop.TextAssembler.ResolveLabelUses | src/symbol-table.c:198-213 | the loop over the uses, latest first, settles the label |
| AssemblerLoop.TextAssembler.EmitNodes | src/parser.c:2211-2228 | the walk in place, which records labels, emits a statement and only then resolves the labels of its line, reaches the state the lemmas speak of |
| AssemblerLoop.NodesAreLines | src/parser.c:2211-2228 | the flat list of labels and statements with its pending labels is a list of labelled lines |
| PseudoSteps.CodeEmits | src/pseudo-op.c:92-100 | the assembler turns an expansion without symbols into exactly its code |
| PseudoOps.SetCodeIs | src/pseudo-op.c:173-214 | every statement of a set expansion is a single instruction, so the skips of three land |
| PseudoOps.SetComputes | src/pseudo-op.c:173-214 | sle/sleu/sgt/sgtu/sge/sgeu/seq/sne write 1 or 0 as the relation holds, for all values and aliasings, and nothing else changes |
| PseudoOps.SetImmComputes | src/parser.c:1282-1327 | the same against every 32-bit immediate |
| PseudoBranches.BranchDecides | src/parser.c:1602-1701 | the register forms of the compare-and-branch instructions branch exactly when their relation holds |
| PseudoBranches.BranchImmDecidesIff | src/parser.c:1602-1701 | the immediate forms do too, if and only if it is not bgt or ble against 2^31 - 1 |
| BranchAssembly.BranchAssembles | src/parser.c:1602-1701 | a register compare-and-branch to a defined label assembles to its code, with the field of where the branch finally is |
| BranchAssembly.BranchImmAssembles | src/parser.c:1602-1701 | so do the immediate forms; the skip of three in bgtu spans three instructions whatever the immediate |
| BranchAssembly.BleuAssembles | src/parser.c:1692-1697 | bleu, with two branches to the label, each gets the field of its own address |
| BranchAssembly.BranchReaches | src/parser.c:1602-1701 | from source line to landing: a label in the window is reached exactly when the relation holds |
| ForwardBranches.ForwardBranchAssembles | src/parser.c:1602-1701 | a register compare-and-branch to a label defined later ends up as its code, with the field of where the branch is, through any statements |
| ForwardBranches.ForwardBranchImmAssembles | src/parser.c:1602-1701 | so do the immediate forms |
| ForwardBranches.ForwardBleuAssembles | src/parser.c:1692-1697 | and bleu, whose two branches wait for the same label |
| ForwardBranches.CodeStays | src/symbol-table.c:198-213 | code that waits for no label is never touched again |
| ForwardBranches.ForwardBranchReaches | src/parser.c:1602-1701 | from source line to landing for forward labels: reached exactly when the relation holds |
| ForwardBranches.BranchImmReachesIff | src/parser.c:1602-1701 | from source line to landing for the immediate forms: right if and only if not bgt or ble against 2^31 - 1 |
| ForwardBranches.ForwardBranchImmReachesIff | src/parser.c:1602-1701 | the same for forward labels |
| PseudoArith.MuloCodeIs | src/pseudo-op.c:151-171 | the mulo and mulou expansions are one instruction per statement |
| PseudoArith.MuloTrapsIff | src/pseudo-op.c:151-171 | mulo breaks if and only if the signed product does not fit; otherwise rd holds it |
| PseudoArith.MulouTrapsIff | src/pseudo-op.c:151-171 | mulou breaks if and only if the unsigned product is 2^32 or more; otherwise rd holds it |
| PseudoArith.MuloIntoAtNeverTraps | src/pseudo-op.c:160-169 | with `$at` as destination it never breaks |
| PseudoArith.DivCodeIs | src/pseudo-op.c:130-149 | the division expansions are one instruction per statement |
| PseudoArith.DivTrapsIff | src/pseudo-op.c:130-149 | three-operand div/divu/rem/remu break on a zero divisor, otherwise move out the quotient or remainder |
| PseudoArith.DivideExact | src/run.c:385-416 | whenever the instruction divides, quotient and remainder are those of C division |
| PseudoArith.DivuKeepsIff | src/run.c:404-416 | on the one defined pair it does not divide, the answer is right only if HI and LO held it before |
| PseudoArith.AbsComputes | src/parser.c:1328-1340 | abs writes the absolute value, trapping exactly on -2^31 |
| PseudoArith.AbsCodeIs | src/parser.c:1328-1340 | the abs expansion is one instruction per statement |
| Rotate.RotateRegComputes | src/parser.c:1246-1265 | rol and ror by a register move the right number of upper bits below the others, for every aliasing |
| Rotate.RotateImmComputes | src/parser.c:1266-1281 | the same by a constant |
| Rotate.RotatedBack | src/parser.c:1246-1281 | a left and a right rotation by the same distance undo each other |
| Rotate.RotatedOnce | src/parser.c:1246-1281 | a rotation has one result |
| Accesses.LoadReads | src/run.c:452-500 | an aligned load puts the bytes at its address in the register, sign- or zero-extended as named, changing nothing else |
| Accesses.StoreWrites | src/run.c:773-795 | an aligned store changes exactly its bytes |
| Accesses.LoadsRun | src/run.c:452-500 | each load by name: the bytes at base plus signed offset, the first least significant, extended by sign or with zeros |
| Accesses.StoresRun | src/run.c:773-795 | each store by name: so many low bytes of the register, and no other byte |
| Accesses.FaultsRun | src/memory.c:362-476 | an access off its boundary raises exception 4 or 5, one where there is nothing exception 7, with the address in BadVAddr; a load then writes 0 |
| Accesses.FaultingLoadWritesZero | src/memory.c:362-411 | a faulting load raises the right exception at the right address and still writes 0 |
| Unaligned.UswWrites | src/run.c:917-1019 | usw at any alignment changes exactly four bytes, to the little-endian bytes of the register |
| Unaligned.UlwReads | src/run.c:508-613 | ulw at any alignment loads the word whose bytes are there, changing nothing else |
| Unaligned.UnalignedRoundTrip | src/parser.c:1506-1544 | ulw reads back what usw stored |
| UnalignedCode.PairAssembles | src/parser.c:1506-1544 | for every 32-bit offset the expansions are the legal code of their two accesses |
| UnalignedCode.ReachAccess | src/instruction.c:246-293 | the legal code of an access reaches it with the address base + offset, changing only `$at` |
| UnalignedCode.UswStores | src/parser.c:1533-1544 | usw with any offset stores the register's four bytes at base + offset |
| UnalignedCode.UlwLoads | src/parser.c:1506-1518 | ulw with any offset loads the word there |
| UnalignedCode.StoredIsLoaded | src/parser.c:1506-1544 | executing usw and then ulw of the same address gives the value back |
| ByteMap.ReadRefines | src/memory.c:271-302 | a read of any width returns the bytes of one byte map, sign-extended |
| ByteMap.WriteRefines | src/memory.c:314-348 | a write of any width sets exactly its bytes |
| ByteMap.GrowthKeepsBytes | src/memory.c:188-214 | stack growth keeps every byte, covers the request and zero-fills the rest |
| ByteMap.ReadOutcome | src/memory.c:362-411 | for every address: address error, the bytes there, text, growth exactly when data_top < addr < stack_bot and stack_bot - addr < 0x1000000, failing exactly at the limit, one of four device addresses, or a bus error |
| ByteMap.WriteOutcome | src/memory.c:413-476 | the same for writes, the bytes stored into the grown stack |
| ByteMap.LocatedIff | include/memory.h:28-86 | the addresses in memory are those of the three segments |
| ByteMap.GrowingRead | src/memory.c:398-406 | a read that grows the stack returns what reading again returns, and fails exactly at the limit |
| ByteMap.GrowingWrite | src/memory.c:453-471 | a write that grows the stack always finds its address: the bus error after growth is never raised |
| ByteMap.BytesPersist | src/memory.c:271-476 | over every run of accesses of all widths, a byte in memory from the start is the one last written at its address |
| ByteMap.BytesAtEnd | src/memory.c:188-476 | every byte in memory at the end of a run is the last one written, else the initial one, else the zero of growth |
| Memory.DataGrowthKeepsBytes | src/memory.c:162-182 | data growth zero-fills the new range and changes no other byte |
| Memory.Segments.GrowStack | src/memory.c:188-214 | the copying loop produces the grown stack, or refuses exactly at the limit |
| Memory.Segments.GrowData | src/memory.c:162-182 | the clearing loop produces the grown data segment, or refuses exactly at the limit |
| Memory.Segments.ReadMem | src/memory.c:271-302 | reading in place returns and leaves what the model says, faults and growth included |
| Memory.Segments.WriteMem | src/memory.c:314-348 | writing in place leaves what the model says, faults and growth included |
| Devices.RunConsistent | src/memory.c:486-608 | over every interleaving with exceptions, the timer and `mtc0`, each interrupt bit is set if and only if its device is ready and enabled, at every point, if and only if the program never writes other device lines into Cause |
| Devices.CauseWriteForges | src/run.c:702-707 | writing Cause can raise a line whose device is idle |
| Devices.ResetConsistent | src/memory.c:486-492 | the devices start that way |
| Devices.OutputsApart | src/memory.c:551-563 | two accepted output characters are at least 101 polls apart |
| Devices.ReadyAgainIff | src/memory.c:514-526 | while nothing is accepted the transmitter is ready again after exactly that many polls |
| Devices.TypedIsRead | src/memory.c:497-510 | a character typed when the receiver polls is what a program reads at 0xffff0004 within the next 100 polls, over every run between, with READY set until then |
| Devices.TypedIsOverwritten | src/memory.c:497-510 | after exactly 100 polls the next character overwrites one not yet read |
| Devices.ControlReadsBack | src/memory.c:529-608 | a control word reads back READY in bit 0 and the interrupt enable last written in bit 1 |
| Devices.Registers.PollDevices | src/memory.c:497-527 | polling in place is the model's poll |
| Devices.Registers.WriteDevice | src/memory.c:529-583 | a device write in place is the model's write |
| Devices.Registers.ReadDevice | src/memory.c:587-608 | a device read in place is the model's read |
| Exceptions.ExecTraps | src/run.c:1634-1679 | every instruction but eret leaves Status and EPC alone or takes an exception at its own PC |
| Exceptions.HandlerKeepsEpc | src/run.c:1651-1668 | while EXL is set, through any faults and interrupts, EPC and Status stand still |
| Exceptions.EpcChangesOnlyWithExlClear | src/run.c:1634-1679 | at every point of every run EPC changes only if EXL was clear, and then to the interrupted instruction with the handler entered |
| Exceptions.InterruptDeliveredIff | src/run.c:152-163 | at every point of every run an interrupt is delivered if and only if enabled, EXL clear, and some line pending and unmasked |
| Exceptions.InterruptReturns | src/run.c:418-422 | after a taken interrupt and any handler, eret resumes at the interrupted address rounded down, which is that address if and only if it was aligned |
| Exceptions.PolledTakes | src/memory.c:497-510 | the poll of an I/O interval puts the character typed into the receiver's buffer |
| Timer.TimerRises | src/run.c:1525-1530 | over every run that leaves Count, Compare and Cause to the timer, Count is the number of ticks further and the timer's line is on if and only if it was on or Count has reached Compare |
| RunLoop.Machine.Run | src/run.c:129-204 | the two nested loops perform a run of the event machine, paced by the I/O interval, with the program's own instructions, and say how they ended: steps used up, forced break, breakpoint, or an instruction that cannot run |
| RunLoop.Machine.RaiseException | src/run.c:1634-1679 | raising in place is the model's raise |
| RunLoop.Machine.BumpTimer | src/run.c:1525-1530 | the timer tick in place is the model's tick |
| RunLoop.Machine.HandleException | src/syscall.c:157-162 | the handler address is set and the flag cleared, nothing else |
| Encoding.Search | src/spim-utils.c:438-442 | binary search of any sorted table of the instructions finds the row with the key, or that there is none |
| Encoding.LookupIff | include/opcodes.h:104-553 | that row is exactly the instruction with that key |
| Encoding.KeysUnique | include/opcodes.h:104-553 | no two integer instructions share a key |
| Encoding.OtherRowsApart | include/opcodes.h:104-553 | the remaining rows outside coprocessors 1 and 2 have keys of their own |
| Encoding.OpcodeTableKeys | include/opcodes.h:104-553 | the instructions with an opcode of their own have that of the MIPS32 opcode table in bits 31 to 26, and zeros below |
| Encoding.SpecialTableKeys | include/opcodes.h:104-553 | the SPECIAL instructions have their function code in bits 5 to 0, and zeros above |
| Encoding.RegimmTableKeys | include/opcodes.h:104-553 | the REGIMM instructions have opcode 1 and their code in bits 20 to 16 |
| Encoding.Special2TableKeys | include/opcodes.h:104-553 | the SPECIAL2 instructions have opcode 0x1c and their function code |
| Encoding.Cop0TableKeys | include/opcodes.h:104-553 | the moves to and from coprocessor 0 have opcode 0x10 and their code in bits 25 to 21 |
| Encoding.CoTableKeys | include/opcodes.h:104-553 | the coprocessor 0 operations have bit 25 set and their function code |
| Encoding.FieldPlaces | src/instruction.c:1129-1233 | rs, rt, rd, shamt, immediate and target are at the bits where MIPS32 has them |
| Encoding.KeyLeavesFields | src/instruction.c:1129-1233 | the key is zero in every field the instruction's form encodes |
| Encoding.RoundTrip | src/instruction.c:1433-1438 | decoding an encoded instruction with zero unused fields gives it back |
| Encoding.EncodeInjective | src/instruction.c:1129-1233 | no two such instructions have the same encoding |
| SymbolTable.StepRefines | src/symbol-table.c:66-154 | every operation acts on every name as on a finite map |
| SymbolTable.StepList | src/symbol-table.c:104-154 | and puts a label on the front of the local list exactly when it defines it while not global |
| SymbolTable.RunOk | src/symbol-table.c:66-154 | in every run each name is in its own bucket and appears once |
| SymbolTable.SameNode | src/symbol-table.c:104-127 | a name keeps its node for as long as the file lasts |
| SymbolTable.EndsIff | src/symbol-table.c:318-323 | following next_local ends if and only if no label was recorded while already on the list, and then visits the labels recorded, latest first |
| SymbolTable.FlushRemovesExactly | src/symbol-table.c:318-341 | the end of a file is reached if and only if no label was recorded twice while local, and then exactly those labels are gone |
| SymbolTable.FlushOk | src/symbol-table.c:318-341 | a flushed table is well formed for the next file |
| SymbolTable.NonzeroRecordsOnce | src/symbol-table.c:135-152 | with nonzero addresses no label is recorded twice |
| SymbolTable.ZeroAddressNeverEnds | src/symbol-table.c:132-154 | a label defined twice at 0 links to itself and the flush never returns |
| SymbolTable.HashTable.GetHash | src/symbol-table.c:66-90 | the two loops find the slot and the first entry of that name |
| SymbolTable.HashTable.RecordLabel | src/symbol-table.c:132-154 | recording in place, next_local overwritten, is the model's; it fails exactly on a second definition |
| SymbolTable.HashTable.MakeLabelGlobal | src/symbol-table.c:158-163 | marking a label global in place is the model's |
| SymbolTable.HashTable.FlushLocals | src/symbol-table.c:318-341 | following next_local and unlinking in place is the model's flush, whenever the list ends |
| DataLayout.LabelsReachDatum | src/parser.c:2211-2228 | all labels of a run, .globl between them, end at the first datum of the directive: the nearest multiple of 2^n at or above the current location; datum k is k * 2^n bytes behind it |
| DataLayout.AlignedUp | src/data.c:71-87 | alignment gives the nearest multiple of 2^n at or above, and 0 exactly when there is none below 2^32 |
| DataLayout.AlignMoves | src/instruction.c:90-102 | .align moves the current location and exactly the labels of the line to the nearest multiple |
| DataLayout.LabelsApart | src/parser.c:2211-2228 | labels with only instructions between them are four bytes per instruction apart |
| DataLayout.SpaceApart | src/parser.c:2321-2323 | .space puts labels that many bytes apart |
| DataLayout.SegmentsResume | src/parser.c:2278-2309 | a segment directive goes to its address or to where that segment was left, and moves no other segment |
| DataLayout.ForwardUsePatched | src/symbol-table.c:198-213 | a place that waits for a label is given an address for it by the first node after the label, through any nodes in between |
| DataLayout.AddressesFinal | src/parser.c:386-412 | in every run defining each label once, every use is given the address the label has at the end |
| DataLayout.AddressesExactIff | src/parser.c:386-412 | in every run, labels defined however often, the addresses handed out stay right if and only if no node moves a label that was handed out |
| DataLayout.NodeExactIff | src/parser.c:2211-2228 | the same for each kind of node, .align in text included |
| DataLayout.RunFlagsAgree | src/parser.c:1070-1075 | the parser never moves labels for an alignment the data module will not do |
| DataLayout.RedefinitionMoves | src/symbol-table.c:136-139 | a label defined twice moves after its use was given an address |
| DataLayout.DataImage.StoreWord | src/data.c:208-228 | a word goes to its four little-endian bytes at every alignment |
| DataLayout.DataImage.StoreHalf | src/data.c:186-206 | a halfword goes to its two bytes at every alignment |
| DataLayout.DataImage.StoreString | src/data.c:159-175 | a string goes to consecutive bytes, with its terminator when asked |
| DataLayout.PutBytesAt | src/data.c:177-228 | each byte stored lands at its own address and no other changes |
| EmitLoop.Emitter.FixCurrentLabels | src/parser.c:402-412 | the loop moves exactly the labels of the line |
| EmitLoop.Emitter.Clear | src/parser.c:392-400 | the loop resolves and empties the list |
| EmitLoop.Emitter.EmitFile | src/parser.c:2211-2228 | the walk in place reaches the layout the lemmas speak of |
| EmitLoop.Distribute | src/symbol-table.c:198-213 | the loop over the uses keeps the others and gives each use of the label its address |
| Cksum.TableDivides | examples/src/fileio/cksum/cksum-core.c:52-95 | every table entry is eight division steps of its index |
| Cksum.StepByteRegisters | examples/src/fileio/cksum/cksum-core.c:103 | the table step is the bit-by-bit register over the byte |
| Cksum.RegisterDivides | examples/src/fileio/cksum/cksum-core.c:100-111 | feeding bits at the top is long division of the message times x^32 |
| Cksum.TableComputesPosix | examples/src/fileio/cksum/cksum-core.c:100-111 | the table-driven form is the definition of IEEE Std 1003.1, cksum |
| Cksum.CksumOf | examples/src/fileio/cksum/cksum-core.c:100-111 | the program computes that definition |
| Cksum.CksumStream | examples/src/fileio/cksum/cksum.c:113-124 | the block loop computes it for every split of the input, the length taken modulo 2^32 |
| Heap.BlocksDisjoint | pgu/src/c/alloc.c:36-68 | no block overlaps another, payload or header |
| Heap.TilesCover | pgu/src/c/alloc.c:36-68 | every byte of the heap is in a block |
| Heap.RunTiles | pgu/src/c/alloc.c:36-68 | after every run of requests the blocks tile the heap exactly |
| Heap.LiveStays | pgu/src/c/alloc.c:36-68 | a live block keeps place and size and is not given out again |
| Heap.GrowthTilesIff | pgu/src/c/alloc.c:50-61 | growth keeps the tiling if and only if the break does not wrap |
| Heap.PayloadWrite | pgu/src/c/alloc.c:36-68 | writing a payload byte leaves every header as it was |
| Heap.Allocator.Allocate | pgu/src/c/alloc.c:36-63 | the walk terminates, takes the first region marked 1 whose stored size is enough, without moving the break, or else extends the heap by the header and the size, and touches only headers; the heap stays well formed exactly when a granted break does not wrap |
| Heap.FirstFitIff | pgu/src/c/alloc.c:39-47 | the first fit is the first region whose marker word is 1 and whose size word is at least the request |
| Heap.ExtendValid | pgu/src/c/alloc.c:50-61 | the extended heap is well formed if and only if the new break does not wrap |
| Heap.Allocator.Deallocate | pgu/src/c/alloc.c:65-68 | releasing a live pointer sets the marker word before it to 1, frees its block and changes no other byte |
| Heap.Allocator.ReleaseAndAllocate | pgu/src/c/alloc.c:36-68 | asking again for at most the stored size of a released block does not grow the heap and returns it or an earlier block; exactly it if no earlier region has room |
| Heap.Allocator.WritePayload | pgu/src/c/alloc.c:5-10 | a program storing into a live payload keeps the heap well formed |
| Heap.Allocator.constructor | pgu/src/c/alloc.c:28-34 | the heap starts empty one byte above the break |

## Left out

- Floating point, coprocessors 1 and 2, system calls, and MIPS32 revision 2 instructions.
- With delay slots: polling the console and the timer in the nested run, fetching a slot outside the text; `DelaySlots.StepSlots` bounds how deep slots may nest in slots, and the lemmas hold for every bound.
- Memory.Segments.ReadMem: reading a text segment as data, where the original returns the encoding of the instruction, leaves the model; so do instructions placed in the data segment.
- Memory.Segments.WriteMem: writing a text segment as data, where the original decodes a new instruction, leaves the model.
- SymbolTable.HashTable.FlushLocals: requires that the list of local labels ends; on any other list the original does not return, which `SymbolTable.FlushRemovesExactly` states.
- Labels held in the small-data area addressed through `$gp`, `.extern`, `.comm` and `.lcomm`.
- Big-endian and bare-machine paths, double-word pseudo-instructions, `ulh`, `ulhu` and `ush`; unaligned accesses of labels.
- Forward `.word label+offset`, which the code overwrites with the bare address; `DataLayout` has no offsets.
- Kernel data growth, whose zeroing loop covers the wrong range; data growth inside `increment_data_pc`.
- Stack sizes of 2^30 bytes and more, where doubling overflows the original's `int`.
- The exception raised when patching the first instruction of a text segment looks at the word before it.
- Trap-immediate instructions with a wide immediate: the original stops, the model emits the constant only.
- Error messages, warnings, listing events and narration.
- The registers and memory of one instruction are modelled as values (`Isa.Exec`); `RunLoop.Machine` updates its fields from that result, so the order of updates inside one instruction is not captured. The delayed-load slots and the pseudo-instruction expanders are values too: a pair of slots, and a list of statements.
- Chains of the label table are sequences of nodes with identities; `next_local` is a map from node to node. The warning about undefined local symbols is left out.
- The heap's system call is a yes or no; a `brk` that fails but returns a nonzero address is not modelled.
- Running an instruction that still waits for a label, which stops the original; instruction timing.
- `ulw` whose destination is its base register: the first half overwrites the address, so the round trip is stated for other registers.
