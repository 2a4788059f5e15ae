# Verified model of the RV32IMC simulator

A Dafny model of the core of this RISC-V simulator and of its disassembler, with proofs of what they promise. The
simulator is one hart (RV32IMC, four privilege levels, the machine timer interrupt) stepped by `step` and `commit` over a
sparse paged memory; the disassembler decodes, expands, lifts and prints one instruction at a time.

## How it is organised

| files | what they hold |
|---|---|
| `FlatMemory`, `SparseMemory`, `Loader` | the page store as the class `AddressRouter`, proved against a flat memory of 2^32 bytes; the block write and the ELF load loop |
| `Arith`, `Alu`, `AluMeaning` | RV32M arithmetic on mathematical integers, the ALU switch and the variadic OR-fold dispatcher, and what its results are as integers |
| `HartSpec`, `Model` | the hart twice: as functions on values, and as classes updated in place whose methods are proved to compute those functions |
| `HartRuns`, `HartInterrupts`, `HartLogs`, `HartHalt`, `HartMemory`, `HartStores`, `HartTicks`, `HartTimer` | theorems over whole runs of the hart |
| `HartEffects` | what whole rounds leave behind, in numbers: the next pc, the causes of traps, CSR values, branches, the interrupt |
| `HartMeaning` | the hart and the disassembler agree on what an instruction does |
| `Timer` | the high/low/high read of the 64-bit counter and the three-store compare update |
| `DisasTables`, `DisasDecode`, `DisasCompressed`, `DisasPseudo`, `DisasPipeline` | the disassembler: tables, decoding, decompression, lifting, and the struct the passes update |
| `DisasLines`, `DisasPrinted`, `DisasFence`, `DisasText` | what the printed lines mean to an assembler, when that is what was disassembled, what a line loses, and the text functions of the formatter |
| `DisasResults`, `DisasSystem` | what the RV32IM instructions leave, as integers; the privileged words, and the names of CSR reads and writes |
| `Architecture`, `CompressedSpec`, `DisasMeaning`, `DisasRoundTrip` | what instructions mean, chapter 16 of the ISA manual written out independently, the encoding formats |

Machine words are bit-vectors of the width the source uses; addresses and register numbers are integers with the wrap
written out. A run is a sequence of rounds (`step`, then `commit`) with ticks of the timer thread between them; a tick inside a round
comes to the same as one at its edge (`HartTicks.RoundAbsorbsTicks`), where the one memory access of an instruction is
taken as one instant. Every theorem over runs holds for every decoder: `decode` and `decode16` are arbitrary functions from words to decoded
instructions. `offset(x, lo, hi)` is taken as bit-field extraction, `program_counter` as a pair of a current and a next
value (`set` writes next, `update` copies it), `masks::tvec::base_addr` as the mask that clears the low two bits. A C++
exception is the outcome `Threw`, which ends the run.

The standards referred to are the RISC-V Unprivileged ISA 20191213 and the RISC-V Privileged ISA v1.11.

## Where the code differs from what one would expect

These are kept as the code has them, and the theorems say so.

- Only byte accesses are routed through the timer windows: wider accesses, and the 64-bit comparison that decides whether
  the timer interrupt is asserted, go straight to the page store. README.md:68 of the repository lists timer interrupts
  as supported, but the ticks of the timer thread reach the mtime window only: over a run the interrupt is asserted exactly
  by what the program has stored at the two addresses (`HartTimer.AssertedOverRun`). A program that never stores at mtime, as
  timer.c never does, is never interrupted (`HartTimer.NeverInterrupted`), and the bytes there being zero is the exact
  condition (`HartTimer.SilentIffZero`); `HartTimer.TickIsNotSeen` is the input. A program notices a tick exactly when it
  loads a byte of the window into a register other than x0 (`HartTicks.IgnoresWindowIffUnnoticed`).
- After an access fault `step` traps and then executes the fetched instruction all the same.
- An ecall leaves cause 0x11 from machine mode, 9 from hypervisor and 0x10 from supervisor mode (`HartEffects.EcallRound`), where
  table 3.6 of the Privileged ISA has 11 and 9, in decimal, for machine and supervisor mode. The pc saved for an illegal
  instruction or an access fault is the next word, rounded down to a multiple of four (`HartEffects.SavedPcValue`).
- `csrrc` and `csrrci` use the logical not of their operand; `csr` compares the *number* of rs1 with the privilege; a CSR
  index is truncated to 16 bits on its way to the write (no access bit changes by that:
  `HartRuns.TruncatedIndex`).
- A trap taken below machine mode saves its pc in that mode's own register, where `mret` does not look: the return after such
  an interrupt ends in machine mode and at an old mepc (`HartInterrupts.MretAfterInterrupt`). `mret` executes in any mode, and
  from the second one on ends in machine mode while no CSR instruction writes mstatus
  (`HartInterrupts.LaterMretIsMachine`), which is why
  `HartRuns.PrivilegeConfinement` is about the rounds while the mode stays low. The pc saved for an interrupt is the next
  word after the pc.
- The block write copies to the end of the last page whatever the segment's size, so it reads past the segment's bytes
  unless the segment is empty or ends on a page boundary (`SparseMemory.StaysInside`), and the order of overlapping page
  tails matters: a file byte survives exactly when no later extent covers it (`Loader.ReadableIffUncovered`, with an input in `Loader.DescendingSegmentsClobber`).
- The compare update can show a spurious interrupt when the new high word is all ones (`Timer.UpdateIsQuiet` has the exact
  condition).
- The disassembler marks `c.andi` with a zero immediate illegal, as it does shifts by zero (`DisasCompressed.WordExpands`).
- It shows `jalr x0, imm(ra)` as `ret` without looking at the immediate (`DisasLines.RetIsExactOnlyForZero`).
- It prints the operand of `lui` and `auipc` already shifted, where the assembler's operand is the upper twenty bits: the word
  0x12345537 is printed as `lui a0,305418240` and not as `lui a0,0x12345` (`DisasLines.LuiIsMisprinted`). These two, and
  nothing else, make the line of an RV32IM instruction other than fence, fence.i and ecall say something else
  (`DisasLines.LineIsExact`).
- It prints a fence by its two sets alone, so fence.tso, the word 0x8330000F, is printed as `fence rw,rw`
  (`DisasFence.TsoIsMisprinted`); the line is right exactly when fm is zero and neither set is empty
  (`DisasFence.FenceLineIsExact`).
- `append` keeps room for the terminator exactly when it is given fewer characters than there are places left, or leaves the
  text alone (`DisasText.AppendLeavesRoom`), and a padding loop ends exactly when the buffer can hold the column
  (`DisasText.PaddingEndsIffItFits`).

## Model

| member | source | states |
|---|---|---|
| `SparseMemory.AddressRouter.EnsurePageExists` | riscv32-sim/include/memory/sparse_memory.hpp:132-139 | Making a page on demand returns its page-aligned key and changes no byte of the flat memory |
| `SparseMemory.AddressRouter.PageRead16` | riscv32-sim/include/memory/sparse_memory.hpp:151-154 | A 16-bit read returns the two little-endian bytes of the flat memory, across pages and around the top of the address space |
| `SparseMemory.AddressRouter.PageRead32` | riscv32-sim/include/memory/sparse_memory.hpp:156-159 | The same for 32 bits, composed from two 16-bit reads |
| `SparseMemory.AddressRouter.PageRead64` | riscv32-sim/include/memory/sparse_memory.hpp:161-164 | The same for 64 bits |
| `SparseMemory.AddressRouter.PageWrite8` | riscv32-sim/include/memory/sparse_memory.hpp:166-170 | A byte write changes exactly that byte of the flat memory and keeps the page invariant |
| `SparseMemory.AddressRouter.PageWrite16` | riscv32-sim/include/memory/sparse_memory.hpp:172-176 | A 16-bit write is the flat store of its two bytes, page-straddling and wrapping included |
| `SparseMemory.AddressRouter.PageWrite32` | riscv32-sim/include/memory/sparse_memory.hpp:178-182 | The same for four bytes |
| `SparseMemory.AddressRouter.PageWrite64` | riscv32-sim/include/memory/sparse_memory.hpp:184-188 | The same for eight bytes |
| `SparseMemory.AddressRouter.constructor` | riscv32-sim/src/memory/sparse_memory.cpp:12-15 | A new memory is zero everywhere, both timer windows included |
| `FlatMemory.LastWriteWins` | riscv32-sim/include/memory/sparse_memory.hpp:151-188 | After any sequence of stores of any lengths every address holds the byte last written there; the reference is computed from the history alone |
| `FlatMemory.PeekPoke` | riscv32-sim/include/memory/sparse_memory.hpp:151-188 | Reading back what was stored gives the bytes stored, wherever the store lies |
| `FlatMemory.PokeFrame` | riscv32-sim/include/memory/sparse_memory.hpp:166-188 | A store changes no byte outside its own |
| `SparseMemory.AddressRouter.Write` | riscv32-sim/include/memory/sparse_memory.hpp:119-130 | The block write ends, and stores the source up to the end of the last page it enters: the first bytes, the tail with the source continuation, and nothing else |
| `SparseMemory.AddressRouter.WriteBlock` | riscv32-sim/include/memory/sparse_memory.hpp:126 | One copy into a page is the flat store of the block that runs to the page end |
| `SparseMemory.ExtentStep` | riscv32-sim/include/memory/sparse_memory.hpp:122-129 | The page-rounded extent shrinks by the copied block at each turn of the loop |
| `SparseMemory.AddressRouter.Read8` | riscv32-sim/src/memory/sparse_memory.cpp:18-26 | A routed byte read looks in the mtime window, then the mtimecmp window, then the pages |
| `SparseMemory.AddressRouter.Write8` | riscv32-sim/src/memory/sparse_memory.cpp:28-36 | A routed byte write changes one byte, of the window or of the pages |
| `SparseMemory.StaysInside` | riscv32-sim/include/memory/sparse_memory.hpp:119-130 | The block write reads no more than the bytes it is given if and only if there are none or they end on a page boundary |
| `Loader.Load` | riscv32-sim/src/loader.cpp:29-39 | The fold over the loadable segments leaves the memory of the stores of their page-rounded extents, in order |
| `Loader.DisjointSegmentsReadable` | riscv32-sim/src/loader.cpp:29-39 | Segments with disjoint page-rounded extents are all readable after the load, in any order, and what no extent reaches keeps its value |
| `Loader.AscendingSegmentsReadable` | riscv32-sim/src/loader.cpp:29-39 | Segments in ascending order with disjoint file bytes are all readable, even inside one page |
| `Loader.ReadableIffUncovered` | riscv32-sim/src/loader.cpp:29-39 | A file byte is readable after the load whatever the files contain, if and only if no later extent of the layout covers its address, nor the wrapped tail of its own segment |
| `Loader.LoadedByte` | riscv32-sim/src/loader.cpp:29-39 | At every address the load leaves the byte of the last segment whose page-rounded extent includes it |
| `Loader.SegmentReadable` | riscv32-sim/src/loader.cpp:29-39 | A file byte is readable as soon as no later segment comes over it |
| `Loader.DescendingSegmentsClobber` | riscv32-sim/include/memory/sparse_memory.hpp:119-130 | In descending order inside one page the copied page tail wipes out the earlier segment: a concrete case |
| `Arith.Mulhu` | riscv32-sim/include/iss/arith.hpp:33-46 | No intermediate of the 16-bit-halves algorithm overflows, and it returns floor(a*b / 2^32) |
| `Arith.Mulh` | riscv32-sim/include/iss/arith.hpp:48-56 | The complement trick on the magnitudes returns floor of the signed product over 2^32, -2^31 included |
| `Arith.Mulhsu` | riscv32-sim/include/iss/arith.hpp:58-65 | The same for signed times unsigned |
| `Arith.ComplementIsNegation` | riscv32-sim/include/iss/arith.hpp:53-55 | Complementing the high word and adding one when the low word is zero negates the 64-bit product |
| `Arith.FullProduct` | riscv32-sim/src/iss/model.cpp:419-429 | Each high word joined with the low word of the product is the full 64-bit product |
| `Alu.MulJoinsHigh` | riscv32-sim/src/iss/model.cpp:419-429 | Each high multiplication joined with what mul leaves in rd is the full 64-bit product: unsigned, signed and mixed |
| `Arith.DivisionIdentity` | riscv32-sim/src/iss/model.cpp:441-474 | Dividend = divisor * quotient + remainder modulo 2^32 for all operands, zero divisors and -2^31 / -1 included |
| `Arith.ExactDivision` | riscv32-sim/src/iss/model.cpp:441-474 | Outside the corner cases the identity is exact, the remainder is smaller than the divisor and has the sign of the dividend or is zero |
| `Alu.ExecOpIsDoAlu` | riscv32-sim/benchmark/alu_static_variadic.hpp:14-134 | Each of the specialisations computes what its case of the switch computes |
| `Alu.FoldAgreesWithSwitch` | riscv32-sim/benchmark/alu_static_variadic.hpp:136-155 | For every list of operations, with or without duplicates, the OR-fold over the specialisations returns what the switch returns if the operation is listed, and throws exactly when it is not |
| `Alu.FoldHit` | riscv32-sim/benchmark/alu_static_variadic.hpp:146 | When the requested operation is listed, once or more often, the fold returns what its specialisation computes |
| `Alu.StaticDispatchIsTotal` | riscv32-sim/benchmark/alu_static_variadic.hpp:157-163 | The list do_alu_static is instantiated with covers every operation of the switch |
| `AluMeaning.SumOnValues` | riscv32-sim/src/iss/model.cpp:388-391 | Adding two words adds their values modulo 2^32 |
| `AluMeaning.DifferenceAndTarget` | riscv32-sim/src/iss/model.cpp:393-413 | sub leaves the difference of the values modulo 2^32, and jalr goes to the sum with its low bit cleared |
| `AluMeaning.BitwiseOnBits` | riscv32-sim/src/iss/model.cpp:379-386 | or, and and xor on every bit, a bit being a digit of the value |
| `AluMeaning.ShiftsOnValues` | riscv32-sim/src/iss/model.cpp:396-403 | For every amount below 32: sll multiplies the value by 2^n modulo 2^32, srl divides it by 2^n, and sra divides the signed value by 2^n rounding down |
| `AluMeaning.ComparisonsOnValues` | riscv32-sim/src/iss/model.cpp:405-410 | slt and sltu leave one exactly when the signed and the unsigned values are in order, zero otherwise |
| `AluMeaning.BelowOnValues` | riscv32-sim/src/iss/model.cpp:409-410 | The order of the words is the order of their values |
| `AluMeaning.UnsignedDivision` | riscv32-sim/src/iss/model.cpp:441-455 | What divu and remu leave for the same operands: dividend = divisor * quotient + remainder with the remainder below the divisor, and for a zero divisor all ones and the dividend |
| `AluMeaning.SignedDivision` | riscv32-sim/src/iss/model.cpp:457-474 | What div and rem leave: the exact identity with a remainder smaller than the divisor and with the sign of the dividend, -1 and the dividend for a zero divisor, the dividend and zero on overflow |
| `Timer.Mtime` | runtime/basic/src/timer.c:37-50 | For every interleaving with a counter whose high word never decreases, the value read is the whole counter at the instant of the accepted low-word read, and the loop ends |
| `Timer.Compare.Timer` | runtime/basic/src/timer.c:54-68 | The handler leaves the next compare value, and the comparator has seen exactly the three intermediate values on the way |
| `Timer.UpdateIsQuiet` | runtime/basic/src/timer.c:54-66 | No intermediate compare value raises an interrupt the new value would not raise, if and only if the new high word is below all ones or the old low word is not below the new one |
| `Timer.HandlerIsQuiet` | runtime/basic/src/timer.c:54-68 | Away from the end of the range the handler never raises a spurious interrupt |
| `Timer.GuardIsNeeded` | runtime/basic/src/timer.c:58-66 | Without the all-ones store first, a spurious interrupt exists |
| `Model.RegisterFile.Write` | riscv32-sim/src/reg_file.cpp:14-18 | A register write changes that register and never x0 |
| `Model.RegisterFile.WriteLogged` | riscv32-sim/src/reg_file.cpp:20-32 | The logged overload also appends the old and the new value |
| `Model.CsrRegisters.WriteLogged` | riscv32-sim/include/zicsr/csr_file.hpp:66-78 | A logged CSR write changes one CSR and appends the old and the new value |
| `Model.Model.Trap` | riscv32-sim/src/iss/model.cpp:131-176 | trap computes Exception, or TimerTrap when the cause is the timer interrupt, refused or taken |
| `Model.Model.SavePc` | riscv32-sim/src/iss/model.cpp:178-198 | save_pc writes the exception pc of the current mode, and runs the exit call for an ecall |
| `Model.Model.HandleSysExit` | riscv32-sim/src/iss/model.cpp:312-317 | ecall with 93 in a7 writes a0 to tohost and ends the simulation |
| `Model.Model.HandleCsr` | riscv32-sim/src/iss/model.cpp:200-258 | csr computes ExecCsr on every branch: traps, throws, reads only, or writes one CSR |
| `Model.Model.HandleMret` | riscv32-sim/src/iss/model.cpp:319-342 | mret pops the interrupt-enable stack, restores the pc and the privilege |
| `Model.PushAssignments` | riscv32-sim/src/iss/model.cpp:150-155 | The four bit assignments of trap, in their order, push the interrupt-enable stack |
| `Model.PopAssignments` | riscv32-sim/src/iss/model.cpp:327-332 | The four bit assignments of handle_mret pop it |
| `Model.Model.SetPending` | riscv32-sim/src/iss/model.cpp:344-349 | set_pending raises bit 7 of mip through a logged write |
| `Model.Model.LoadFrom` | riscv32-sim/src/iss/model.cpp:260-284 | load returns the extended value of the bytes at the address |
| `Model.Model.HandleStore` | riscv32-sim/src/iss/model.cpp:286-305 | store writes its bytes and ends the simulation exactly when its address is tohost |
| `Model.Model.HandleAlu` | riscv32-sim/src/iss/model.cpp:97-116 | handle_alu writes rd, with the link address and the jump for jal and jalr |
| `Model.Model.HandleBranch` | riscv32-sim/src/iss/model.cpp:87-93 | handle_branch moves the next pc exactly when the comparison holds |
| `Model.Model.Execute` | riscv32-sim/src/iss/model.cpp:55-85 | exec dispatches to the handlers |
| `Model.Model.Step` | riscv32-sim/src/iss/model.cpp:17-28 | step fetches, advances, traps on a pc outside the program, and executes |
| `Model.Model.Commit` | riscv32-sim/src/iss/model.cpp:30-38 | commit moves the pc, takes a pending interrupt and clears both logs |
| `Model.Model.InterruptPending` | riscv32-sim/src/iss/model.cpp:40-46 | interrupt_pending compares the two 64-bit values of the page store and traps |
| `Model.Model.constructor` | riscv32-sim/include/iss/model.hpp:32-34 | The hart starts in machine mode with zero registers and empty logs |
| `HartRuns.PrivilegeConfinement` | riscv32-sim/src/iss/model.cpp:131-258 | Over every run and every decoder: while the mode stays at or below m, no CSR that needs more than m changes, save mstatus and mip |
| `HartRuns.ReadOnlyNeverChanges` | riscv32-sim/include/zicsr/csr_file.hpp:42-50 | Over every run a CSR whose address marks it read-only never changes (section 2.1 of the Privileged ISA) |
| `HartRuns.ModeChangesOnlyInMret` | riscv32-sim/src/iss/model.cpp:319-342 | The mode changes only in mret, and then to the privilege mstatus holds |
| `HartRuns.CsrDecisionConfined` | riscv32-sim/src/iss/model.cpp:200-258 | A CSR instruction writes only a CSR the mode may write |
| `HartRuns.TruncatedIndex` | riscv32-sim/include/iss/model.hpp:50-52 | Truncating a CSR index to 16 bits keeps its privilege and read-only bits |
| `HartRuns.TrapWritesConfined` | riscv32-sim/src/iss/model.cpp:160-198 | A trap changes no CSR that is read-only or needs more than the current mode, and neither mstatus nor mip |
| `HartRuns.TrapRecords` | riscv32-sim/src/iss/model.cpp:160-198 | A trap leaves its cause, a zero value and the saved pc in the CSRs of the current mode, and changes no other |
| `HartInterrupts.InterruptEntry` | riscv32-sim/src/iss/model.cpp:144-175 | A taken interrupt enters vector 7 of the current mode, with cause, value and pc recorded: none of its five CSR writes undoes another |
| `HartInterrupts.NoNestedInterrupt` | riscv32-sim/src/iss/model.cpp:131-158 | After a timer interrupt is taken, none is taken in any number of rounds before an mret or a CSR write of mstatus, and mstatus stays as the interrupt left it |
| `HartInterrupts.OnlyStackBitsChange` | riscv32-sim/src/iss/model.cpp:131-158 | Without a CSR write of mstatus only MIE, MPIE and MPP ever change (section 3.1.6.1 of the Privileged ISA) |
| `HartInterrupts.RefusedIsPending` | riscv32-sim/src/iss/model.cpp:40-46 | An asserted interrupt that is refused leaves its bit in mip |
| `HartInterrupts.PendingUntilTaken` | riscv32-sim/src/iss/model.cpp:344-349 | A pending interrupt stays pending until one is taken or a CSR instruction writes mip |
| `HartInterrupts.TakenIsCleared` | riscv32-sim/src/iss/model.cpp:144-145 | Taking the interrupt clears its bit |
| `HartInterrupts.MretUndoesInterrupt` | riscv32-sim/src/iss/model.cpp:131-198 | A timer interrupt in machine mode, any handler rounds whose logs name neither mstatus nor mepc, then mret: MIE is back, MPP and the mode are machine, and the next pc is the one save_pc stored |
| `HartInterrupts.PopPush` | riscv32-sim/src/iss/model.cpp:319-335 | Popping the pushed stack restores an enabled mstatus up to MPIE and MPP |
| `HartInterrupts.HandlerKeeps` | riscv32-sim/src/iss/model.cpp:319-342 | Handler rounds that spare mstatus and mepc keep both, and the mode |
| `HartInterrupts.MretAfterInterrupt` | riscv32-sim/src/iss/model.cpp:131-198 | The same from an interrupt in any mode: mret ends in machine mode, which is the interrupted mode exactly if that was machine, and at the saved pc in machine mode but at the untouched mepc below |
| `HartInterrupts.InterruptBelowMachine` | riscv32-sim/src/iss/model.cpp:160-198 | An interrupt below machine mode saves its pc in that mode and leaves mepc |
| `HartInterrupts.MretRound` | riscv32-sim/src/iss/model.cpp:319-342 | An mret in any mode takes the mode from MPP and leaves MPP at machine |
| `HartInterrupts.LaterMretIsMachine` | riscv32-sim/src/iss/model.cpp:319-342 | After one mret every later mret, in whatever mode, ends in machine mode until a CSR instruction writes mstatus |
| `HartLogs.StepIsLogged` | riscv32-sim/include/iss/model.hpp:50-56 | Replaying the staged logs over the old files gives the new files, and writing the previous values back in reverse gives the old ones |
| `HartLogs.RoundsStartClean` | riscv32-sim/src/iss/model.cpp:30-38 | At the start of every round of a run both logs are empty and x0 is zero |
| `HartLogs.UnloggedUnchanged` | riscv32-sim/include/zicsr/csr_file.hpp:66-78 | A CSR the log does not name keeps its value |
| `HartLogs.ExecGprs` | riscv32-sim/src/iss/model.cpp:95-116 | An instruction writes the register file at most once, at rd |
| `HartHalt.HaltContract` | riscv32-sim/src/iss/model.cpp:286-317 | From a state that is not done a round ends done exactly when it executed a store at tohost or an ecall with x17 = 93 |
| `HartHalt.DoneHasCause` | riscv32-sim/src/iss/model.cpp:286-317 | A run that ends done contains such a round |
| `HartHalt.ExitCode` | riscv32-sim/include/iss/model.hpp:39 | After the exit call tohost() is x10, even when tohost straddles pages |
| `HartHalt.WordStoredToHost` | riscv32-sim/include/iss/model.hpp:39 | After a word store at tohost, tohost() is the stored register |
| `HartMemory.LoadAfterStores` | riscv32-sim/src/iss/model.cpp:260-305 | With byte accesses clear of the windows, a load after any sequence of store operations returns the sign- or zero-extended little-endian value of the bytes last written |
| `HartMemory.LoadMeaning` | riscv32-sim/src/iss/model.cpp:260-284 | Each load kind returns the signed or unsigned integer its bytes stand for |
| `HartMemory.StoresRefineFlat` | riscv32-sim/src/iss/model.cpp:286-305 | Any sequence of stores whose byte stores are clear of the windows is that sequence on the flat memory; wider ones may be anywhere |
| `HartMemory.WindowsAreByteOnly` | riscv32-sim/src/memory/sparse_memory.cpp:18-36 | Routed bytes and page accesses agree outside the windows; a byte stored inside one is invisible to wide loads |
| `HartStores.RoundPages` | riscv32-sim/src/iss/model.cpp:286-317 | A round changes the pages by the store or exit code it executes and by nothing else |
| `HartStores.RunPages` | riscv32-sim/src/iss/model.cpp:286-317 | At every point of every run the pages hold what the stores executed so far have written |
| `HartStores.RunLoad` | riscv32-sim/src/iss/model.cpp:260-305 | A load instruction anywhere in a run, clear of the windows if it loads a byte, writes to rd the extended little-endian value of the bytes the run has last written |
| `HartTicks.RoundAbsorbsTicks` | riscv32-sim/src/iss/model.cpp:17-46 | Ticks inside a round, before or after the memory access of its instruction, come to ticks at its edges |
| `HartTicks.RoundIgnoresWindow` | riscv32-sim/src/iss/model.cpp:40-46 | A round that loads no byte of the mtime window into a register other than x0 does the same whatever the window holds |
| `HartTicks.IgnoresWindowIffUnnoticed` | riscv32-sim/src/memory/sparse_memory.cpp:18-26 | A round does the same whatever the mtime window holds if and only if it does not load a byte of it into a register other than x0 |
| `HartTimer.AssertedOverRun` | riscv32-sim/src/iss/model.cpp:40-46 | At every point of a run the interrupt is asserted if and only if it is enabled and the stores executed so far have left a larger value at mtime than at mtimecmp; ticks do not enter |
| `HartTimer.NeverInterrupted` | riscv32-sim/src/iss/model.cpp:40-46 | If the page bytes at mtime start at zero and no executed store lands on them, the timer interrupt is never asserted and never taken, whatever the ticks |
| `HartTimer.SilentIffZero` | riscv32-sim/src/iss/model.cpp:40-46 | With the comparison enabled, no value stored in mtimecmp asserts the interrupt if and only if the page bytes at mtime are zero |
| `HartTimer.TickIsNotSeen` | riscv32-sim/src/memory/sparse_memory.cpp:18-26 | A fresh memory after one tick: the mtime window is above the mtimecmp window and the interrupt is not asserted |
| `HartTicks.TicksAreInvisible` | riscv32-sim/src/iss/model.cpp:40-46 | A program that never loads a byte of the mtime window into a register other than x0 runs the same with any ticks at any moments as with none, interrupts included |
| `HartMemory.StoredMeaning` | riscv32-sim/src/iss/model.cpp:286-305 | sb, sh and sw write one, two and four bytes, which stand for the value modulo 2^8, 2^16 and 2^32 |
| `SparseMemory.WindowIsEightBytes` | riscv32-sim/src/memory/sparse_memory.cpp:18-36 | A window is the eight bytes from its base on, and holds none if it touches the end of the address space |
| `SparseMemory.RoutedReadOverWrite` | riscv32-sim/src/memory/sparse_memory.cpp:18-36 | A routed byte read returns the byte last routed to its address, even when the two windows overlap |
| `HartEffects.RoundPc` | riscv32-sim/src/iss/model.cpp:30-38 | A round that takes no interrupt ends with both the current and the next pc at the one its step left |
| `HartEffects.QuietRound` | riscv32-sim/src/iss/model.cpp:30-46 | Such a round keeps everything its step left, except that an asserted interrupt sets bit 7 of mip |
| `HartEffects.AccessFault` | riscv32-sim/src/iss/model.cpp:20-25 | A pc outside every allowed range leaves cause 1 and the address of the next word in the mode's CSRs before the instruction runs; a pc inside one leaves nothing |
| `HartEffects.AccessFaultRound` | riscv32-sim/src/iss/model.cpp:20-27 | After the whole round cause 1, the zero value and the address are still there, each unless the executed instruction traps itself or writes that CSR |
| `HartEffects.IllegalRound` | riscv32-sim/src/iss/model.cpp:160-198 | An illegal instruction leaves 2 in the cause CSR of the mode, zero in the value CSR, the address of the next word in the pc CSR, and goes to the base of tvec |
| `HartEffects.EbreakRound` | riscv32-sim/src/iss/model.cpp:160-198 | An ebreak leaves 3, and the address of its own word |
| `HartEffects.EcallRound` | riscv32-sim/src/iss/model.cpp:117-129 | An ecall leaves 8 from user, 0x10 from supervisor, 9 from hypervisor and 0x11 from machine mode, and the address of its own word |
| `HartEffects.SavedPcValue` | riscv32-sim/src/iss/model.cpp:178-198 | The saved pc is the pc rounded down to a multiple of four for ecall and ebreak, and four more, modulo 2^32, for everything else |
| `HartEffects.CsrOutcome` | riscv32-sim/src/iss/model.cpp:200-258 | For a 12-bit address: an instruction traps exactly when the mode is below the address's or it writes at 0xC00 or above, else writes unless it is csrrs or csrrc from x0 or no CSR form |
| `HartEffects.CsrBeyond` | riscv32-sim/src/iss/model.cpp:200-258 | For an address of 4096 or more: which forms trap, which throw, and the one that writes where the address is cut to 16 bits |
| `HartEffects.CsrStep` | riscv32-sim/src/iss/model.cpp:200-258 | After a CSR instruction that is not denied rd holds the old value; csrrs and csrrsi set exactly the bits that were set before or are set in the operand, csrrw and csrrwi leave the register or the five-bit field, csrrc and csrrci the lowest old bit for a zero operand and zero otherwise; no other CSR changes |
| `HartEffects.CsrRound` | riscv32-sim/src/iss/model.cpp:200-258 | The same for the round at an allowed pc, and the next instruction follows; a denied instruction leaves cause 2 |
| `HartEffects.BranchConditions` | riscv32-sim/src/iss/model.cpp:352-370 | Every branch condition compares the signed or unsigned values of its two registers |
| `HartEffects.EqualIsUnordered` | riscv32-sim/src/iss/model.cpp:352-370 | beq is taken exactly when blt is not, either way round, and likewise bltu; bne, bge and bgeu are the complements |
| `HartEffects.BranchRound` | riscv32-sim/src/iss/model.cpp:87-93 | A branch round goes to the pc plus the offset exactly when its condition holds, otherwise two or four bytes on, and leaves registers and memory |
| `HartEffects.FetchByLength` | riscv32-sim/src/iss/model.cpp:48-53 | A fetched word goes to the decoder of full-length instructions exactly when it is 3 modulo 4 |
| `HartEffects.AssertedIff` | riscv32-sim/src/iss/model.cpp:40-46 | The interrupt is asserted exactly when it is enabled and the 64-bit number at mtime is above the one at mtimecmp |
| `HartEffects.InterruptIff` | riscv32-sim/src/iss/model.cpp:131-143 | A round takes the interrupt exactly when it is asserted after the step, bit 7 of mie is set and bit 3 of mstatus is |
| `HartEffects.InterruptRound` | riscv32-sim/src/iss/model.cpp:131-198 | A round that takes it ends at the tvec base plus 28, with cause, value and pc in the mode's CSRs, MIE moved to MPIE, MPP machine, bit 7 of mip clear, and every other CSR, register and byte as the step left it |
| `HartEffects.MretPops` | riscv32-sim/src/iss/model.cpp:319-342 | An mret round goes to mepc in the mode of bits 12 and 11 of mstatus, with MPIE moved to MIE and set, and MPP machine |
| `HartEffects.TickIsOneByte` | riscv32-sim/src/mti_source.cpp:20-32 | A tick adds one, modulo 256 and without a carry, to the byte a program reads at mtime, and changes no other byte and nothing else |
| `HartMeaning.ExecMeans` | riscv32-sim/src/iss/model.cpp:55-116 | When the decoder hands the hart the operation for an instruction, exec has the effect the disassembler reads in it |
| `HartMeaning.StepMeans` | riscv32-sim/src/iss/model.cpp:17-28 | The same for a whole step at a valid pc |
| `HartMeaning.CompressedStepMeans` | riscv32-sim/src/iss/model.cpp:17-28 | When the decoder expands a compressed word as chapter 16 does, a step does what chapter 16 says |
| `HartMeaning.RoundMeans` | riscv32-sim/src/iss/model.cpp:17-46 | The same for the whole round: registers and memory are those of the effect, and so is the pc the next round starts at; when the interrupt is taken, the pc saved is the word after that one |
| `HartMeaning.CompressedRoundMeans` | riscv32-sim/src/iss/model.cpp:17-46 | The same for an expanded compressed word and chapter 16 |
| `DisasResults.InstructionComputes` | riscv32-sim/src/iss/model.cpp:372-478 | Every RV32IM arithmetic instruction, in its immediate and its register form, leaves in rd the integer its name stands for: sums, orders, bits, shifts, high and low products, quotients and remainders |
| `DisasResults.JumpsCompute` | riscv32-sim/src/iss/model.cpp:97-113 | jal and jalr go to the sum, modulo 2^32 and with its low bit cleared for jalr, and leave the address of the next instruction in rd |
| `DisasResults.BranchesCompute` | riscv32-sim/src/iss/model.cpp:87-93 | A branch instruction goes to the pc plus its offset exactly when its condition on the values holds, and changes nothing else |
| `DisasSystem.PrivilegedIffPattern` | external/riscv-disas/riscv-disas.c:2149-2212 | ecall, ebreak, uret, sret, hret, mret, dret, wfi and the two sfences are decoded from exactly the words with their pattern, on all three ISAs |
| `DisasSystem.CsrReadLifts` | external/riscv-disas/riscv-disas.c:121-136 | csrrs is shown as rdcycle, rdtime, rdinstret, their high halves, frcsr, frrm or frflags exactly when rs1 is x0 and the CSR is that one |
| `DisasSystem.CsrWriteLifts` | external/riscv-disas/riscv-disas.c:137-139 | csrrw is shown as fscsr, fsrm or fsflags exactly for CSR 3, 2 and 1 |
| `DisasSystem.CsrWriteImmediateLifts` | external/riscv-disas/riscv-disas.c:140-141 | csrrwi is shown as fsrmi or fsflagsi exactly for CSR 2 and 1 |
| `DisasSystem.WideLifts` | external/riscv-disas/riscv-disas.c:197-201 | Of the RV64 and RV128 instructions only addiw with a zero immediate and subw from x0 are shown by another name |
| `DisasSystem.InjectionLifts` | external/riscv-disas/riscv-disas.c:219-244 | A sign injection is shown as a move, negation or absolute value exactly when both sources are the same register |
| `DisasCompressed.NoCompressedOpcodeSurvives` | external/riscv-disas/riscv-disas.c:2702-2723 | For all three ISAs and every word, decompression leaves no compressed opcode |
| `DisasCompressed.WordExpands` | external/riscv-disas/riscv-disas.c:1172-1330 | Every RV32 integer compressed word is expanded to the base instruction chapter 16 names, with its operands; the ones marked illegal are exactly c.andi and shifts with a zero immediate |
| `DisasCompressed.ExpansionPreservesMeaning` | external/riscv-disas/riscv-disas.c:2421-2723 | In every state with x0 = 0 the expanded instruction has the effect chapter 16 gives the compressed word, links at pc + 2 |
| `DisasCompressed.ExpansionMeaning` | riscv32-sim/src/iss/model.cpp:352-478 | Every expansion executes, with the simulator's do_alu, should_branch, load and store, as chapter 16 says |
| `DisasCompressed.RegisterFields` | external/riscv-disas/riscv-disas.c:2300-2314 | The compressed register extractors pick the fields chapter 16 names |
| `DisasCompressed.Immediate4spn` | external/riscv-disas/riscv-disas.c:2400-2403 | The scattered immediate of c.addi4spn is put together bit by bit as chapter 16 lists it |
| `DisasCompressed.ImmediateW` | external/riscv-disas/riscv-disas.c:2405-2408 | The same for c.lw and c.sw |
| `DisasCompressed.ImmediateLwsp` | external/riscv-disas/riscv-disas.c:2354-2357 | The same for c.lwsp |
| `DisasCompressed.ImmediateSwsp` | external/riscv-disas/riscv-disas.c:2388-2390 | The same for c.swsp |
| `DisasCompressed.ImmediateShamt` | external/riscv-disas/riscv-disas.c:2342-2344 | The same for the six-bit shift amount |
| `DisasCompressed.SignedImmediate6` | external/riscv-disas/riscv-disas.c:2346-2348 | The same for the six-bit signed immediate |
| `DisasCompressed.SignedImmediateLui` | external/riscv-disas/riscv-disas.c:2350-2352 | The same for c.lui |
| `DisasCompressed.SignedImmediate16sp` | external/riscv-disas/riscv-disas.c:2369-2373 | The same for c.addi16sp |
| `DisasCompressed.SignedImmediateJ` | external/riscv-disas/riscv-disas.c:2375-2380 | The same for c.j and c.jal |
| `DisasCompressed.SignedImmediateB` | external/riscv-disas/riscv-disas.c:2382-2386 | The same for c.beqz and c.bnez |
| `DisasPseudo.LiftIsInvertible` | external/riscv-disas/riscv-disas.c:2796-2809 | Lifting is idempotent, keeps the codec, and the base opcode can be recovered |
| `DisasPseudo.RowsLeadBack` | external/riscv-disas/riscv-disas.c:147-244 | Every row of every pseudo table leads back to the opcode it belongs to, and has its codec |
| `DisasPseudo.FirstMatch` | external/riscv-disas/riscv-disas.c:2801-2808 | The row chosen satisfies its constraints and no earlier row does |
| `DisasLines.LiftPreservesMeaning` | external/riscv-disas/riscv-disas.c:2796-2809 | In every state with x0 = 0 the printed mnemonic and operands, read by the syntax of chapter 25 and not by the tables, have the effect of the decoded RV32IM instruction (fence, fence.i and the system ones other than ebreak apart), unless the line is misprinted |
| `DisasLines.LineIsExact` | external/riscv-disas/riscv-disas.c:2825-2970 | For every RV32IM instruction but fence, fence.i and ecall, the printed line has the effect of the instruction for every value of ra if and only if it is neither a lui or auipc into a register with a nonzero immediate nor a ret with one |
| `DisasLines.LuiIsMisprinted` | external/riscv-disas/riscv-disas.c:2886-2889 | lui a0, 0x12345 is decoded as it should be, and its printed line means something else in every state |
| `DisasLines.RetIsExactOnlyForZero` | external/riscv-disas/riscv-disas.c:117-153 | A jalr through ra is always shown as ret, and the line means the same for every ra exactly when the immediate is zero |
| `DisasLines.PseudoLineMeaning` | external/riscv-disas/riscv-disas.c:95-143 | Each pseudo-instruction, from its printed operands in their printed order, means the base instruction it stands for |
| `DisasLines.BaseLineMeaning` | external/riscv-disas/riscv-disas.c:66-100 | The line of a base instruction, read by an assembler, has its effect in any state if and only if it is not a lui or auipc into a register with a nonzero immediate |
| `DisasPrinted.LineDetermines` | external/riscv-disas/riscv-disas.c:66-100 | Two RV32IM instructions, fence and the system ones apart, that print the same mnemonic and operands are the same instruction, or two returns that differ in the displacement left out |
| `DisasFence.FenceLineIsExact` | external/riscv-disas/riscv-disas.c:2934-2961 | The printed sets of a fence are read back as that fence if and only if fm is zero and neither set is empty |
| `DisasFence.TsoIsMisprinted` | external/riscv-disas/riscv-disas.c:2518-2523 | fence.tso is decoded as fence and printed as fence rw,rw |
| `DisasText.AppendLeavesRoom` | external/riscv-disas/riscv-disas.c:2813-2818 | append keeps room for the terminator if and only if it does nothing or is given fewer characters than there are places left |
| `DisasText.AppendExtends` | external/riscv-disas/riscv-disas.c:2813-2818 | append keeps what is there and adds a beginning of the new text, all of it when it fits |
| `DisasText.PaddingEndsIffItFits` | external/riscv-disas/riscv-disas.c:2962-2966 | A padding loop ends if and only if the text is long enough already or the buffer can hold the column |
| `DisasText.Pad` | external/riscv-disas/riscv-disas.c:2962-2966 | Where it ends, the loop adds exactly the missing spaces |
| `DisasLines.CompressedLinePreservesMeaning` | external/riscv-disas/riscv-disas.c:3017-3025 | The whole pipeline: the line printed for a legal RV32 integer compressed word has, in any state with x0 = 0, the effect chapter 16 gives the word, if and only if it is not a c.lui into a register other than x0 |
| `DisasRoundTrip.RegistersInRange` | external/riscv-disas/riscv-disas.c:2421-2698 | The registers the operand pass sets are below 32 for every codec but the floating-point and atomic ones, so they index the name tables the line is printed from |
| `DisasPipeline.RvDecode.Decompress` | external/riscv-disas/riscv-disas.c:2702-2723 | The pass replaces a compressed opcode by its target, or by illegal when a required immediate is zero |
| `DisasPipeline.RvDecode.CheckConstraints` | external/riscv-disas/riscv-disas.c:2727-2792 | The loop accepts exactly when every constraint of the row holds |
| `DisasPipeline.RvDecode.LiftPseudo` | external/riscv-disas/riscv-disas.c:2796-2809 | The loop over the rows computes Lift |
| `DisasPipeline.RvDecode.Disassemble` | external/riscv-disas/riscv-disas.c:3017-3025 | The passes in their order leave the lifted, expanded opcode, its codec, and the operands of the decoded one |
| `DisasPipeline.EncodedLinePreservesMeaning` | external/riscv-disas/riscv-disas.c:3017-3025 | The whole pipeline on a full-length word: the line printed for an encoded RV32IM instruction, fence and the system ones apart, has its effect, for every value of ra, if and only if it is not misprinted |
| `DisasRoundTrip.DecodeEncoded` | external/riscv-disas/riscv-disas.c:2421-2486 | Packing any in-range operands of an RV32IM or Zicsr instruction as in section 2.3 and decoding returns the opcode, the registers and the sign-extended immediate |
| `DisasRoundTrip.EncodeDecoded` | external/riscv-disas/riscv-disas.c:1331-1440 | Packing what was decoded returns the word: decoding loses nothing, and two words never decode alike |
| `DisasRoundTrip.OpcodeIffFixedFields` | external/riscv-disas/riscv-disas.c:1331-1440 | Opcode decoding recognises exactly the words with the fixed fields of chapter 24, on all three ISAs |
| `DisasRoundTrip.OperandRanges` | external/riscv-disas/riscv-disas.c:2276-2340 | In every word the registers of the full-length formats are below 32, and their branch and jump immediates are even and in range |
| `DisasRoundTrip.CompressedOperandRanges` | external/riscv-disas/riscv-disas.c:2300-2386 | The same for the compressed extractors: x8 to x15 for the short registers, even jump and branch offsets in range |
| `DisasRoundTrip.UnpackB` | external/riscv-disas/riscv-disas.c:2337-2340 | The branch format unpacks to what was packed |
| `DisasRoundTrip.UnpackJ` | external/riscv-disas/riscv-disas.c:2328-2331 | The jump format unpacks to what was packed |

## Left out

- The values of `csrrc` and `csrrci` are stated as coded (`HartEffects.CsrStep`); no statement compares them with the standard.
- The decoders of the simulator, `common.hpp` and ELFIO are not part of this model: decoded instructions, segment lists and
  the valid pc ranges are arbitrary inputs.
- `main.cpp`, the command line, signals, logging, the JSON export and the ipc server: input and output.
- The timer thread: its increments are steps of the environment, one byte wrapping without carry, as in `mti_source.cpp`.
- Shifts by 32 or more, which C++ leaves undefined: the runs of the hart take `alu` as an arbitrary function, so they hold
  whatever such a shift returns; statements that say what an instruction computes are for amounts below 32.
- HartMeaning.StepMeans: leaves out lui, whose rendering by the decoder is not known, and ebreak and the system instructions,
  which act on CSRs the architectural state of these statements does not have.
- Register numbers from 32 on, which `reg_file` asserts against.
- SparseMemory.AddressRouter.Write: asks that the source extends to the page-rounded extent, because the C++ loop reads that
  far; what lies behind the file bytes is that source continuation.
- DisasLines.LiftPreservesMeaning: covers RV32IM but fence, fence.i and ecall (fences have `DisasFence`; the other two print no
  operands); for the RV64, CSR and floating-point rows idempotence, the codec, the
  recovered opcode and the exact operands that are lifted are proved, not a meaning. (The floating-point moves print integer register names, so no meaning is claimed.)
- DisasCompressed.ExpansionPreservesMeaning: reserved, custom and floating-point encodings have no meaning here, and six-bit
  shift amounts from 32 on are custom on RV32.
- DisasPipeline.RvDecode.Disassemble: ends before `decode_inst_format`; the text is modelled as the list of operands in
  their printed order, `append` and the padding loops by themselves, and not the whole line in a buffer (register and CSR
  names, the address comment).
- DisasRoundTrip.RegistersInRange: leaves out the floating-point and atomic codecs and the field rs3.
- Floating-point and atomic opcodes other than loads, stores and sign injection are one opcode, and their rm, aq and rl
  fields are not kept: they matter only to the statement that no compressed opcode survives.
- Instruction words of 48 and 64 bits, which the opcode switch treats as 32-bit ones, and `inst_fetch`.
- Zero-initialised memory outside the segments, `progbit_ranges`, symbol lookup and the class and machine checks of the
  loader.
