# Verification of the Cheshire core and boot path

Dafny models, with proofs, of the parts of the Cheshire SoC whose correctness is hardest to see by reading: the
vector dispatch protocol, the instruction realigner, the fence.t micro-reset and the AXI write channel of the
CVA6 core, its PMP and privilege registers, the SD, flash and GPT drivers of the boot path, and the generators of
the address maps. `dafny verify dfyconfig.toml` checks the whole project.

## How the models are built

RTL modules are classes whose fields are the registers; one call of `Tick` is one clock cycle and follows the
combinational blocks statement by statement, later assignments overriding earlier ones. Each `Tick` is proved to
take the registers to a next-state function (`Step`), for every input; invariants and theorems are then proved
over all runs, that is, over all sequences of inputs that obey the stated environment. C functions are methods
with the loops, buffers and error paths of the source, over a bus or chip that may answer anything or fail at
any point. Configuration functions are methods that fill the tables, for every configuration.

| file | models |
|---|---|
| `Fifo` | the ring buffer, any depth, both fall-through modes |
| `AccDispatcher`, `AccSystem`, `AccTheorems`, `AccProgress` | the accelerator dispatcher; its environment and invariant; safety and progress over runs |
| `Realign`, `RealignTheorems` | the 32- and 64-bit instruction realigner against a sequential parser; the parser against a program laid out in memory |
| `FenceT`, `CommitTheorems`, `FenceTheorems` | controller and commit stage; what each kind of instruction does on retirement; fence.t safety and timing |
| `AxiShim` | the AXI write state machine |
| `CrcPoly`, `CrcTable`, `Crc16` | polynomial division; the lookup table; the checksum function |
| `SdCard`, `SdAnswers`, `SdTheorems` | SD reads; which card answers make them succeed; what they deliver over a noisy line |
| `Flash` | NOR flash chip and driver |
| `Gpt`, `GptReader`, `GptBoot`, `GptTable` | what the partition search must find and how much is booted; the search over a read callback; booting from the SD card; the same for a table given as a list of entries |
| `Common` | shared definitions |
| `Pmp`, `Traps`, `TrapStack` | PMP registers; trap entry, returns and debug mode; the privilege stack |
| `AddressMap`, `AddressRouting`, `MemoryMap` | port and rule generators; where addresses are routed; the documented memory map |

## Environment assumptions

- Dispatcher (`AccSystem.Env`): the scoreboard is in order with unique ids; the commit ports show its two oldest
  entries, and stale contents with an id not in the scoreboard beyond its end; the issue stage hands over only
  without a stall; the accelerator answers only requests it has accepted; completions only follow dispatches. A
  flush of the execute stage comes together with a flush of the unissued instructions (`controller.sv:176-313`),
  not in a cycle that releases a pending id, and not before the accelerator has taken every instruction that was
  made non-speculative. `FlushRuleExactly` and `FlushExactly` show that this is exactly what a clean flush needs:
  it holds if and only if nothing is released, the whole queue is pending and the spill register is empty or being
  emptied, and if and only if the flush leaves no request and no ready bit behind.
- The modules `spill_register` and `counter` are not part of the repository. The spill register is taken as a
  queue of two entries with registered outputs; the counters give clear priority over load, and load over
  counting.
- Realigner: between flushes the fetch blocks are sequential, as the front end delivers them, shifted right with
  zeros on top.
- AXI: a raised request is held until it is granted.
- SD: what the card drives and when transfers fail is arbitrary, given by byte position.
- Flash: programming ANDs into the cells, an erase covers its sector except small sectors, both need write-enable
  and no operation in progress, and clear write-enable; the status register has bit 0 for progress and 0x60 for
  failures; the number of sectors is a multiple of 64.
- Address maps: external regions are disjoint from each other and from the internal ones, the scratchpad has at
  most 64 MiB, and an LLC is connected (`AddressRouting.ValidRegions`). External port
  numbers are any byte; with the base added they are cut to six bits. The decoder is not part of the repository and
  is taken to prefer the last matching rule, which does not matter as no two rules overlap.

## Where the code and its documentation or intention differ

- fence.t: the comment at `controller.sv:352-353` says that the cache was idle for 16 cycles; the counter is
  compared with 15, so 15 idle cycles are enough. The model follows the code (`DrainCounts`, `ResetHistory`).
- Commit stage: while a write-back cache is flushed, an instruction waits for the pending stores, but writes its
  register in every cycle in which it waits (`SimpleRetires`).
- PMP: NA4 is not supported; such an entry cannot be written, and would match nothing (`ConfigWrite`,
  `MatchesRegion`).
- fence.t: without `DcacheFlushOnFence` the request to the data cache is a single pulse (`FlushRequest`).
- Dispatcher: the load and store counters are three bits wide, so with eight accesses outstanding a scalar access
  is not held back; `StallExact` states the exact condition, `EightStoresAreMissed` a run that reaches it.
- FIFO: a full queue whose depth is a power of two reports usage zero (`UsageExact`).
- Realigner: the remark at `instr_realign.sv:253` that the code is wrong for shifted data does not hold: with
  right-shifted data the slots are those of the parser at every offset (`AlignOne`, `AlignTwo`, `AlignThree`).
- AXI: without burst writes a multi-beat request is offered again in every cycle and never granted
  (`GrantableIffSupported`).
- SD: the block number is cut to 32 bits, so an address from two tebibytes on reads another block
  (`AddressableExactly`); a token that arrives with the last poll is treated as a timeout (`PollExact`).
- GPT: if nothing matches and the first entry ends more than one block before it begins, more than `max_lbas`
  blocks are loaded (`BootIsBounded`, exactly then; `MalformedEntryOverflows`). The condition is one on the disk.
- CSR: MPP resets to user mode also where there is none (`ResetIsLegal`); `dcsr.prv` accepts any level
  (`LegalExactly`); a breakpoint into debug mode overwrites the saved trap context (`BreakpointTraps`).
- Address maps: a register map with exactly 64 rules, which 2*NumCores + RegExtNumRules = 48 with every feature
  enabled gives, reports zero rules (`RulesFit`; `FullIsDead` is such a configuration, with 17 harts and 14
  external regions). The number of outputs has six bits too and reads zero with 64 ports, as with 16 harts, every
  feature and 15 external slaves (`ManyHasNoOutputs`); the 33rd bus error unit, with 31 harts, has no port field
  (`LargeLosesAUnit`). Everything is reached if and only if there are fewer than 64 register rules and ports, not
  that unit, and no external port number past the external outputs (`ReachedExactly`, in terms of the
  configuration's own fields). Without a connected LLC output the scratchpad rules
  lead to the register demultiplexer (`ScratchpadNeedsLlc`).

## Model

| member | source | states |
|---|---|---|
| `Fifo.Clog2Bounds` | cva6_patched/core/cva6_fifo_v3.sv:24 | `$clog2` gives the least width: the depth fits, and half the range would not hold it |
| `Fifo.PointerNextWraps` | cva6_patched/core/cva6_fifo_v3.sv:112-113 | the pointer comparison, done in 32 bits on a truncated depth, makes the pointer walk 0 … depth-1 and back to 0 for every depth, powers of two included |
| `Fifo.RingStep` | cva6_patched/core/cva6_fifo_v3.sv:104-149 | moving the two pointers and the count is exactly the queue operation on the ring's contents, the pass-through case included |
| `Fifo.Conservation` | cva6_patched/core/cva6_fifo_v3.sv:75-151 | over any sequence of pushes and pops, both modes: what was accepted is what was handed out followed by what is held, in order, and never more than the depth is held |
| `Fifo.RingBuffer.constructor` | cva6_patched/core/cva6_fifo_v3.sv:154-161 | after reset the queue is empty |
| `Fifo.RingBuffer.UsageExact` | cva6_patched/core/cva6_fifo_v3.sv:63 | the usage port is the number of elements if and only if the queue is not both full and a power of two deep; in that case it reads zero |
| `Fifo.RingBuffer.Front` | cva6_patched/core/cva6_fifo_v3.sv:96 | the data output is the oldest element, or the arriving one when an empty fall-through queue is pushed |
| `Fifo.RingBuffer.Increment` | cva6_patched/core/cva6_fifo_v3.sv:112-113 | the increment used for both pointers wraps at the depth |
| `Fifo.RingBuffer.ReadWrite` | cva6_patched/core/cva6_fifo_v3.sv:75-151 | the combinational block: the next pointers are in range and the ring they describe is the queue after the push and pop |
| `Fifo.RingBuffer.Tick` | cva6_patched/core/cva6_fifo_v3.sv:154-176 | for every depth and both modes one clock edge refines the mathematical queue: push unless full, pop unless empty (or falling through), flush to empty |
| `AccDispatcher.Dispatcher.constructor` | cva6_patched/core/acc_dispatcher.sv:105 | reset state: everything empty and zero |
| `AccDispatcher.Dispatcher.Stall` | cva6_patched/core/acc_dispatcher.sv:118-131 | the stall computed from the queue's usage port is the one stated on the queue contents, so the truncated usage port loses nothing at depth three |
| `AccDispatcher.Dispatcher.Commit` | cva6_patched/core/acc_dispatcher.sv:311-327 | which commit port announces an accelerator instruction, and its id |
| `AccDispatcher.Dispatcher.NonSpeculative` | cva6_patched/core/acc_dispatcher.sv:176-203 | next pending and ready bits with the source's order of overrides (receive, flush, release, spill) |
| `AccDispatcher.Dispatcher.Request` | cva6_patched/core/acc_dispatcher.sv:240-273 | a request is offered and popped as specified, for the head of the queue |
| `AccDispatcher.Dispatcher.Track` | cva6_patched/core/acc_dispatcher.sv:347-430 | next values of the four three-bit counters |
| `AccDispatcher.Dispatcher.Spill` | cva6_patched/core/acc_dispatcher.sv:214-225 | next contents of the spill register |
| `AccDispatcher.Dispatcher.Comb` | cva6_patched/core/acc_dispatcher.sv:104-430 | all next values outside the queue and the pop signal together |
| `AccDispatcher.Dispatcher.Latch` | cva6_patched/core/acc_dispatcher.sv:149-166 | the clock edge: the queue is pushed with the issue register of the cycle before, all other registers take their next values |
| `AccDispatcher.Dispatcher.Tick` | cva6_patched/core/acc_dispatcher.sv:104-430 | one clock cycle of the module over the real FIFO object takes its registers to the specified next state, for every input |
| `AccSystem.ReleasedIsHead` | cva6_patched/core/acc_dispatcher.sv:195-199 | in any state with the invariant, the id that commit releases is the head of the queue, the spill register is empty, and the instruction is in the commit window |
| `AccSystem.OfferedIsHead` | cva6_patched/core/acc_dispatcher.sv:240-273 | a request is only offered for the head of the queue once it is in the commit window, with an empty spill register |
| `AccSystem.FlightStep` | cva6_patched/core/acc_dispatcher.sv:147-166 | a cycle without flush takes at most the oldest held instruction away and adds at most the issued one at the end |
| `AccSystem.SpecCounterStep` | cva6_patched/core/acc_dispatcher.sv:353-414 | the speculative counters stay equal to the loads and stores in the queue and the issue register, flush included |
| `AccSystem.DispCounterStep` | cva6_patched/core/acc_dispatcher.sv:371-430 | the dispatched counters stay equal to dispatched minus completed, modulo eight |
| `AccSystem.FlushFinds` | cva6_patched/core/acc_dispatcher.sv:193-199 | when a flush arrives under the flush rule, everything queued is still pending and the spill register is empty or just being emptied |
| `AccSystem.FlushCleanExactly` | cva6_patched/core/acc_dispatcher.sv:185-203 | a flush leaves no request and no ready bit behind if and only if it releases nothing, finds the whole queue pending, and the spill register empty or being emptied |
| `AccSystem.FlushRuleExactly` | cva6_patched/core/acc_dispatcher.sv:185-203 | the flush rule, stated on the scoreboard, is exactly that condition on registers and inputs |
| `AccSystem.FlushEmpties` | cva6_patched/core/acc_dispatcher.sv:185-203 | after such a flush nothing is held and no ready bit is left over |
| `AccSystem.BitsStep` | cva6_patched/core/acc_dispatcher.sv:176-203 | every queued instruction stays pending or ready, and no ready bit survives its instruction |
| `AccSystem.StaysInWindow` | cva6_patched/core/acc_dispatcher.sv:195-199 | an entry that is non-speculative after a cycle was so before or is the queue head just released |
| `AccSystem.ReleasedStep` | cva6_patched/core/acc_dispatcher.sv:195-199 | every released, unanswered instruction stays one of the two oldest scoreboard entries with everything older finished |
| `AccSystem.InvStep` | cva6_patched/core/acc_dispatcher.sv:104-430 | one cycle under the environment rules keeps the whole invariant relating queue, bits, spill register, counters, scoreboard and program order |
| `AccTheorems.RunInv` | cva6_patched/core/acc_dispatcher.sv:104-430 | the invariant holds in every reachable cycle of every run |
| `AccTheorems.OnlyAtCommit` | cva6_patched/core/acc_dispatcher.sv:176-273 | over every run: the released id is the queue head; a request is offered only for the queue head in the commit window and to an empty spill register; what the accelerator takes is still that unfinished instruction |
| `AccTheorems.SpillAtCommit` | cva6_patched/core/acc_dispatcher.sv:214-225 | what waits in the spill register is still the unfinished instruction in the commit window |
| `AccTheorems.InOrderExactlyOnce` | cva6_patched/core/acc_dispatcher.sv:137-225 | over every run: what left, followed by what is held, is the program in order; the one-cycle-late push never meets a full queue; a flush leaves nothing behind |
| `AccTheorems.CountIsMembership` | cva6_patched/core/acc_dispatcher.sv:353 | a counter of zero means that no held instruction is of that kind, and conversely |
| `AccTheorems.StallExact` | cva6_patched/core/acc_dispatcher.sv:118-131 | in consistent mode a scalar load or store stalls if and only if a conflicting access is held or the number dispatched and incomplete is not a multiple of eight |
| `AccTheorems.ScalarAccessesWait` | cva6_patched/core/acc_dispatcher.sv:118-131 | with at most seven outstanding: no scalar load issues while an accelerator store is incomplete, no scalar store while any accelerator access is |
| `AccTheorems.FlushExactly` | cva6_patched/core/acc_dispatcher.sv:185-203 | after any run, a flush leaves nothing held and no ready bit if and only if it keeps the flush rule |
| `AccTheorems.OutstandingStores` | cva6_patched/core/acc_dispatcher.sv:371-430 | for every number k some run reaches k dispatched, incomplete stores, and a scalar load in consistent mode then stalls if and only if k is not a multiple of eight |
| `AccTheorems.EightStoresAreMissed` | cva6_patched/core/acc_dispatcher.sv:118-131 | a run that keeps every rule, with eight incomplete stores, in which a scalar load issues in consistent mode |
| `AccTheorems.RoundsAreARun` | cva6_patched/core/acc_dispatcher.sv:104-430 | repeating issue, release, hand-over, answer and retirement of a store is a run of any length |
| `AccTheorems.FlushRuleNeeded` | cva6_patched/core/acc_dispatcher.sv:193-199 | a concrete seven-cycle run keeping every rule but one: a flush in the very cycle of a release leaves a ready bit behind, and a younger instruction with that id is offered while it is still speculative |
| `AccProgress.HeadMovesExactly` | cva6_patched/core/acc_dispatcher.sv:176-273 | on registers and inputs: with an empty spill register and no flush the head of the queue, whatever its operation, moves there if and only if it was made ready or a commit port announces it now and it is pending; the queue then loses exactly it, and takes the arriving one |
| `AccProgress.SpillStays` | cva6_patched/core/acc_dispatcher.sv:214-225 | a request stays first in the spill register until the accelerator is ready, and leaves then |
| `AccProgress.HeadIsAnnounced` | cva6_patched/core/acc_dispatcher.sv:311-327 | an unfinished accelerator instruction that is the oldest held one and in the commit window is announced by a commit port |
| `AccProgress.ComesCloser` | cva6_patched/core/acc_dispatcher.sv:147-203 | every cycle without a flush brings such an instruction closer to the spill register |
| `AccProgress.HeadStays` | cva6_patched/core/acc_dispatcher.sv:137-225 | unless the accelerator takes it, it stays the oldest held one and in the commit window |
| `AccProgress.StaysOnItsWay` | cva6_patched/core/acc_dispatcher.sv:137-273 | over every run it has left, or is at most three cycles less the time passed away from the spill register |
| `AccProgress.WaitingIsHead` | cva6_patched/core/acc_dispatcher.sv:195-199 | an unfinished accelerator instruction in the commit window that is held is the oldest held one |
| `AccProgress.Leaves` | cva6_patched/core/acc_dispatcher.sv:137-273 | progress over every run: an unfinished accelerator instruction in the commit window, whatever its operation, is in the spill register or gone after three cycles without a flush, and leaves with the next cycle in which the accelerator is ready, as the next one to leave |
| `AccProgress.AccelStallsExactly` | cva6_patched/core/acc_dispatcher.sv:118-131 | over every run an accelerator instruction waits exactly while two or three are queued, and no other instruction does but scalar accesses in consistent mode |
| `AccProgress.BarrierHolds` | cva6_patched/core/acc_dispatcher.sv:333-341 | over every run the core is halted by a store barrier exactly as long as the accelerator has reported pending stores in every cycle since |
| `Realign.ParseAppend` | cva6_patched/core/instr_realign.sv:347-364 | parsing a stream in two portions with a carried half is parsing it at once; the leftover is the last half and starts a 32-bit instruction |
| `Realign.AlignSaved` | cva6_patched/core/instr_realign.sv:141-186 | block-aligned fetch with a saved half: the valid slots are the completed instruction followed by the parse of the rest, and the new saved half is the parser's leftover |
| `Realign.AlignFresh` | cva6_patched/core/instr_realign.sv:186-249 | block-aligned fetch without a saved half: slots and saved half are those of the parser |
| `Realign.AlignOne` | cva6_patched/core/instr_realign.sv:254-297 | fetch at offset 1 on right-shifted data: the same for three halves |
| `Realign.AlignTwo` | cva6_patched/core/instr_realign.sv:298-322 | fetch at offset 2: the same for two halves |
| `Realign.AlignThree` | cva6_patched/core/instr_realign.sv:325-342 | fetch at offset 3: the same for one half |
| `Realign.AlignCases` | cva6_patched/core/instr_realign.sv:132-343 | the four offsets together |
| `Realign.Align64` | cva6_patched/core/instr_realign.sv:116-345 | the whole 64-bit block meets the parser at every offset and with either state; nothing is emitted without a valid block |
| `Realign.Align32` | cva6_patched/core/instr_realign.sv:66-115 | the 32-bit block meets the same parser, and what it does in the one situation sequential fetch cannot produce (a saved half and an upper-half fetch) |
| `Realign.AlignPair` | cva6_patched/core/instr_realign.sv:67-115 | the 32-bit block by block position |
| `Realign.BlockResumes` | cva6_patched/core/instr_realign.sv:132-186 | in a sequential run a block's meaning is the continuation of the parse, and a half is only ever saved before a block-aligned fetch |
| `Realign.ReferenceExtends` | cva6_patched/core/instr_realign.sv:347-364 | one more cycle (valid or stalled, flushed or not) extends the reference output by exactly its instructions, and a flush forgets the leftover |
| `Realign.Realigner.constructor` | cva6_patched/core/instr_realign.sv:347-351 | reset: nothing saved |
| `Realign.Realigner.Align` | cva6_patched/core/instr_realign.sv:65-345 | the combinational part on zero-filled shifted data emits the continuation of the parse |
| `Realign.Realigner.Tick` | cva6_patched/core/instr_realign.sv:347-364 | after any cycle of a sequential run the emitted slots extend the parser's output and the registers hold exactly its leftover |
| `Realign.Run` | cva6_patched/core/instr_realign.sv:66-364 | over a whole run with stalls and flushes, for either width, the emitted (address, instruction) list is the sequential parser's for every stream between flushes |
| `Realign.ChopIsOneStream` | cva6_patched/core/instr_realign.sv:38-40 | cutting a halfword stream at block boundaries from any halfword-aligned start is a legal sequential run carrying exactly that stream |
| `Realign.RunStream` | cva6_patched/core/instr_realign.sv:66-364 | the realigner of either width turns any such stream into its parse |
| `Realign.SameForBothWidths` | cva6_patched/core/instr_realign.sv:66-345 | the 32-bit and the 64-bit realigner emit the same list for every stream |
| `Realign.ParserIsLossless` | cva6_patched/core/instr_realign.sv:347-364 | the parse loses, duplicates and mis-addresses no halfword: laid end to end its instructions and leftover are the stream, addresses are contiguous, and the 32-bit instructions are exactly those whose low bits are 11 |
| `RealignTheorems.ParserDecodes` | cva6_patched/core/instr_realign.sv:53-364 | encode and decode: parsing any program laid out as halfwords, 32-bit instructions being those with low bits 11, gives that program with the address of every instruction, and then whatever follows |
| `RealignTheorems.Decode` | cva6_patched/core/instr_realign.sv:53-364 | the realigner of either width, from any halfword-aligned start, emits exactly the program that was laid out, before anything that follows it |
| `FenceT.FirstPort` | cva6_patched/core/commit_stage.sv:136-316 | the first port's acknowledge and side effects, with the priority that the order of overrides implies |
| `FenceT.FirstPortFences` | cva6_patched/core/commit_stage.sv:226-304 | which fence each retiring instruction raises |
| `FenceT.CommitStage` | cva6_patched/core/commit_stage.sv:136-421 | acknowledges of both ports, writes, fences and exception under halt |
| `FenceT.FlushExImpliesUnissued` | cva6_patched/core/controller.sv:147-314 | a flush of the execute stage also flushes the unissued instructions, and only a mispredict flushes those alone |
| `CommitTheorems.SimpleRetires` | cva6_patched/core/commit_stage.sv:161-183 | an instruction without side effects retires exactly if it is not halted, not faulting and not waiting for stores during the flush of a write-back cache; it writes its register unless it is dropped, during such a flush also without retiring |
| `CommitTheorems.StoreRetires` | cva6_patched/core/commit_stage.sv:185-194 | a store raises the store buffer's commit exactly when it retires |
| `CommitTheorems.CsrRetires` | cva6_patched/core/commit_stage.sv:207-225 | a CSR instruction raises the CSR commit and writes its register exactly when it is kept and the CSR file reports no exception; it then retires unless it waits for a write-back cache flush |
| `CommitTheorems.AmoRetires` | cva6_patched/core/commit_stage.sv:304-316 | an AMO retires, writes and flushes exactly when the cache has answered |
| `CommitTheorems.FenceRetires` | cva6_patched/core/commit_stage.sv:226-303 | a kept fence retires exactly when no store is pending, and raises exactly its own fence then |
| `CommitTheorems.NoOtherFence` | cva6_patched/core/commit_stage.sv:226-303 | nothing else raises a fence, but for the fence.i of a write-back cache flush |
| `CommitTheorems.FaultsAreRaised` | cva6_patched/core/commit_stage.sv:161-169 | a faulting instruction raises its exception and has no effect; dropped, it retires without one |
| `CommitTheorems.CsrExceptionIsRaised` | cva6_patched/core/commit_stage.sv:379-421 | without a fault, an exception is raised if and only if the CSR file reports one and the instruction is valid, kept and not halted |
| `CommitTheorems.SecondPort` | cva6_patched/core/commit_stage.sv:318-367 | the second port retires exactly with the first one and a simple instruction without a fault behind one that allows it; it then writes unless dropped, and never otherwise |
| `CommitTheorems.OrdinaryPair` | cva6_patched/core/commit_stage.sv:161-367 | outside fences and halts two ordinary instructions retire together, both write, and nothing else happens |
| `CommitTheorems.OrdinaryFlushesNothing` | cva6_patched/core/controller.sv:147-314 | an ordinary instruction causes no flush but that of a mispredict |
| `CommitTheorems.RestartsExactly` | cva6_patched/core/controller.sv:147-314 | which retiring instruction restarts the pipeline and which caches and TLBs it flushes: exact for every fence and AMO |
| `CommitTheorems.TrapsFlush` | cva6_patched/core/controller.sv:295-314 | traps, returns and debug entries flush the whole pipeline and the branch prediction, and take the PC |
| `CommitTheorems.SideEffectsRestart` | cva6_patched/core/controller.sv:276-294 | a side effect of a CSR or of the accelerator restarts the pipeline from the commit PC |
| `FenceT.Controller.constructor` | cva6_patched/core/controller.sv:428-438 | reset state |
| `FenceT.Controller.PipelineFlush` | cva6_patched/core/controller.sv:147-314 | the pipeline flush outputs in closed form: a redirect sets the PC unless a trap or return overrides it |
| `FenceT.Controller.CacheFlush` | cva6_patched/core/controller.sv:176-276 | cache flush requests, fence bookkeeping and restart address |
| `FenceT.Controller.FlushCtrl` | cva6_patched/core/controller.sv:147-314 | all outputs and next registers of the flush logic |
| `FenceT.Controller.FenceTFsm` | cva6_patched/core/controller.sv:330-384 | next phase, reset counter, reset output and reported ceiling |
| `FenceT.Controller.Counters` | cva6_patched/core/controller.sv:390-423 | drain and pad counters, with clear and load taking priority over counting |
| `FenceT.Controller.Tick` | cva6_patched/core/controller.sv:147-451 | one clock of controller and commit stage together reaches the specified next state |
| `FenceT.Controller.TickOn` | cva6_patched/core/controller.sv:428-451 | the register update, given what the commit stage does |
| `FenceTheorems.BusyIsQuiet` | cva6_patched/core/controller.sv:319-325 | outside the idle phase the commit stage does nothing at all: no retirement, no write, no fence, no exception |
| `FenceTheorems.AcceptRetiresOnlyFenceT` | cva6_patched/core/commit_stage.sv:231-235 | the accepting cycle retires the fence.t alone, with no store pending; an exception is raised beside it if and only if the CSR file reports one and the instruction is not dropped |
| `FenceTheorems.DrainCounts` | cva6_patched/core/controller.sv:395-408 | over every run the drain counter is the number of consecutive idle cache cycles so far, cut off at fifteen |
| `FenceTheorems.ResetCounts` | cva6_patched/core/controller.sv:366-376 | the reset counter is the time since the reset phase was entered, and zero elsewhere |
| `FenceTheorems.PhaseEnds` | cva6_patched/core/controller.sv:338-383 | each phase can only have been entered from its predecessor, for that phase's reason |
| `FenceTheorems.RestartKept` | cva6_patched/core/controller.sv:266-276 | the restart address does not move until the core is idle again |
| `FenceTheorems.ResetHistory` | cva6_patched/core/controller.sv:319-384 | safety over every run: whenever the micro-reset is asserted, one fence.t was accepted before, since then nothing committed and no exception was taken, the flush was acknowledged, then fifteen idle cache cycles passed, then the pad ran out, and the restart address is the fence.t PC plus 4 |
| `FenceTheorems.ResetLasts` | cva6_patched/core/controller.sv:366-376 | the reset lasts exactly sixteen cycles and is followed by idle |
| `FenceTheorems.PadCountsDown` | cva6_patched/core/controller.sv:410-423 | the pad counter after a single load is the part of the interval that is left |
| `FenceTheorems.PadWaits` | cva6_patched/core/controller.sv:361-363 | after the drain the machine stays in the padding phase up to cycle max(load + pad, drained) + 1 |
| `FenceTheorems.ResetTime` | cva6_patched/core/controller.sv:330-423 | the reset occupies exactly the sixteen cycles from max(load + pad, drained) + 2 on |
| `FenceTheorems.ResetTimeIsIndependent` | cva6_patched/core/controller.sv:330-423 | two runs with the same load but any other difference assert the reset in the same cycles if both drained in time; a later drain shows |
| `FenceTheorems.CeilingIsElapsedTime` | cva6_patched/core/controller.sv:351-358 | the reported ceiling is the time from the pad load to the end of the drain, or zero once the interval ran out |
| `FenceTheorems.OneFlushAtATime` | cva6_patched/core/controller.sv:185-225 | with DcacheFlushOnFence a fence is active during fence.t exactly while its flush is awaited |
| `FenceTheorems.FenceHolds` | cva6_patched/core/controller.sv:176-225 | over every run, with DcacheFlushOnFence: a fence is active and requests the flush exactly from its acceptance until the acknowledge |
| `FenceTheorems.FlushRequest` | cva6_patched/core/controller.sv:269-276 | the registered cache flush request lasts until the acknowledge if and only if DcacheFlushOnFence is set; otherwise it is one pulse |
| `AxiShim.Shim.constructor` | cva6_patched/core/axi_shim.sv:286-291 | reset state |
| `AxiShim.Shim.WriteFsm` | cva6_patched/core/axi_shim.sv:119-243 | the case-based state machine computes the specified next state, valids, grant and counter controls |
| `AxiShim.Shim.Tick` | cva6_patched/core/axi_shim.sv:104-117 | one clock cycle with its outputs on both channels |
| `AxiShim.WorkConserving` | cva6_patched/core/axi_shim.sv:119-243 | AW is valid exactly while the address is outstanding, W exactly while a beat is, and the grant comes exactly in the cycle that completes both |
| `AxiShim.BeatsAreInRange` | cva6_patched/core/axi_shim.sv:104-107 | the selected lane is always one of the request's own |
| `AxiShim.InvStep` | cva6_patched/core/axi_shim.sv:119-243 | a cycle keeps: the channels carry the granted requests and then the sent part of the current one |
| `AxiShim.RunInv` | cva6_patched/core/axi_shim.sv:119-295 | the same in every cycle of every run |
| `AxiShim.WriteChannels` | cva6_patched/core/axi_shim.sv:119-243 | at every idle point of every run exactly the granted requests have left, in order, each as one address and its beats |
| `AxiShim.ChannelContents` | cva6_patched/core/axi_shim.sv:91-107 | each granted request's address stands at its place with the request's address, size, id, lock and atop fields, followed by exactly as many beats as its length announces, with the request's data in order and `last` on the final one only |
| `AxiShim.ValidIsStable` | cva6_patched/core/axi_shim.sv:119-243 | a valid that meets no ready stays raised with the same payload (AMBA AXI, section A3.2.1) |
| `AxiShim.HandshakesCount` | cva6_patched/core/axi_shim.sv:119-243 | every handshake lowers the number of outstanding transfers by one, and the grant comes at zero |
| `AxiShim.Progress` | cva6_patched/core/axi_shim.sv:119-243 | how much of a held request has been sent is determined by how often each ready has been high |
| `AxiShim.GrantTime` | cva6_patched/core/axi_shim.sv:119-243 | the grant comes exactly in the first cycle by which AW was ready once and W blen+1 times, so it comes under any fair ready signals |
| `AxiShim.UnsupportedIsNeverGranted` | cva6_patched/core/axi_shim.sv:139-162 | without burst writes a multi-beat request leaves the machine idle and is offered again in every cycle, never granted |
| `AxiShim.GrantableIffSupported` | cva6_patched/core/axi_shim.sv:139-162 | a held request is granted under some sequence of ready signals if and only if burst writes are enabled or it has one beat; otherwise under none |
| `CrcTable.LookupStep` | sw/lib/hal/spi_sdcard.c:57-79 | every one of the 256 table entries is its half's entry shifted through one more bit of the polynomial |
| `CrcPoly.RegisterDivides` | sw/lib/hal/spi_sdcard.c:56 | the bit-serial register is the remainder of the long division of the message, followed by zeros, by x^16+x^12+x^5+1 |
| `CrcPoly.FeedAllLinear` | sw/lib/hal/spi_sdcard.c:56 | the register is linear: feeding the sum of two messages gives the sum of the registers |
| `CrcPoly.ByteEnters` | sw/lib/hal/spi_sdcard.c:84-85 | eight bit-serial steps are one byte step: the register's upper byte and the message byte select what is added to the shifted lower byte |
| `CrcPoly.WindowSeparates` | sw/lib/hal/spi_sdcard.c:56 | two different windows of at most sixteen bits never leave the register in the same state |
| `CrcPoly.BurstSeparates` | sw/lib/hal/spi_sdcard.c:56 | two equally long bit messages that differ only inside a window of sixteen bits have different remainders |
| `Crc16.Compute` | sw/lib/hal/spi_sdcard.c:81-88 | the driver's function over a buffer returns the byte-swapped state |
| `Crc16.Run` | sw/lib/hal/spi_sdcard.c:81-86 | the loop computes the state of the whole buffer part, for any length |
| `Crc16.Advance` | sw/lib/hal/spi_sdcard.c:84-85 | one loop turn |
| `Crc16.TableBits` | sw/lib/hal/spi_sdcard.c:57-79 | each table entry, as bits, is its index fed through the bit-serial register |
| `Crc16.StepFeeds` | sw/lib/hal/spi_sdcard.c:84-85 | one loop turn on words is eight bit-serial steps |
| `Crc16.StateFeeds` | sw/lib/hal/spi_sdcard.c:81-86 | the table-driven state of any message, as bits, is the bit-serial register after it |
| `Crc16.CrcIsRemainder` | sw/lib/hal/spi_sdcard.c:81-88 | for every byte sequence the function returns the byte-swapped remainder of the polynomial division (section 4.5 of the SD Physical Layer Specification) |
| `Crc16.CheckMeansRemainder` | sw/lib/hal/spi_sdcard.c:86-87 | comparing the two received bytes with the function's result is comparing them, in the order received, with the remainder |
| `Crc16.BurstDetected` | sw/lib/hal/spi_sdcard.c:81-88 | two different messages of equal length that differ inside a window of sixteen bits never share a checksum |
| `SdCard.PollExact` | sw/lib/hal/spi_sdcard.c:255-257 | a polling loop succeeds exactly with the first byte that does not ask to wait, provided it arrives before the last poll; no transfer error before |
| `SdCard.BlocksStop` | sw/lib/hal/spi_sdcard.c:252-281 | the first failing block decides the result of the whole transfer |
| `SdCard.Geometry` | sw/lib/hal/spi_sdcard.c:293-299 | first offset, last length and block count describe exactly the requested bytes, through the one-block, first-block and last-block cases |
| `SdCard.Host.constructor` | sw/lib/hal/spi_sdcard.c:290-292 | a fresh transfer position |
| `SdCard.Host.ReceiveByte` | sw/lib/hal/spi_sdcard.c:91-113 | one received byte, or the bus's error code |
| `SdCard.Host.Receive` | sw/lib/hal/spi_sdcard.c:91-113 | received bytes are stored in order and nothing else changes |
| `SdCard.Host.PollFor` | sw/lib/hal/spi_sdcard.c:253-257 | the do-while loop with its decremented timeout is the polling function |
| `SdCard.Host.SendCommand` | sw/lib/hal/spi_sdcard.c:124-152 | the read and stop commands: response polling, stuff byte, busy wait and release, with the exact error code |
| `SdCard.Host.ReceiveChunk` | sw/lib/hal/spi_sdcard.c:266-267 | the next chunk extends the part of the block received so far |
| `SdCard.Host.ReceiveChunks` | sw/lib/hal/spi_sdcard.c:265-268 | chunked reception fills exactly one block, for every chunk size, or returns the first chunk error |
| `SdCard.Host.ReceiveWord` | sw/lib/hal/spi_sdcard.c:270-271 | the checksum word, little-endian in memory |
| `SdCard.Host.ReceiveBlock` | sw/lib/hal/spi_sdcard.c:264-272 | a block and its checksum: success exactly when no transfer failed and, with checking on, the checksum matched |
| `SdCard.Host.FindToken` | sw/lib/hal/spi_sdcard.c:253-259 | waits for the start token; any other token is an error |
| `SdCard.Host.CopyBytes` | sw/lib/hal/spi_sdcard.c:275-280 | `memcpy` between different objects |
| `SdCard.Host.CopyPart` | sw/lib/hal/spi_sdcard.c:274-280 | the copy from the swap buffer writes exactly the wanted part of the block |
| `SdCard.Host.StoreBlock` | sw/lib/hal/spi_sdcard.c:260-280 | one block, buffered or not: the wanted part arrives and nothing outside it changes |
| `SdCard.Host.ReadBlock` | sw/lib/hal/spi_sdcard.c:252-281 | one block of the loop: exactly its wanted part is stored |
| `SdCard.Host.ReadNext` | sw/lib/hal/spi_sdcard.c:252-281 | one more block extends the bytes that the buffer already holds |
| `SdCard.Host.ReadAll` | sw/lib/hal/spi_sdcard.c:252-281 | the loop over the blocks: the buffer holds the wanted part of all of them, or the first error is returned |
| `SdCard.Host.ReadBlocks` | sw/lib/hal/spi_sdcard.c:239-287 | one command, the blocks, and the stop command or release; the commands sent are stated exactly |
| `SdCard.Host.Read` | sw/lib/hal/spi_sdcard.c:290-303 | for every address and length: on success the buffer holds exactly the requested slice of the delivered blocks; no byte outside it changes in any case; the error code is exact |
| `SdAnswers.CommandsMean` | sw/lib/hal/spi_sdcard.c:246 | one block is asked for by command 17, several by command 18 and ended by command 12 (section 7 of the SD Physical Layer Specification); the argument is the block number cut to 32 bits |
| `SdAnswers.ResponseFound` | sw/lib/hal/spi_sdcard.c:133-137 | a response is found exactly if it is the first byte with bit 7 clear and among the first seven |
| `SdAnswers.BusyEnds` | sw/lib/hal/spi_sdcard.c:141-145 | the busy wait ends exactly with the first nonzero byte among fewer than 100000 |
| `SdAnswers.TokenFound` | sw/lib/hal/spi_sdcard.c:254-257 | a token is found exactly if it is the first byte other than 0xFF among fewer than 100000 |
| `SdAnswers.PollTimesOut` | sw/lib/hal/spi_sdcard.c:137-145 | without transfer errors a poll that fails returns its own timeout code |
| `SdAnswers.BadTokenIsRefused` | sw/lib/hal/spi_sdcard.c:258-259 | a block that starts with another token than 0xFE is refused with code 0x20 |
| `SdAnswers.BadChecksumIsRefused` | sw/lib/hal/spi_sdcard.c:269-272 | a block not followed by the remainder of its polynomial is refused with code 0x21 if checking is on, and accepted if it is off |
| `SdAnswers.BlockIsRead` | sw/lib/hal/spi_sdcard.c:253-272 | a block sent as gap, start token, data and remainder is accepted, checked or not, in chunks of any size |
| `SdAnswers.BlocksAreRead` | sw/lib/hal/spi_sdcard.c:252-281 | so is any number of them, and the data delivered are theirs |
| `SdAnswers.AnswerIsRead` | sw/lib/hal/spi_sdcard.c:239-287 | success: a complete answer (response, blocks with their remainders, and for several blocks stuff byte, response and busy signal) makes the transfer succeed and delivers its blocks |
| `SdAnswers.ReadAnswered` | sw/lib/hal/spi_sdcard.c:290-303 | the driver on such a card returns zero and fills the caller's buffer with the asked bytes of those blocks, having sent exactly the commands of the read |
| `SdTheorems.HonestData` | sw/lib/hal/spi_sdcard.c:252-281 | blocks received from an honest card make up consecutive card contents |
| `SdTheorems.TruncatedAddress` | sw/lib/hal/spi_sdcard.c:226-232 | the 32-bit block argument means the byte address modulo two tebibytes |
| `SdTheorems.ReadsDisk` | sw/lib/hal/spi_sdcard.c:290-303 | the blocks that a successful transfer from an honest card delivers contain the len card bytes from addr modulo two tebibytes on, where the driver takes them |
| `SdTheorems.AddressableExactly` | sw/lib/hal/spi_sdcard.c:246 | that is the requested range on every card if and only if the address is below two tebibytes |
| `SdTheorems.ChecksumsMatched` | sw/lib/hal/spi_sdcard.c:269-272 | with checking on, every delivered block was followed by the remainder of its own bytes |
| `SdTheorems.GarbledIsCaught` | sw/lib/hal/spi_sdcard.c:272 | a block garbled within sixteen bits and accepted with checking on is the card's block |
| `SdTheorems.CheckedIsHonest` | sw/lib/hal/spi_sdcard.c:272 | with checking on, a successful transfer over a bursty line is an honest one |
| `SdTheorems.CheckedReadIsExact` | sw/lib/hal/spi_sdcard.c:290-303 | the same over a line that may garble a burst in every block, with checking on |
| `SdTheorems.ReadCard` | sw/lib/hal/spi_sdcard.c:289-303 | end to end in the caller's memory: a successful read from an honest card, or a checked one over a bursty line, fills buf[0..len) with the card's bytes from addr modulo two tebibytes on, and changes nothing else; it succeeds exactly if the transfer does |
| `Flash.ProgramsBlank` | sw/lib/hal/spi_s25fs512s.c:134-150 | programming, which only clears bits, writes the data exactly where cells are blank |
| `Flash.SectorBlank` | sw/lib/hal/spi_s25fs512s.c:97-133 | erasing the small sectors and then the rest leaves the sector blank and the others unchanged |
| `Flash.PageWritten` | sw/lib/hal/spi_s25fs512s.c:136-150 | one more page extends the written part and keeps the rest blank |
| `Flash.OverlayIsAligned` | sw/lib/hal/spi_s25fs512s.c:97-109 | where small sectors can be, the alignment test finds them: 0 for the first sector, 63 for the last |
| `Flash.Driver.PollWip` | sw/lib/hal/spi_s25fs512s.c:72-83 | returns zero only when nothing is in progress and no failure flag is up |
| `Flash.Driver.EraseSmall` | sw/lib/hal/spi_s25fs512s.c:112-122 | write enable, erase, wait: the small sector is erased, or an error is returned; the erase is issued enabled and idle also where it has no effect |
| `Flash.Driver.EraseSmalls` | sw/lib/hal/spi_s25fs512s.c:111-123 | all eight small sectors are blank if the chip has them there |
| `Flash.Driver.EraseSector` | sw/lib/hal/spi_s25fs512s.c:125-133 | write enable, erase, wait for a large sector |
| `Flash.Driver.EraseOverlay` | sw/lib/hal/spi_s25fs512s.c:97-123 | the small sectors of a sector are blank wherever the chip has them |
| `Flash.Driver.ProgramPage` | sw/lib/hal/spi_s25fs512s.c:136-150 | write enable, program, wait for a page |
| `Flash.Driver.ProgramNext` | sw/lib/hal/spi_s25fs512s.c:136-150 | one more page after those already written |
| `Flash.Driver.BlankSector` | sw/lib/hal/spi_s25fs512s.c:95-133 | on success the whole sector is blank for every overlay arrangement; nothing else changes in any case |
| `Flash.Driver.ProgramSector` | sw/lib/hal/spi_s25fs512s.c:134-150 | on success the sector holds the buffer's bytes |
| `Flash.Driver.FlashSector` | sw/lib/hal/spi_s25fs512s.c:95-153 | both together for one sector |
| `Flash.Driver.FlashNext` | sw/lib/hal/spi_s25fs512s.c:180-183 | one more sector after those already written |
| `Flash.Driver.FlashSectors` | sw/lib/hal/spi_s25fs512s.c:156-186 | on success the whole range equals the buffer; everything else is unchanged in any case; on success or failure every erase and program is issued with write-enable set and nothing in progress; a reliable chip within the clock limit always succeeds; too fast a clock is refused |
| `Flash.Driver.Prepare` | sw/lib/hal/spi_s25fs512s.c:161-178 | mode entry leaves the cells alone and the chip ready |
| `Flash.Driver.ReadChunk` | sw/lib/hal/spi_s25fs512s.c:40-54 | one chunk extends the bytes read |
| `Flash.Driver.Read` | sw/lib/hal/spi_s25fs512s.c:56-69 | for any address, length and chunk size the buffer part equals the chip's contents; the clock limit is checked |
| `Flash.SectorWritten` | sw/lib/hal/spi_s25fs512s.c:180-183 | one more sector extends the written range |
| `Flash.ReadsBack` | sw/lib/hal/spi_s25fs512s.c:56-69 | after a flash, a read of any part of the range gives the buffer's bytes |
| `GptReader.Reader.Examine` | sw/lib/gpt.c:41-61 | one turn: the entry's range, and whether it fits and carries a requested GUID |
| `GptReader.Reader.CompareBoth` | sw/lib/gpt.c:53-60 | type GUID first, then partition GUID; either one is enough |
| `GptReader.Reader.Compare` | sw/lib/gpt.c:53-60 | a requested GUID is compared in both words; none requested never matches |
| `GptReader.Reader.ReadHeader` | sw/lib/gpt.c:25-32 | the header fields |
| `GptReader.Reader.ReadWord` | sw/lib/gpt.c:18 | through the SD driver: the word on the card, and success if and only if the transfer succeeds |
| `GptReader.Reader.ReadPair` | sw/lib/gpt.c:44 | through the SD driver: the two words on the card at that address, if the card served its own blocks; success if and only if the transfer succeeds |
| `GptReader.Reader.Read` | sw/lib/gpt.c:44 | a read of two words through the callback: the storage's words, or an error |
| `GptReader.Reader.Search` | sw/lib/gpt.c:41-70 | the least index that fits and matches; otherwise -1 with the clipped first entry; an empty table keeps the given range; over any storage, or the SD driver's checked reads |
| `GptReader.Reader.FindPartition` | sw/lib/gpt.c:22-71 | the same for the table the disk's header describes, for every disk |
| `GptReader.Reader.CheckSignature` | sw/lib/gpt.c:14-20 | on the SD card: true if and only if the read of eight bytes at block 1 succeeds and the card holds the signature there; on other storage: exactly if the read worked and the signature is there; no other read is made |
| `GptReader.Reader.Plan` | sw/lib/gpt.c:73-83 | the signature is read first and the search is made if and only if it is there; the boot range, and the byte address and length asked for, in 64-bit arithmetic; on the card it succeeds if and only if every read after the signature's does |
| `GptReader.WordsInRange` | sw/lib/gpt.c:26-38 | the little-endian words of the card lie in the 64-bit range the search computes in |
| `Gpt.ClipBounds` | sw/lib/gpt.c:46-49 | the clipped range has at most max_lbas blocks exactly unless the end lies more than one block before the beginning and the cut-off does not wrap |
| `Gpt.FittingBounds` | sw/lib/gpt.c:51 | an entry that passes the size test has at most max_lbas blocks, wrap-around included |
| `Gpt.BootIsBounded` | sw/lib/gpt.c:73-83 | the boot range has at most max_lbas blocks unless, and only unless, the disk has a table in which nothing fits and matches and whose first entry ends more than one block before it begins without a wrapping cut-off |
| `Gpt.BootLength` | sw/lib/gpt.c:81-83 | then exactly those blocks are asked for, at most 512 times max_lbas bytes |
| `Gpt.MalformedEntryOverflows` | sw/lib/gpt.c:46-49 | a disk on which the bound fails |
| `GptTable.HeaderMeans` | sw/lib/gpt.c:26-32 | the header fields of an encoded table: first block at 0x48, count at 0x50, entry size at 0x54 of block 1 (section 5.3 of the UEFI Specification) |
| `GptTable.WantedIsGood` | sw/lib/gpt.c:41-61 | an encoded entry (type GUID at 0, unique GUID at 16, first block at 32, last block at 40) is wanted exactly if it spans at most max_lbas blocks, in 64-bit arithmetic, and carries a requested GUID |
| `GptTable.SearchAnswers` | sw/lib/gpt.c:22-71 | on any disk that holds an encoded list of entries the search's result is the least entry of the list that fits and carries a requested GUID; without one, the first entry cut off |
| `GptTable.SignatureMeans` | sw/lib/gpt.c:14-20 | the signature word is there exactly if the bytes at 0x200 spell "EFI PART" |
| `GptTable.FoundIsNoFallback` | sw/lib/gpt.c:62-82 | a partition that was found is no fallback, and its blocks are those from first to last |
| `GptTable.Find` | sw/lib/gpt.c:22-71 | `gpt_find_partition` on an SD card with such a table answers from the list; it succeeds exactly if its reads do |
| `GptTable.Boot` | sw/lib/gpt.c:73-83 | `gpt_boot_part_else_raw` on such a card: the answer is that of the list, and the code buffer holds the found partition's blocks, from the first to the last |
| `GptBoot.Boot` | sw/lib/gpt.c:73-83 | signature, search and load, all through the SD driver: the search is made if and only if the signature was read; the boot succeeds if and only if every read after the signature's does; then, unless the search falls back to a malformed first entry, the code buffer holds exactly the card's blocks of the boot range, at most max_lbas, and nothing else in memory has changed; only in the other case can the load exceed the buffer |
| `GptBoot.PlanOnCard` | sw/lib/gpt.c:75-82 | the search over the SD driver, made exactly if the signature was read, finds the boot range of the card's contents; the address and length asked for are those blocks; it succeeds exactly if its reads do |
| `GptBoot.Load` | sw/lib/gpt.c:83 | the load through the SD driver fills the buffer with the card's bytes, fails exactly if the transfer does, or is seen to exceed the buffer |
| `Pmp.PmpFile.constructor` | cva6_patched/core/csr_regfile.sv:2895-2904 | reset values, entries beyond the configured number cleared |
| `Pmp.PmpFile.WriteProcess` | cva6_patched/core/csr_regfile.sv:1857-1958 | a CSR write reaches exactly the unlocked entries it names; an address not below a locked TOR entry |
| `Pmp.PmpFile.Legalize` | cva6_patched/core/csr_regfile.sv:3003-3012 | illegal modes and write-without-read keep the old field values |
| `Pmp.PmpFile.Tick` | cva6_patched/core/csr_regfile.sv:2999-3026 | one clock of all 64 entries |
| `Pmp.LockStep` | cva6_patched/core/csr_regfile.sv:1857-1958 | no write changes a locked entry, nor the address below a locked TOR entry |
| `Pmp.LockHolds` | cva6_patched/core/csr_regfile.sv:1857-1958 | over every write sequence a locked entry keeps lock, mode, permissions, address and matched region, down to the lower bound of a TOR entry (section 3.7.1 of the RISC-V Privileged Architecture) |
| `Pmp.StaysLegal` | cva6_patched/core/csr_regfile.sv:2999-3026 | from legal reset values no reachable entry is NA4, write-without-read, or an unsupported NAPOT |
| `Pmp.AddressMovableExactly` | cva6_patched/core/csr_regfile.sv:1953-1957 | some write can move an address if and only if neither its own lock nor a locked TOR entry above forbids it |
| `Pmp.ConfigBelowStaysWritable` | cva6_patched/core/csr_regfile.sv:1857-1860 | the configuration of any unlocked entry, also below a locked TOR entry, can be set to any legal value |
| `Pmp.AddressWrite` | cva6_patched/core/csr_regfile.sv:1949-1957 | an address write reaches the entry of its number, exactly if that entry and a TOR entry above allow it, and no other entry and no configuration |
| `Pmp.ConfigWrite` | cva6_patched/core/csr_regfile.sv:1876-1893 | a configuration write reaches exactly the unlocked entries of its register, byte by byte, each field as far as it is legal, and no address |
| `Pmp.MatchesRegion` | cva6_patched/core/pmp/src/pmp_entry.sv:46-120 | a byte address matches an entry exactly if it lies in the entry's region |
| `Pmp.NapotEncoding` | cva6_patched/core/pmp/src/pmp_entry.sv:66-72 | an address of the form y0111… with k ones is the aligned region of 2^(k+3) bytes number y (section 3.7.1 of the RISC-V Privileged Architecture) |
| `Pmp.NapotRegion` | cva6_patched/core/pmp/src/pmp_entry.sv:66-72 | such an entry protects exactly the bytes from y*2^(k+3) up to (y+1)*2^(k+3) |
| `Traps.CsrFile.constructor` | cva6_patched/core/csr_regfile.sv:2807-2831 | reset state |
| `Traps.CsrFile.WriteCsr` | cva6_patched/core/csr_regfile.sv:1545-1579 | the status, EPC and debug writes with the reserved levels rejected |
| `Traps.CsrFile.EnterTrap` | cva6_patched/core/csr_regfile.sv:2027-2186 | which level a trap enters and which context it saves |
| `Traps.CsrFile.DebugMode` | cva6_patched/core/csr_regfile.sv:2198-2276 | debug entry by breakpoint, request or step, and the return |
| `Traps.CsrFile.Return` | cva6_patched/core/csr_regfile.sv:2338-2420 | the returns override trap and write; of several the debug return decides the level |
| `Traps.CsrFile.Tick` | cva6_patched/core/csr_regfile.sv:2690-2702 | one clock cycle, with the address returned to |
| `TrapStack.LegalStep` | cva6_patched/core/csr_regfile.sv:1545-1571 | any combination of write, trap and returns in one cycle keeps privilege, MPP and dcsr.prv among the levels the hart has |
| `TrapStack.AlwaysLegal` | cva6_patched/core/csr_regfile.sv:2027-2420 | the same over every run with a debugger that writes legal levels |
| `TrapStack.ResetIsLegal` | cva6_patched/core/csr_regfile.sv:2807-2831 | the reset value of MPP is a legal level exactly where user mode exists; elsewhere the first cycle repairs it |
| `TrapStack.LegalExactly` | cva6_patched/core/csr_regfile.sv:1195-1207 | from legal levels a cycle, whatever it combines, leaves an illegal one if and only if a debugger in debug mode writes one to dcsr.prv |
| `TrapStack.TrapsNeverLower` | cva6_patched/core/csr_regfile.sv:2040-2048 | no trap lowers the privilege level, whatever is delegated |
| `TrapStack.TrapTarget` | cva6_patched/core/csr_regfile.sv:2027-2186 | where a trap goes and what it saves: to supervisor mode exactly if delegated and from below machine mode |
| `TrapStack.ReturnLeaves` | cva6_patched/core/csr_regfile.sv:2338-2386 | a return restores level and enable, sets xPIE, leaves the least level of the configuration in xPP, and changes nothing else (section 3.1.6.1 of the RISC-V Privileged Architecture) |
| `TrapStack.WritesReadBack` | cva6_patched/core/csr_regfile.sv:1545-1579 | what every status and EPC write leaves in the registers, and that it changes no other |
| `TrapStack.Enters` | cva6_patched/core/csr_regfile.sv:2027-2186 | a trap saves the interrupted context in the level it enters and touches no other level's |
| `TrapStack.Leaves` | cva6_patched/core/csr_regfile.sv:2338-2386 | restoring the saved fields and returning brings that context back, in machine and in supervisor mode |
| `TrapStack.WritesOwn` | cva6_patched/core/csr_regfile.sv:1545-1571 | writing any values to the own level's context keeps the level, legality and the other levels' context |
| `TrapStack.HandlerRestores` | cva6_patched/core/csr_regfile.sv:2027-2420 | the stack law: for every well-nested tree of M- and S-mode handlers, whatever they write to their own level's xIE, xPIE, xPP and xEPC, a handler that restores what it saved leaves privilege, interrupt enables and PC as the trap found them (section 3.1.6.1 of the RISC-V Privileged Architecture) |
| `TrapStack.BodyKeeps` | cva6_patched/core/csr_regfile.sv:2027-2420 | any sequence of such handlers, computations and arbitrary writes to the own level's enable, PIE, PP and EPC keeps the level and the higher levels' enables |
| `TrapStack.RestoresBoth` | cva6_patched/core/csr_regfile.sv:2027-2420 | whatever a machine-mode body did to the registers, restoring both contexts and returning leaves privilege, enables, PC and the whole supervisor context as the trap found them |
| `TrapStack.DebugRoundTrip` | cva6_patched/core/csr_regfile.sv:2234-2275 | entering debug mode by request or step and leaving it changes nothing |
| `TrapStack.DebuggerResumes` | cva6_patched/core/csr_regfile.sv:2338-2420 | after a debugger wrote `dcsr.prv` and `dpc` the debug return goes to that level and PC and leaves the rest as it was |
| `TrapStack.DebugIsEnteredExactly` | cva6_patched/core/csr_regfile.sv:2198-2276 | debug mode is entered exactly by a step, a request, or a breakpoint meant for it, and nothing else moves `dpc` |
| `TrapStack.BreakpointTraps` | cva6_patched/core/csr_regfile.sv:2204-2232 | a breakpoint that enters debug mode also runs the trap entry, so the saved context of the target level is lost |
| `AddressMap.GenAxiIn` | hw/cheshire_pkg.sv:323-337 | for every configuration the connected inputs get 0, 1, 2, … without gap or repetition, external ones follow, and all fit six bits |
| `AddressMap.OptionalPorts` | hw/cheshire_pkg.sv:328-333 | the optional inputs take consecutive indices in their order |
| `AddressMap.NextPort` | hw/cheshire_pkg.sv:328 | an optional input takes the next index if it is there |
| `AddressMap.Cores` | hw/cheshire_pkg.sv:326 | the harts take the first indices |
| `AddressMap.Add` | hw/cheshire_pkg.sv:431 | a device takes the next port and the next rule |
| `AddressMap.AddIf` | hw/cheshire_pkg.sv:431-447 | one optional device takes the next port and rule, and keeps the list complete and in order |
| `AddressMap.AddFixed` | hw/cheshire_pkg.sv:426-430 | the three devices that are always there |
| `AddressMap.AddSingles` | hw/cheshire_pkg.sv:426-441 | the devices outside the hart loops, complete and in order |
| `AddressMap.AddClics` | hw/cheshire_pkg.sv:442-444 | one interrupt controller per hart, consecutively |
| `AddressMap.AddBusErrs` | hw/cheshire_pkg.sv:445-447 | two bus error units and one per hart, consecutively; a unit past the 32 entries of the port array gets a rule but no port field |
| `AddressMap.AddAll` | hw/cheshire_pkg.sv:426-447 | all enabled devices in order, as many as the configuration says |
| `AddressMap.AppendExt` | hw/cheshire_pkg.sv:453-457 | the external rules stand behind the internal ones as far as the table reaches |
| `AddressMap.Finish` | hw/cheshire_pkg.sv:448-457 | the external base, the truncated counts and the external rules |
| `AddressMap.GenRegOut` | hw/cheshire_pkg.sv:425-459 | exactly the enabled devices get a port and a rule, each once, in order; their number is that of the feature bits and harts; counts and bases are the truncated sums |
| `AddressMap.DevsAreDetermined` | hw/cheshire_pkg.sv:425-447 | that list is the only one the configuration admits, so it fixes every port and rule |
| `AddressMap.PortsAreDistinct` | hw/cheshire_pkg.sv:360-383 | the crossbar's enabled output ports are 0, 1, 2, … without gap or repetition, and the scratchpad shares the LLC's |
| `AddressMap.LlcSizeExact` | hw/cheshire_pkg.sv:287-289 | the LLC size is its number of bytes if and only if the number of bits fits 32 bits |
| `AddressMap.AddRule` | hw/cheshire_pkg.sv:368-380 | an optional crossbar rule takes the next table entry |
| `AddressMap.AxiInternal` | hw/cheshire_pkg.sv:363-381 | the internal outputs and rules |
| `AddressMap.AppendExternal` | hw/cheshire_pkg.sv:386-396 | the external rules, the register ones led to output 1 |
| `AddressMap.GenAxiOut` | hw/cheshire_pkg.sv:360-398 | every mapped destination gets its rule in order; all counts fit six bits |
| `AddressRouting.DevsDisjoint` | hw/cheshire_pkg.sv:428-447 | the regions of any two register devices, per-hart ones included, are disjoint |
| `AddressRouting.DevInWindow` | hw/cheshire_pkg.sv:365 | every register device lies in the crossbar's register window |
| `AddressRouting.DstsDisjoint` | hw/cheshire_pkg.sv:360-396 | the regions of any two mapped destinations are disjoint, given disjoint external regions and a scratchpad of at most 64 MiB |
| `AddressRouting.CrossbarRoutes` | hw/cheshire_pkg.sv:360-398 | the crossbar sends every mapped address to its destination's port |
| `AddressRouting.CrossbarPortsExist` | hw/cheshire_pkg.sv:360-391 | the crossbar's internal ports are outputs, and an external one exactly if its number is below the number of external outputs |
| `AddressRouting.RegRoutes` | hw/cheshire_pkg.sv:425-459 | the demultiplexer's decoder sends every address of an enabled device with a port field to that device's port |
| `AddressRouting.RegExtRoutes` | hw/cheshire_pkg.sv:452-457 | and every external register address to the external port |
| `AddressRouting.PeripheralIsReached` | hw/cheshire_pkg.sv:360-459 | every address of an enabled internal register peripheral passes the crossbar to the demultiplexer, is decoded to the peripheral's port (if it has a port field), and with fewer than 64 ports that port is one of the outputs and not the error port |
| `AddressRouting.ExternalIsReached` | hw/cheshire_pkg.sv:360-459 | so is every external register address; its port is one of the outputs with fewer than 64 ports and a port number below the number of external outputs |
| `AddressRouting.RulesFit` | hw/cheshire_pkg.sv:448-451 | with 2*NumCores + RegExtNumRules at most 48 the rules fit the table; for every configuration the six-bit count is right if and only if the enabled devices and external rules are fewer than 64; at 64 it reads zero |
| `AddressRouting.FullIsDead` | hw/cheshire_pkg.sv:425-459 | a valid configuration within that bound (17 harts, every feature, 14 external regions) with exactly 64 rules, of which none is decoded |
| `AddressRouting.RoutingExactly` | hw/cheshire_pkg.sv:425-459 | the decoder sends every address of every enabled device and external region to its port if and only if the configuration has fewer than 64 register rules and not the 33rd bus error unit |
| `AddressRouting.AllPortsExist` | hw/cheshire_pkg.sv:448-450 | with fewer than 64 ports every device port is an output, and every external one exactly if its number is below the number of external outputs |
| `AddressRouting.ReachedExactly` | hw/cheshire_pkg.sv:425-459 | everything is decoded to its port and every port is an output if and only if there are fewer than 64 register rules, fewer than 64 ports, no 33rd bus error unit, and no external port number past the external outputs |
| `AddressRouting.ManyHasNoOutputs` | hw/cheshire_soc.sv:322-323 | a valid configuration (16 harts, every feature, 15 external slaves and regions) with 63 rules, all decoded, whose six-bit number of outputs is zero, so that no port exists |
| `AddressRouting.LargeLosesAUnit` | hw/cheshire_pkg.sv:417-447 | a configuration of 47 rules (31 harts with bus error units and no CLIC) in which the 33rd unit has no port |
| `AddressRouting.SomeDeviceIsLost` | hw/cheshire_pkg.sv:448-451 | with 64 rules or more some enabled device is not decoded |
| `AddressRouting.FullTableIsDead` | hw/cheshire_pkg.sv:451 | a full table reports no rule, so no address is decoded |
| `AddressRouting.RegPortsDistinct` | hw/cheshire_pkg.sv:425-451 | with fewer than 64 devices different enabled devices have different ports, none of them the error port; with fewer than 64 ports they are below the external ones |
| `AddressRouting.DistinctExactly` | hw/cheshire_pkg.sv:425-447 | all device ports are distinct and none is the error port if and only if there are fewer than 64 devices |
| `AddressRouting.ScratchpadNeedsLlc` | hw/cheshire_pkg.sv:368-377 | the scratchpad rules lead to the register demultiplexer if and only if the LLC output is not connected |
| `AddressRouting.DstsInOrder` | hw/cheshire_pkg.sv:360-396 | no destination has two rules |
| `AddressRouting.RegRulesDisjoint` | hw/cheshire_pkg.sv:425-459 | no two rules of the register map overlap |
| `AddressRouting.AxiRulesDisjoint` | hw/cheshire_pkg.sv:360-398 | no two rules of the crossbar map overlap |
| `MemoryMap.LineMeans` | hw/cheshire_pkg.sv:425-447 | the generated regions and flags are those of the documented table, line by line (`docs/um/arch.md:34-73`) |
| `MemoryMap.DeviceHasLine` | hw/cheshire_pkg.sv:425-447 | every device has a line in it |
| `MemoryMap.DeviceIsReached` | docs/um/arch.md:34-73 | every address of a documented device that the configuration has passes the crossbar and is decoded to that device's own output, with fewer than 64 rules and ports |
| `MemoryMap.RestIsError` | docs/um/arch.md:34-73 | every other address of the register window is decoded to nothing and so goes to the error output |
| `MemoryMap.CrossbarLines` | docs/um/arch.md:34-73 | the debug module, the register window, the DMA's registers and both scratchpad views are at the documented places and lead to their ports |

## Left out

- FIFO: depth 0 and the FPGA and Altera memory modes.
- Dispatcher: the MMU interface, cache invalidation, floating-point flags and the dirty state, which pass through; an instruction's operands are one value.
- Realigner: addresses do not wrap around at the top of the address space; configurations without compressed instructions.
- Controller and commit stage: floating-point flags, macro instructions, the write data and the number of commit ports other than two.
- AXI: the read channel and the write response, which pass through; constant fields of the address.
- SD: card initialisation, CRC7, the R7 response check, block writes; the R1 response bits, which the driver ignores.
- SD: transfers are bytes and an error code; SPI register access is abstracted; address plus length does not exceed 64 bits.
- SdCard.Host.SendCommand: models the commands a read uses (opcode and argument, and the stop command), not the initialisation commands nor the six-byte frame with its byte order and CRC7.
- Flash: the CR3V configuration transfer; erasing 256 KiB is an assumption. Addresses are not cut to 32 bits, so the chip is taken to be smaller than 2 GiB.
- Flash.Driver.Prepare: does not model the outcome of the configuration transfer, only the steps around it.
- GPT: the scratch registers and the jump to the loaded code. The source does not check the size of the code buffer; the model takes it to hold max_lbas blocks and stops where a longer load would exceed it.
- GPT: of the read callbacks only the SD driver is composed with the search; any other is an arbitrary storage with arbitrary errors.
- PMP: what reading entry 64 yields when the address of entry 63 is written is left open; physical addresses are not cut to their width, so a NAPOT address of all ones is the region it stands for, and the permission check behind the match is not modelled.
- TrapStack.HandlerRestores: the bodies of machine-mode handlers do not write the supervisor level's registers, because these handlers restore only their own; `RestoresBoth` is the law for handlers that restore both, after any body.
- Traps: hypervisor and CLIC off; cause, trap value, vector base, MPRV, TSR, TVM and the interrupt selection; the causes' delegation is an input.
- Address maps: the ID-width mapping and the other configuration functions.
- The two-wire EEPROM driver, the compressed decoder, the ALU, the branch unit, the register files and the wiring modules would only add easy members or depend on modules that are not shown.
