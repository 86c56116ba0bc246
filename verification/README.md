# Models of the NeXT emulator's device layer

A Dafny model of the bare-metal NeXT emulator's devices, with proofs of what they keep and
deliver. `dafny verify dfyconfig.toml` checks everything.

The core is the SCSI path: the ESP controller, the SCSI target with its sector cache, the DMA
channel over bank-folded RAM, and the interrupt controller with its delayed delivery. Each is
specified by transition functions on values (`Esp`, `ScsiDisk`, `ScsiDma`, `Interrupts`), and
each is also written in the form the C code has, as a class over fields and arrays
(`EspDevice`, `DiskDevice`, `DmaDevice`, `Interrupts.Controller`), every method proved equal to
its transition function. Safety (`ScsiPath`, `ScsiRuns`), the stream and cache laws
(`SectorStream`, over commands as `DiskCommand` encodes them), the registers read back
(`EspLatches`) and the end-to-end READ theorems (`GuestRead`, `GuestChain`, `GuestPio`, over the
scripts of `GuestScript`) are proved about the functions.

Around it stand the two-core display protocol (`DirtyLines`, `Video`), the serial clock chip
(`Rtc`, `RtcHost`, `RtcClock`, `RtcDevice`), the Atari blitter (`Blitter`, `BlitResult`,
`BlitterDevice`), the floating-point conversions (`Fp80`, `FloatMoves`, `RegisterLists`), and
the rounding of the reference vectors (`Rounding`). `Bits`, `MainMemory` and `Powers` are shared.

Modelling choices:

- Registers are unbounded integers with their C width in the type; every wrap, mask and
  truncation is written out. The 32-bit interrupt registers and the words of the dirty bitmap
  are sets of bit numbers. Blitter words are strings of 16 bits.
- The disk is an immutable byte sequence; a card read delivers the sector or fails, and which
  sectors fail may change at any time. A failed read leaves the buffer arbitrary in C; it is
  never sent, so the model leaves it empty.
- The CPU is a recorded interrupt level. Guest accesses, ticks and other devices are events in
  any order. The part of the 12-byte CDB buffer a select does not fill is a parameter.
- The two cores' atomics are sequentially consistent steps.

Where the code does something other than its comments or the surrounding design suggest, the
model follows the code and states the exact condition:

- The comment at `next_scsi_dma.c:546-552` says RESET clears a bus exception; the CSR write does
  not (`ScsiDma.WriteCsrKeeps`). The next transfer clears it.
- The comment at `next_esp.c:949-957` says sync period and offset are stored for readback; those
  addresses read the sequence step and the FIFO count instead (`EspLatches.SyncIsNotReadBack`).
- A channel reset can strand a running command for good (`ScsiPath.CsrWriteKeeps`,
  `ScsiRuns.StrandedForGood`, `ScsiRuns.ResetCanStrand`).
- READ(10) of zero blocks reports the previous command's status (`SectorStream.ReadOfNothing`).
- The empty-slot mark is an ordinary sector number (`SectorStream.HitsHonestIff`), and a cached
  sector hides a card that has become unreadable (`SectorStream.CacheTransparent`).
- Flipping TIMERIPL7 leaves the CPU level stale until the next resynchronisation, at the latest
  after the current slice of the main loop, `main.c:1127-1128` (`Interrupts.WriteScr2Level`).
- A VRAM store that crosses a line end leaves the second line unmarked
  (`DirtyLines.StoreSafeIff`).
- RZ and the inward directed modes overflow to infinity, where section 7.4 of IEEE 754-2008 keeps
  the largest finite number (`Rounding.InwardOverflows`).
- Stores to single and double flush subnormal results to zero and turn large values into infinity;
  they truncate exactly outside those ranges (`Fp80.NarrowTruncatesIff`, `Fp80.SubnormalIsFlushed`).
  They can turn a NaN into an infinity (`Fp80.NaNBecomesInfinity`).
- A register list saved with predecrement and restored with postincrement comes back reversed
  (`RegisterLists.CrossModeReverses`), and list moves and single moves lay an extended operand
  out differently (`RegisterLists.LayoutsAgreeIff`).

## Model

| member | source | states |
|---|---|---|
| `GuestRead.GuestReadDelivers` | validation/NeXT-68040/src/next_esp.c:469-893 | from any state with no command running: a READ(6) or READ(10) of 1 to 128 readable sectors from sector `lba`, selected with ATN, acknowledged, armed with a window inside RAM and started with TI and DMA, leaves after 20 ticks exactly those image bytes in the window, all other RAM as the CPU's own stores left it, counter 0, TC, FC and COMPLETE set; the driver reads from INTRSTATUS BS|FC, then FC, then after command complete FC, and from the FIFO GOOD and COMMAND COMPLETE in this order, and the controller is ready again; the window keeps its sectors unless the CPU stores into it; all this at any pace and with any interrupts of other devices, mask and SCR2 writes, resynchronisations and CPU stores between the accesses and during the countdown |
| `GuestChain.ChainedReadDelivers` | validation/NeXT-68040/src/next_scsi_dma.c:602-637 | a READ in two TI commands over chained windows, the first asking for more than its window holds: RAM is the first piece stored at the old pointer and, after the second command, the second stored at the start register, otherwise as the CPU left it; the driver reads BS|FC after the selection and BS after the first piece; the channel stays enabled at the second window in between, and COMPLETE and the end of ENABLE come with the second piece |
| `GuestChain.CarryOut` | validation/NeXT-68040/src/next_scsi_dma.c:701-720 | the tick that carries a request out up to the end of its window: bytes stored, counter, cause, stream position, chained registers and flags |
| `GuestPio.PioReadDelivers` | validation/NeXT-68040/src/next_esp.c:617-648 | a READ taken out byte by byte with TI without DMA: the driver reads the image's bytes in order from the first sector asked for, each after the cause FC, at any pace, and the target is in Status with GOOD exactly when all are out |
| `GuestPio.ByteStep` | validation/NeXT-68040/src/next_esp.c:617-622 | TI without DMA in Data-In puts exactly the next byte into the FIFO and interrupts with FC |
| `DiskCommand.Decodes` | validation/NeXT-68040/src/next_scsi.c:63-75 | from every READ and WRITE written in the six-byte form (21-bit sector, 1 to 256 sectors, 256 sent as 0) or the ten-byte form (32-bit sector, 16-bit count), big-endian, the target decodes that sector number and that count |
| `DiskCommand.UnitFromCommand` | validation/NeXT-68040/src/next_scsi.c:541-549 | without an identify message the logical unit is the top three bits of the second command byte |
| `GuestRead.DecodingIgnoresResidue` | validation/NeXT-68040/src/next_scsi.c:63-75 | the target decodes the driver's sector number and count and unit 0, whatever the uninitialised tail of the 12-byte CDB buffer holds |
| `GuestRead.SelectStep` | validation/NeXT-68040/src/next_esp.c:469-594 | SELECT with ATN gives the target the identify byte and exactly the CDB bytes of the FIFO, empties the FIFO, sets the sequence step to 4 and interrupts with BS and FC |
| `GuestRead.SelectPlainStep` | validation/NeXT-68040/src/next_esp.c:469-594 | SELECT without ATN gives the target the CDB bytes alone, the unit being the one they name |
| `GuestScript.AcknowledgeStep` | validation/NeXT-68040/src/next_esp.c:263-290 | reading INTRSTATUS frees the command register and touches neither target, channel nor RAM |
| `GuestScript.TransferStep` | validation/NeXT-68040/src/next_esp.c:600-650 | TI with DMA loads the counter, 0 standing for 65536, clears TC and leaves a request of that length for the channel with 20 ticks to go; no data moves yet |
| `GuestRead.FinalTick` | validation/NeXT-68040/src/next_scsi_dma.c:701-720 | the tick that carries the request out leaves the sectors in RAM and the completion bits set |
| `GuestScript.StatusReads` | validation/NeXT-68040/src/next_esp.c:860-871 | STATUS reads bit 7 if and only if an interrupt stands, the phase in bits 0 to 2, bit 4 if and only if TC, bit 6 if and only if GE, and no other bit |
| `GuestScript.PhaseBits` | validation/NeXT-68040/src/next_scsi.h:14-19 | the phase codes are the I/O, C/D and MSG bits of their phases |
| `GuestScript.CounterReads` | validation/NeXT-68040/src/next_esp.c:852-855 | the two counter registers read the counter modulo 65536 |
| `GuestScript.CauseReads` | validation/NeXT-68040/src/next_esp.c:872-893 | INTRSTATUS reads the cause, and takes it down with STAT_INT and the line if an interrupt stands |
| `GuestScript.FifoReadsBack` | validation/NeXT-68040/src/next_esp.c:165-177 | FIFO FLAGS counts the queued bytes and as many FIFO reads, at any pace, give them back in order |
| `GuestScript.QueueIsTransparent` | validation/NeXT-68040/src/next_esp.c:281-334 | a command written behind one whose interrupt stands, and the interrupt then acknowledged, leaves everything as acknowledging first and writing after |
| `GuestScript.NothingStep` | validation/NeXT-68040/src/next_esp.c:739-834 | NOP and the selection enables interrupt nothing, change nothing and free the register |
| `GuestScript.UnknownStep` | validation/NeXT-68040/src/next_esp.c:739-834 | an unknown command interrupts as illegal and touches neither FIFO, target, channel nor RAM |
| `EspLatches.ConfigurationsReadBack` | validation/NeXT-68040/src/next_esp.c:898-907 | over every run the configuration registers read back the last value written, of which a chip reset keeps the low three bits of the first and all of the second |
| `EspLatches.StepLatches` | validation/NeXT-68040/src/next_esp.c:911-986 | counter latches, bus ID and configuration registers change by their own writes and chip resets alone, whatever command runs |
| `EspLatches.SyncIsNotReadBack` | validation/NeXT-68040/src/next_esp.c:949-963 | the addresses of sync period and offset read the sequence step and the FIFO count, whatever was written there |
| `GuestScript.CompletionStep` | validation/NeXT-68040/src/next_esp.c:677-695 | with an empty FIFO, command complete leaves exactly status and message in it |
| `ScsiRuns.RunKeepsInv` | validation/NeXT-68040/src/next_esp.c:230-334 | over every run of guest accesses, ticks, card faults and other interrupts: the SCSI line is up if and only if an enabled interrupt is pending, WAITING implies INPROGRESS, the cache of a mounted card agrees with the image and the image never changes |
| `ScsiRuns.RunKeepsAlive` | validation/NeXT-68040/src/next_esp.c:281-334 | no command is lost: in runs where no channel reset cancels a request under its command, INPROGRESS implies a standing interrupt, a pending DMA request or a pending selection timeout |
| `ScsiRuns.RunKeepsLevel` | validation/NeXT-68040/src/next_devs.c:713-884 | over every run that leaves TIMERIPL7 alone the CPU level never exceeds the highest level over the standing lines that the mask last written in the run lets through, and equals it whenever no delayed delivery is running |
| `ScsiRuns.StepKeepsRequest` | validation/NeXT-68040/src/next_scsi_dma.c:681-720 | nothing but a tick or a channel reset changes a pending request; a tick counts it down by one or completes it with an interrupt |
| `ScsiRuns.RequestOnTime` | validation/NeXT-68040/src/next_scsi_dma.c:681-720 | an accepted request is pending with its direction and length through every run of fewer ticks than its countdown and completes, with an interrupt, exactly at the tick the countdown names |
| `ScsiRuns.RequestsBalance` | validation/NeXT-68040/src/next_scsi_dma.c:506-720 | over any run: requests asked for plus the one pending at the start equal those refused, completed, cancelled by reset and still pending |
| `ScsiRuns.StartTouchesDma` | validation/NeXT-68040/src/next_esp.c:739-834 | of all commands only TI with DMA touches the channel, and it leaves a request pending |
| `ScsiRuns.TicksAreQuiet` | validation/NeXT-68040/src/main.c:450-464 | with nothing pending any number of ticks changes the interrupt controller only |
| `ScsiRuns.StrandedForGood` | validation/NeXT-68040/src/next_scsi_dma.c:513-518 | after a channel reset that cancels the request of a running command, no number of ticks ever finishes the command |
| `ScsiRuns.ResetCanStrand` | validation/NeXT-68040/src/next_scsi_dma.c:506-518 | a concrete run from power-on after which a channel reset leaves a command in progress with nothing to end it |
| `ScsiRuns.AbsentTargetTimesOut` | validation/NeXT-68040/src/next_esp.c:449-594 | selecting a target that does not answer shows the disconnect cause at once and interrupts with the 500th tick and not before, FIFO and RAM untouched |
| `ScsiRuns.SelectionTimesOut` | validation/NeXT-68040/src/next_esp.c:449-458 | until its last tick the selection timer only counts; then it interrupts |
| `ScsiPath.StepKeeps` | validation/NeXT-68040/src/next_esp.c:849-986 | one event of any kind keeps the whole invariant; it keeps commands alive exactly when it is not a channel reset that strands one |
| `ScsiPath.CsrWriteKeeps` | validation/NeXT-68040/src/next_scsi_dma.c:479-530 | a CSR write keeps every command alive if and only if it does not reset the channel while a running command waits for the request alone |
| `ScsiPath.CommandNeverIgnored` | validation/NeXT-68040/src/next_esp.c:301-334 | the guard for a waiting chip reset never fires: every command written is started or queued |
| `ScsiPath.CommandWriteKeeps` | validation/NeXT-68040/src/next_esp.c:301-334 | writing any command byte keeps queue and line invariants and leaves the command alive |
| `ScsiPath.StartSettles` | validation/NeXT-68040/src/next_esp.c:739-834 | starting any command byte, legal or not, ends with an interrupt, a request or a timeout on the way, or the register free |
| `ScsiPath.FinishCommandSettles` | validation/NeXT-68040/src/next_esp.c:281-290 | the mutual recursion of finish and start ends, and ends in the invariant |
| `ScsiPath.SelectSettles` | validation/NeXT-68040/src/next_esp.c:469-594 | selection keeps the invariant; answered, that is by target 6 with a medium, it interrupts at once with BS and FC, unanswered it shows the disconnect cause and arms the 500-tick timeout |
| `ScsiPath.TransferInfoSettles` | validation/NeXT-68040/src/next_esp.c:600-650 | TI keeps the invariant in every phase; without DMA it puts the next byte into the FIFO in Data-In, leaves the FIFO alone otherwise, and interrupts with FC in Data-In, Message-In and Status and ILL in the others; with DMA it asks the idle channel for the counter, inward exactly in Data-In |
| `ScsiPath.TransferPadSettles` | validation/NeXT-68040/src/next_esp.c:713-733 | the pad loop ends with the counter at 0 or Data-In over, and the command with an interrupt: FC and TC when the counter ran out, BS otherwise |
| `ScsiPath.CommandCompleteSettles` | validation/NeXT-68040/src/next_esp.c:677-695 | command complete keeps the invariant even when the FIFO overflows, queues status and message when there is room, moves on to Message-In and interrupts with FC |
| `ScsiPath.MessageAcceptedSettles` | validation/NeXT-68040/src/next_esp.c:701-707 | message accepted keeps the invariant, moves to Status and interrupts with BS |
| `ScsiPath.ResetHardSettles` | validation/NeXT-68040/src/next_esp.c:342-375 | a chip reset leaves nothing in progress or waiting, FIFO, counter, cause and status bits cleared, the line down, and a pending DMA request as it was |
| `ScsiPath.BusResetSettles` | validation/NeXT-68040/src/next_esp.c:384-424 | a bus reset keeps the invariant and the pending DMA request and stops command and selection timer; it interrupts with RST and moves to Message-In exactly when the configuration does not switch reporting off |
| `ScsiPath.RaiseKeeps` | validation/NeXT-68040/src/next_esp.c:230-261 | raising the interrupt sets STAT_INT alone and brings the line up only when enabled |
| `ScsiPath.FifoWriteKeeps` | validation/NeXT-68040/src/next_esp.c:181-193 | a byte into the FIFO keeps the invariant; it is appended, or in a full FIFO replaces the last byte, sets the gross error and interrupts |
| `ScsiPath.ReadKeeps` | validation/NeXT-68040/src/next_esp.c:849-909 | reading any register keeps the invariant, the queued command started by INTRSTATUS included |
| `ScsiPath.DmaCtrlKeeps` | validation/NeXT-68040/src/next_esp.c:1010-1047 | the DMA control register takes the written value, a chip reset in it included, and the line is up afterwards if and only if its enable bit is set and an interrupt stands |
| `ScsiPath.ClearEmptiesQueue` | validation/NeXT-68040/src/next_esp.c:292-299 | of the command queue only a chip reset survives; since none is ever queued between accesses, both ranks end up empty |
| `ScsiRuns.SoftResetIsSilent` | validation/NeXT-68040/src/next_esp.c:342-359 | after a soft reset nothing is in progress, waiting or timing out, target, RAM, FIFO and channel are untouched, and with the channel idle no number of ticks brings an interrupt |
| `ScsiPath.DmaTickKeeps` | validation/NeXT-68040/src/next_scsi_dma.c:701-720 | a tick of the channel keeps the invariant through the completion it may cause |
| `ScsiPath.SelectTickKeeps` | validation/NeXT-68040/src/next_esp.c:449-458 | a tick of the selection timer keeps the invariant |
| `ScsiPath.TickKeeps` | validation/NeXT-68040/src/main.c:450-464 | the three tick actions of one instruction, in their order, keep the invariant |
| `ScsiPath.InitialOk` | validation/NeXT-68040/src/next_esp.c:840-847 | the power-on state satisfies all invariants, with a card, all slots marked empty, and without one, all tags still 0 |
| `EspDevice.Controller.FifoPop` | validation/NeXT-68040/src/next_esp.c:165-177 | shifts the FIFO array down by one: the first byte leaves, order is kept, an empty FIFO reads 0; new state equal to the specification function of the same operation |
| `EspDevice.Controller.FifoPush` | validation/NeXT-68040/src/next_esp.c:181-193 | appends, or overwrites the last byte of a full FIFO with a gross error; new state equal to the specification function of the same operation |
| `EspDevice.Controller.Raise` | validation/NeXT-68040/src/next_esp.c:230-261 | level-style interrupt: nothing when STAT_INT is set already; new state equal to the specification function of the same operation |
| `EspDevice.Controller.Acknowledge` | validation/NeXT-68040/src/next_esp.c:263-273 | drops STAT_INT and the line and lets a queued command start; new state equal to the specification function of the same operation |
| `EspDevice.Controller.EndCommand` | validation/NeXT-68040/src/next_esp.c:281-290 | moves the queued command up and starts it; new state equal to the specification function of the same operation |
| `EspDevice.Controller.ClearCommand` | validation/NeXT-68040/src/next_esp.c:292-299 | drops the in-progress bit of the command state byte, empties both ranks but for a queued chip reset; new state equal to the specification function of the same operation |
| `EspDevice.Controller.WriteCommand` | validation/NeXT-68040/src/next_esp.c:301-334 | queues, starts at once, or starts out of turn for resets; new state equal to the specification function of the same operation |
| `EspDevice.Controller.SoftReset` | validation/NeXT-68040/src/next_esp.c:342-359 | status and command state bytes and the other registers a soft reset clears, the selection timeout included; new state equal to the specification function of the same operation |
| `EspDevice.Controller.HardReset` | validation/NeXT-68040/src/next_esp.c:361-375 | the registers a chip reset restores; new state equal to the specification function of the same operation |
| `EspDevice.Controller.ResetBus` | validation/NeXT-68040/src/next_esp.c:384-424 | bus reset with the RESREPT switch; new state equal to the specification function of the same operation |
| `EspDevice.Controller.Select` | validation/NeXT-68040/src/next_esp.c:469-594 | selection: the CDB out of the FIFO in order and executed, or the timeout armed; new state equal to the specification function of the same operation |
| `EspDevice.Controller.Transfer` | validation/NeXT-68040/src/next_esp.c:600-650 | TI by phase and mode; new state equal to the specification function of the same operation |
| `EspDevice.Controller.DmaDone` | validation/NeXT-68040/src/next_esp.c:656-671 | the remaining count decides between FC and BS; new state equal to the specification function of the same operation |
| `EspDevice.Controller.CompleteSequence` | validation/NeXT-68040/src/next_esp.c:677-695 | status and message into the FIFO; new state equal to the specification function of the same operation |
| `EspDevice.Controller.AcceptMessage` | validation/NeXT-68040/src/next_esp.c:701-707 | message accepted; new state equal to the specification function of the same operation |
| `EspDevice.Controller.Pad` | validation/NeXT-68040/src/next_esp.c:713-733 | discards bytes until the counter or Data-In ends; new state equal to the specification function of the same operation |
| `EspDevice.Controller.Begin` | validation/NeXT-68040/src/next_esp.c:739-834 | dispatch of every command byte; new state equal to the specification function of the same operation |
| `EspDevice.Controller.ReadReg` | validation/NeXT-68040/src/next_esp.c:849-909 | value and side effects of every register read; new state equal to the specification function of the same operation |
| `EspDevice.Controller.WriteReg` | validation/NeXT-68040/src/next_esp.c:911-986 | effect of every register write; new state equal to the specification function of the same operation |
| `EspDevice.Controller.WriteDmaControl` | validation/NeXT-68040/src/next_esp.c:1010-1047 | DMA control register; new state equal to the specification function of the same operation |
| `EspDevice.Controller.TickSelect` | validation/NeXT-68040/src/next_esp.c:449-458 | selection timer; new state equal to the specification function of the same operation |
| `EspDevice.Controller.TickDma` | validation/NeXT-68040/src/next_scsi_dma.c:701-720 | the countdown and, at its end, transfer and completion; new state equal to the specification function |
| `EspDevice.Controller.Hook` | validation/NeXT-68040/src/main.c:450-464 | interrupt countdown, channel tick and selection tick in this order; new state equal to the specification function |
| `ScsiDma.CopyInConserves` | validation/NeXT-68040/src/next_scsi_dma.c:555-600 | the copy loop ends inside the 128 MB buffer; bytes taken plus remaining counter is the initial counter, `next` advances by the same amount, RAM is exactly as after consecutive byte stores, and a bus exception means data left, window open and an address outside RAM |
| `ScsiDma.CopyInDrains` | validation/NeXT-68040/src/next_scsi_dma.c:555-600 | the copy loop takes the bytes the target owes, in order, whatever the chunk sizes |
| `ScsiDma.TransferChains` | validation/NeXT-68040/src/next_scsi_dma.c:602-675 | a transfer that reaches its limit with SUPDATE set goes on from the start register to the stop register with SUPDATE off, any other keeps its window; COMPLETE, the interrupt and the end of ENABLE come if and only if the counter is 0, there was a bus exception, or the limit is reached with no non-empty window to chain to |
| `ScsiDma.TransferTakes` | validation/NeXT-68040/src/next_scsi_dma.c:609-638 | an outward transfer takes the least of counter, window and bytes the target wants, and the target goes to Status with the last |
| `ScsiDma.CopyInFills` | validation/NeXT-68040/src/next_scsi_dma.c:555-600 | a request is carried out up to the end of its window: bytes, RAM, stream and phase |
| `ScsiDma.WrittenRegisterReadsBack` | validation/NeXT-68040/src/next_scsi_dma.c:145-198 | every channel register reads back what was written and no other changes, but for the buffer pointer set with the init register |
| `ScsiDma.CsrShowsFlags` | validation/NeXT-68040/src/next_scsi_dma.c:204-220 | the CSR reads each flag at its bit, never as 0 |
| `ScsiDma.WrittenCsrReadsBack` | validation/NeXT-68040/src/next_scsi_dma.c:479-530 | what the CSR reads after a write, bit by bit: RESET before the set bits, CLRCOMPLETE, and BUSEXC kept |
| `ScsiDma.CopyInCompletes` | validation/NeXT-68040/src/next_scsi_dma.c:555-600 | a request no larger than window, RAM and stream is carried out in full |
| `ScsiDma.TransferCompletes` | validation/NeXT-68040/src/next_scsi_dma.c:537-675 | such a transfer ends with COMPLETE, without ENABLE or bus exception, its interrupt line up and the target in Status exactly when all was taken |
| `ScsiDma.CopyOutConserves` | validation/NeXT-68040/src/next_scsi_dma.c:609-638 | the outward loop conserves bytes, never touches RAM, and stops only at counter, window or target end |
| `ScsiDma.TransferCompletion` | validation/NeXT-68040/src/next_scsi_dma.c:602-675 | of an unchained transfer: bus exception if and only if data, window and counter are all left; COMPLETE withheld if and only if the target ran dry first |
| `ScsiDma.TransferKeeps` | validation/NeXT-68040/src/next_scsi_dma.c:537-675 | any transfer, whatever the registers hold, keeps target, interrupt and request invariants |
| `ScsiDma.WriteCsrKeeps` | validation/NeXT-68040/src/next_scsi_dma.c:479-530 | a CSR write cancels the request exactly on RESET, lowers the line exactly on RESET or CLRCOMPLETE and never clears a bus exception |
| `MainMemory.WriteBytesIsStoreAt` | validation/NeXT-68040/src/next_memory.c:85-121 | storing a window byte by byte through the CPU callback, across the seam at $08000000 included, fills the same bytes of the folded buffer as one copy |
| `MainMemory.FoldIsInjective` | validation/NeXT-68040/src/next_memory.c:85-121 | two RAM addresses below the mirror share a byte only if they are the same, and each address of the upper half is its lower half's byte |
| `MainMemory.MemcpyIsStoreAt` | validation/NeXT-68040/src/next_memory.c:111-121 | a copy that does not cross the end of the folded buffer is the window store |
| `MainMemory.StoreAtReadsBack` | validation/NeXT-68040/src/next_memory.c:242-261 | every RAM byte read back after a window store is the stored byte inside the window and the old one outside |
| `MainMemory.StoreAtCompose` | validation/NeXT-68040/src/next_memory.c:111-121 | two adjacent window stores are one |
| `DmaDevice.Channel.RegRead` | validation/NeXT-68040/src/next_scsi_dma.c:145-164 | every register address; new state equal to the specification function |
| `DmaDevice.Channel.RegWrite` | validation/NeXT-68040/src/next_scsi_dma.c:166-198 | scratch, address and alias registers; new state equal to the specification function |
| `DmaDevice.Channel.CsrWrite` | validation/NeXT-68040/src/next_scsi_dma.c:479-530 | RESET before the set bits, CLRCOMPLETE last; new state equal to the specification function |
| `DmaDevice.Channel.Start` | validation/NeXT-68040/src/next_scsi_dma.c:681-699 | a new request is dropped while one is pending; new state equal to the specification function |
| `DmaDevice.Channel.CopyFromBuffer` | validation/NeXT-68040/src/next_scsi_dma.c:583-589 | copies one chunk into the RAM array in place; new state equal to the specification function |
| `DmaDevice.Channel.NextChunk` | validation/NeXT-68040/src/next_scsi_dma.c:559-582 | chunk bounded by buffer, window, counter, end of RAM and bank seam; new state equal to the specification function |
| `DmaDevice.Channel.PullIn` | validation/NeXT-68040/src/next_scsi_dma.c:555-600 | the inward loop over the RAM array; new state equal to the specification function |
| `DmaDevice.Channel.PushOut` | validation/NeXT-68040/src/next_scsi_dma.c:609-638 | the outward loop; new state equal to the specification function |
| `DmaDevice.Channel.Run` | validation/NeXT-68040/src/next_scsi_dma.c:537-675 | the whole transfer with chaining and completion; new state equal to the specification function |
| `DmaDevice.Channel.Conclude` | validation/NeXT-68040/src/next_scsi_dma.c:602-670 | chaining reloads once, after the loop, then completion; new state equal to the specification function |
| `SectorStream.ReadDelivers` | validation/NeXT-68040/src/next_scsi.c:604-700 | after a READ of `blocks` readable sectors from sector `lba`, in either form, any mix of single bytes and chunks of any sizes delivers the image from byte 512 lba on in order, Data-In lasts exactly until the last of 512 blocks bytes and the status is GOOD |
| `SectorStream.ReadStarts` | validation/NeXT-68040/src/next_scsi.c:424-432 | a READ of readable sectors starts a stream that owes exactly the bytes of the sectors asked for |
| `SectorStream.ReadNeverLies` | validation/NeXT-68040/src/next_scsi.c:190-233 | whatever the READ and the card, only bytes of the sectors asked for are ever delivered, as a prefix |
| `SectorStream.WriteAccepts` | validation/NeXT-68040/src/next_scsi.c:434-450 | a WRITE of n sectors takes exactly 512 n bytes, in accesses of any sizes, then goes to Status with GOOD; the medium is unchanged and exactly the sectors it covers leave the cache |
| `SectorStream.RefusalsAreReported` | validation/NeXT-68040/src/next_scsi.c:541-602 | an unknown command, a logical unit other than 0, a missing or too small medium end in CHECK CONDITION and REQUEST SENSE names key and code |
| `SectorStream.UnreadableIsReported` | validation/NeXT-68040/src/next_scsi.c:190-233 | a READ that meets a sector the card cannot give is reported as not ready |
| `SectorStream.ReadOfNothing` | validation/NeXT-68040/src/next_scsi.c:190-195 | a READ of zero sectors, possible in the ten-byte form alone, goes to Status at once and reports the status the previous command left |
| `SectorStream.DrainDelivers` | validation/NeXT-68040/src/next_scsi.c:604-700 | a stream ends with everything delivered and GOOD, or at a sector that cannot be loaded and CHECK CONDITION |
| `SectorStream.PullStep` | validation/NeXT-68040/src/next_scsi.c:604-619 | one access hands over the next bytes owed and nothing else, refilling from the next sector when the buffer drains |
| `SectorStream.CacheTransparent` | validation/NeXT-68040/src/next_scsi.c:190-233 | a sector load behaves as if nothing were cached if and only if it is not a cached sector of a card that has become unreadable |
| `SectorStream.HitsHonestIff` | validation/NeXT-68040/src/next_scsi.c:123-132 | cache hits are honest on every medium of a size if and only if the size is at most 0xFFFFFFFF * 512, because empty slots are marked with an ordinary sector number |
| `SectorStream.BeyondEndIsReported` | validation/NeXT-68040/src/next_scsi.c:190-337 | a READ from beyond the medium ends in CHECK CONDITION, and a REQUEST SENSE after it names illegal address, key 5 and the sector |
| `SectorStream.InquiryReplies` | validation/NeXT-68040/src/next_scsi.c:251-270 | INQUIRY answers for every unit with as much of 54 bytes as was asked for, units other than 0 marked absent, the length in byte 4 and the vendor and product names |
| `SectorStream.ModeReplies` | validation/NeXT-68040/src/next_scsi.c:339-408 | MODE SENSE names its own length and, unless switched off, the sector count modulo 2^24 and the block size |
| `SectorStream.CapacityNamesLastSector` | validation/NeXT-68040/src/next_scsi.c:272-299 | READ CAPACITY names the sector that is readable while the next is not, and the block size |
| `SectorStream.SectorsAreASlice` | validation/NeXT-68040/src/next_scsi.c:197-215 | consecutive sector loads are one slice of the image |
| `ScsiDisk.ReceiveCommandKeeps` | validation/NeXT-68040/src/next_scsi.c:541-602 | every CDB, well formed or not, keeps cache honesty, buffer bounds and the medium |
| `ScsiDisk.ReadOneSectorKeeps` | validation/NeXT-68040/src/next_scsi.c:190-233 | a sector load delivers the sector the image holds or leaves Data-In with nothing buffered, and keeps the cache honest |
| `ScsiDisk.InvalidateRangeClears` | validation/NeXT-68040/src/next_scsi.c:434-450 | after a write command exactly the slots whose sector it covers are empty, sector numbers counted modulo 2^32; every other tag is as it was |
| `ScsiDisk.SendDataKeeps` | validation/NeXT-68040/src/next_scsi.c:604-619 | sending a byte keeps the target invariant |
| `ScsiDisk.ConsumeKeeps` | validation/NeXT-68040/src/next_scsi.c:689-700 | consuming any number of bytes keeps the target invariant |
| `DiskDevice.Target.constructor` | validation/NeXT-68040/src/next_scsi.c:128-132 | all slots marked empty with a medium and tagged 0 without one, nothing to send, invariant holds |
| `DiskDevice.Target.CacheTryRead` | validation/NeXT-68040/src/next_scsi.c:142-150 | hit exactly when the tag matches, the line copied to the buffer |
| `DiskDevice.Target.CacheInstall` | validation/NeXT-68040/src/next_scsi.c:153-158 | tag and line replaced in the one slot |
| `DiskDevice.Target.LoadSector` | validation/NeXT-68040/src/next_scsi.c:190-233 | cache, card, bounds and errors of one sector load; new state equal to the specification function |
| `DiskDevice.Target.ConsumeBytes` | validation/NeXT-68040/src/next_scsi.c:689-700 | offset moves on, refill on empty; new state equal to the specification function |
| `DiskDevice.Target.SendByte` | validation/NeXT-68040/src/next_scsi.c:604-619 | one byte out, refill on empty, 0 when empty; new state equal to the specification function |
| `DiskDevice.Target.ConsumeWriteBytes` | validation/NeXT-68040/src/next_scsi.c:707-714 | write data counted down, Status at zero; new state equal to the specification function |
| `DiskDevice.Target.InvalidateSectors` | validation/NeXT-68040/src/next_scsi.c:434-450 | the invalidation loop; new state equal to the specification function |
| `DiskDevice.Target.StartRead` | validation/NeXT-68040/src/next_scsi.c:424-432 | READ(6) and READ(10); new state equal to the specification function |
| `DiskDevice.Target.StartWrite` | validation/NeXT-68040/src/next_scsi.c:434-450 | WRITE(6) and WRITE(10); new state equal to the specification function |
| `DiskDevice.Target.Execute` | validation/NeXT-68040/src/next_scsi.c:541-602 | opcode dispatch; new state equal to the specification function |
| `DiskDevice.Target.Receive` | validation/NeXT-68040/src/next_scsi.c:541-602 | LUN choice, dispatch, errors; new state equal to the specification function |
| `DiskDevice.Target.Answering` | validation/NeXT-68040/src/next_scsi.c:530-539 | only target 6 with a medium answers; new state equal to the specification function |
| `Interrupts.PendingIplIsMaximum` | validation/NeXT-68040/src/next_devs.c:713-750 | the cascade of mask tests yields the highest level over all unmasked pending lines, 0 exactly when there are none |
| `Interrupts.PendingIplMonotone` | validation/NeXT-68040/src/next_devs.c:713-750 | more pending lines never lower the level |
| `Interrupts.SetKeepsLevel` | validation/NeXT-68040/src/next_devs.c:782-850 | raising a line keeps level and countdown invariants: SCSI starts a countdown of ten and leaves the level alone, every other line gives the CPU the highest level at once |
| `Interrupts.ClearKeepsLevel` | validation/NeXT-68040/src/next_devs.c:852-884 | lowering a line gives the CPU the highest level over what is left, and SCSI stops the countdown |
| `Interrupts.WriteMaskKeepsLevel` | validation/NeXT-68040/src/next_devs.c:1600-1617 | after a mask write the mask is the written set and the CPU level the highest over the standing lines it lets through |
| `Interrupts.UnmaskingDelivers` | validation/NeXT-68040/src/next_devs.c:1600-1617 | a standing line the mask kept back reaches the CPU, at its level, with the mask write that lets it through |
| `Interrupts.WriteScr2MovesSoftLines` | validation/NeXT-68040/src/next_devs.c:1566-1593 | turning SOFTINT0 or SOFTINT1 on in SCR2 raises its line, turning it off lowers it, and no other line moves |
| `Interrupts.RunIsLastAsked` | validation/NeXT-68040/src/next_devs.c:782-884 | after any run the mask and SCR2 are as last written, a line stands if and only if it was last raised, and a soft line if and only if its bit in SCR2 is on |
| `Interrupts.HookKeepsLevel` | validation/NeXT-68040/src/main.c:450-453 | the countdown delivers exactly when it reaches 0 |
| `Interrupts.WriteScr2Level` | validation/NeXT-68040/src/next_devs.c:1553-1596 | a write to SCR2 leaves the CPU level right if and only if it does not flip TIMERIPL7 under a pending timer that nothing outranks; while a delayed delivery is running the level bound survives if and only if such a flip does not turn the bit off with the CPU at level 7 or a soft line moving |
| `Interrupts.Scr2CanLeaveLevelStale` | validation/NeXT-68040/src/next_devs.c:1595 | a concrete SCR2 write after which the CPU is held one level too low |
| `Interrupts.RunKeepsLevel` | validation/NeXT-68040/src/next_devs.c:713-884 | over every run of raises, lowers, masks, SCR2 writes and instructions that leaves TIMERIPL7 alone the level never exceeds the highest over the standing lines that the last mask written lets through, and equals it at countdown 0 |
| `Interrupts.DeliveredInTime` | validation/NeXT-68040/src/main.c:444-453 | a raised SCSI line reaches the CPU after exactly its countdown, at most ten instructions, whatever else is raised, lowered, masked or raised again meanwhile |
| `Interrupts.Controller.PendingLevel` | validation/NeXT-68040/src/next_devs.c:713-750 | the highest level over unmasked pending lines |
| `Interrupts.Controller.Raise` | validation/NeXT-68040/src/next_devs.c:782-850 | new state equal to the specification function |
| `Interrupts.Controller.Lower` | validation/NeXT-68040/src/next_devs.c:852-884 | new state equal to the specification function |
| `Interrupts.Controller.MaskWrite` | validation/NeXT-68040/src/next_devs.c:1600-1617 | new state equal to the specification function |
| `Interrupts.Controller.Scr2Write` | validation/NeXT-68040/src/next_devs.c:1553-1596 | new state equal to the specification function |
| `Interrupts.Controller.Hook` | validation/NeXT-68040/src/main.c:450-453 | new state equal to the specification function |
| `DirtyLines.StepKeepsInv` | validation/NeXT-68040/src/next_memory.c:30-67 | under every interleaving of byte stores, line marking, word exchanges, byte loads and paints, each a step of its own: a displayed group differs from the decode of its VRAM byte only if its line is marked, or taken and not yet repainted, or a store to it is in flight |
| `DirtyLines.RunKeepsInv` | validation/NeXT-68040/src/next_memory.c:30-67 | the same over whole runs of both cores |
| `DirtyLines.QuiescentFrameIsExact` | validation/NeXT-68040/src/next_video.c:87-122 | both cores at rest with an empty bitmap: the screen is the full render |
| `DirtyLines.PassRendersExactly` | validation/NeXT-68040/src/next_video.c:87-122 | one undisturbed pass from any consistent state empties the bitmap, repaints exactly the marked lines and leaves the full render |
| `DirtyLines.RepaintIsFullIff` | validation/NeXT-68040/src/next_video.c:87-122 | repainting some lines gives the full picture if and only if every other line was already right |
| `DirtyLines.StoreSafeIff` | validation/NeXT-68040/src/next_memory.c:420-427 | marking only the first byte's line is safe from every consistent state if and only if the store stays on one line or below the picture |
| `DirtyLines.AlignedStoresAreSafe` | validation/NeXT-68040/src/next_memory.c:500-531 | naturally aligned stores of 1, 2 and 4 bytes never cross a line end |
| `DirtyLines.AllMarkedIsInv` | validation/NeXT-68040/src/next_memory.c:47-55 | any screen with every line marked, such as the black one at start, is consistent |
| `Video.ShadesAreEven` | validation/NeXT-68040/src/next_video.c:35-40 | field 0 is white, field 3 black and the steps between even |
| `Video.DecodeReadsBack` | validation/NeXT-68040/src/next_video.c:46-54 | the byte can be read back off its four pixels: leftmost from the top two bits |
| `Video.RenderedPixel` | validation/NeXT-68040/src/next_video.c:87-122 | after a full render picture position (x, y) shows, at its place in the centred buffer, the grey of its own two bits of VRAM |
| `Video.RedrawnIsRepainted` | validation/NeXT-68040/src/next_video.c:102-122 | the pixel loop over the centred 1920x1080 buffer is the per-group repaint of the marked lines |
| `Video.Screen.RenderDirty` | validation/NeXT-68040/src/next_video.c:87-170 | bitmap emptied; marked lines redrawn through the table, borders blackened the first time, every other pixel as it was; the reported range covers every changed pixel and its ends are marked lines |
| `Video.Screen.PaintLine` | validation/NeXT-68040/src/next_video.c:107-118 | 1120 pixels of one line in place |
| `Video.Screen.PaintBorders` | validation/NeXT-68040/src/next_video.c:126-147 | every position outside the picture black, inside untouched |
| `Video.Screen.TakeDirtyLines` | validation/NeXT-68040/src/next_memory.c:30-45 | all words returned and emptied |
| `Video.Screen.MarkLine` | validation/NeXT-68040/src/next_memory.c:57-67 | exactly the line of the byte is marked, and only if visible |
| `Video.Screen.MarkAll` | validation/NeXT-68040/src/next_memory.c:47-55 | every visible line is marked |
| `Video.Screen.BuildLut` | validation/NeXT-68040/src/next_video.c:46-54 | entry b holds the four shades of byte b, leftmost first |
| `Video.Screen.constructor` | validation/NeXT-68040/src/next_video.c:68-81 | black screen, correct table, nothing marked |
| `Rtc.WritesAreTheGroups` | validation/NeXT-68040/src/next_rtc.c:343-478 | over any sequence of SCR2 writes the register writes are exactly the whole groups of eight bits sampled on falling edges after a write address, interval by interval of RTCE, at successive addresses modulo 64; an aborted byte changes nothing |
| `Rtc.FromRest` | validation/NeXT-68040/src/next_rtc.c:343-478 | the same from power-on, and from every state in which the chip rests |
| `Rtc.StepRefines` | validation/NeXT-68040/src/next_rtc.c:367-450 | one SCR2 write performs the write its falling edge completes, and no other |
| `Rtc.CommitNeverFires` | validation/NeXT-68040/src/next_rtc.c:367-383 | the commit on falling RTCE is dead: a write phase never rests on eight bits |
| `Rtc.RegistersAreTheWrites` | validation/NeXT-68040/src/next_rtc.c:159-199 | outside the counter the registers change by those writes and nothing else |
| `Rtc.SampleStep` | validation/NeXT-68040/src/next_rtc.c:395-450 | address and data bits shift in heaviest first and the phase moves on at the eighth |
| `Rtc.SendStep` | validation/NeXT-68040/src/next_rtc.c:451-476 | each rising edge puts out the next bit, and the register after the eighth |
| `RtcHost.RoundTrip` | validation/NeXT-68040/src/next_rtc.c:343-498 | a block write of any bytes from any start over registers outside $20-$23 and a block read from the same start give the bytes back bit for bit, from any reachable state, with the clock ticking anywhere in the write, in the read's opening and on either side of every clock edge of the read |
| `RtcClock.ClockGoesOn` | validation/NeXT-68040/src/next_rtc.c:117-199 | four bytes written to $20 set the clock: n seconds later a block read gives that big-endian time plus n modulo 2^32, or the fixed epoch without the soft counter |
| `RtcClock.StepPuts` | validation/NeXT-68040/src/next_rtc.c:159-199 | while the chip is written to, nothing but the register writes moves registers and soft counter |
| `RtcHost.BlockWriteStores` | validation/NeXT-68040/src/next_rtc.c:436-450 | a block write, with the clock ticking anywhere in it, stores its bytes at successive registers and touches no other |
| `RtcHost.BlockWritePerforms` | validation/NeXT-68040/src/next_rtc.c:436-450 | one register write per byte at successive addresses modulo 64, from any state the chip can be in and with the clock ticking anywhere |
| `RtcHost.BlockReadReturns` | validation/NeXT-68040/src/next_rtc.c:451-498 | a block read returns the contents of successive registers, with the clock ticking anywhere in it |
| `RtcHost.CycleBit` | validation/NeXT-68040/src/next_rtc.c:451-498 | during a read each clock cycle shows the host the next bit of the current register on RTDATA, whenever the clock ticks, and no register changes |
| `RtcHost.ClockReadIsWhole` | validation/NeXT-68040/src/next_rtc.c:117-154 | reading the four counter bytes gives one instant of the clock, not torn by ticks between them |
| `RtcDevice.Chip.WriteScr2` | validation/NeXT-68040/src/next_rtc.c:343-478 | every edge in every phase; new state equal to the specification function |
| `RtcDevice.Chip.ReadReg` | validation/NeXT-68040/src/next_rtc.c:132-154 | the register, with a counter snapshot on the first counter byte |
| `RtcDevice.Chip.WriteReg` | validation/NeXT-68040/src/next_rtc.c:159-199 | the register, and the soft counter on the last counter byte |
| `RtcDevice.Chip.StoreChecksum` | validation/NeXT-68040/src/next_rtc.c:287-299 | for any contents of bytes 0 to 29 the fold loop ends and the end-around sum of all sixteen words is 0xFFFF; bytes 0 to 29 and the other registers untouched |
| `RtcDevice.Chip.constructor` | validation/NeXT-68040/src/next_rtc.c:205-337 | power-on image with a correct checksum, chip identification, counter snapshot |
| `RtcDevice.EndAroundIsWrapped` | validation/NeXT-68040/src/next_rtc.c:287-299 | adding words with end-around carry is the plain sum wrapped once |
| `RtcDevice.ChecksumStored` | validation/NeXT-68040/src/next_rtc.c:287-299 | the complement of the wrapped sum completes the image to all ones |
| `BlitResult.BlitLeaves` | validation/hello_world/src/blitter_emu.c:67-180 | with destination words apart from each other and from every source word: each destination word ends as the endmasked logic operation on the original source and destination, for every HOP, OP, mask, skew, FXSR and NFSR, and no other byte changes |
| `BlitResult.BlitBit` | validation/hello_world/src/blitter_emu.c:111-146 | bit by bit on a destination row: where endmask 1 (first word), 3 (last), 2 (between) or both 1 and 3 (a row of one word) is on, the bit becomes the truth-table entry of OP for its source bit and its old value, elsewhere it stays; the source bit is one, the halftone bit of the line, the shifted row, or the conjunction of the last two, by HOP, for every skew, scan direction, FXSR and NFSR |
| `BlitResult.ForwardCopyShiftsRight` | validation/hello_world/src/blitter_emu.c:105-115 | a plain forward copy leaves each row as the source row shifted right by the skew, zeros entering on the left |
| `BlitResult.SkewedCopy` | validation/hello_world/src/blitter_emu.c:67-180 | a plain copy forward by words between two regions that do not meet: every destination row, read as one string of bits, is the source row shifted right by the skew, for every width, height and skew |
| `BlitResult.TwoRegionsAreApart` | validation/hello_world/src/blitter_emu.c:148-166 | rows that do not overlap, in two regions apart from each other, give destination words apart from each other and from all sources |
| `BlitResult.BackwardCopyShiftsLeft` | validation/hello_world/src/blitter_emu.c:105-115 | a plain backward copy shifts left by what the skew lacks to 16, zeros entering on the right |
| `BlitResult.XorTwiceRestores` | validation/hello_world/src/blitter_emu.c:67-180 | an exclusive-or blit done twice from the same registers, whatever masks, halftone and skew, restores all of memory |
| `BlitResult.WordBlits` | validation/hello_world/src/blitter_emu.c:93-166 | one iteration of the inner loop in terms of the original memory |
| `Blitter.FinalAddresses` | validation/hello_world/src/blitter_emu.c:148-179 | closed forms of the final source and destination address for every FXSR and NFSR case, line number, BUSY and HOG cleared, line count 0 |
| `Blitter.StatusLeaves` | validation/hello_world/src/blitter_emu.c:280-289 | after a write to the status register BUSY reads off and bit 4 never stands; without BUSY, or with no line left, memory and the other registers are as they were |
| `Blitter.LinesPosition` | validation/hello_world/src/blitter_emu.c:148-173 | where the address registers stand after any number of lines |
| `Blitter.WordsPosition` | validation/hello_world/src/blitter_emu.c:148-166 | where they stand after any number of words of a line, the early line step of NFSR included |
| `BlitterDevice.Chip.Blit` | validation/hello_world/src/blitter_emu.c:67-180 | the nested loops over memory; new registers and memory equal to the specification function |
| `BlitterDevice.Chip.BlitLine` | validation/hello_world/src/blitter_emu.c:83-173 | one line with its extra first fetch; equal to the specification function |
| `BlitterDevice.Chip.BlitWord` | validation/hello_world/src/blitter_emu.c:93-166 | fetch, shift, combine, merge and advance of one word; equal to the specification function |
| `BlitterDevice.Chip.StatusWrite` | validation/hello_world/src/blitter_emu.c:280-289 | the BUSY bit starts the blit only with lines left; equal to the specification function |
| `BlitResult.ReadWritten` | validation/hello_world/src/blitter_emu.c:40-52 | a word written reads back, high byte first, wrapping at the top of memory, and no other byte changes |
| `BlitterDevice.Chip.Write16` | validation/hello_world/src/blitter_emu.c:47-52 | exactly the two bytes of the word change |
| `Rounding.DirectedIsBest` | scripts/gen_golden_vectors.py:47-50 | RM gives the largest value of the format not above x, RP the smallest not below |
| `Rounding.NearestIsBest` | scripts/gen_golden_vectors.py:17-24 | RN is within half a unit in the last place, ties to an even significand, and no value of the format is closer |
| `Rounding.TowardZeroIsDirected` | scripts/gen_golden_vectors.py:45-46 | RZ is RM for positive and RP for negative arguments |
| `Rounding.WithinOneUnit` | scripts/gen_golden_vectors.py:43-50 | every mode errs by less than one unit in the last place |
| `Rounding.RoundShape` | scripts/gen_golden_vectors.py:38-55 | the significand is normalised even after a carry out, with the sign of x |
| `Rounding.RoundingIsMonotone` | scripts/gen_golden_vectors.py:27-64 | rounding keeps order in every mode |
| `Rounding.FormatIsFixed` | scripts/gen_golden_vectors.py:27-64 | a value of the format is its own rounding in every mode |
| `Rounding.EncodeClasses` | scripts/gen_golden_vectors.py:57-63 | infinity if and only if the rounded magnitude reaches 2^16384, refusal if and only if it is below 2^-16382, otherwise a pattern worth exactly the rounded value |
| `Rounding.InwardOverflows` | scripts/gen_golden_vectors.py:45-61 | RZ, RM on positive and RP on negative arguments give infinity if and only if the argument reaches 2^16384 |
| `Rounding.BitsRoundTrip` | scripts/gen_golden_vectors.py:63-64 | the 80 packed bits give sign, exponent and significand back |
| `Fp80.WidenIsExact` | validation/NeXT-68040/src/fline_handler.c:164-240 | every finite single and double, subnormals included, widens to a normalised extended of the same sign and exactly the same value |
| `Fp80.WidenSpecial` | validation/NeXT-68040/src/fline_handler.c:164-240 | infinities stay, NaNs keep sign and payload and become quiet |
| `Fp80.NarrowTruncates` | validation/NeXT-68040/src/fline_handler.c:1038-1080 | in range the stored single or double has the sign of the register, does not exceed it, and is the largest such value of the format |
| `Fp80.NarrowTruncatesIff` | validation/NeXT-68040/src/fline_handler.c:1038-1080 | the stored value is a finite value of the format not above the register in magnitude, and the largest such, if and only if the register is in the normal range or below every non-zero value of the format: subnormals are flushed to zero, large values become infinity |
| `Fp80.NarrowByMagnitude` | validation/NeXT-68040/src/fline_handler.c:1038-1080 | by magnitude alone: the infinity of the register's sign from 2^128 or 2^1024 on, the zero of its sign below 2^-126 or 2^-1022, a finite value of its sign in between |
| `Fp80.SubnormalIsFlushed` | validation/NeXT-68040/src/fline_handler.c:1038-1080 | the register 2^-127 is exactly a single and is stored as zero |
| `Fp80.NarrowOfWiden` | validation/NeXT-68040/src/fline_handler.c:164-240 | widening and storing is the identity on zeros, normals, infinities and quiet NaNs; signalling NaNs become quiet, subnormals signed zeros |
| `Fp80.NaNBecomesInfinity` | validation/NeXT-68040/src/fline_handler.c:1044-1045 | a stored NaN becomes an infinity if and only if all payload bits the format keeps are zero |
| `Fp80.NarrowIntIsClamped` | validation/NeXT-68040/src/fline_handler.c:1081-1132 | a store to long, word or byte gives the value truncated toward zero and clamped to the range |
| `Fp80.WidenIntIsExact` | validation/NeXT-68040/src/fline_handler.c:243-279 | every integer widens exactly |
| `Fp80.NarrowIntOfWiden` | validation/NeXT-68040/src/fline_handler.c:243-279 | loading an integer and storing it back is the identity |
| `FloatMoves.ShiftUp` | validation/NeXT-68040/src/fline_handler.c:185-188 | the normalising loop ends with the leading one in the hidden-bit place |
| `FloatMoves.SingleToFp80` | validation/NeXT-68040/src/fline_handler.c:164-198 | word-level conversion equal to the specification function |
| `FloatMoves.DoubleToFp80` | validation/NeXT-68040/src/fline_handler.c:201-240 | word-level conversion equal to the specification function |
| `FloatMoves.HighestOne` | validation/NeXT-68040/src/fline_handler.c:255-257 | the downward bit search finds the highest one |
| `FloatMoves.LongToFp80` | validation/NeXT-68040/src/fline_handler.c:243-265 | word-level conversion of a two's-complement long |
| `FloatMoves.ShortToFp80` | validation/NeXT-68040/src/fline_handler.c:268-279 | words and bytes are sign-extended first |
| `FloatMoves.StoreSingle` | validation/NeXT-68040/src/fline_handler.c:1038-1056 | the stored bits unpack to the narrowed value |
| `FloatMoves.StoreDouble` | validation/NeXT-68040/src/fline_handler.c:1057-1080 | the two stored longwords unpack to the narrowed value |
| `FloatMoves.StoreInteger` | validation/NeXT-68040/src/fline_handler.c:1081-1132 | the stored low bits stand for the narrowed integer, whatever the register holds |
| `RegisterLists.SameModeRoundTrip` | validation/NeXT-68040/src/fline_handler.c:761-843 | a register list saved and restored in one addressing mode gives every named register its value and leaves the others alone |
| `RegisterLists.ListInMemory` | validation/NeXT-68040/src/fline_handler.c:800-834 | bit r of the mask names register r with predecrement and 7 - r otherwise, ascending or descending in memory, three longwords each |
| `RegisterLists.PackedValue` | validation/NeXT-68040/src/fline_handler.c:817-823 | the three longwords of a register are exponent word and significand with sixteen zeros after them |
| `RegisterLists.CrossModeReverses` | validation/NeXT-68040/src/fline_handler.c:802-807 | a predecrement save and a postincrement restore of the same registers put them back in reverse: right if and only if the saved values read the same from both ends |
| `RegisterLists.LayoutsAgreeIff` | validation/NeXT-68040/src/fline_handler.c:814-831 | a register saved by a list move reads back through a single extended move if and only if its significand is zero, because the two place the padding differently |
| `RegisterLists.Unit.Save` | validation/NeXT-68040/src/fline_handler.c:800-834 | the save loop; equal to the specification function |
| `RegisterLists.Unit.Restore` | validation/NeXT-68040/src/fline_handler.c:800-834 | the restore loop; equal to the specification function |

## Left out

- Logging, rings, probes and dumps: they do not change modelled state.
- FatFs, SD mounting, Xilinx drivers, DisplayPort, UART, core start-up and cache maintenance: hardware outside the program.
- The Musashi CPU and the PMMU, and the FPU's arithmetic behind its peripheral interface: not part of this model.
- SectorStream.ModeReplies: the contents of the mode pages, and of INQUIRY the revision and serial numbers, are modelled byte for byte but not stated.
- ScsiDma.CopyOutConserves: outward data is counted and discarded, as in the code; there is no medium to write to.
- ROM, I/O and VRAM address decoding and the 16- and 32-bit CPU accesses, except that a VRAM store of up to four bytes is a sequence of byte steps and one mark.
- Ethernet, serial, ADB, timer and the other DMA channels: they appear only as other interrupt lines.
- DirtyLines.StepKeepsInv: weak memory ordering is not modelled; each byte stored, word exchanged, byte loaded and group of four pixels painted is one step.
- The `vram_dirty` flag and the refresh gate of the main loop: when a pass starts is not modelled, and no liveness is claimed.
- Conversion of CPU cycles to seconds in the soft clock: the counter advances by events of one second.
- The hardware clock's registers: with that backend the chip always shows the fixed epoch, as in the code.
- Byte-wide writes to the blitter's registers other than status, and their reads: each stores or returns one field.
- RegisterLists.SameModeRoundTrip: memory is the sequence of longwords moved; addresses and address registers are left out.
- Stores to data registers: the same conversions, with the upper part of the register kept.
- Effective-address evaluation, condition codes, FSAVE and FRESTORE, control-register moves and packed decimal.
- Rounding.EncodeClasses: arguments are real numbers, so the not-a-number, infinity and negative-zero inputs of the generator, and any rounding inside its own logarithm, are left out.
- Fp80.NarrowTruncates: stated for registers with the integer bit set; unnormal patterns are stored by the same code but are no IEEE values.
