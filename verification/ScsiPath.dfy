/** Runs of the whole SCSI path: guest register accesses, instruction ticks and other
    devices' interrupts in any order, and what every run keeps. */
module ScsiPath {
  import opened Bits
  import opened MainMemory
  import opened Esp
  import Interrupts
  import Disk = ScsiDisk
  import Dma = ScsiDma

  type otherIrq = b: Interrupts.irq | b != Interrupts.SCSI && b != Interrupts.SCSI_DMA witness 0

  /** `residue` is the uninitialised stack buffer a SELECT completes its CDB from. */
  datatype Event =
    | EspRead(off: nat, residue: Disk.Cdb)
    | EspWrite(off: nat, value: uint8, residue: Disk.Cdb)
    | EspDmaCtrl(value: uint8)
    | EspDmaStatus(value: uint8)
    | DmaCsr(csr: uint32)
    | DmaReg(off: nat, word: uint32)
    | InstructionTick
    | OtherRaise(b: otherIrq)
    | OtherLower(b: otherIrq)
    | MaskWrite(mask: set<Interrupts.irq>)
    | Scr2Write(word: uint32)
    | Resync                              // the main loop's m68k_set_irq after each slice
    | CpuStore(addr: uint32, value: uint8)
    | CardFault(bad: set<int>)            // the card starts or stops failing on sectors

  function Step(s: State, e: Event): State {
    match e
    case EspRead(off, residue) => Read(s, off, residue).0
    case EspWrite(off, value, residue) => Write(s, off, value, residue)
    case EspDmaCtrl(value) => DmaCtrlWrite(s, value)
    case EspDmaStatus(value) => s.(esp := s.esp.(latch := s.esp.latch.(dmaStatus := value)))
    case DmaCsr(csr) => CsrWrite(s, csr)
    case DmaReg(off, word) => s.(dma := Dma.WriteReg(s.dma, off, word))
    case InstructionTick => Tick(s)
    case OtherRaise(b) => s.(intr := Interrupts.Set(s.intr, b))
    case OtherLower(b) => s.(intr := Interrupts.Clear(s.intr, b))
    case MaskWrite(mask) => s.(intr := Interrupts.WriteMask(s.intr, mask))
    case Scr2Write(word) => s.(intr := Interrupts.WriteScr2(s.intr, word))
    case Resync => s.(intr := Interrupts.Recompute(s.intr))
    case CpuStore(addr, value) => s.(ram := WriteByte(s.ram, addr, value))
    case CardFault(bad) => s.(disk := s.disk.(bad := bad))
  }

  // ------------------------------------------------------------------ invariants

  /** The SCSI interrupt line is up exactly when the controller has an interrupt
      pending and the DMA control register lets it through. */
  ghost predicate LineOk(s: State) {
    Interrupts.SCSI in s.intr.status <==> s.esp.statInt && Enabled(s)
  }

  ghost predicate Base(s: State) {
    && Disk.Wf(s.disk)
    && Interrupts.CountOk(s.intr)
    && LineOk(s)
    && (s.dma.pending ==> 1 <= s.dma.countdown <= Dma.DEFER_TICKS && s.dma.counter <= 0x1_0000)
    && (s.esp.selPending ==> 1 <= s.esp.selCountdown <= SELECT_TIMEOUT_TICKS)
    && s.esp.counter <= 0x1_0000
  }

  /** The command register: something waits only behind a command in progress, and a
      chip reset is never left in the queue. */
  ghost predicate QueueOk(s: State) {
    && (s.esp.waiting ==> s.esp.inProgress)
    && s.esp.command1 % 0x80 != CMD_RESET
  }

  ghost predicate Inv(s: State) {
    Base(s) && QueueOk(s)
  }

  /** A command in progress has an interrupt standing, or something that will raise one. */
  ghost predicate Alive(s: State) {
    s.esp.inProgress ==> s.esp.statInt || s.dma.pending || s.esp.selPending
  }

  ghost predicate Initial(s: State) {
    && s.esp == RESET_REGS && s.dma == Dma.RESET_STATE && s.intr == Interrupts.RESET_STATE
    && Disk.PowerOn(s.disk)
  }

  lemma InitialOk(s: State)
    requires Initial(s)
    ensures Inv(s) && Alive(s) && Interrupts.LevelOk(s.intr)
  {
    Disk.PowerOnOk(s.disk);
    assert Interrupts.Pending(s.intr) == {};
  }

  /** Either no new DMA request, or one accepted by an idle channel. */
  ghost predicate AtMostOneStart(c: Dma.State, d: Dma.State) {
    || d == c
    || (!c.pending && d.counter <= 0x1_0000 && d == Dma.StartDeferred(c, d.inward, d.counter))
  }

  /** The interrupt registers only the CPU writes. */
  predicate SameControls(i: Interrupts.State, j: Interrupts.State) {
    j.scr2 == i.scr2 && j.mask == i.mask
  }

  /** What a controller command leaves alone. */
  ghost predicate Frame(s: State, t: State) {
    && Disk.SameMedium(s.disk, t.disk)
    && t.ram == s.ram
    && AtMostOneStart(s.dma, t.dma)
    && (Interrupts.LevelOk(s.intr) ==> Interrupts.LevelOk(t.intr))
    && SameControls(s.intr, t.intr)
    && t.esp.dmaControl == s.esp.dmaControl
  }

  ghost predicate Settled(s: State) {
    Base(s) && QueueOk(s) && Alive(s)
  }

  // ------------------------------------------------------------ single operations

  lemma RaiseKeeps(s: State)
    requires Base(s)
    ensures Base(RaiseIrq(s)) && Frame(s, RaiseIrq(s))
    ensures RaiseIrq(s).esp == s.esp.(statInt := true)
    ensures RaiseIrq(s).disk == s.disk && RaiseIrq(s).dma == s.dma && RaiseIrq(s).fifo == s.fifo
  {
    hide Disk.Wf, Interrupts.LevelOk, Interrupts.CountOk, Interrupts.Set, HasBit;
    Interrupts.SetKeepsLevel(s.intr, Interrupts.SCSI);
  }

  lemma FinishSettles(s: State, intStatus: uint8)
    requires Base(s) && QueueOk(s)
    ensures Settled(Finish(s, intStatus)) && Frame(s, Finish(s, intStatus)) && Finish(s, intStatus).dma == s.dma
    ensures Finish(s, intStatus).esp == s.esp.(intStatus := intStatus, statInt := true)
    ensures Finish(s, intStatus).disk == s.disk && Finish(s, intStatus).fifo == s.fifo
  {
    hide Disk.Wf, Interrupts.LevelOk, RaiseIrq;
    RaiseKeeps(s.(esp := s.esp.(intStatus := intStatus)));
  }

  lemma FifoWriteKeeps(s: State, value: uint8)
    requires Base(s)
    ensures var t := FifoWrite(s, value);
            && Base(t) && Frame(s, t) && t.disk == s.disk && t.dma == s.dma
            && t.esp == s.esp.(statGe := t.esp.statGe, statInt := t.esp.statInt)
            && (s.esp.statInt ==> t.esp.statInt)
            && (if |s.fifo| >= FIFO_SIZE then t.esp.statGe && t.esp.statInt else t.esp == s.esp)
            && t.fifo == s.fifo[..Min(|s.fifo|, FIFO_SIZE - 1)] + [value]
  {
    hide Disk.Wf, Interrupts.LevelOk, RaiseIrq;
    if |s.fifo| >= FIFO_SIZE {
      RaiseKeeps(s.(fifo := s.fifo[FIFO_SIZE - 1 := value], esp := s.esp.(statGe := true)));
    }
  }

  lemma IllegalBit(x: uint8)
    ensures SetBit(x, INTR_ILL) < 0x100 && HasBit(SetBit(x, INTR_ILL), INTR_ILL)
  {
  }

  lemma IllegalSettles(s: State)
    requires Base(s) && QueueOk(s)
    ensures Settled(Illegal(s)) && Frame(s, Illegal(s)) && Illegal(s).dma == s.dma
    ensures var t := Illegal(s);
            && t.esp.statInt && HasBit(t.esp.intStatus, INTR_ILL) && t.esp.command1 == 0 && !t.esp.waiting
            && t.disk == s.disk && t.fifo == s.fifo
  {
    IllegalBit(s.esp.intStatus);
    hide Disk.Wf, Interrupts.LevelOk, RaiseIrq;
    var t := CommandClear(s);
    RaiseKeeps(t.(esp := t.esp.(seqStep := 0, intStatus := SetBit(t.esp.intStatus, INTR_ILL))));
  }

  lemma ResetHardSettles(s: State)
    requires Base(s)
    ensures var t := ResetHard(s);
            && Settled(t) && Frame(s, t) && t.dma == s.dma && t.disk == s.disk
            && !t.esp.inProgress && !t.esp.statInt && !t.esp.selPending
            && t.fifo == [] && t.esp.counter == 0 && t.esp.intStatus == 0 && !t.esp.statTc && !t.esp.statGe
            && Interrupts.SCSI !in t.intr.status
  {
    hide Disk.Wf, Interrupts.LevelOk;
    Interrupts.ClearKeepsLevel(s.intr, Interrupts.SCSI);
    hide Interrupts.Clear;
  }

  lemma BusResetSettles(s: State)
    requires Base(s)
    ensures Settled(BusReset(s)) && Frame(s, BusReset(s)) && BusReset(s).dma == s.dma
    ensures var t := BusReset(s);
            && !t.esp.inProgress && !t.esp.selPending
            && (if HasBit(s.esp.latch.configuration, CFG1_RESREPT) then
                  t.esp.statInt == s.esp.statInt && t.esp.intStatus == 0 && t.disk == s.disk
                else t.esp.statInt && t.esp.intStatus == INTR_RST && t.disk == s.disk.(phase := Disk.MessageIn))
  {
    hide Interrupts.LevelOk, RaiseIrq, Disk.CacheOk;
    var t := ResetSoft(s);
    if !HasBit(s.esp.latch.configuration, CFG1_RESREPT) {
      RaiseKeeps(t.(esp := t.esp.(intStatus := INTR_RST), disk := t.disk.(phase := Disk.MessageIn)));
    }
  }

  lemma CommandClearKeeps(s: State)
    requires Base(s) && QueueOk(s)
    ensures Base(CommandClear(s)) && QueueOk(CommandClear(s)) && Frame(s, CommandClear(s))
    ensures CommandClear(s).dma == s.dma && CommandClear(s).disk == s.disk
  {
    hide Disk.Wf, Interrupts.LevelOk, Interrupts.CountOk;
  }

  /** A chip reset waiting in the queue survives, and nothing else does; since the queue
      never holds one between accesses, both ranks end up empty. */
  lemma ClearEmptiesQueue(s: State)
    ensures var t := CommandClear(s).esp;
            && t.command0 == 0
            && (t.command1 != 0 <==> s.esp.command1 % 0x80 == CMD_RESET)
            && (t.waiting <==> s.esp.waiting && s.esp.command1 % 0x80 == CMD_RESET)
            && (QueueOk(s) ==> t.command1 == 0 && !t.waiting)
  {
  }

  lemma ExecuteSettles(s: State, identify: uint8, residue: Disk.Cdb)
    requires Base(s) && QueueOk(s)
    ensures var t := Execute(s, identify, residue);
            Settled(t) && Frame(s, t) && t.dma == s.dma && t.esp.statInt && t.esp.intStatus == INTR_BS + INTR_FC
  {
    hide Interrupts.LevelOk, Interrupts.CountOk, HasBit, Finish, Disk.Wf, Disk.ReceiveCommand, CommandBuffer;
    Disk.PhaseKeeps(s.disk, Disk.Command);
    var cdb := CommandBuffer(s.fifo, residue);
    Disk.ReceiveCommandKeeps(s.disk.(phase := Disk.Command), cdb, identify);
    var disk := Disk.ReceiveCommand(s.disk.(phase := Disk.Command), cdb, identify);
    var t := s.(esp := s.esp.(seqStep := 4, initiator := true), fifo := s.fifo[Min(|s.fifo|, 12)..], disk := disk);
    CommandClearKeeps(t);
    hide Base, Settled, CommandClear;
    FinishSettles(CommandClear(t), INTR_BS + INTR_FC);
  }

  lemma ConnectSettles(s: State, atn: bool, residue: Disk.Cdb)
    requires Base(s) && QueueOk(s)
    ensures var t := Connect(s, atn, residue);
            Settled(t) && Frame(s, t) && t.dma == s.dma && t.esp.statInt && t.esp.intStatus == INTR_BS + INTR_FC
  {
    hide Interrupts.LevelOk, Interrupts.CountOk, HasBit, Disk.Wf, Execute;
    var (t, identify) := if atn then FifoRead(s) else (s, 0);
    ExecuteSettles(t, identify, residue);
  }

  lemma NoAnswerSettles(s: State)
    requires Base(s) && QueueOk(s)
    ensures var t := NoAnswer(s);
            Settled(t) && Frame(s, t) && t.dma == s.dma
            && t.esp.selPending && t.esp.selCountdown == SELECT_TIMEOUT_TICKS && t.esp.intStatus == INTR_DC
  {
    hide Interrupts.LevelOk, Interrupts.CountOk, HasBit, Disk.Wf;
  }

  lemma SelectSettles(s: State, atn: bool, residue: Disk.Cdb)
    requires Base(s) && QueueOk(s)
    ensures var t := SelectCommand(s, atn, residue);
            Settled(t) && Frame(s, t) && t.dma == s.dma
            && (if Disk.Select(s.disk, s.esp.latch.busId % 8).1
                then t.esp.selPending && t.esp.selCountdown == SELECT_TIMEOUT_TICKS && t.esp.intStatus == INTR_DC
                else t.esp.statInt && t.esp.intStatus == INTR_BS + INTR_FC)
            && (Disk.Select(s.disk, s.esp.latch.busId % 8).1 <==>
                s.esp.latch.busId % 8 != Disk.TARGET_ID || !s.disk.mounted)
  {
    hide Interrupts.LevelOk, Interrupts.CountOk, HasBit, Disk.CacheOk, Connect, NoAnswer;
    var (disk, timeout) := Disk.Select(s.disk, s.esp.latch.busId % 8);
    var t := s.(esp := s.esp.(seqStep := 0, selPending := false), disk := disk);
    NoAnswerSettles(t);
    ConnectSettles(t, atn, residue);
  }

  lemma DataInByteSettles(s: State)
    requires Base(s) && QueueOk(s)
    ensures var (disk, value) := Disk.SendData(s.disk);
            var t := Finish(FifoWrite(s.(disk := disk), value), INTR_FC);
            && Settled(t) && Frame(s, t) && t.disk == disk && t.dma == s.dma
            && t.esp.statInt && t.esp.intStatus == INTR_FC
            && t.fifo == s.fifo[..Min(|s.fifo|, FIFO_SIZE - 1)] + [value]
  {
    hide Interrupts.LevelOk, Interrupts.CountOk, HasBit, Finish, FifoWrite, Disk.Wf, Disk.SendData;
    Disk.SendDataKeeps(s.disk);
    var (disk, value) := Disk.SendData(s.disk);
    FifoWriteKeeps(s.(disk := disk), value);
    FinishSettles(FifoWrite(s.(disk := disk), value), INTR_FC);
  }

  lemma TransferInfoSettles(s: State)
    requires Base(s) && QueueOk(s)
    ensures Settled(TransferInfo(s)) && Frame(s, TransferInfo(s))
    ensures !s.esp.modeDma ==>
              var t := TransferInfo(s);
              && t.esp.statInt && t.dma == s.dma
              && t.esp.intStatus == (if s.disk.phase in {Disk.DataIn, Disk.MessageIn, Disk.Status} then INTR_FC else INTR_ILL)
              && (if s.disk.phase == Disk.DataIn then
                    var next := if s.disk.buf == [] then 0 else s.disk.buf[0];
                    t.fifo == s.fifo[..Min(|s.fifo|, FIFO_SIZE - 1)] + [next]
                  else t.fifo == s.fifo && t.disk == s.disk)
    ensures s.esp.modeDma ==>
              var t := TransferInfo(s);
              && t == s.(dma := t.dma)
              && (!s.dma.pending ==> t.dma.pending && t.dma.countdown == Dma.DEFER_TICKS && t.dma.counter == s.esp.counter
                                     && (t.dma.inward <==> s.disk.phase == Disk.DataIn))
  {
    hide Interrupts.LevelOk, Interrupts.CountOk, HasBit, Finish, FifoWrite, Disk.Wf, Disk.SendData;
    if !s.esp.modeDma {
      hide Base, QueueOk, Settled, Frame;
      DataInByteSettles(s);
      SentByte(s.disk);
      FinishSettles(s, INTR_FC);
      SequenceReset(s);
    }
  }

  lemma SentByte(d: Disk.State)
    ensures Disk.SendData(d).1 == if d.buf == [] then 0 else d.buf[0]
  {
    hide Disk.Drained;
  }

  lemma SequenceReset(s: State)
    requires Base(s) && QueueOk(s)
    ensures var t := Finish(s.(esp := s.esp.(seqStep := 0)), INTR_ILL);
            && Settled(t) && Frame(s, t) && t.esp.statInt && t.esp.intStatus == INTR_ILL
            && t.dma == s.dma && t.disk == s.disk && t.fifo == s.fifo
  {
    hide Finish, Disk.Wf, Interrupts.CountOk, Interrupts.LevelOk;
    FinishSettles(s.(esp := s.esp.(seqStep := 0)), INTR_ILL);
  }

  lemma FinishCountedSettles(s: State)
    requires Base(s) && QueueOk(s)
    ensures Settled(FinishCounted(s)) && Frame(s, FinishCounted(s)) && FinishCounted(s).dma == s.dma
    ensures FinishCounted(s).disk == s.disk
    ensures var e := FinishCounted(s).esp;
            e.statInt && e.counter == s.esp.counter &&
            (if e.counter == 0 then e.intStatus == INTR_FC && e.statTc else e.intStatus == INTR_BS)
  {
    hide Interrupts.LevelOk, Disk.Wf, RaiseIrq;
    if s.esp.counter == 0 {
      RaiseKeeps(s.(esp := s.esp.(statTc := true, intStatus := INTR_FC)));
    } else {
      var t := CommandClear(s);
      RaiseKeeps(t.(esp := t.esp.(intStatus := INTR_BS)));
    }
  }

  lemma CommandCompleteSettles(s: State)
    requires Base(s) && QueueOk(s)
    ensures Settled(CommandComplete(s)) && Frame(s, CommandComplete(s)) && CommandComplete(s).dma == s.dma
    ensures var t := CommandComplete(s);
            && t.esp.statInt && t.esp.intStatus == INTR_FC && t.disk == s.disk.(phase := Disk.MessageIn)
            && (|s.fifo| <= FIFO_SIZE - 2 ==> t.fifo == s.fifo + [s.disk.status, s.disk.message])
  {
    hide Interrupts.LevelOk, FifoWrite, Finish, Disk.CacheOk;
    var t := FifoWrite(s, s.disk.status);
    FifoWriteKeeps(s, s.disk.status);
    var u := t.(disk := t.disk.(phase := Disk.MessageIn));
    FifoWriteKeeps(u, u.disk.message);
    FinishSettles(FifoWrite(u, u.disk.message), INTR_FC);
  }

  lemma MessageAcceptedSettles(s: State)
    requires Base(s) && QueueOk(s)
    ensures Settled(MessageAccepted(s)) && Frame(s, MessageAccepted(s)) && MessageAccepted(s).dma == s.dma
    ensures MessageAccepted(s).esp.statInt && MessageAccepted(s).esp.intStatus == INTR_BS
    ensures MessageAccepted(s).disk == s.disk.(phase := Disk.Status) && !MessageAccepted(s).esp.initiator
  {
    hide Interrupts.LevelOk, Finish, Disk.CacheOk;
    FinishSettles(s.(disk := s.disk.(phase := Disk.Status), esp := s.esp.(initiator := false)), INTR_BS);
  }

  lemma PadInKeeps(disk: Disk.State, counter: uint32)
    requires Disk.Wf(disk)
    ensures Disk.Wf(PadIn(disk, counter).0) && Disk.SameMedium(disk, PadIn(disk, counter).0)
    ensures PadIn(disk, counter).1 <= counter
    ensures PadIn(disk, counter).1 == 0 || PadIn(disk, counter).0.phase != Disk.DataIn
    decreases counter
  {
    hide Disk.Wf, Disk.SendData;
    if disk.phase == Disk.DataIn && counter > 0 {
      Disk.SendDataKeeps(disk);
      PadInKeeps(Disk.SendData(disk).0, counter - 1);
    }
  }

  lemma TransferPadSettles(s: State)
    requires Base(s) && QueueOk(s)
    ensures Settled(TransferPad(s)) && Frame(s, TransferPad(s)) && TransferPad(s).dma == s.dma
    ensures var t := TransferPad(s);
            t.esp.statInt &&
            (if t.esp.counter == 0 then t.esp.intStatus == INTR_FC && t.esp.statTc
             else t.esp.intStatus == INTR_BS && t.disk.phase != Disk.DataIn)
  {
    hide Interrupts.LevelOk, FinishCounted, PadIn, Disk.Wf;
    PadInKeeps(s.disk, s.esp.counter);
    var (disk, left) := PadIn(s.disk, s.esp.counter);
    FinishCountedSettles(s.(disk := disk, esp := s.esp.(counter := left)));
  }

  // -------------------------------------------------------------- command dispatch

  /** Every command byte, started in any state, leaves the invariants intact and
      itself either finished or alive. */
  lemma {:induction false} StartSettles(s: State, cmd: uint8, residue: Disk.Cdb)
    requires Base(s) && (s.esp.command1 % 0x80 != CMD_RESET || cmd % 0x80 in {CMD_RESET, CMD_BUSRESET})
    ensures Settled(StartCommand(s, cmd, residue)) && Frame(s, StartCommand(s, cmd, residue))
    decreases s.esp.waiting, 2
  {
    hide Interrupts.LevelOk, Disk.Wf, ResetHard, BusReset, SelectCommand, TransferInfo, FinishCommand,
      CommandComplete, MessageAccepted, TransferPad, Illegal, LoadCounter, Base;
    var t := s.(esp := LoadCounter(s.esp.(inProgress := true), cmd));
    LoadCounterKeeps(s, cmd);
    var op := cmd % 0x80;
    if op == CMD_RESET {
      ResetHardSettles(t);
    } else if op == CMD_BUSRESET {
      BusResetSettles(t);
    } else {
      assert QueueOk(t);
      StartOther(s, t, cmd, residue);
    }
  }

  lemma {:induction false} StartOther(s: State, t: State, cmd: uint8, residue: Disk.Cdb)
    requires t == s.(esp := LoadCounter(s.esp.(inProgress := true), cmd))
    requires Base(t) && QueueOk(t) && cmd % 0x80 != CMD_RESET && cmd % 0x80 != CMD_BUSRESET
    ensures Settled(StartCommand(s, cmd, residue)) && Frame(t, StartCommand(s, cmd, residue))
    decreases t.esp.waiting, 1
  {
    hide Interrupts.LevelOk, Disk.Wf, ResetHard, BusReset, SelectCommand, TransferInfo, Base,
      CommandComplete, MessageAccepted, TransferPad, Illegal, LoadCounter, FinishCommand;
    var op := cmd % 0x80;
    if op == CMD_NOP || op == CMD_ENSEL || op == CMD_DISSEL {
      FinishCommandSettles(t, residue);
    } else if op == CMD_FLUSH {
      FlushBase(t);
      FinishCommandSettles(t.(fifo := []), residue);
    } else if op == CMD_SEL {
      SelectSettles(t, false, residue);
    } else if op == CMD_SELATN {
      SelectSettles(t, true, residue);
    } else if op == CMD_TI {
      TransferInfoSettles(t);
    } else if op == CMD_ICCS {
      CommandCompleteSettles(t);
    } else if op == CMD_MSGACC {
      MessageAcceptedSettles(t);
    } else if op == CMD_PAD {
      TransferPadSettles(t);
    } else {
      IllegalSettles(t);
    }
  }

  lemma LoadCounterKeeps(s: State, cmd: uint8)
    requires Base(s)
    ensures var e := LoadCounter(s.esp.(inProgress := true), cmd);
            && Base(s.(esp := e))
            && e == s.esp.(inProgress := true, counter := e.counter, statTc := e.statTc, modeDma := e.modeDma)
  {
    hide Disk.Wf;
  }

  lemma FlushBase(t: State)
    requires Base(t)
    ensures Base(t.(fifo := []))
  {
  }

  lemma {:induction false} FinishCommandSettles(s: State, residue: Disk.Cdb)
    requires Base(s) && s.esp.command1 % 0x80 != CMD_RESET
    ensures Settled(FinishCommand(s, residue)) && Frame(s, FinishCommand(s, residue))
    decreases s.esp.waiting, 0
  {
    hide Interrupts.LevelOk, Disk.Wf, StartCommand;
    if s.esp.waiting {
      var t := s.(esp := s.esp.(inProgress := false, command0 := s.esp.command1, command1 := 0, waiting := false));
      StartSettles(t, s.esp.command1, residue);
    }
  }

  // ------------------------------------------------------------ register accesses

  lemma ReadKeeps(s: State, off: nat, residue: Disk.Cdb)
    requires Inv(s)
    ensures var t := Read(s, off, residue).0;
            Inv(t) && Frame(s, t) && (Alive(s) ==> Alive(t))
  {
    hide Interrupts.LevelOk, Disk.Wf, FinishCommand;
    if off == 0x05 && s.esp.statInt {
      var t := s.(esp := s.esp.(intStatus := 0, statGe := false, statInt := false),
                  intr := Interrupts.Clear(s.intr, Interrupts.SCSI));
      Interrupts.ClearKeepsLevel(s.intr, Interrupts.SCSI);
      hide Interrupts.Clear;
      FinishCommandSettles(t, residue);
    }
  }

  /** The chip-reset guard of the command register never drops a command: a reset is
      never found waiting. */
  lemma CommandNeverIgnored(s: State, cmd: uint8, residue: Disk.Cdb)
    requires Inv(s)
    ensures var t := s.(esp := s.esp.(command1 := cmd, statGe := s.esp.statGe || s.esp.waiting));
            var runsNow := cmd % 0x80 in {CMD_RESET, CMD_BUSRESET} || !s.esp.inProgress;
            CommandWrite(s, cmd, residue) ==
            if !runsNow then t.(esp := t.esp.(waiting := true))
            else if cmd % 0x80 in {CMD_RESET, CMD_BUSRESET} then StartCommand(t, cmd, residue)
            else StartCommand(t.(esp := t.esp.(command0 := cmd, command1 := 0)), cmd, residue)
  {
    hide StartCommand;
  }

  lemma CommandWriteKeeps(s: State, cmd: uint8, residue: Disk.Cdb)
    requires Inv(s)
    ensures var t := CommandWrite(s, cmd, residue);
            Inv(t) && Frame(s, t) && (Alive(s) ==> Alive(t))
  {
    hide Interrupts.LevelOk, Disk.Wf, StartCommand;
    var t := s.(esp := s.esp.(command1 := cmd, statGe := s.esp.statGe || s.esp.waiting));
    if cmd % 0x80 == CMD_RESET || cmd % 0x80 == CMD_BUSRESET {
      StartSettles(t, cmd, residue);
    } else if !t.esp.inProgress {
      StartSettles(t.(esp := t.esp.(command0 := cmd, command1 := 0)), cmd, residue);
    }
  }

  /** Latches have no side effects. */
  lemma LatchKeeps(s: State, l: Latches)
    requires Inv(s)
    ensures var t := s.(esp := s.esp.(latch := l));
            Inv(t) && Frame(s, t) && (Alive(s) ==> Alive(t))
  {
    hide Interrupts.LevelOk, Disk.Wf, Interrupts.CountOk;
  }

  lemma FifoKeepsInv(s: State, value: uint8)
    requires Inv(s)
    ensures var t := FifoWrite(s, value); Inv(t) && Frame(s, t) && (Alive(s) ==> Alive(t))
  {
    hide Base, Frame, FifoWrite;
    FifoWriteKeeps(s, value);
  }

  lemma WriteKeeps(s: State, off: nat, value: uint8, residue: Disk.Cdb)
    requires Inv(s)
    ensures var t := Write(s, off, value, residue);
            Inv(t) && Frame(s, t) && (Alive(s) ==> Alive(t))
  {
    hide CommandWrite, FifoWrite, StoreLatch, Inv, Frame, Alive;
    if off == 0x03 {
      CommandWriteKeeps(s, value, residue);
    } else if off == 0x02 {
      FifoKeepsInv(s, value);
    } else {
      LatchKeeps(s, StoreLatch(s.esp.latch, off, value));
    }
  }

  lemma DmaCtrlKeeps(s: State, value: uint8)
    requires Inv(s)
    ensures var t := DmaCtrlWrite(s, value);
            && Inv(t) && (Alive(s) ==> Alive(t))
            && t.esp.dmaControl == value
            && (Interrupts.SCSI in t.intr.status <==> t.esp.statInt && HasBit(value, CTRL_ENABLE_INT))
            && t.dma == s.dma && t.ram == s.ram && Disk.SameMedium(s.disk, t.disk)
            && SameControls(s.intr, t.intr)
            && (Interrupts.LevelOk(s.intr) ==> Interrupts.LevelOk(t.intr))
  {
    hide Interrupts.LevelOk, Disk.Wf, Interrupts.CountOk, Interrupts.Set, Interrupts.Clear, HasBit;
    var e := s.esp.(dmaControl := value);
    var u :=
      if HasBit(value, CTRL_RESET) then ResetHard(s.(esp := e))
      else s.(esp := e);
    Interrupts.ClearKeepsLevel(s.intr, Interrupts.SCSI);
    Interrupts.SetKeepsLevel(u.intr, Interrupts.SCSI);
    Interrupts.ClearKeepsLevel(u.intr, Interrupts.SCSI);
  }

  /** A CSR write that cancels the request the command in progress was waiting for. */
  ghost predicate Strands(s: State, value: uint32) {
    && HasBit(value, Dma.CSR_RESET) && s.dma.pending
    && s.esp.inProgress && !s.esp.statInt && !s.esp.selPending
  }

  /** Writing the DMA control register keeps commands alive exactly when it does not
      reset the channel under a command that only the channel would have ended. */
  lemma CsrWriteKeeps(s: State, value: uint32)
    requires Inv(s)
    ensures var t := CsrWrite(s, value);
            && Inv(t)
            && (Interrupts.LevelOk(s.intr) ==> Interrupts.LevelOk(t.intr))
            && SameControls(s.intr, t.intr)
            && t.disk == s.disk && t.ram == s.ram && t.esp == s.esp
            && (Alive(s) ==> (Alive(t) <==> !Strands(s, value)))
  {
    hide Interrupts.LevelOk, Disk.Wf, Interrupts.CountOk, HasBit, Dma.WriteCsr;
    Dma.WriteCsrKeeps(s.dma, s.intr, value);
  }

  lemma DmaTickKeeps(s: State)
    requires Inv(s)
    ensures var t := DmaTick(s);
            && Inv(t) && Disk.SameMedium(s.disk, t.disk)
            && (Alive(s) ==> Alive(t))
            && (Interrupts.LevelOk(s.intr) ==> Interrupts.LevelOk(t.intr)) && SameControls(s.intr, t.intr)
            && t.dma.pending == (s.dma.pending && s.dma.countdown > 1)
            && (t.dma.pending ==> t == s.(dma := s.dma.(countdown := s.dma.countdown - 1)))
            && (s.dma.pending && !t.dma.pending ==> t.esp.statInt)
  {
    hide Interrupts.LevelOk, Disk.Wf, Dma.Transfer, FinishCounted;
    if s.dma.pending && s.dma.countdown <= 1 {
      var c := s.dma.(pending := false, countdown := s.dma.countdown - 1);
      Dma.TransferKeeps(c, s.disk, s.ram, s.intr, c.inward, c.counter);
      var o := Dma.Transfer(c, s.disk, s.ram, s.intr, c.inward, c.counter);
      var t := s.(dma := o.c, disk := o.disk, ram := o.ram, intr := o.intr);
      FinishCountedSettles(t.(esp := t.esp.(counter := o.counter)));
    }
  }

  lemma SelectTickKeeps(s: State)
    requires Inv(s)
    ensures var t := SelectTick(s); Inv(t) && Frame(s, t) && t.dma == s.dma && (Alive(s) ==> Alive(t))
    ensures s.esp.statInt ==> SelectTick(s).esp.statInt
  {
    hide Interrupts.LevelOk, Disk.Wf, RaiseIrq;
    var t := s.(esp := s.esp.(selCountdown := s.esp.selCountdown - 1));
    if s.esp.selPending && t.esp.selCountdown <= 0 {
      RaiseKeeps(t.(esp := t.esp.(selPending := false)));
    }
  }

  lemma TickKeeps(s: State)
    requires Inv(s)
    ensures var t := Tick(s);
            && Inv(t) && Disk.SameMedium(s.disk, t.disk)
            && (Alive(s) ==> Alive(t))
            && (Interrupts.LevelOk(s.intr) ==> Interrupts.LevelOk(t.intr)) && SameControls(s.intr, t.intr)
            && t.dma.pending == (s.dma.pending && s.dma.countdown > 1)
            && (t.dma.pending ==> t.dma == s.dma.(countdown := s.dma.countdown - 1) && t.ram == s.ram)
            && (s.dma.pending && !t.dma.pending ==> t.esp.statInt)
  {
    hide Interrupts.LevelOk, Disk.Wf, DmaTick, SelectTick;
    Interrupts.HookKeepsLevel(s.intr);
    var u := s.(intr := Interrupts.HookCountdown(s.intr));
    assert SameControls(s.intr, u.intr);
    hide Interrupts.HookCountdown;
    DmaTickKeeps(u);
    SelectTickKeeps(DmaTick(u));
  }

  // ------------------------------------------------------------------------ runs

  /** True if `e` leaves TIMERIPL7 as it is. */
  predicate KeepsTimer(s: State, e: Event) {
    e.Scr2Write? ==> HasBit(e.word, Interrupts.SCR2_TIMERIPL7) == Interrupts.Timer7(s.intr)
  }

  /** Everything one step keeps, whatever the step. */
  lemma StepKeeps(s: State, e: Event)
    requires Inv(s)
    ensures var t := Step(s, e);
            && Inv(t)
            && t.disk.image == s.disk.image
            && (Alive(s) ==> (Alive(t) <==> !(e.DmaCsr? && Strands(s, e.csr))))
            && (Interrupts.LevelOk(s.intr) && KeepsTimer(s, e) ==> Interrupts.LevelOk(t.intr))
            && t.intr.scr2 == (if e.Scr2Write? then e.word else s.intr.scr2)
            && t.intr.mask == (if e.MaskWrite? then e.mask else s.intr.mask)
  {
    hide Interrupts.LevelOk, Read, Write, DmaCtrlWrite, CsrWrite, Tick, Inv, Alive;
    match e
    case EspRead(off, residue) => ReadKeeps(s, off, residue);
    case EspWrite(off, value, residue) => WriteKeeps(s, off, value, residue);
    case EspDmaCtrl(value) => DmaCtrlKeeps(s, value);
    case DmaCsr(csr) => CsrWriteKeeps(s, csr);
    case InstructionTick => TickKeeps(s);
    case EspDmaStatus(value) => LatchKeeps(s, s.esp.latch.(dmaStatus := value));
    case _ => QuietStepKeeps(s, e);
  }

  predicate Quiet(e: Event) {
    match e
    case EspRead(_, _) => false
    case EspWrite(_, _, _) => false
    case EspDmaCtrl(_) => false
    case EspDmaStatus(_) => false
    case DmaCsr(_) => false
    case InstructionTick => false
    case _ => true
  }

  lemma InterruptsKeep(s: State, i: Interrupts.State)
    requires Inv(s) && Interrupts.CountOk(i)
    requires Interrupts.SCSI in i.status <==> Interrupts.SCSI in s.intr.status
    ensures Inv(s.(intr := i)) && (Alive(s) ==> Alive(s.(intr := i)))
  {
    hide Disk.Wf, Interrupts.CountOk, HasBit;
  }

  lemma DmaRegKeeps(s: State, c: Dma.State)
    requires Inv(s) && Dma.SameRequest(s.dma, c)
    ensures Inv(s.(dma := c)) && (Alive(s) ==> Alive(s.(dma := c)))
  {
    hide Disk.Wf, Interrupts.CountOk, HasBit;
  }

  lemma CardFaultKeeps(s: State, bad: set<int>)
    requires Inv(s)
    ensures var t := s.(disk := s.disk.(bad := bad)); Inv(t) && (Alive(s) ==> Alive(t))
  {
    hide Disk.CacheOk, Interrupts.CountOk, HasBit;
  }

  lemma CpuStoreKeeps(s: State, ram: Ram)
    requires Inv(s)
    ensures Inv(s.(ram := ram)) && (Alive(s) ==> Alive(s.(ram := ram)))
  {
    hide Disk.Wf, Interrupts.CountOk, HasBit;
  }

  lemma QuietStepKeeps(s: State, e: Event)
    requires Inv(s) && Quiet(e)
    ensures var t := Step(s, e);
            && Inv(t) && t.disk.image == s.disk.image && (Alive(s) ==> Alive(t))
            && (Interrupts.LevelOk(s.intr) && KeepsTimer(s, e) ==> Interrupts.LevelOk(t.intr))
            && t.intr.scr2 == (if e.Scr2Write? then e.word else s.intr.scr2)
            && t.intr.mask == (if e.MaskWrite? then e.mask else s.intr.mask)
            && Dma.SameRequest(s.dma, t.dma)
  {
    assert Interrupts.CountOk(s.intr);
    hide Inv, Alive, Interrupts.CountOk, Interrupts.LevelOk, Interrupts.Set, Interrupts.Clear, HasBit,
      Interrupts.WriteMask, Interrupts.WriteScr2, Interrupts.Recompute, WriteByte, Dma.WriteReg;
    var t := Step(s, e);
    match e
    case OtherRaise(b) =>
      Interrupts.SetKeepsLevel(s.intr, b);
      InterruptsKeep(s, t.intr);
    case OtherLower(b) =>
      Interrupts.ClearKeepsLevel(s.intr, b);
      InterruptsKeep(s, t.intr);
    case MaskWrite(mask) =>
      Interrupts.WriteMaskKeepsLevel(s.intr, mask);
      InterruptsKeep(s, t.intr);
    case Scr2Write(word) =>
      Interrupts.WriteScr2Level(s.intr, word);
      InterruptsKeep(s, t.intr);
    case Resync =>
      Interrupts.RecomputeSyncs(s.intr);
      InterruptsKeep(s, t.intr);
    case DmaReg(off, word) =>
      assert Dma.SameRequest(s.dma, t.dma);
      DmaRegKeeps(s, t.dma);
    case CpuStore(addr, value) => CpuStoreKeeps(s, t.ram);
    case CardFault(bad) => CardFaultKeeps(s, bad);
  }
}
