/** The controller registers a driver reads back: what was last written to them, whatever
    commands ran in between, until a chip reset. */
module EspLatches {
  import opened Bits
  import opened Esp
  import opened ScsiPath
  import opened ScsiRuns
  import Interrupts
  import Disk = ScsiDisk
  import Dma = ScsiDma

  predicate SameLatch(s: State, t: State) {
    t.esp.latch == s.esp.latch
  }

  /** A chip reset, by command or by the DMA control register. */
  predicate ResetsChip(e: Event) {
    (e.EspWrite? && e.off == 0x03 && e.value % 0x80 == CMD_RESET) || (e.EspDmaCtrl? && HasBit(e.value, CTRL_RESET))
  }

  // ------------------------------------------------------------------- commands

  lemma FinishLatch(s: State, intStatus: uint8)
    ensures SameLatch(s, Finish(s, intStatus))
  {
    hide Interrupts.Set, HasBit;
  }

  lemma FifoLatch(s: State, value: uint8)
    ensures SameLatch(s, FifoWrite(s, value))
  {
    hide Interrupts.Set, HasBit;
  }

  lemma IllegalLatch(s: State)
    ensures SameLatch(s, Illegal(s))
  {
    hide Interrupts.Set, HasBit;
  }

  lemma BusResetLatch(s: State)
    ensures SameLatch(s, BusReset(s))
  {
    hide Interrupts.Set, HasBit;
  }

  lemma ExecuteLatch(s: State, identify: uint8, residue: Disk.Cdb)
    ensures SameLatch(s, Execute(s, identify, residue))
  {
    hide Finish, Disk.ReceiveCommand, CommandBuffer;
    var disk := Disk.ReceiveCommand(s.disk.(phase := Disk.Command), CommandBuffer(s.fifo, residue), identify);
    var t := s.(esp := s.esp.(seqStep := 4, initiator := true), fifo := s.fifo[Min(|s.fifo|, 12)..], disk := disk);
    FinishLatch(CommandClear(t), INTR_BS + INTR_FC);
  }

  lemma SelectLatch(s: State, atn: bool, residue: Disk.Cdb)
    ensures SameLatch(s, SelectCommand(s, atn, residue))
  {
    hide Execute;
    var (disk, timeout) := Disk.Select(s.disk, s.esp.latch.busId % 8);
    var t := s.(esp := s.esp.(seqStep := 0, selPending := false), disk := disk);
    var (u, identify) := if atn then FifoRead(t) else (t, 0);
    ExecuteLatch(u, identify, residue);
  }

  lemma TransferInfoLatch(s: State)
    ensures SameLatch(s, TransferInfo(s))
  {
    hide Finish, FifoWrite, Disk.SendData;
    var (disk, value) := Disk.SendData(s.disk);
    FifoLatch(s.(disk := disk), value);
    FinishLatch(FifoWrite(s.(disk := disk), value), INTR_FC);
    FinishLatch(s, INTR_FC);
    FinishLatch(s.(esp := s.esp.(seqStep := 0)), INTR_ILL);
  }

  lemma FinishCountedLatch(s: State)
    ensures SameLatch(s, FinishCounted(s))
  {
    hide Finish;
    FinishLatch(s.(esp := s.esp.(statTc := true)), INTR_FC);
    FinishLatch(CommandClear(s), INTR_BS);
  }

  lemma EndingLatch(s: State)
    ensures SameLatch(s, CommandComplete(s)) && SameLatch(s, MessageAccepted(s)) && SameLatch(s, TransferPad(s))
  {
    hide Finish, FifoWrite, FinishCounted, PadIn;
    var t := FifoWrite(s, s.disk.status);
    FifoLatch(s, s.disk.status);
    var u := t.(disk := t.disk.(phase := Disk.MessageIn));
    FifoLatch(u, u.disk.message);
    FinishLatch(FifoWrite(u, u.disk.message), INTR_FC);
    FinishLatch(s.(disk := s.disk.(phase := Disk.Status), esp := s.esp.(initiator := false)), INTR_BS);
    var (disk, left) := PadIn(s.disk, s.esp.counter);
    FinishCountedLatch(s.(disk := disk, esp := s.esp.(counter := left)));
  }

  /** No command but the chip reset touches them, and none queued behind another is one. */
  lemma {:induction false} StartLatch(s: State, cmd: uint8, residue: Disk.Cdb)
    requires cmd % 0x80 != CMD_RESET && s.esp.command1 % 0x80 != CMD_RESET
    ensures SameLatch(s, StartCommand(s, cmd, residue))
    decreases s.esp.waiting, 1
  {
    hide FinishCommand, ResetHard, BusReset, SelectCommand, TransferInfo, CommandComplete, MessageAccepted, TransferPad,
      Illegal, LoadCounter;
    var t := s.(esp := LoadCounter(s.esp.(inProgress := true), cmd));
    LoadCounterTouches(s.esp, cmd);
    assert t.esp.waiting == s.esp.waiting && t.esp.command1 == s.esp.command1 by { LoadCounterQueue(s.esp, cmd); }
    var op := cmd % 0x80;
    if op in {CMD_NOP, CMD_ENSEL, CMD_DISSEL} {
      FinishCommandLatch(t, residue);
    } else if op == CMD_FLUSH {
      FinishCommandLatch(t.(fifo := []), residue);
    } else if op == CMD_BUSRESET {
      BusResetLatch(t);
    } else if op in {CMD_SEL, CMD_SELATN} {
      SelectLatch(t, op == CMD_SELATN, residue);
    } else if op == CMD_TI {
      TransferInfoLatch(t);
    } else {
      EndingLatch(t);
      IllegalLatch(t);
    }
  }

  lemma LoadCounterQueue(e: Regs, cmd: uint8)
    ensures var l := LoadCounter(e.(inProgress := true), cmd); l.waiting == e.waiting && l.command1 == e.command1
  {
    hide HasBit;
  }

  lemma {:induction false} FinishCommandLatch(s: State, residue: Disk.Cdb)
    requires s.esp.command1 % 0x80 != CMD_RESET
    ensures SameLatch(s, FinishCommand(s, residue))
    decreases s.esp.waiting, 0
  {
    hide StartCommand;
    if s.esp.waiting {
      var t := s.(esp := s.esp.(inProgress := false, command0 := s.esp.command1, command1 := 0, waiting := false));
      StartLatch(t, s.esp.command1, residue);
    }
  }

  lemma CommandLatch(s: State, cmd: uint8, residue: Disk.Cdb)
    requires Inv(s)
    ensures CommandWrite(s, cmd, residue).esp.latch ==
            if cmd % 0x80 == CMD_RESET then ResetLatches(s.esp.latch) else s.esp.latch
  {
    hide StartCommand, ResetHard, Disk.Wf, Interrupts.CountOk, LineOk;
    var t := s.(esp := Enqueue(s.esp, cmd));
    if cmd % 0x80 == CMD_RESET {
      ResetStarts(t, cmd, residue);
    } else if cmd % 0x80 == CMD_BUSRESET {
      BusResetStarts(t, cmd, residue);
    } else if !s.esp.inProgress {
      StartLatch(t.(esp := Promote(t.esp)), cmd, residue);
    }
  }

  lemma ResetStarts(s: State, cmd: uint8, residue: Disk.Cdb)
    requires cmd % 0x80 == CMD_RESET
    ensures StartCommand(s, cmd, residue).esp.latch == ResetLatches(s.esp.latch)
  {
    hide HasBit, Interrupts.Clear;
  }

  lemma BusResetStarts(s: State, cmd: uint8, residue: Disk.Cdb)
    requires cmd % 0x80 == CMD_BUSRESET
    ensures SameLatch(s, StartCommand(s, cmd, residue))
  {
    hide BusReset, HasBit;
    BusResetLatch(s.(esp := LoadCounter(s.esp.(inProgress := true), cmd)));
  }

  // --------------------------------------------------------------------- events

  lemma ReadLatch(s: State, off: nat, residue: Disk.Cdb)
    requires Inv(s)
    ensures SameLatch(s, Read(s, off, residue).0)
  {
    hide FinishCommand, Interrupts.Clear, Disk.Wf, Interrupts.CountOk, LineOk;
    if off == 0x05 && s.esp.statInt {
      FinishCommandLatch(s.(esp := s.esp.(intStatus := 0, statGe := false, statInt := false),
                            intr := Interrupts.Clear(s.intr, Interrupts.SCSI)), residue);
    }
  }

  lemma TickLatch(s: State)
    ensures SameLatch(s, Tick(s))
  {
    hide Dma.Transfer, FinishCounted, Interrupts.HookCountdown, Interrupts.Set, HasBit;
    var t := s.(intr := Interrupts.HookCountdown(s.intr));
    if t.dma.pending && t.dma.countdown <= 1 {
      var c := t.dma.(pending := false, countdown := t.dma.countdown - 1);
      var o := Dma.Transfer(c, t.disk, t.ram, t.intr, c.inward, c.counter);
      FinishCountedLatch(t.(dma := o.c, disk := o.disk, ram := o.ram, intr := o.intr,
                            esp := t.esp.(counter := o.counter)));
    }
  }

  lemma CtrlLatch(s: State, value: uint8)
    ensures DmaCtrlWrite(s, value).esp.latch == if HasBit(value, CTRL_RESET) then ResetLatches(s.esp.latch) else s.esp.latch
  {
    hide Interrupts.Set, Interrupts.Clear, HasBit;
  }

  /** What a register written at `off` holds after an event; a chip reset leaves `kept`. */
  function After(off: nat, was: uint8, kept: uint8, e: Event): uint8 {
    if e.EspWrite? && e.off == off then e.value else if ResetsChip(e) then kept else was
  }

  lemma StepLatches(s: State, e: Event)
    requires Inv(s)
    ensures var l, m := s.esp.latch, Step(s, e).esp.latch;
            && m.configuration == After(0x08, l.configuration, l.configuration % 8, e)
            && m.config2 == After(0x0B, l.config2, l.config2, e)
            && m.tcl == After(0x00, l.tcl, l.tcl, e) && m.tch == After(0x01, l.tch, l.tch, e)
            && m.busId == After(0x04, l.busId, l.busId, e)
  {
    hide CommandWrite, FifoWrite, Inv, Tick, DmaCtrlWrite, Read, Dma.WriteCsr, Dma.WriteReg, HasBit,
      Interrupts.Set, Interrupts.Clear, Interrupts.WriteMask, Interrupts.WriteScr2, Interrupts.Recompute;
    match e
    case EspRead(off, residue) => ReadLatch(s, off, residue);
    case EspWrite(off, value, residue) =>
      CommandLatch(s, value, residue);
      FifoLatch(s, value);
    case EspDmaCtrl(value) => CtrlLatch(s, value);
    case InstructionTick => TickLatch(s);
    case _ =>
  }

  /** The configuration register after a run: the last value written, of which a chip reset
      keeps the bus ID in the low three bits. */
  function LastConfiguration(v: uint8, es: seq<Event>): uint8
    decreases |es|
  {
    if es == [] then v else LastConfiguration(After(0x08, v, v % 8, es[0]), es[1..])
  }

  /** The second configuration register after a run: the last value written, chip resets
      or not. */
  function LastConfig2(v: uint8, es: seq<Event>): uint8
    decreases |es|
  {
    if es == [] then v else LastConfig2(if es[0].EspWrite? && es[0].off == 0x0B then es[0].value else v, es[1..])
  }

  /** The configuration registers read back what was last written to them, over every run. */
  lemma {:induction false} ConfigurationsReadBack(s: State, es: seq<Event>, residue: Disk.Cdb)
    requires Inv(s)
    ensures var t := Run(s, es);
            && Read(t, 0x08, residue) == (t, LastConfiguration(Read(s, 0x08, residue).1, es))
            && Read(t, 0x0B, residue) == (t, LastConfig2(Read(s, 0x0B, residue).1, es))
    decreases |es|
  {
    hide Step, Inv, ResetsChip;
    if es != [] {
      StepKeeps(s, es[0]);
      StepLatches(s, es[0]);
      ConfigurationsReadBack(Step(s, es[0]), es[1..], residue);
    }
  }

  /** The addresses at which sync period and offset are written read something else: the
      sequence step and the number of bytes in the FIFO, and no write changes that. */
  lemma SyncIsNotReadBack(s: State, off: nat, value: uint8, residue: Disk.Cdb)
    requires off in {0x06, 0x07}
    ensures Read(Step(s, EspWrite(off, value, residue)), off, residue).1 == Read(s, off, residue).1
    ensures Read(s, 0x06, residue).1 == s.esp.seqStep && Read(s, 0x07, residue).1 == |s.fifo|
  {
    hide LowerIrq;
  }
}
