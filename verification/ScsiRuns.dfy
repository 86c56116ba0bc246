/** Safety of the SCSI path over whole runs. */
module ScsiRuns {
  import opened Bits
  import opened Esp
  import opened ScsiPath
  import Interrupts
  import Disk = ScsiDisk
  import Dma = ScsiDma

  function Run(s: State, es: seq<Event>): State
    decreases |es|
  {
    if es == [] then s else Run(Step(s, es[0]), es[1..])
  }

  lemma {:induction false} RunAppend(s: State, es: seq<Event>, fs: seq<Event>)
    ensures Run(s, es + fs) == Run(Run(s, es), fs)
    decreases |es|
  {
    hide Step;
    if es == [] {
      assert es + fs == fs;
    } else {
      assert (es + fs)[0] == es[0] && (es + fs)[1..] == es[1..] + fs;
      RunAppend(Step(s, es[0]), es[1..], fs);
    }
  }

  /** In every run, whatever the guest, the card and the other devices do: the SCSI
      line is up if and only if an enabled interrupt is pending in the controller,
      nothing waits in the command register without a command in progress, the cache
      of a mounted card agrees with the image, and the image itself never changes. */
  lemma {:induction false} RunKeepsInv(s: State, es: seq<Event>)
    requires Inv(s)
    ensures Inv(Run(s, es)) && LineOk(Run(s, es)) && QueueOk(Run(s, es))
    ensures Run(s, es).disk.image == s.disk.image
    decreases |es|
  {
    if es == [] {
      assert LineOk(s) && QueueOk(s);
    } else {
      hide Step, Inv, LineOk, QueueOk;
      StepKeeps(s, es[0]);
      RunKeepsInv(Step(s, es[0]), es[1..]);
    }
  }

  /** No write of the run cancels a DMA request its command depends on. */
  ghost predicate NeverStrands(s: State, es: seq<Event>)
    decreases |es|
  {
    es == [] || (!(es[0].DmaCsr? && Strands(s, es[0].csr)) && NeverStrands(Step(s, es[0]), es[1..]))
  }

  /** No command is lost: as long as no request is cancelled under it, a command in
      progress always has an interrupt standing or something that will raise one. */
  lemma {:induction false} RunKeepsAlive(s: State, es: seq<Event>)
    requires Inv(s) && Alive(s) && NeverStrands(s, es)
    ensures Alive(Run(s, es))
    decreases |es|
  {
    if es != [] {
      hide Step, Inv, Alive, Strands;
      StepKeeps(s, es[0]);
      RunKeepsAlive(Step(s, es[0]), es[1..]);
    }
  }

  predicate NeverTouchesTimer(s: State, es: seq<Event>)
    decreases |es|
  {
    es == [] || (KeepsTimer(s, es[0]) && NeverTouchesTimer(Step(s, es[0]), es[1..]))
  }

  /** The interrupt mask last written in a run. */
  function LastMask(mask: set<Interrupts.irq>, es: seq<Event>): set<Interrupts.irq>
    decreases |es|
  {
    if es == [] then mask else LastMask(if es[0].MaskWrite? then es[0].mask else mask, es[1..])
  }

  lemma {:induction false} RunKeepsLevelOk(s: State, es: seq<Event>)
    requires Inv(s) && Interrupts.LevelOk(s.intr) && NeverTouchesTimer(s, es)
    ensures var t := Run(s, es);
            && Interrupts.LevelOk(t.intr) && t.intr.mask == LastMask(s.intr.mask, es)
            && Interrupts.Timer7(t.intr) == Interrupts.Timer7(s.intr)
    decreases |es|
  {
    if es != [] {
      hide Step, Inv, Interrupts.LevelOk, HasBit;
      StepKeeps(s, es[0]);
      RunKeepsLevelOk(Step(s, es[0]), es[1..]);
    }
  }

  /** The CPU's interrupt level, over every run that leaves TIMERIPL7 alone: never above
      the highest line standing under the mask last written, and equal to it whenever no
      delayed SCSI delivery is running. */
  lemma RunKeepsLevel(s: State, es: seq<Event>)
    requires Inv(s) && Interrupts.LevelOk(s.intr) && NeverTouchesTimer(s, es)
    ensures var i := Run(s, es).intr;
            && Interrupts.LevelOk(i)
            && Interrupts.LevelBound(i, i.status * LastMask(s.intr.mask, es), Interrupts.Timer7(s.intr))
  {
    hide Interrupts.LevelOk, Interrupts.LevelBound, Inv;
    RunKeepsLevelOk(s, es);
    Interrupts.LevelOkIsBound(Run(s, es).intr);
  }

  // -------------------------------------------------------- deferred DMA requests

  function Ticks(es: seq<Event>): nat
    decreases |es|
  {
    if es == [] then 0 else (if es[0].InstructionTick? then 1 else 0) + Ticks(es[1..])
  }

  predicate ResetsChannel(e: Event) {
    e.DmaCsr? && HasBit(e.csr, Dma.CSR_RESET)
  }

  /** While a request is pending nothing but a tick or a channel reset affects it. */
  lemma StepKeepsRequest(s: State, e: Event)
    requires Inv(s) && s.dma.pending && !ResetsChannel(e)
    ensures var t := Step(s, e);
            if !e.InstructionTick? then Dma.SameRequest(s.dma, t.dma)
            else if s.dma.countdown > 1 then t.dma == s.dma.(countdown := s.dma.countdown - 1)
            else !t.dma.pending && t.esp.statInt
  {
    match e
    case EspRead(off, residue) =>
      hide Inv, Read, Alive;
      ReadKeeps(s, off, residue);
    case EspWrite(off, value, residue) =>
      hide Inv, Write, Alive;
      WriteKeeps(s, off, value, residue);
    case EspDmaCtrl(value) =>
      hide Inv, DmaCtrlWrite, Alive;
      DmaCtrlKeeps(s, value);
    case DmaCsr(csr) =>
      assert Interrupts.CountOk(s.intr);
      hide Inv, Dma.WriteCsr, HasBit;
      Dma.WriteCsrKeeps(s.dma, s.intr, csr);
    case InstructionTick =>
      hide Inv, Tick, Alive;
      TickKeeps(s);
    case EspDmaStatus(_) =>
    case _ =>
      hide Inv, Step, Alive;
      QuietStepKeeps(s, e);
  }

  /** A request accepted at countdown c completes, with an interrupt, exactly at the
      c-th instruction tick after it, in every run without a channel reset. */
  lemma {:induction false} RequestOnTime(s: State, es: seq<Event>)
    requires Inv(s) && s.dma.pending
    requires forall e | e in es :: !ResetsChannel(e)
    requires Ticks(es) < s.dma.countdown
    ensures var t := Run(s, es);
            && Inv(t)
            && t.dma.pending && t.dma.countdown == s.dma.countdown - Ticks(es)
            && t.dma.inward == s.dma.inward && t.dma.counter == s.dma.counter
            && (Ticks(es) == s.dma.countdown - 1 ==>
                  !Step(t, InstructionTick).dma.pending && Step(t, InstructionTick).esp.statInt)
    decreases |es|
  {
    if es == [] {
      hide Inv, Step;
      StepKeepsRequest(s, InstructionTick);
    } else {
      hide Step, Inv;
      StepKeepsRequest(s, es[0]);
      StepKeeps(s, es[0]);
      RequestOnTime(Step(s, es[0]), es[1..]);
    }
  }

  // ------------------------------------------------------------------- accounting

  function Bit(b: bool): int {
    if b then 1 else 0
  }

  const TI_DMA: uint8 := 0x90

  /** The step starts a Transfer Information command with DMA, written directly or
      moved up from the queue. */
  predicate AsksForDma(s: State, e: Event) {
    || (e.EspWrite? && e.off == 0x03 && e.value == TI_DMA && !s.esp.inProgress)
    || (e.EspRead? && e.off == 0x05 && s.esp.statInt && s.esp.waiting && s.esp.command1 == TI_DMA)
  }

  /** DMA requests of a run: asked for, refused because one was pending, completed by
      a tick, cancelled by a channel reset. */
  datatype Tally = Tally(asked: int, refused: int, completed: int, cancelled: int)

  function Count(s: State, es: seq<Event>): Tally
    decreases |es|
  {
    if es == [] then Tally(0, 0, 0, 0)
    else
      var t := Count(Step(s, es[0]), es[1..]);
      var asks := AsksForDma(s, es[0]);
      Tally(t.asked + Bit(asks), t.refused + Bit(asks && s.dma.pending),
            t.completed + Bit(es[0].InstructionTick? && s.dma.pending && s.dma.countdown <= 1),
            t.cancelled + Bit(ResetsChannel(es[0]) && s.dma.pending))
  }

  /** A command other than Transfer Information with DMA leaves the channel alone. */
  lemma StartTouchesDma(s: State, cmd: uint8, residue: Disk.Cdb)
    requires Base(s) && QueueOk(s) && !s.esp.waiting
    ensures var t := StartCommand(s, cmd, residue);
            if cmd == TI_DMA then t.dma.pending else t.dma == s.dma
  {
    hide Base, QueueOk, Frame, Alive, ResetHard, BusReset, SelectCommand, TransferInfo, CommandComplete, MessageAccepted,
      TransferPad, Illegal, LoadCounter;
    var t := s.(esp := LoadCounter(s.esp.(inProgress := true), cmd));
    LoadCounterKeeps(s, cmd);
    LoadedQueue(s, t);
    var op := cmd % 0x80;
    if op == CMD_RESET {
      ResetHardSettles(t);
    } else if op == CMD_BUSRESET {
      BusResetSettles(t);
    } else if op == CMD_SEL {
      SelectSettles(t, false, residue);
    } else if op == CMD_SELATN {
      SelectSettles(t, true, residue);
    } else if op == CMD_TI {
      TransferInfoDma(t);
      assert HasBit(cmd, CMD_DMA) <==> cmd == TI_DMA;
      LoadedMode(s, cmd);
    } else if op == CMD_ICCS {
      CommandCompleteSettles(t);
    } else if op == CMD_MSGACC {
      MessageAcceptedSettles(t);
    } else if op == CMD_PAD {
      TransferPadSettles(t);
    } else {
      IllegalSettles(t);
    }
  }

  lemma LoadedQueue(s: State, t: State)
    requires QueueOk(s)
    requires t.esp == s.esp.(inProgress := true, counter := t.esp.counter, statTc := t.esp.statTc, modeDma := t.esp.modeDma)
    ensures QueueOk(t)
  {
  }

  lemma LoadedMode(s: State, cmd: uint8)
    ensures LoadCounter(s.esp.(inProgress := true), cmd).modeDma == HasBit(cmd, CMD_DMA)
  {
  }

  lemma TransferInfoDma(s: State)
    requires Base(s) && QueueOk(s)
    ensures if s.esp.modeDma then TransferInfo(s).dma.pending else TransferInfo(s).dma == s.dma
  {
    hide Disk.Wf, Base, QueueOk, Finish, FifoWrite, Disk.SendData;
    if !s.esp.modeDma {
      TransferInfoPio(s);
    }
  }

  lemma TransferInfoPio(s: State)
    requires !s.esp.modeDma
    ensures TransferInfo(s).dma == s.dma
  {
    hide Interrupts.Set, HasBit, Disk.SendData;
  }

  lemma IdleStepAccounts(s: State, e: Event)
    requires Inv(s) && (!s.dma.pending || ResetsChannel(e))
    ensures Step(s, e).dma.pending <==> AsksForDma(s, e)
  {
    match e
    case EspRead(off, residue) => IdleReadAccounts(s, off, residue);
    case EspWrite(off, value, residue) => IdleWriteAccounts(s, off, value, residue);
    case EspDmaCtrl(value) =>
      hide Inv, DmaCtrlWrite, Alive;
      DmaCtrlKeeps(s, value);
    case DmaCsr(csr) =>
      assert Interrupts.CountOk(s.intr);
      hide Inv, Dma.WriteCsr, HasBit;
      Dma.WriteCsrKeeps(s.dma, s.intr, csr);
    case InstructionTick =>
      hide Inv, Tick, Alive;
      TickKeeps(s);
    case EspDmaStatus(_) =>
    case _ =>
      hide Inv, Step, Alive;
      QuietStepKeeps(s, e);
  }

  lemma IdleReadAccounts(s: State, off: nat, residue: Disk.Cdb)
    requires Inv(s) && !s.dma.pending
    ensures Read(s, off, residue).0.dma.pending <==> AsksForDma(s, EspRead(off, residue))
  {
    hide Disk.Wf, Interrupts.CountOk, Interrupts.LevelOk, Interrupts.Clear, StartCommand;
    if off == 0x05 && s.esp.statInt && s.esp.waiting {
      var t := s.(esp := s.esp.(intStatus := 0, statGe := false, statInt := false, inProgress := false,
                                command0 := s.esp.command1, command1 := 0, waiting := false),
                  intr := Interrupts.Clear(s.intr, Interrupts.SCSI));
      Interrupts.ClearKeepsLevel(s.intr, Interrupts.SCSI);
      StartTouchesDma(t, s.esp.command1, residue);
    }
  }

  lemma IdleWriteAccounts(s: State, off: nat, value: uint8, residue: Disk.Cdb)
    requires Inv(s) && !s.dma.pending
    ensures Write(s, off, value, residue).dma.pending <==> AsksForDma(s, EspWrite(off, value, residue))
  {
    if off == 0x02 {
      hide Base, Frame, FifoWrite;
      FifoWriteKeeps(s, value);
    } else if off == 0x03 {
      IdleCommandAccounts(s, value, residue);
    }
  }

  lemma IdleCommandAccounts(s: State, value: uint8, residue: Disk.Cdb)
    requires Inv(s) && !s.dma.pending
    ensures CommandWrite(s, value, residue).dma.pending <==> value == TI_DMA && !s.esp.inProgress
  {
    hide Disk.Wf, Interrupts.CountOk, Interrupts.LevelOk, StartCommand, HasBit;
    var t := s.(esp := s.esp.(command1 := value, statGe := s.esp.statGe || s.esp.waiting));
    if value % 0x80 == CMD_RESET || value % 0x80 == CMD_BUSRESET {
      ResetTouchesNoDma(t, value, residue);
    } else if !t.esp.inProgress {
      StartTouchesDma(t.(esp := t.esp.(command0 := value, command1 := 0)), value, residue);
    }
  }

  lemma ResetTouchesNoDma(s: State, cmd: uint8, residue: Disk.Cdb)
    requires Base(s) && cmd % 0x80 in {CMD_RESET, CMD_BUSRESET}
    ensures StartCommand(s, cmd, residue).dma == s.dma
  {
    hide Base, Frame, ResetHard, BusReset, LoadCounter;
    LoadCounterKeeps(s, cmd);
    var t := s.(esp := LoadCounter(s.esp.(inProgress := true), cmd));
    ResetHardSettles(t);
    BusResetSettles(t);
  }

  lemma StepAccounts(s: State, e: Event)
    requires Inv(s)
    ensures Bit(Step(s, e).dma.pending) ==
            Bit(s.dma.pending) + Bit(AsksForDma(s, e) && !s.dma.pending)
            - Bit(e.InstructionTick? && s.dma.pending && s.dma.countdown <= 1)
            - Bit(ResetsChannel(e) && s.dma.pending)
  {
    if s.dma.pending && !ResetsChannel(e) {
      hide Inv, Step;
      StepKeepsRequest(s, e);
    } else {
      IdleStepAccounts(s, e);
    }
  }

  /** The whole history of the channel balances. */
  lemma {:induction false} RequestsBalance(s: State, es: seq<Event>)
    requires Inv(s)
    ensures var n := Count(s, es);
            Bit(s.dma.pending) + n.asked == n.refused + n.completed + n.cancelled + Bit(Run(s, es).dma.pending)
    decreases |es|
  {
    if es != [] {
      hide Step, Inv, AsksForDma, ResetsChannel;
      StepKeeps(s, es[0]);
      StepAccounts(s, es[0]);
      RequestsBalance(Step(s, es[0]), es[1..]);
    }
  }

  // ------------------------------------------------------------- a stranded command

  function Ticking(n: nat): seq<Event> {
    seq(n, _ => InstructionTick)
  }

  predicate Still(s: State) {
    !s.dma.pending && !s.esp.selPending
  }

  /** With nothing pending, ticks only move the interrupt delivery. */
  lemma {:induction false} TicksAreQuiet(s: State, n: nat)
    requires Still(s)
    ensures Run(s, Ticking(n)) == s.(intr := Run(s, Ticking(n)).intr)
    decreases n
  {
    if n > 0 {
      hide Interrupts.HookCountdown;
      var t := Tick(s);
      assert t == s.(intr := t.intr);
      assert Ticking(n)[0] == InstructionTick && Ticking(n)[1..] == Ticking(n - 1);
      TicksAreQuiet(t, n - 1);
    }
  }

  /** Why the reset matters: a command whose request was cancelled is never finished by
      the passing of time. */
  lemma StrandedForGood(s: State, csr: uint32, n: nat)
    requires Inv(s) && Strands(s, csr)
    ensures var t := Run(Step(s, DmaCsr(csr)), Ticking(n));
            t.esp.inProgress && !t.esp.statInt && Still(t)
  {
    var u := Step(s, DmaCsr(csr));
    assert u.esp == s.esp && Still(u) by {
      hide HasBit;
      CsrWriteKeeps(s, csr);
    }
    hide Step;
    TicksAreQuiet(u, n);
  }

  /** A concrete run: from power-on, a transfer command and then a channel reset. */
  lemma ResetCanStrand(s: State, residue: Disk.Cdb)
    requires Initial(s)
    ensures var t := Step(s, EspWrite(0x03, TI_DMA, residue));
            Inv(t) && Alive(t) && Strands(t, Dma.CSR_RESET) && !Alive(Step(t, DmaCsr(Dma.CSR_RESET)))
  {
    var e := EspWrite(0x03, TI_DMA, residue);
    InitialOk(s);
    StepKeeps(s, e);
    IdleCommandAccounts(s, TI_DMA, residue);
    var t := Step(s, e);
    assert t.esp.inProgress && !t.esp.statInt && !t.esp.selPending;
    assert HasBit(Dma.CSR_RESET, Dma.CSR_RESET);
    hide Step;
    StepKeeps(t, DmaCsr(Dma.CSR_RESET));
  }

  /** After a soft reset with the channel idle, no number of ticks brings an interrupt,
      and no command is left to wait for one. */
  lemma SoftResetIsSilent(s: State, n: nat)
    requires !s.dma.pending && !s.esp.statInt
    ensures var t := Run(ResetSoft(s), Ticking(n));
            && !t.esp.statInt && !t.esp.inProgress && !t.esp.waiting && !t.esp.selPending
            && t.disk == s.disk && t.ram == s.ram && t.fifo == s.fifo && t.dma == s.dma
  {
    TicksAreQuiet(ResetSoft(s), n);
  }

  // --------------------------------------------------------- selection timeout

  lemma SelectionTick(s: State)
    requires s.esp.selPending && !s.dma.pending && !s.esp.statInt && s.esp.selCountdown > 0
    ensures var left := s.esp.selCountdown - 1;
            Tick(s) == s.(intr := Tick(s).intr,
                          esp := s.esp.(selCountdown := left, selPending := left > 0, statInt := left == 0))
  {
    hide Interrupts.HookCountdown, Interrupts.Set, HasBit;
  }

  lemma TickingStep(s: State, n: nat)
    requires n > 0
    ensures Run(s, Ticking(n)) == Run(Tick(s), Ticking(n - 1))
  {
    hide Tick;
    assert Ticking(n)[0] == InstructionTick && Ticking(n)[1..] == Ticking(n - 1);
  }

  lemma TickingNone(s: State)
    ensures Run(s, Ticking(0)) == s
  {
    hide Step;
  }

  lemma TimerRunning(e: Regs)
    requires e.selPending && !e.statInt
    ensures e.(selCountdown := e.selCountdown, selPending := true, statInt := false) == e
  {
  }

  /** Until its last tick the selection timer only counts; then it interrupts. */
  lemma {:induction false} SelectionTimesOut(s: State, n: nat)
    requires s.esp.selPending && !s.dma.pending && !s.esp.statInt && n <= s.esp.selCountdown && s.esp.selCountdown > 0
    ensures var t, left := Run(s, Ticking(n)), s.esp.selCountdown - n;
            t == s.(intr := t.intr,
                    esp := s.esp.(selCountdown := left, selPending := left > 0, statInt := left == 0))
    decreases n
  {
    hide Tick, Step, Run, Ticking;
    if n == 0 {
      TickingNone(s);
      TimerRunning(s.esp);
    } else {
      TickingStep(s, n);
      SelectionTick(s);
      if n == 1 {
        TickingNone(Tick(s));
      } else {
        SelectionTimesOut(Tick(s), n - 1);
      }
    }
  }

  /** A selection command to a target that does not answer arms the timer. */
  lemma AbsentTargetStarts(s: State, cmd: uint8, residue: Disk.Cdb)
    requires cmd in {CMD_SEL, CMD_SELATN} && !s.esp.waiting
    requires s.esp.latch.busId % 8 != Disk.TARGET_ID || !s.disk.mounted
    ensures var t := StartCommand(s, cmd, residue);
            && t.disk == s.disk.(phase := Disk.Status) && t.fifo == s.fifo && t.dma == s.dma && t.ram == s.ram
            && t.esp.selPending && t.esp.selCountdown == SELECT_TIMEOUT_TICKS
            && t.esp.intStatus == INTR_DC && t.esp.inProgress && t.esp.statInt == s.esp.statInt
  {
    hide StartCommand, SelectCommand, LoadCounter;
    SelectDispatch(s, cmd, residue);
    LoadCounterTouches(s.esp, cmd);
    AbsentSelect(s.(esp := LoadCounter(s.esp.(inProgress := true), cmd)), cmd == CMD_SELATN, residue);
  }

  lemma LoadCounterTouches(e: Regs, cmd: uint8)
    ensures var l := LoadCounter(e.(inProgress := true), cmd);
            l.latch == e.latch && l.inProgress && l.statInt == e.statInt
  {
    hide HasBit;
  }

  lemma AbsentSelect(s: State, atn: bool, residue: Disk.Cdb)
    requires s.esp.latch.busId % 8 != Disk.TARGET_ID || !s.disk.mounted
    ensures var t := SelectCommand(s, atn, residue);
            && t.disk == s.disk.(phase := Disk.Status) && t.fifo == s.fifo && t.dma == s.dma && t.ram == s.ram
            && t.esp.selPending && t.esp.selCountdown == SELECT_TIMEOUT_TICKS
            && t.esp.intStatus == INTR_DC && t.esp.inProgress == s.esp.inProgress && t.esp.statInt == s.esp.statInt
  {
    hide Connect;
  }

  lemma SelectDispatch(s: State, cmd: uint8, residue: Disk.Cdb)
    requires cmd in {CMD_SEL, CMD_SELATN}
    ensures StartCommand(s, cmd, residue) ==
            SelectCommand(s.(esp := LoadCounter(s.esp.(inProgress := true), cmd)), cmd == CMD_SELATN, residue)
  {
    hide SelectCommand, LoadCounter, FinishCommand, ResetHard, BusReset, TransferInfo, CommandComplete,
      MessageAccepted, TransferPad, Illegal;
  }

  /** Selecting a target that does not answer: the cause is readable at once, and the
      interrupt comes with the 500th tick and not before. */
  lemma AbsentTargetTimesOut(s: State, cmd: uint8, residue: Disk.Cdb, n: nat)
    requires cmd in {CMD_SEL, CMD_SELATN} && n <= SELECT_TIMEOUT_TICKS
    requires !s.esp.inProgress && !s.esp.waiting && !s.esp.statInt && !s.dma.pending && s.esp.command1 % 0x80 != CMD_RESET
    requires s.esp.latch.busId % 8 != Disk.TARGET_ID || !s.disk.mounted
    ensures var t := Run(Step(s, EspWrite(0x03, cmd, residue)), Ticking(n));
            && t.esp.intStatus == INTR_DC && t.esp.inProgress && t.fifo == s.fifo && t.ram == s.ram
            && (t.esp.statInt <==> n == SELECT_TIMEOUT_TICKS)
            && t.disk == s.disk.(phase := Disk.Status)
  {
    hide StartCommand;
    var u := s.(esp := Promote(Enqueue(s.esp, cmd)));
    var w := Step(s, EspWrite(0x03, cmd, residue));
    assert w == StartCommand(u, cmd, residue);
    AbsentTargetStarts(u, cmd, residue);
    hide Step;
    SelectionTimesOut(w, n);
  }
}
