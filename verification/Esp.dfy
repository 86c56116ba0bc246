/** The NCR53C90 controller of next_esp.c as transition functions over the whole SCSI
    path: controller, target, DMA channel, interrupt controller and RAM. */
module Esp {
  import opened Bits
  import opened MainMemory
  import Interrupts
  import Disk = ScsiDisk
  import Dma = ScsiDma

  const FIFO_SIZE := 16
  const SELECT_TIMEOUT_TICKS := 500

  const CMD_DMA := 0x80
  const CMD_NOP := 0x00
  const CMD_FLUSH := 0x01
  const CMD_RESET := 0x02
  const CMD_BUSRESET := 0x03
  const CMD_TI := 0x10
  const CMD_ICCS := 0x11
  const CMD_MSGACC := 0x12
  const CMD_PAD := 0x18
  const CMD_SEL := 0x41
  const CMD_SELATN := 0x42
  const CMD_ENSEL := 0x44
  const CMD_DISSEL := 0x45

  const INTR_FC: uint8 := 0x08
  const INTR_BS: uint8 := 0x10
  const INTR_DC: uint8 := 0x20
  const INTR_ILL: uint8 := 0x40
  const INTR_RST: uint8 := 0x80

  const CFG1_RESREPT := 0x40
  const CTRL_ENABLE_INT := 0x20
  const CTRL_RESET := 0x02

  type Fifo = q: seq<uint8> | |q| <= FIFO_SIZE

  /** Registers that only hold what was last written to them. */
  datatype Latches = Latches(
    tcl: uint8, tch: uint8, busId: uint8, selectTimeout: uint8, syncPeriod: uint8, syncOffset: uint8,
    configuration: uint8, clockConv: uint8, test: uint8, config2: uint8, dmaStatus: uint8)

  /** The controller. `statInt`, `statTc` and `statGe` are the STAT_INT, STAT_TC and
      STAT_GE bits; VGC and PE are never set. `selPending` and `selCountdown` are the
      deferred selection timeout. */
  datatype Regs = Regs(
    latch: Latches,
    command0: uint8, command1: uint8, inProgress: bool, waiting: bool,
    statInt: bool, statTc: bool, statGe: bool,
    intStatus: uint8, seqStep: uint8, counter: uint32, modeDma: bool, initiator: bool,
    dmaControl: uint8, selPending: bool, selCountdown: int)

  const RESET_LATCHES := Latches(0, 0, 0, 0, 5, 0, 0, 2, 0, 0, 0)
  const RESET_REGS := Regs(RESET_LATCHES, 0, 0, false, false, false, false, false,
                           0, 0, 0, false, false, 0, false, 0)

  /** The whole path; `fifo` is the occupied part of the controller's FIFO. */
  datatype State = State(esp: Regs, fifo: Fifo, disk: Disk.State, dma: Dma.State, intr: Interrupts.State, ram: Ram)

  // ----------------------------------------------------- interrupts and the FIFO

  function Enabled(s: State): bool {
    HasBit(s.esp.dmaControl, CTRL_ENABLE_INT)
  }

  function RaiseIrq(s: State): State {
    if s.esp.statInt then s
    else
      s.(esp := s.esp.(statInt := true),
         intr := if Enabled(s) then Interrupts.Set(s.intr, Interrupts.SCSI) else s.intr)
  }

  function FifoRead(s: State): (State, uint8) {
    if s.fifo == [] then (s, 0) else (s.(fifo := s.fifo[1..]), s.fifo[0])
  }

  /** A full FIFO loses its last byte to the new one and reports a gross error. */
  function FifoWrite(s: State, value: uint8): State {
    if |s.fifo| >= FIFO_SIZE then
      RaiseIrq(s.(fifo := s.fifo[FIFO_SIZE - 1 := value], esp := s.esp.(statGe := true)))
    else s.(fifo := s.fifo + [value])
  }

  // -------------------------------------------------------------------- commands

  /** A queued chip reset survives. */
  function ClearRegs(e: Regs): Regs {
    var keep := e.command1 % 0x80 == CMD_RESET;
    e.(command0 := 0, command1 := if keep then e.command1 else 0, waiting := keep && e.waiting)
  }

  function CommandClear(s: State): State {
    s.(esp := ClearRegs(s.esp))
  }

  /** Report the end of a command: set INTRSTATUS and raise the interrupt. */
  function Finish(s: State, intStatus: uint8): State {
    RaiseIrq(s.(esp := s.esp.(intStatus := intStatus)))
  }

  function Illegal(s: State): State {
    var t := CommandClear(s);
    RaiseIrq(t.(esp := t.esp.(seqStep := 0, intStatus := SetBit(t.esp.intStatus, INTR_ILL))))
  }

  function ResetRegs(e: Regs): Regs {
    e.(statTc := false, intStatus := 0, modeDma := false, counter := 0, seqStep := 0,
       inProgress := false, waiting := false, command0 := 0, command1 := 0,
       initiator := false, selPending := false)
  }

  function ResetSoft(s: State): State {
    s.(esp := ResetRegs(s.esp))
  }

  function ResetLatches(l: Latches): Latches {
    l.(clockConv := 2, configuration := l.configuration % 8, syncPeriod := 5, syncOffset := 0)
  }

  /** Chip reset up to its final esp_finish_command, which finds nothing queued. */
  function ResetHard(s: State): State {
    var t := s.(esp := s.esp.(latch := ResetLatches(s.esp.latch), statInt := false, statGe := false), fifo := [],
                intr := Interrupts.Clear(s.intr, Interrupts.SCSI));
    ResetSoft(t)
  }

  function BusReset(s: State): State {
    var t := ResetSoft(s);
    if HasBit(s.esp.latch.configuration, CFG1_RESREPT) then t
    else
      RaiseIrq(t.(esp := t.esp.(intStatus := INTR_RST), disk := t.disk.(phase := Disk.MessageIn)))
  }

  /** The CDB handed to the target: what the FIFO holds, then whatever the 12-byte
      stack buffer held before. */
  function CommandBuffer(fifo: Fifo, residue: Disk.Cdb): Disk.Cdb {
    var n := Min(|fifo|, 12);
    fifo[..n] + residue[n..]
  }

  /** The CDB leaves the FIFO and the target executes it. */
  function Execute(s: State, identify: uint8, residue: Disk.Cdb): State {
    var disk := Disk.ReceiveCommand(s.disk.(phase := Disk.Command), CommandBuffer(s.fifo, residue), identify);
    var t := s.(esp := s.esp.(seqStep := 4, initiator := true), fifo := s.fifo[Min(|s.fifo|, 12)..], disk := disk);
    Finish(CommandClear(t), INTR_BS + INTR_FC)
  }

  /** The target answered: with ATN the identify message leaves the FIFO first. */
  function Connect(s: State, atn: bool, residue: Disk.Cdb): State {
    var (t, identify) := if atn then FifoRead(s) else (s, 0);
    Execute(t, identify, residue)
  }

  /** Nobody answered: the cause is visible at once, the interrupt comes later. */
  function NoAnswer(s: State): State {
    var e := ClearRegs(s.esp.(intStatus := INTR_DC));
    s.(esp := e.(initiator := false, selPending := true, selCountdown := SELECT_TIMEOUT_TICKS))
  }

  function SelectCommand(s: State, atn: bool, residue: Disk.Cdb): State {
    var (disk, timeout) := Disk.Select(s.disk, s.esp.latch.busId % 8);
    var t := s.(esp := s.esp.(seqStep := 0, selPending := false), disk := disk);
    if timeout then NoAnswer(t) else Connect(t, atn, residue)
  }

  function TransferInfo(s: State): State {
    if s.esp.modeDma then
      s.(dma := Dma.StartDeferred(s.dma, s.disk.phase == Disk.DataIn, s.esp.counter))
    else
      match s.disk.phase
      case DataIn =>
        var (disk, value) := Disk.SendData(s.disk);
        Finish(FifoWrite(s.(disk := disk), value), INTR_FC)
      case MessageIn => Finish(s, INTR_FC)
      case Status => Finish(s, INTR_FC)
      case _ => Finish(s.(esp := s.esp.(seqStep := 0)), INTR_ILL)
  }

  /** Outcome of a counted transfer: FC when the counter ran out, BS otherwise. */
  function FinishCounted(s: State): State {
    if s.esp.counter == 0 then Finish(s.(esp := s.esp.(statTc := true)), INTR_FC)
    else Finish(CommandClear(s), INTR_BS)
  }

  /** esp_deferred_dma_complete. */
  function DmaComplete(s: State, remaining: uint32): State {
    FinishCounted(s.(esp := s.esp.(counter := remaining)))
  }

  function CommandComplete(s: State): State {
    var t := FifoWrite(s, s.disk.status);
    var u := t.(disk := t.disk.(phase := Disk.MessageIn));
    Finish(FifoWrite(u, u.disk.message), INTR_FC)
  }

  function MessageAccepted(s: State): State {
    Finish(s.(disk := s.disk.(phase := Disk.Status), esp := s.esp.(initiator := false)), INTR_BS)
  }

  /** The byte-discarding loop of Transfer Pad. */
  function PadIn(disk: Disk.State, counter: uint32): (Disk.State, uint32)
    decreases counter
  {
    if disk.phase == Disk.DataIn && counter > 0 then PadIn(Disk.SendData(disk).0, counter - 1)
    else (disk, counter)
  }

  function TransferPad(s: State): State {
    var (disk, left) := PadIn(s.disk, s.esp.counter);
    FinishCounted(s.(disk := disk, esp := s.esp.(counter := left)))
  }

  /** Loading of the transfer counter at the start of a command. */
  function LoadCounter(e: Regs, cmd: uint8): Regs {
    if HasBit(cmd, CMD_DMA) then
      var n := e.latch.tcl as int + e.latch.tch as int * 0x100;
      e.(counter := if n == 0 then 0x1_0000 else n, statTc := false, modeDma := true)
    else e.(modeDma := false)
  }

  /** esp_finish_command: a waiting command moves up and starts. */
  function FinishCommand(s: State, residue: Disk.Cdb): State
    decreases s.esp.waiting, 0
  {
    var t := s.(esp := s.esp.(inProgress := false));
    if s.esp.waiting then
      StartCommand(t.(esp := t.esp.(command0 := s.esp.command1, command1 := 0, waiting := false)),
                   s.esp.command1, residue)
    else t
  }

  /** esp_start_command. The recursion ends because the queue slot is emptied before
      the command in it starts. */
  function StartCommand(s: State, cmd: uint8, residue: Disk.Cdb): State
    decreases s.esp.waiting, 1
  {
    var t := s.(esp := LoadCounter(s.esp.(inProgress := true), cmd));
    var op := cmd % 0x80;
    if op == CMD_NOP || op == CMD_ENSEL || op == CMD_DISSEL then FinishCommand(t, residue)
    else if op == CMD_FLUSH then FinishCommand(t.(fifo := []), residue)
    else if op == CMD_RESET then ResetHard(t)
    else if op == CMD_BUSRESET then BusReset(t)
    else if op == CMD_SEL then SelectCommand(t, false, residue)
    else if op == CMD_SELATN then SelectCommand(t, true, residue)
    else if op == CMD_TI then TransferInfo(t)
    else if op == CMD_ICCS then CommandComplete(t)
    else if op == CMD_MSGACC then MessageAccepted(t)
    else if op == CMD_PAD then TransferPad(t)
    else Illegal(t)
  }

  function LowerIrq(s: State, residue: Disk.Cdb): State {
    if s.esp.statInt then
      FinishCommand(s.(esp := s.esp.(statInt := false), intr := Interrupts.Clear(s.intr, Interrupts.SCSI)), residue)
    else s
  }

  /** A command byte arrives in the second rank of the command register. */
  function Enqueue(e: Regs, cmd: uint8): Regs {
    e.(command1 := cmd, statGe := e.statGe || e.waiting)
  }

  /** The second rank moves to the first. */
  function Promote(e: Regs): Regs {
    e.(command0 := e.command1, command1 := 0)
  }

  function CommandWrite(s: State, cmd: uint8, residue: Disk.Cdb): State {
    if s.esp.command1 % 0x80 == CMD_RESET && cmd % 0x80 != CMD_NOP then s
    else
      var t := s.(esp := Enqueue(s.esp, cmd));
      if cmd % 0x80 == CMD_RESET || cmd % 0x80 == CMD_BUSRESET then StartCommand(t, cmd, residue)
      else if s.esp.inProgress then t.(esp := t.esp.(waiting := true))
      else StartCommand(t.(esp := Promote(t.esp)), cmd, residue)
  }

  // ------------------------------------------------------------------- registers

  function StatusByte(s: State): uint8 {
    s.disk.phase.Code() as int + (if s.esp.statTc then 0x10 else 0) + (if s.esp.statGe then 0x40 else 0)
    + (if s.esp.statInt then 0x80 else 0)
  }

  function Read(s: State, off: nat, residue: Disk.Cdb): (State, uint8) {
    match off
    case 0x00 => (s, s.esp.counter % 0x100)
    case 0x01 => (s, s.esp.counter / 0x100 % 0x100)
    case 0x02 => FifoRead(s)
    case 0x03 => (s, s.esp.command0)
    case 0x04 => (s, StatusByte(s))
    case 0x05 =>
      if s.esp.statInt then
        (LowerIrq(s.(esp := s.esp.(intStatus := 0, statGe := false)), residue), s.esp.intStatus)
      else (s, s.esp.intStatus)
    case 0x06 => (s, s.esp.seqStep)
    case 0x07 => (s, |s.fifo|)
    case 0x08 => (s, s.esp.latch.configuration)
    case 0x0B => (s, s.esp.latch.config2)
    case _ => (s, 0)
  }

  function StoreLatch(l: Latches, off: nat, value: uint8): Latches {
    l.(tcl := if off == 0x00 then value else l.tcl,
       tch := if off == 0x01 then value else l.tch,
       busId := if off == 0x04 then value else l.busId,
       selectTimeout := if off == 0x05 then value else l.selectTimeout,
       syncPeriod := if off == 0x06 then value else l.syncPeriod,
       syncOffset := if off == 0x07 then value else l.syncOffset,
       configuration := if off == 0x08 then value else l.configuration,
       clockConv := if off == 0x09 then value else l.clockConv,
       test := if off == 0x0A then value else l.test,
       config2 := if off == 0x0B then value else l.config2)
  }

  function Write(s: State, off: nat, value: uint8, residue: Disk.Cdb): State {
    if off == 0x02 then FifoWrite(s, value)
    else if off == 0x03 then CommandWrite(s, value, residue)
    else s.(esp := s.esp.(latch := StoreLatch(s.esp.latch, off, value)))
  }

  function DmaCtrlWrite(s: State, value: uint8): State {
    var t := s.(esp := s.esp.(dmaControl := value));
    var u := if HasBit(value, CTRL_RESET) then ResetHard(t) else t;
    if HasBit(value, CTRL_ENABLE_INT) then
      if u.esp.statInt then u.(intr := Interrupts.Set(u.intr, Interrupts.SCSI)) else u
    else u.(intr := Interrupts.Clear(u.intr, Interrupts.SCSI))
  }

  function CsrWrite(s: State, value: uint32): State {
    var (dma, intr) := Dma.WriteCsr(s.dma, s.intr, value);
    s.(dma := dma, intr := intr)
  }

  // ----------------------------------------------------------------------- ticks

  /** next_scsi_dma_tick. */
  function DmaTick(s: State): State {
    if !s.dma.pending then s
    else if s.dma.countdown > 1 then s.(dma := s.dma.(countdown := s.dma.countdown - 1))
    else
      var c := s.dma.(pending := false, countdown := s.dma.countdown - 1);
      var o := Dma.Transfer(c, s.disk, s.ram, s.intr, c.inward, c.counter);
      DmaComplete(s.(dma := o.c, disk := o.disk, ram := o.ram, intr := o.intr), o.counter)
  }

  /** next_esp_select_timeout_tick. */
  function SelectTick(s: State): State {
    if !s.esp.selPending then s
    else
      var t := s.(esp := s.esp.(selCountdown := s.esp.selCountdown - 1));
      if t.esp.selCountdown > 0 then t
      else RaiseIrq(t.(esp := t.esp.(selPending := false)))
  }

  /** The head of emu_instr_hook: interrupt countdown, DMA, selection timeout. */
  function Tick(s: State): State {
    SelectTick(DmaTick(s.(intr := Interrupts.HookCountdown(s.intr))))
  }
}
