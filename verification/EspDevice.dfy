/** The NCR53C90 as next_esp.c keeps it: register bytes with their status and command
    state bits, a FIFO array shifted in place and a two-deep command register, wired to
    the target, the DMA channel and the interrupt controller. Every method refines the
    function of the same operation in Esp. */
module EspDevice {
  import opened Bits
  import opened Esp
  import Interrupts
  import Disk = ScsiDisk
  import Dma = ScsiDma
  import DiskDevice
  import DmaDevice

  const STAT_TC := 0x10
  const STAT_GE := 0x40
  const STAT_INT := 0x80

  const CMD_INPROGRESS := 0x01
  const CMD_WAITING := 0x02

  /** The status byte keeps no phase bits, and VGC and PE are never set. */
  predicate StatusOk(x: uint8) {
    x % 0x10 == 0 && !HasBit(x, 0x20)
  }

  predicate SameStatusBut(x: nat, y: nat, bit: nat) {
    && (bit != STAT_TC ==> HasBit(y, STAT_TC) == HasBit(x, STAT_TC))
    && (bit != STAT_GE ==> HasBit(y, STAT_GE) == HasBit(x, STAT_GE))
    && (bit != STAT_INT ==> HasBit(y, STAT_INT) == HasBit(x, STAT_INT))
  }

  lemma StatusValue(x: uint8)
    requires StatusOk(x)
    ensures x == (if HasBit(x, STAT_TC) then STAT_TC else 0) + (if HasBit(x, STAT_GE) then STAT_GE else 0)
                 + (if HasBit(x, STAT_INT) then STAT_INT else 0)
  {
    assert x == 0x10 * (x / 0x10);
  }

  /** Setting and clearing one status bit leaves the others alone. */
  lemma StatusBits(x: uint8, bit: nat)
    requires StatusOk(x) && bit in {STAT_TC, STAT_GE, STAT_INT}
    ensures var y := SetBit(x, bit); y < 0x100 && StatusOk(y) && HasBit(y, bit) && SameStatusBut(x, y, bit)
    ensures var y := ClearBit(x, bit); 0 <= y < 0x100 && StatusOk(y) && !HasBit(y, bit) && SameStatusBut(x, y, bit)
  {
    StatusValue(x);
    if x == 0 {
    } else if x == 0x10 {
    } else if x == 0x40 {
    } else if x == 0x50 {
    } else if x == 0x80 {
    } else if x == 0x90 {
    } else if x == 0xC0 {
    } else {
      assert x == 0xD0;
    }
  }

  /** The same for the two bits of the command state. */
  lemma CommandBits(x: nat)
    requires x < 4
    ensures var y := SetBit(x, CMD_INPROGRESS);
            y < 4 && HasBit(y, CMD_INPROGRESS) && HasBit(y, CMD_WAITING) == HasBit(x, CMD_WAITING)
    ensures var y := ClearBit(x, CMD_INPROGRESS);
            0 <= y < 4 && !HasBit(y, CMD_INPROGRESS) && HasBit(y, CMD_WAITING) == HasBit(x, CMD_WAITING)
    ensures var y := SetBit(x, CMD_WAITING);
            y < 4 && HasBit(y, CMD_WAITING) && HasBit(y, CMD_INPROGRESS) == HasBit(x, CMD_INPROGRESS)
    ensures var y := ClearBit(x, CMD_WAITING);
            0 <= y < 4 && !HasBit(y, CMD_WAITING) && HasBit(y, CMD_INPROGRESS) == HasBit(x, CMD_INPROGRESS)
    ensures !HasBit(0, CMD_WAITING) && !HasBit(0, CMD_INPROGRESS)
  {
  }

  lemma IllegalCause(x: uint8)
    ensures SetBit(x, INTR_ILL) < 0x100
  {
  }

  class Controller {
    const dma: DmaDevice.Channel
    const fifo: array<uint8>
    var fifoFlags: int
    var writeTcl: uint8
    var writeTch: uint8
    var command0: uint8
    var command1: uint8
    var cmdState: uint8
    var status: uint8
    var selectBusId: uint8
    var intStatus: uint8
    var selectTimeout: uint8
    var seqStep: uint8
    var syncPeriod: uint8
    var syncOffset: uint8
    var configuration: uint8
    var clockConv: uint8
    var test: uint8
    var config2: uint8
    var counter: uint32
    var modeDma: uint8
    var initiator: bool
    var dmaControl: uint8
    var dmaStatus: uint8
    var selPending: bool
    var selCountdown: int

    ghost predicate Valid()
      reads this, dma, dma.disk
    {
      && dma.Valid()
      && StatusOk(status) && cmdState < 4
      && fifo.Length == FIFO_SIZE && 0 <= fifoFlags <= FIFO_SIZE
      && fifo as object != dma.ram as object && fifo as object != dma.disk.data as object
      && fifo as object != dma.disk.tags as object && fifo as object != dma.disk.lines as object
    }

    function Latched(): Latches
      reads this
    {
      Latches(writeTcl, writeTch, selectBusId, selectTimeout, syncPeriod, syncOffset,
              configuration, clockConv, test, config2, dmaStatus)
    }

    function Decoded(): Regs
      reads this
    {
      Regs(Latched(), command0, command1, HasBit(cmdState, CMD_INPROGRESS), HasBit(cmdState, CMD_WAITING),
           HasBit(status, STAT_INT), HasBit(status, STAT_TC), HasBit(status, STAT_GE),
           intStatus, seqStep, counter, modeDma != 0, initiator, dmaControl, selPending, selCountdown)
    }

    predicate Waiting()
      reads this
    {
      HasBit(cmdState, CMD_WAITING)
    }

    ghost function Repr(): set<object>
      reads this, dma
    {
      {this, fifo, dma, dma.ram, dma.intr, dma.disk, dma.disk.tags, dma.disk.lines, dma.disk.data}
    }

    ghost function Value(): (s: State)
      reads this, fifo, dma, dma.ram, dma.intr, dma.disk, dma.disk.tags, dma.disk.lines, dma.disk.data
      requires Valid()
      ensures s.esp == Decoded() && |s.fifo| == fifoFlags
      ensures s.disk.phase == dma.disk.phase && s.disk.status == dma.disk.status && s.disk.message == dma.disk.message
      ensures s.dma.pending == dma.pending && s.dma.countdown == dma.countdown
      ensures s.dma.inward == dma.inward && s.dma.counter == dma.counter
    {
      State(Decoded(), fifo[..fifoFlags], dma.disk.Value(), dma.Value(), dma.intr.Value(), dma.ram[..])
    }

    lemma StatusMoves(bit: nat)
      requires Valid() && bit in {STAT_TC, STAT_GE, STAT_INT}
      ensures var y := SetBit(status, bit); y < 0x100 && StatusOk(y) && HasBit(y, bit) && SameStatusBut(status, y, bit)
      ensures var y := ClearBit(status, bit);
              0 <= y < 0x100 && StatusOk(y) && !HasBit(y, bit) && SameStatusBut(status, y, bit)
    {
      StatusBits(status, bit);
    }

    lemma CommandMoves()
      requires Valid()
      ensures var y := SetBit(cmdState, CMD_INPROGRESS);
              y < 4 && HasBit(y, CMD_INPROGRESS) && HasBit(y, CMD_WAITING) == HasBit(cmdState, CMD_WAITING)
      ensures var y := ClearBit(cmdState, CMD_INPROGRESS);
              0 <= y < 4 && !HasBit(y, CMD_INPROGRESS) && HasBit(y, CMD_WAITING) == HasBit(cmdState, CMD_WAITING)
      ensures var y := SetBit(cmdState, CMD_WAITING);
              y < 4 && HasBit(y, CMD_WAITING) && HasBit(y, CMD_INPROGRESS) == HasBit(cmdState, CMD_INPROGRESS)
      ensures var y := ClearBit(cmdState, CMD_WAITING);
              0 <= y < 4 && !HasBit(y, CMD_WAITING) && HasBit(y, CMD_INPROGRESS) == HasBit(cmdState, CMD_INPROGRESS)
      ensures !HasBit(0, CMD_WAITING) && !HasBit(0, CMD_INPROGRESS)
    {
      CommandBits(cmdState);
    }

    /** Only register fields have been assigned: nothing else of the value has moved. */
    twostate lemma RegistersOnly()
      requires old(Valid()) && fifoFlags == old(fifoFlags)
      requires (status == old(status) || StatusOk(status)) && (cmdState == old(cmdState) || cmdState < 4)
      requires unchanged(fifo, dma, dma.ram, dma.intr, dma.disk, dma.disk.tags, dma.disk.lines, dma.disk.data)
      ensures Valid() && Value() == old(Value()).(esp := Decoded())
    {
    }

    constructor (dma: DmaDevice.Channel)
      requires dma.Valid()
      ensures Valid() && this.dma == dma && Decoded() == RESET_REGS && fifoFlags == 0
    {
      this.dma := dma;
      fifo := new uint8[FIFO_SIZE](_ => 0);
      fifoFlags, cmdState, status := 0, 0, 0;
      writeTcl, writeTch, command0, command1, selectBusId := 0, 0, 0, 0, 0;
      intStatus, selectTimeout, seqStep, syncPeriod, syncOffset := 0, 0, 0, 5, 0;
      configuration, clockConv, test, config2, counter, modeDma := 0, 2, 0, 0, 0, 0;
      initiator, dmaControl, dmaStatus, selPending, selCountdown := false, 0, 0, false, 0;
    }

    // ------------------------------------------------------ steps on single parts

    method Empty()
      requires Valid()
      modifies this`fifoFlags
      ensures Valid() && Value() == var s := old(Value()); s.(fifo := [])
    {
      fifoFlags := 0;
      assert fifo[..fifoFlags] == [];
    }

    method SetPhase(p: Disk.Phase)
      requires Valid()
      modifies dma.disk`phase
      ensures Valid() && Value() == var s := old(Value()); s.(disk := s.disk.(phase := p))
    {
      dma.disk.SetPhase(p);
    }

    method LineUp()
      requires Valid()
      modifies dma.intr
      ensures Valid() && Value() == var s := old(Value()); s.(intr := Interrupts.Set(s.intr, Interrupts.SCSI))
    {
      hide Interrupts.Set;
      dma.intr.Raise(Interrupts.SCSI);
    }

    method LineDown()
      requires Valid()
      modifies dma.intr
      ensures Valid() && Value() == var s := old(Value()); s.(intr := Interrupts.Clear(s.intr, Interrupts.SCSI))
    {
      hide Interrupts.Clear;
      dma.intr.Lower(Interrupts.SCSI);
    }

    /** Move the bytes down by one; whatever the last place held is not part of the result. */
    method Shift()
      requires Valid() && fifoFlags > 0
      modifies fifo
      ensures Valid() && Value() == var s := old(Value()); s.(fifo := s.fifo[1..] + [fifo[fifoFlags - 1]])
    {
      var i := 0;
      while i < FIFO_SIZE - 1
        invariant 0 <= i <= FIFO_SIZE - 1
        invariant forall j | 0 <= j < i :: fifo[j] == old(fifo[j + 1])
        invariant forall j | i <= j < FIFO_SIZE :: fifo[j] == old(fifo[j])
      {
        fifo[i] := fifo[i + 1];
        i := i + 1;
      }
      fifo[FIFO_SIZE - 1] := 0;
      assert fifo[..fifoFlags] == old(fifo[..fifoFlags])[1..] + [fifo[fifoFlags - 1]];
    }

    method Shorten()
      requires Valid() && fifoFlags > 0
      modifies this`fifoFlags
      ensures Valid() && Value() == var s := old(Value()); s.(fifo := s.fifo[..|s.fifo| - 1])
    {
      fifoFlags := fifoFlags - 1;
      assert fifo[..fifoFlags] == old(fifo[..fifoFlags])[..fifoFlags];
    }

    /** Take the first byte and shift the others down. */
    method FifoPop() returns (value: uint8)
      requires Valid()
      modifies this`fifoFlags, fifo
      ensures Valid() && (Value(), value) == FifoRead(old(Value()))
    {
      if fifoFlags == 0 {
        return 0;
      }
      ghost var was := Value();
      assert fifo[0] == was.fifo[0];
      value := fifo[0];
      hide Value, Valid;
      Shift();
      Shorten();
      assert Value().fifo == was.fifo[1..];
    }

    /** Append a byte, or overwrite the last one of a full FIFO. */
    method Insert(value: uint8)
      requires Valid()
      modifies this`fifoFlags, fifo
      ensures Valid() && Value() == var s := old(Value());
              s.(fifo := if |s.fifo| >= FIFO_SIZE then s.fifo[FIFO_SIZE - 1 := value] else s.fifo + [value])
    {
      if fifoFlags >= FIFO_SIZE {
        fifo[FIFO_SIZE - 1] := value;
        assert fifo[..fifoFlags] == old(fifo[..fifoFlags])[FIFO_SIZE - 1 := value];
      } else {
        fifo[fifoFlags] := value;
        fifoFlags := fifoFlags + 1;
        assert fifo[..fifoFlags] == old(fifo[..fifoFlags]) + [value];
      }
    }

    // ---------------------------------------------------- interrupts and the FIFO

    method Raise()
      requires Valid()
      modifies Repr()
      ensures Valid() && Value() == RaiseIrq(old(Value()))
    {
      hide Value, Valid, Interrupts.Set, HasBit, SetBit, StatusOk;
      if !HasBit(status, STAT_INT) {
        StatusMoves(STAT_INT);
        label before:
        status := SetBit(status, STAT_INT);
        RegistersOnly@before();
        if HasBit(dmaControl, CTRL_ENABLE_INT) {
          LineUp();
        }
      }
    }

    method MarkGross()
      requires Valid()
      modifies Repr()
      ensures Valid() && Value() == var s := old(Value()); s.(esp := s.esp.(statGe := true))
    {
      hide Value, Valid, HasBit, SetBit, ClearBit, StatusOk;
      StatusMoves(STAT_GE);
      label before:
      status := SetBit(status, STAT_GE);
      RegistersOnly@before();
    }

    method FifoPush(value: uint8)
      requires Valid()
      modifies Repr()
      ensures Valid() && Value() == FifoWrite(old(Value()), value)
    {
      hide Value, Valid, RaiseIrq;
      var full := fifoFlags >= FIFO_SIZE;
      Insert(value);
      if full {
        MarkGross();
        Raise();
      }
    }

    method Conclude(cause: uint8)
      requires Valid()
      modifies Repr()
      ensures Valid() && Value() == Finish(old(Value()), cause)
    {
      hide Value, Valid, RaiseIrq;
      SetCause(cause);
      Raise();
    }

    // ------------------------------------------------------------------- commands

    method ClearCommand()
      requires Valid()
      modifies Repr()
      ensures Valid() && Value() == CommandClear(old(Value()))
    {
      hide Value, Valid, HasBit, ClearBit, StatusOk;
      CommandMoves();
      label before:
      command0 := 0;
      if command1 % 0x80 != CMD_RESET {
        command1 := 0;
        cmdState := ClearBit(cmdState, CMD_WAITING);
      }
      RegistersOnly@before();
    }

    method MarkIllegal()
      requires Valid()
      modifies Repr()
      ensures Valid() && Value() == var s := old(Value()); s.(esp := s.esp.(seqStep := 0, intStatus := SetBit(s.esp.intStatus, INTR_ILL)))
    {
      hide Value, Valid, HasBit, SetBit, ClearBit, StatusOk;
      IllegalCause(intStatus);
      label before:
      seqStep := 0;
      intStatus := SetBit(intStatus, INTR_ILL);
      RegistersOnly@before();
    }

    method Refuse()
      requires Valid()
      modifies Repr()
      ensures Valid() && Value() == Illegal(old(Value()))
    {
      hide Value, Valid, RaiseIrq, ClearRegs, SetBit;
      IllegalCause(intStatus);
      ClearCommand();
      MarkIllegal();
      Raise();
    }

    method ClearCounter()
      requires Valid()
      modifies Repr()
      ensures Valid() && Value() == var s := old(Value()); s.(esp := s.esp.(statTc := false, modeDma := false, counter := 0))
    {
      hide Value, Valid, HasBit, SetBit, ClearBit, StatusOk;
      StatusMoves(STAT_TC);
      label before:
      status := ClearBit(status, STAT_TC);
      modeDma := 0;
      counter := 0;
      RegistersOnly@before();
    }

    method ClearRanks()
      requires Valid()
      modifies Repr()
      ensures Valid() && Value() == var s := old(Value()); s.(esp := s.esp.(inProgress := false, waiting := false, command0 := 0, command1 := 0))
      ensures !Waiting()
    {
      hide Value, Valid, HasBit, SetBit, ClearBit, StatusOk;
      CommandMoves();
      label before:
      cmdState := 0;
      command0 := 0;
      command1 := 0;
      RegistersOnly@before();
    }

    method ForgetStep()
      requires Valid()
      modifies Repr()
      ensures Valid() && Value() == var s := old(Value()); s.(esp := s.esp.(intStatus := 0, seqStep := 0))
      ensures Waiting() == old(Waiting())
    {
      hide Value, Valid, HasBit, SetBit, ClearBit, StatusOk;
      label before:
      intStatus := 0;
      seqStep := 0;
      RegistersOnly@before();
    }

    /** Disconnected, and any pending selection timeout cancelled. */
    method DropTimeout()
      requires Valid()
      modifies Repr()
      ensures Valid() && Value() == var s := old(Value()); s.(esp := s.esp.(initiator := false, selPending := false))
      ensures Waiting() == old(Waiting())
    {
      hide Value, Valid, HasBit, SetBit, ClearBit, StatusOk;
      label before:
      initiator := false;
      selPending := false;
      RegistersOnly@before();
    }

    method SoftReset()
      requires Valid()
      modifies Repr()
      ensures Valid() && Value() == ResetSoft(old(Value()))
      ensures !Waiting()
    {
      hide Value, Valid;
      ClearCounter();
      ClearRanks();
      ForgetStep();
      DropTimeout();
    }

    /** With nothing in progress or waiting, ending a command does nothing. */
    static lemma FinishNothing(s: State, residue: Disk.Cdb)
      requires !s.esp.inProgress && !s.esp.waiting
      ensures FinishCommand(s, residue) == s
    {
    }

    method DefaultClock()
      requires Valid()
      modifies Repr()
      ensures Valid() && Value() == var s := old(Value()); s.(esp := s.esp.(latch := s.esp.latch.(clockConv := 2, configuration := s.esp.latch.configuration % 8)))
    {
      hide Value, Valid, HasBit, SetBit, ClearBit, StatusOk;
      label before:
      clockConv := 2;
      configuration := configuration % 8;
      RegistersOnly@before();
    }

    method DefaultSync()
      requires Valid()
      modifies Repr()
      ensures Valid() && Value() == var s := old(Value()); s.(esp := s.esp.(latch := s.esp.latch.(syncPeriod := 5, syncOffset := 0)))
    {
      hide Value, Valid, HasBit, SetBit, ClearBit, StatusOk;
      label before:
      syncPeriod := 5;
      syncOffset := 0;
      RegistersOnly@before();
    }

    method ClearInt()
      requires Valid()
      modifies Repr()
      ensures Valid() && Value() == var s := old(Value()); s.(esp := s.esp.(statInt := false))
    {
      hide Value, Valid, HasBit, SetBit, ClearBit, StatusOk;
      StatusMoves(STAT_INT);
      label before:
      status := ClearBit(status, STAT_INT);
      RegistersOnly@before();
    }

    method HardReset(residue: Disk.Cdb)
      requires Valid()
      modifies Repr()
      ensures Valid() && Value() == ResetHard(old(Value()))
      decreases Waiting(), 1
    {
      hide Value, Valid, Interrupts.Clear, FinishCommand, HasBit;
      DefaultClock();
      Empty();
      DefaultSync();
      ClearInt();
      LineDown();
      ForgetCause();
      SoftReset();
      FinishNothing(Value(), residue);
      EndCommand(residue);
    }

    method ResetBus(residue: Disk.Cdb)
      requires Valid()
      modifies Repr()
      ensures Valid() && Value() == BusReset(old(Value()))
      decreases Waiting(), 1
    {
      hide Value, Valid, RaiseIrq, HasBit, FinishCommand;
      SoftReset();
      if !HasBit(configuration, CFG1_RESREPT) {
        SetCause(INTR_RST);
        SetPhase(Disk.MessageIn);
        Raise();
      } else {
        FinishNothing(Value(), residue);
        EndCommand(residue);
      }
    }

    /** Move up to twelve FIFO bytes into the CDB buffer. */
    method TakeCdb(residue: Disk.Cdb) returns (c: Disk.Cdb)
      requires Valid()
      modifies Repr()
      ensures Valid() && c == CommandBuffer(old(Value()).fifo, residue)
      ensures Value() == var s := old(Value()); s.(fifo := s.fifo[Min(|s.fifo|, 12)..])
    {
      hide Value, Valid;
      ghost var s := Value();
      ghost var q := s.fifo;
      c := residue;
      var n := 0;
      while n < 12 && fifoFlags > 0
        invariant 0 <= n <= 12 && n <= |q| && Valid()
        invariant Value() == s.(fifo := q[n..])
        invariant c[..n] == q[..n] && c[n..] == residue[n..]
        decreases 12 - n
      {
        var value := FifoPop();
        assert q[n..][1..] == q[n + 1..] && value == q[n];
        c := c[n := value];
        n := n + 1;
      }
      assert c == c[..n] + c[n..];
    }

    method SetStep(step: uint8)
      requires Valid()
      modifies Repr()
      ensures Valid() && Value() == var s := old(Value()); s.(esp := s.esp.(seqStep := step))
    {
      hide Value, Valid, HasBit, SetBit, ClearBit, StatusOk;
      label before:
      seqStep := step;
      RegistersOnly@before();
    }

    method Initiate()
      requires Valid()
      modifies Repr()
      ensures Valid() && Value() == var s := old(Value()); s.(esp := s.esp.(seqStep := 4, initiator := true))
    {
      hide Value, Valid, HasBit, SetBit, ClearBit, StatusOk;
      label before:
      seqStep := 4;
      initiator := true;
      RegistersOnly@before();
    }

    method Execution(identify: uint8, residue: Disk.Cdb)
      requires Valid()
      modifies Repr()
      ensures Valid() && Value() == Execute(old(Value()), identify, residue)
    {
      hide Value, Valid, Finish, Disk.ReceiveCommand, CommandBuffer, ClearRegs;
      SetPhase(Disk.Command);
      SetStep(3);
      var c := TakeCdb(residue);
      Hand(c, identify);
      Initiate();
      ClearCommand();
      Conclude(INTR_BS + INTR_FC);
    }

    /** The target executes the command. */
    method Hand(c: Disk.Cdb, identify: uint8)
      requires Valid()
      modifies Repr()
      ensures Valid() && Value() == var s := old(Value()); s.(disk := Disk.ReceiveCommand(s.disk, c, identify))
    {
      hide Disk.ReceiveCommand;
      dma.disk.Receive(c, identify);
    }

    /** The identify message, with its passage through Message Out. */
    method TakeIdentify() returns (value: uint8)
      requires Valid()
      modifies Repr()
      ensures Valid()
      ensures var (t, identify) := FifoRead(old(Value()));
              value == identify
              && Value() == t.(esp := t.esp.(seqStep := 1), disk := t.disk.(phase := Disk.MessageOut))
    {
      hide Value, Valid, FifoRead;
      FifoReadCommutes(Value());
      SetPhase(Disk.MessageOut);
      SetStep(1);
      value := FifoPop();
    }

    static lemma FifoReadCommutes(s: State)
      ensures var t := s.(esp := s.esp.(seqStep := 1), disk := s.disk.(phase := Disk.MessageOut));
              var u := FifoRead(s).0;
              FifoRead(t) == (u.(esp := u.esp.(seqStep := 1), disk := u.disk.(phase := Disk.MessageOut)), FifoRead(s).1)
    {
      if s.fifo == [] {
        assert FifoRead(s) == (s, 0);
      } else {
        assert FifoRead(s).0 == s.(fifo := s.fifo[1..]);
      }
    }

    method Connection(atn: bool, residue: Disk.Cdb)
      requires Valid()
      modifies Repr()
      ensures Valid() && Value() == Connect(old(Value()), atn, residue)
    {
      hide Value, Valid, Execute, FifoRead;
      if atn {
        ghost var s := FifoRead(Value()).0;
        var identify := TakeIdentify();
        ExecuteForgets(s, identify, residue);
        Execution(identify, residue);
      } else {
        Execution(0, residue);
      }
    }

    /** The passage through Message Out leaves no trace. */
    static lemma ExecuteForgets(s: State, identify: uint8, residue: Disk.Cdb)
      ensures Execute(s.(esp := s.esp.(seqStep := 1), disk := s.disk.(phase := Disk.MessageOut)), identify, residue) ==
              Execute(s, identify, residue)
    {
      hide Disk.ReceiveCommand, CommandBuffer, Finish;
    }

    method Answering(id: uint8) returns (timeout: bool)
      requires Valid()
      modifies Repr()
      ensures Valid() && timeout == Disk.Select(old(Value()).disk, id).1
      ensures Value() == var s := old(Value()); s.(disk := Disk.Select(s.disk, id).0)
    {
      timeout := dma.disk.Answering(id);
    }

    method SetCause(cause: uint8)
      requires Valid()
      modifies Repr()
      ensures Valid() && Value() == var s := old(Value()); s.(esp := s.esp.(intStatus := cause))
    {
      hide Value, Valid, HasBit, SetBit, ClearBit, StatusOk;
      label before:
      intStatus := cause;
      RegistersOnly@before();
    }

    /** Disconnected, with the deferred timeout running. */
    method ArmTimeout()
      requires Valid()
      modifies Repr()
      ensures Valid() && Value() == var s := old(Value()); s.(esp := s.esp.(initiator := false, selPending := true, selCountdown := SELECT_TIMEOUT_TICKS))
    {
      hide Value, Valid, HasBit, SetBit, ClearBit, StatusOk;
      label before:
      initiator := false;
      selPending := true;
      selCountdown := SELECT_TIMEOUT_TICKS;
      RegistersOnly@before();
    }

    method SelectFails()
      requires Valid()
      modifies Repr()
      ensures Valid() && Value() == NoAnswer(old(Value()))
    {
      hide Value, Valid, ClearRegs;
      SetCause(INTR_DC);
      ClearCommand();
      ArmTimeout();
    }

    method CancelTimeout()
      requires Valid()
      modifies Repr()
      ensures Valid() && Value() == var s := old(Value()); s.(esp := s.esp.(seqStep := 0, selPending := false))
    {
      hide Value, Valid, HasBit, SetBit, ClearBit, StatusOk;
      label before:
      seqStep := 0;
      selPending := false;
      RegistersOnly@before();
    }

    method Select(atn: bool, residue: Disk.Cdb)
      requires Valid()
      modifies Repr()
      ensures Valid() && Value() == SelectCommand(old(Value()), atn, residue)
    {
      hide Value, Valid, Connect, NoAnswer, Disk.Select;
      CancelTimeout();
      var timeout := Answering(selectBusId % 8);
      if timeout {
        SelectFails();
      } else {
        Connection(atn, residue);
      }
    }

    method Request(inward: bool, bytes: uint32)
      requires Valid()
      modifies Repr()
      ensures Valid() && Value() == var s := old(Value()); s.(dma := Dma.StartDeferred(s.dma, inward, bytes))
    {
      hide Dma.StartDeferred;
      dma.Start(inward, bytes);
    }

    method SendByte() returns (value: uint8)
      requires Valid()
      modifies Repr()
      ensures Valid() && value == Disk.SendData(old(Value()).disk).1
      ensures Value() == var s := old(Value()); s.(disk := Disk.SendData(s.disk).0)
    {
      hide Disk.SendData;
      value := dma.disk.SendByte();
    }

    method PioIn()
      requires Valid()
      modifies Repr()
      ensures Valid()
      ensures var s := old(Value()); var (disk, value) := Disk.SendData(s.disk);
              Value() == Finish(FifoWrite(s.(disk := disk), value), INTR_FC)
    {
      hide Value, Valid, Finish, FifoWrite, Disk.SendData;
      var value := SendByte();
      FifoPush(value);
      Conclude(INTR_FC);
    }

    method PioIllegal()
      requires Valid()
      modifies Repr()
      ensures Valid() && Value() == var s := old(Value()); Finish(s.(esp := s.esp.(seqStep := 0)), INTR_ILL)
    {
      hide Value, Valid, Finish;
      SetStep(0);
      Conclude(INTR_ILL);
    }

    method Transfer()
      requires Valid()
      modifies Repr()
      ensures Valid() && Value() == TransferInfo(old(Value()))
    {
      hide Value, Valid, Finish, FifoWrite, Disk.SendData, Dma.StartDeferred, HasBit, StatusOk;
      if modeDma != 0 {
        Request(dma.disk.phase == Disk.DataIn, counter);
        return;
      }
      match dma.disk.phase
      case DataIn => PioIn();
      case MessageIn => Conclude(INTR_FC);
      case Status => Conclude(INTR_FC);
      case _ => PioIllegal();
    }

    method MarkCounted()
      requires Valid()
      modifies Repr()
      ensures Valid() && Value() == var s := old(Value()); s.(esp := s.esp.(statTc := true))
    {
      hide Value, Valid, HasBit, SetBit, ClearBit, StatusOk;
      StatusMoves(STAT_TC);
      label before:
      status := SetBit(status, STAT_TC);
      RegistersOnly@before();
    }

    method ConcludeCounted()
      requires Valid()
      modifies Repr()
      ensures Valid() && Value() == FinishCounted(old(Value()))
    {
      hide Value, Valid, RaiseIrq, ClearRegs;
      if counter == 0 {
        MarkCounted();
        Conclude(INTR_FC);
      } else {
        ClearCommand();
        Conclude(INTR_BS);
      }
    }

    method CompleteSequence()
      requires Valid()
      modifies Repr()
      ensures Valid() && Value() == CommandComplete(old(Value()))
    {
      hide Value, Valid, FifoWrite, Finish;
      FifoPush(dma.disk.status);
      SetPhase(Disk.MessageIn);
      FifoPush(dma.disk.message);
      Conclude(INTR_FC);
    }

    method Disconnect()
      requires Valid()
      modifies Repr()
      ensures Valid() && Value() == var s := old(Value()); s.(esp := s.esp.(initiator := false))
    {
      hide Value, Valid, HasBit, SetBit, ClearBit, StatusOk;
      label before:
      initiator := false;
      RegistersOnly@before();
    }

    method AcceptMessage()
      requires Valid()
      modifies Repr()
      ensures Valid() && Value() == MessageAccepted(old(Value()))
    {
      hide Value, Valid, Finish;
      SetPhase(Disk.Status);
      Disconnect();
      Conclude(INTR_BS);
    }

    method CountByte()
      requires Valid() && counter > 0
      modifies Repr()
      ensures Valid() && Value() == var s := old(Value()); s.(esp := s.esp.(counter := s.esp.counter - 1))
      ensures counter == old(counter) - 1
    {
      hide Value, Valid, HasBit, StatusOk;
      label before:
      counter := counter - 1;
      RegistersOnly@before();
    }

    /** Transfer Pad: bytes are pulled and dropped. */
    method Pad()
      requires Valid()
      modifies Repr()
      ensures Valid() && Value() == TransferPad(old(Value()))
    {
      hide Value, Valid, FinishCounted, Disk.SendData, HasBit, StatusOk;
      ghost var s := Value();
      ghost var whole := PadIn(s.disk, s.esp.counter);
      while dma.disk.phase == Disk.DataIn && counter > 0
        invariant Valid()
        invariant Value() == s.(disk := Value().disk, esp := s.esp.(counter := counter))
        invariant whole == PadIn(Value().disk, counter)
        decreases counter
      {
        var dropped := SendByte();
        CountByte();
      }
      ConcludeCounted();
    }

    method LeaveProgress()
      requires Valid()
      modifies Repr()
      ensures Valid() && Value() == var s := old(Value()); s.(esp := s.esp.(inProgress := false))
      ensures Waiting() == old(Waiting())
    {
      hide Value, Valid, HasBit, SetBit, ClearBit, StatusOk;
      CommandMoves();
      label before:
      cmdState := ClearBit(cmdState, CMD_INPROGRESS);
      RegistersOnly@before();
    }

    /** The queued command moves to the first rank. */
    method MoveUp()
      requires Valid()
      modifies Repr()
      ensures Valid() && Value() == var s := old(Value()); s.(esp := s.esp.(command0 := s.esp.command1, command1 := 0, waiting := false))
      ensures !Waiting() && command0 == old(command1)
    {
      hide Value, Valid, HasBit, SetBit, ClearBit, StatusOk;
      CommandMoves();
      label before:
      command0 := command1;
      command1 := 0;
      cmdState := ClearBit(cmdState, CMD_WAITING);
      RegistersOnly@before();
    }

    method EndCommand(residue: Disk.Cdb)
      requires Valid()
      modifies Repr()
      ensures Valid() && Value() == FinishCommand(old(Value()), residue)
      decreases Waiting(), 0
    {
      hide Value, Valid, StartCommand, HasBit;
      LeaveProgress();
      if HasBit(cmdState, CMD_WAITING) {
        MoveUp();
        Begin(command0, residue);
      }
    }

    method EnterProgress()
      requires Valid()
      modifies Repr()
      ensures Valid() && Value() == var s := old(Value()); s.(esp := s.esp.(inProgress := true))
      ensures Waiting() == old(Waiting())
    {
      hide Value, Valid, HasBit, SetBit, ClearBit, StatusOk;
      CommandMoves();
      label before:
      cmdState := SetBit(cmdState, CMD_INPROGRESS);
      RegistersOnly@before();
    }

    method SetMode(on: bool)
      requires Valid()
      modifies Repr()
      ensures Valid() && Value() == var s := old(Value()); s.(esp := s.esp.(modeDma := on))
      ensures Waiting() == old(Waiting())
    {
      hide Value, Valid, HasBit, SetBit, ClearBit, StatusOk;
      label before:
      modeDma := if on then 1 else 0;
      RegistersOnly@before();
    }

    /** A programmed count of zero means 65536. */
    method ReloadCounter()
      requires Valid()
      modifies Repr()
      ensures Valid() && Value() == var s := old(Value()); 
              var n := s.esp.latch.tcl as int + s.esp.latch.tch as int * 0x100;
              s.(esp := s.esp.(counter := if n == 0 then 0x1_0000 else n, statTc := false))
      ensures Waiting() == old(Waiting())
    {
      hide Value, Valid, HasBit, SetBit, ClearBit, StatusOk;
      StatusMoves(STAT_TC);
      label before:
      counter := writeTcl as int + writeTch as int * 0x100;
      if counter == 0 {
        counter := 0x1_0000;
      }
      status := ClearBit(status, STAT_TC);
      RegistersOnly@before();
    }

    /** A command goes into progress: the transfer counter is loaded for DMA commands. */
    method Load(cmd: uint8)
      requires Valid()
      modifies Repr()
      ensures Valid() && Value() == var s := old(Value()); s.(esp := LoadCounter(s.esp.(inProgress := true), cmd))
      ensures Waiting() == old(Waiting())
    {
      hide Value, Valid, HasBit;
      EnterProgress();
      if HasBit(cmd, CMD_DMA) {
        ReloadCounter();
        SetMode(true);
      } else {
        SetMode(false);
      }
    }

    method Flush(residue: Disk.Cdb)
      requires Valid()
      modifies Repr()
      ensures Valid() && Value() == var s := old(Value()); FinishCommand(s.(fifo := []), residue)
      decreases Waiting(), 1
    {
      hide Value, Valid, FinishCommand;
      Empty();
      EndCommand(residue);
    }

    /** esp_start_command. */
    method Begin(cmd: uint8, residue: Disk.Cdb)
      requires Valid()
      modifies Repr()
      ensures Valid() && Value() == StartCommand(old(Value()), cmd, residue)
      decreases Waiting(), 2
    {
      hide Value, Valid, LoadCounter, FinishCommand, ResetHard, BusReset, SelectCommand, TransferInfo,
        CommandComplete, MessageAccepted, TransferPad, Illegal;
      Load(cmd);
      match cmd % 0x80
      case 0x00 => EndCommand(residue);
      case 0x01 => Flush(residue);
      case 0x02 => HardReset(residue);
      case 0x03 => ResetBus(residue);
      case 0x41 => Select(false, residue);
      case 0x42 => Select(true, residue);
      case 0x10 => Transfer();
      case 0x11 => CompleteSequence();
      case 0x12 => AcceptMessage();
      case 0x18 => Pad();
      case 0x44 => EndCommand(residue);
      case 0x45 => EndCommand(residue);
      case _ => Refuse();
    }

    method Acknowledge(residue: Disk.Cdb)
      requires Valid()
      modifies Repr()
      ensures Valid() && Value() == LowerIrq(old(Value()), residue)
    {
      hide Value, Valid, FinishCommand, Interrupts.Clear, HasBit;
      if HasBit(status, STAT_INT) {
        ClearInt();
        LineDown();
        EndCommand(residue);
      }
    }

    /** The second rank takes the command; overwriting a waiting one is a gross error. */
    method TakeCommand(cmd: uint8)
      requires Valid()
      modifies Repr()
      ensures Valid() && Value() == var s := old(Value()); s.(esp := Enqueue(s.esp, cmd))
      ensures command1 == cmd
    {
      hide Value, Valid, HasBit, SetBit, ClearBit, StatusOk;
      StatusMoves(STAT_GE);
      label before:
      command1 := cmd;
      if HasBit(cmdState, CMD_WAITING) {
        status := SetBit(status, STAT_GE);
      }
      RegistersOnly@before();
    }

    method Wait()
      requires Valid()
      modifies Repr()
      ensures Valid() && Value() == var s := old(Value()); s.(esp := s.esp.(waiting := true))
    {
      hide Value, Valid, HasBit, SetBit, ClearBit, StatusOk;
      CommandMoves();
      label before:
      cmdState := SetBit(cmdState, CMD_WAITING);
      RegistersOnly@before();
    }

    method PromoteCommand()
      requires Valid()
      modifies Repr()
      ensures Valid() && Value() == var s := old(Value()); s.(esp := Promote(s.esp))
      ensures command0 == old(command1)
    {
      hide Value, Valid, HasBit, SetBit, ClearBit, StatusOk;
      label before:
      command0 := command1;
      command1 := 0;
      RegistersOnly@before();
    }

    method WriteCommand(cmd: uint8, residue: Disk.Cdb)
      requires Valid()
      modifies Repr()
      ensures Valid() && Value() == CommandWrite(old(Value()), cmd, residue)
    {
      hide Value, Valid, StartCommand, HasBit, Enqueue, Promote;
      if command1 % 0x80 == CMD_RESET && cmd % 0x80 != CMD_NOP {
        return;
      }
      var busy := HasBit(cmdState, CMD_INPROGRESS);
      TakeCommand(cmd);
      if cmd % 0x80 == CMD_RESET || cmd % 0x80 == CMD_BUSRESET {
        Begin(cmd, residue);
      } else if busy {
        Wait();
      } else {
        PromoteCommand();
        Begin(command0, residue);
      }
    }

    // ------------------------------------------------------------------ registers

    /** The part of reading INTRSTATUS before the line goes down. */
    method ForgetCause()
      requires Valid()
      modifies Repr()
      ensures Valid() && Value() == var s := old(Value()); s.(esp := s.esp.(intStatus := 0, statGe := false))
    {
      hide Value, Valid, HasBit, ClearBit, StatusOk;
      StatusMoves(STAT_GE);
      label before:
      intStatus := 0;
      status := ClearBit(status, STAT_GE);
      RegistersOnly@before();
    }

    /** The status byte with the target's phase in its low bits. */
    lemma StatusByteRead()
      requires Valid()
      ensures status / 8 * 8 + dma.disk.phase.Code() == StatusByte(Value())
    {
      StatusValue(status);
      hide HasBit, StatusOk;
    }

    /** next_esp_read. */
    method ReadReg(off: nat, residue: Disk.Cdb) returns (value: uint8)
      requires Valid()
      modifies Repr()
      ensures Valid() && (Value(), value) == Read(old(Value()), off, residue)
    {
      hide Value, Valid, LowerIrq, FifoRead, HasBit, ClearBit, StatusOk;
      match off
      case 0x00 => value := counter % 0x100;
      case 0x01 => value := counter / 0x100 % 0x100;
      case 0x02 => value := FifoPop();
      case 0x03 => value := command0;
      case 0x04 =>
        StatusByteRead();
        value := status / 8 * 8 + dma.disk.phase.Code();
      case 0x05 =>
        value := intStatus;
        if HasBit(status, STAT_INT) {
          ForgetCause();
          Acknowledge(residue);
        }
      case 0x06 => value := seqStep;
      case 0x07 =>
        assert |Value().fifo| <= FIFO_SIZE;
        value := fifoFlags;
      case 0x08 => value := configuration;
      case 0x0B => value := config2;
      case _ => value := 0;
    }

    method StoreRegister(off: nat, value: uint8)
      modifies this`writeTcl, this`writeTch, this`selectBusId, this`selectTimeout, this`syncPeriod, this`syncOffset,
        this`configuration, this`clockConv, this`test, this`config2
      ensures Latched() == StoreLatch(old(Latched()), off, value)
    {
      match off
      case 0x00 => writeTcl := value;
      case 0x01 => writeTch := value;
      case 0x04 => selectBusId := value;
      case 0x05 => selectTimeout := value;
      case 0x06 => syncPeriod := value;
      case 0x07 => syncOffset := value;
      case 0x08 => configuration := value;
      case 0x09 => clockConv := value;
      case 0x0A => test := value;
      case 0x0B => config2 := value;
      case _ =>
    }

    method PutLatch(off: nat, value: uint8)
      requires Valid()
      modifies Repr()
      ensures Valid() && Value() == var s := old(Value()); s.(esp := s.esp.(latch := StoreLatch(s.esp.latch, off, value)))
    {
      hide Value, Valid, HasBit, StatusOk, StoreLatch;
      label before:
      StoreRegister(off, value);
      RegistersOnly@before();
    }

    /** next_esp_write. */
    method WriteReg(off: nat, value: uint8, residue: Disk.Cdb)
      requires Valid()
      modifies Repr()
      ensures Valid() && Value() == Write(old(Value()), off, value, residue)
    {
      hide Value, Valid, FifoWrite, CommandWrite, StoreLatch;
      if off == 0x02 {
        FifoPush(value);
      } else if off == 0x03 {
        WriteCommand(value, residue);
      } else {
        PutLatch(off, value);
      }
    }

    method SetControl(value: uint8)
      requires Valid()
      modifies Repr()
      ensures Valid() && Value() == var s := old(Value()); s.(esp := s.esp.(dmaControl := value))
    {
      hide Value, Valid, HasBit, SetBit, ClearBit, StatusOk;
      label before:
      dmaControl := value;
      RegistersOnly@before();
    }

    /** next_esp_dma_ctrl_write. */
    method WriteDmaControl(value: uint8, residue: Disk.Cdb)
      requires Valid()
      modifies Repr()
      ensures Valid() && Value() == DmaCtrlWrite(old(Value()), value)
    {
      hide Value, Valid, ResetHard, Interrupts.Set, Interrupts.Clear, HasBit;
      ghost var t := Value().(esp := Value().esp.(dmaControl := value));
      SetControl(value);
      ghost var u := if HasBit(value, CTRL_RESET) then ResetHard(t) else t;
      if HasBit(value, CTRL_RESET) {
        HardReset(residue);
      }
      assert Value() == u;
      if HasBit(value, CTRL_ENABLE_INT) {
        if HasBit(status, STAT_INT) {
          LineUp();
        }
      } else {
        LineDown();
      }
    }

    // ---------------------------------------------------------------------- ticks

    method SetCounter(n: uint32)
      requires Valid()
      modifies Repr()
      ensures Valid() && Value() == var s := old(Value()); s.(esp := s.esp.(counter := n))
      ensures counter == n
    {
      hide Value, Valid, HasBit, SetBit, ClearBit, StatusOk;
      label before:
      counter := n;
      RegistersOnly@before();
    }

    /** esp_deferred_dma_complete. */
    method DmaDone(remaining: uint32)
      requires Valid()
      modifies Repr()
      ensures Valid() && Value() == DmaComplete(old(Value()), remaining)
    {
      hide Value, Valid, FinishCounted;
      SetCounter(remaining);
      ConcludeCounted();
    }

    /** The due part of the DMA tick: carry out the transfer. */
    method RunDma() returns (left: uint32)
      requires Valid()
      modifies Repr()
      ensures Valid()
      ensures var s := old(Value());
              var o := Dma.Transfer(s.dma.(pending := false), s.disk, s.ram, s.intr, s.dma.inward, s.dma.counter);
              left == o.counter && Value() == s.(dma := o.c, disk := o.disk, ram := o.ram, intr := o.intr)
    {
      hide Dma.Transfer;
      dma.pending := false;
      var total;
      left, total := dma.Run(dma.inward, dma.counter);
    }

    method CountDma()
      requires Valid()
      modifies dma`countdown
      ensures Valid() && Value() == var s := old(Value()); s.(dma := s.dma.(countdown := s.dma.countdown - 1))
    {
      dma.countdown := dma.countdown - 1;
    }

    /** next_scsi_dma_tick. */
    method TickDma()
      requires Valid()
      modifies Repr()
      ensures Valid() && Value() == DmaTick(old(Value()))
    {
      hide Value, Valid, Dma.Transfer, DmaComplete;
      if !dma.pending {
        return;
      }
      CountDma();
      if dma.countdown > 0 {
        return;
      }
      var left := RunDma();
      DmaDone(left);
    }

    method CountSelection()
      requires Valid()
      modifies Repr()
      ensures Valid() && Value() == var s := old(Value()); s.(esp := s.esp.(selCountdown := s.esp.selCountdown - 1))
    {
      hide Value, Valid, HasBit, SetBit, ClearBit, StatusOk;
      label before:
      selCountdown := selCountdown - 1;
      RegistersOnly@before();
    }

    method EndSelection()
      requires Valid()
      modifies Repr()
      ensures Valid() && Value() == var s := old(Value()); s.(esp := s.esp.(selPending := false))
    {
      hide Value, Valid, HasBit, SetBit, ClearBit, StatusOk;
      label before:
      selPending := false;
      RegistersOnly@before();
    }

    /** next_esp_select_timeout_tick. */
    method TickSelect()
      requires Valid()
      modifies Repr()
      ensures Valid() && Value() == SelectTick(old(Value()))
    {
      hide Value, Valid, RaiseIrq, HasBit;
      if !selPending {
        return;
      }
      CountSelection();
      if selCountdown > 0 {
        return;
      }
      EndSelection();
      Raise();
    }

    method TickInterrupts()
      requires Valid()
      modifies dma.intr
      ensures Valid() && Value() == var s := old(Value()); s.(intr := Interrupts.HookCountdown(s.intr))
    {
      hide Interrupts.HookCountdown;
      dma.intr.Hook();
    }

    /** The head of emu_instr_hook. */
    method Hook()
      requires Valid()
      modifies Repr()
      ensures Valid() && Value() == Tick(old(Value()))
    {
      hide Value, Valid, Interrupts.HookCountdown, DmaTick, SelectTick;
      TickInterrupts();
      TickDma();
      TickSelect();
    }
  }
}
