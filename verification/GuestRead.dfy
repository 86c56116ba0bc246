/** End to end: a guest READ through the controller puts exactly the image's bytes into
    RAM and reports GOOD, whatever the guest's pace. */
module GuestRead {
  import opened Bits
  import opened MainMemory
  import opened Esp
  import opened ScsiPath
  import opened GuestScript
  import opened DiskCommand
  import opened ScsiRuns
  import Interrupts
  import Disk = ScsiDisk
  import Stream = SectorStream
  import Dma = ScsiDma

  /** What the driver wants: a READ of some sectors, the message it selects with, the
      destination, and the value it arms the channel with. */
  datatype Request = Request(identify: uint8, command: Command, addr: uint32, csr: uint32, residue: Disk.Cdb) {
    predicate WellFormed() {
      && identify >= 0x80 && identify % 8 == 0
      && command.Valid() && !command.write
      && HasBit(csr, Dma.CSR_SETENABLE)
    }

    /** The CDB as the target sees it. */
    function Cdb(): Disk.Cdb
      requires WellFormed()
    {
      CommandBuffer(command.Bytes(), residue)
    }

    function Length(): nat {
      command.blocks * Disk.BLOCK
    }
  }

  /** The target decodes the driver's sector number and count, whatever the uninitialised
      tail of the buffer holds. */
  lemma DecodingIgnoresResidue(r: Request)
    requires r.WellFormed()
    ensures r.Cdb() == r.command.Cdb(r.residue) && Stream.ReadFor(r.command, r.residue, r.identify)
    ensures Disk.Offset(r.Cdb()) == r.command.lba && Disk.Count(r.Cdb()) == r.command.blocks
  {
    Decodes(r.command, r.residue);
    UnitFromIdentify(r.Cdb(), r.identify);
  }

  /** The target can read what is asked for. */
  ghost predicate Askable(d: Disk.State, r: Request) {
    r.WellFormed() && d.mounted && 0 < r.Length() && Stream.Readable(d, r.command.lba, r.command.blocks)
  }

  /** The request can be served in one transfer: 1..128 readable sectors into a window of
      RAM. */
  ghost predicate Servable(d: Disk.State, r: Request) {
    && Askable(d, r) && r.Length() <= 0x1_0000
    && r.addr + r.Length() < 0x1_0000_0000 && WindowInRam(r.addr, r.Length())
  }

  function Sectors(d: Disk.State, r: Request): seq<uint8>
    requires Askable(d, r)
  {
    d.image[r.command.lba * Disk.BLOCK..r.command.lba * Disk.BLOCK + r.Length()]
  }

  lemma SelectResult(s: State, r: Request)
    requires r.WellFormed() && s.fifo == [r.identify] + r.command.Bytes() && s.esp.command1 == 0
    requires s.disk.mounted && s.esp.latch.busId == Disk.TARGET_ID
    ensures var t := SelectCommand(s, true, r.residue);
            && t.disk == Disk.ReceiveCommand(s.disk.(target := Disk.TARGET_ID, phase := Disk.Command), r.Cdb(), r.identify)
            && t.dma == s.dma && t.ram == s.ram
            && t.esp.statInt && !t.esp.waiting && t.esp.command1 == 0 && t.fifo == [] && !t.esp.selPending
            && t.esp.intStatus == INTR_BS + INTR_FC && t.esp.seqStep == 4
  {
    hide Execute, NoAnswer, Disk.ReceiveCommand, CommandBuffer;
    assert ([r.identify] + r.command.Bytes())[1..] == r.command.Bytes();
    var u := s.(esp := s.esp.(seqStep := 0, selPending := false), fifo := r.command.Bytes(),
                disk := s.disk.(target := Disk.TARGET_ID));
    assert SelectCommand(s, true, r.residue) == Execute(u, r.identify, r.residue);
    ExecuteResult(u, r.identify, r.residue);
  }

  /** SELECT with ATN hands the message and the CDB to the target. */
  lemma SelectStep(s: State, r: Request)
    requires r.WellFormed() && Ready(s, [r.identify] + r.command.Bytes()) && s.disk.mounted && s.esp.latch.busId == Disk.TARGET_ID
    ensures var t := Step(s, EspWrite(0x03, CMD_SELATN, r.residue));
            && t.disk == Disk.ReceiveCommand(s.disk.(target := Disk.TARGET_ID, phase := Disk.Command), r.Cdb(), r.identify)
            && t.dma == s.dma && t.ram == s.ram
            && t.esp.statInt && !t.esp.waiting && t.esp.command1 == 0 && t.fifo == [] && !t.esp.selPending
            && t.esp.intStatus == INTR_BS + INTR_FC && t.esp.seqStep == 4
  {
    hide SelectCommand, Disk.ReceiveCommand, CommandBuffer;
    var u := s.(esp := s.esp.(command1 := 0, command0 := CMD_SELATN, statGe := s.esp.statGe || s.esp.waiting));
    var v := u.(esp := LoadCounter(u.esp.(inProgress := true), CMD_SELATN));
    assert StartCommand(u, CMD_SELATN, r.residue) == SelectCommand(v, true, r.residue);
    SelectResult(v, r);
  }

  /** SELECT without ATN hands over the CDB alone, and the unit is the one it names. */
  lemma SelectPlainStep(s: State, q: Command, residue: Disk.Cdb)
    requires q.Valid() && Ready(s, q.Bytes()) && s.disk.mounted && s.esp.latch.busId == Disk.TARGET_ID
    ensures var t := Step(s, EspWrite(0x03, CMD_SEL, residue));
            && t.disk == Disk.ReceiveCommand(s.disk.(target := Disk.TARGET_ID, phase := Disk.Command), q.Cdb(residue), 0)
            && t.dma == s.dma && t.ram == s.ram
            && t.esp.statInt && !t.esp.waiting && t.esp.command1 == 0 && t.fifo == [] && !t.esp.selPending
            && t.esp.intStatus == INTR_BS + INTR_FC && t.esp.seqStep == 4
    ensures Disk.Lun(q.Cdb(residue), 0) == (if q.Short? then q.lun else q.flags / 0x20)
  {
    UnitFromCommand(q, residue);
    assert CommandBuffer(q.Bytes(), residue) == q.Cdb(residue);
    hide SelectCommand, Disk.ReceiveCommand, CommandBuffer, Disk.Lun, LoadCounter, Disk.Int24, Disk.Int32;
    var u := s.(esp := s.esp.(command1 := 0, command0 := CMD_SEL, statGe := s.esp.statGe || s.esp.waiting));
    var v := u.(esp := LoadCounter(u.esp.(inProgress := true), CMD_SEL));
    SelectStarts(u, residue);
    PlainLoad(u.esp, CMD_SEL);
    hide StartCommand;
    SelectPlainResult(v, q, residue);
  }

  lemma SelectStarts(s: State, residue: Disk.Cdb)
    ensures StartCommand(s, CMD_SEL, residue) ==
            SelectCommand(s.(esp := LoadCounter(s.esp.(inProgress := true), CMD_SEL)), false, residue)
  {
    hide SelectCommand, LoadCounter;
  }

  lemma SelectPlainResult(v: State, q: Command, residue: Disk.Cdb)
    requires q.Valid() && v.fifo == q.Bytes() && v.esp.command1 == 0 && v.disk.mounted
    requires v.esp.latch.busId == Disk.TARGET_ID
    ensures var w := v.(esp := v.esp.(seqStep := 0, selPending := false), disk := v.disk.(target := Disk.TARGET_ID));
            SelectCommand(v, false, residue) == Execute(w, 0, residue)
    ensures var t := SelectCommand(v, false, residue);
            && t.disk == Disk.ReceiveCommand(v.disk.(target := Disk.TARGET_ID, phase := Disk.Command),
                                             CommandBuffer(q.Bytes(), residue), 0)
            && t.dma == v.dma && t.ram == v.ram
            && t.esp.statInt && !t.esp.waiting && t.esp.command1 == 0 && t.fifo == [] && !t.esp.selPending
            && t.esp.intStatus == INTR_BS + INTR_FC && t.esp.seqStep == 4
  {
    hide Execute, NoAnswer, Disk.ReceiveCommand, CommandBuffer;
    var w := v.(esp := v.esp.(seqStep := 0, selPending := false), disk := v.disk.(target := Disk.TARGET_ID));
    ExecuteResult(w, 0, residue);
  }

  /** Pick the target, then SELECT with ATN. */
  function SelectTail(r: Request): seq<Event> {
    [EspWrite(0x04, Disk.TARGET_ID, r.residue), EspWrite(0x03, CMD_SELATN, r.residue)]
  }

  /** Arm the channel with the window and transfer. */
  function ArmScript(r: Request): seq<Event>
    requires r.addr + r.Length() < 0x1_0000_0000
  {
    [DmaReg(0x4010, r.addr), DmaReg(0x4014, r.addr + r.Length()), DmaCsr(r.csr), EspWrite(0x03, TI_DMA, r.residue)]
  }

  /** Acknowledge, load the counter, arm the channel, transfer. */
  function TransferScript(r: Request): seq<Event>
    requires r.addr + r.Length() < 0x1_0000_0000
  {
    LoadScript(r.Length(), r.residue) + ArmScript(r)
  }

  /** Acknowledge and run the command-complete sequence. */
  function CompletionScript(r: Request): seq<Event> {
    [EspRead(0x05, r.residue), EspWrite(0x03, CMD_ICCS, r.residue)]
  }

  // ---------------------------------------------------------------- phase by phase

  /** The target is executing the READ and owes the sectors; the guest has an interrupt. */
  ghost predicate Selected(s: State, t: State, r: Request)
    requires Askable(s.disk, r)
  {
    && Stream.Streaming(t.disk) && Stream.Owed(t.disk) == Sectors(s.disk, r)
    && Stream.Readable(t.disk, t.disk.lba, t.disk.blocks)
    && t.disk.status == Disk.STATUS_GOOD && t.disk.message == Disk.MSG_COMPLETE
    && t.dma == s.dma && !t.esp.selPending
    && t.esp.statInt && !t.esp.waiting && t.esp.command1 == 0 && t.fifo == []
    && t.esp.intStatus == INTR_BS + INTR_FC && t.esp.seqStep == 4
  }

  lemma ReadSelected(s: State, t: State, r: Request)
    requires Disk.Wf(s.disk) && Askable(s.disk, r)
    requires t.disk == Disk.ReceiveCommand(s.disk.(target := Disk.TARGET_ID, phase := Disk.Command), r.Cdb(), r.identify)
    requires t.dma == s.dma && t.esp.statInt && !t.esp.waiting && t.esp.command1 == 0 && t.fifo == [] && !t.esp.selPending
    requires t.esp.intStatus == INTR_BS + INTR_FC && t.esp.seqStep == 4
    ensures Selected(s, t, r)
  {
    hide Disk.ReceiveCommand, Stream.Owed, Disk.CacheOk, CommandBuffer;
    DecodingIgnoresResidue(r);
    hide Stream.ReadFor;
    Stream.ReadStarts(s.disk.(target := Disk.TARGET_ID, phase := Disk.Command), r.command, r.residue, r.identify);
  }

  lemma SelectPhase(s: State, r: Request, pauses: seq<seq<Event>>)
    requires Disk.Wf(s.disk) && Askable(s.disk, r) && Ready(s, [r.identify] + r.command.Bytes()) && Pauses(pauses, SelectTail(r))
    ensures var es := Paced(SelectTail(r), pauses);
            Selected(s, Run(s, es), r) && Run(s, es).ram == StoredAll(s.ram, es) && Reads(s, es) == []
  {
    assert |pauses| == 2 && s.disk.mounted;
    var es := SelectTail(r);
    hide Step, Disk.ReceiveCommand, Disk.Wf, CommandBuffer, Pauses, Paced, Run, StoredAll, Reads, Read, Selected, Askable;
    var u := PacedStep(s, es, pauses);
    TargetStep(u, r.residue, [r.identify] + r.command.Bytes());
    var s1 := Step(u, es[0]);
    var v := PacedLast(s1, es[1..], pauses[1..]);
    SelectStep(v, r);
    ReadSelected(s, Step(v, es[1]), r);
  }

  /** The channel is armed with the window and the request is pending. */
  predicate Armed(s: State, t: State, r: Request)
    requires r.addr + r.Length() < 0x1_0000_0000
  {
    && t.disk == s.disk
    && t.dma.enable && t.dma.next == r.addr && t.dma.limit == r.addr + r.Length() && Requested(t, r.Length())
  }

  lemma ArmPhase(s: State, r: Request, pauses: seq<seq<Event>>)
    requires r.WellFormed() && 0 < r.Length() <= 0x1_0000 && r.addr + r.Length() < 0x1_0000_0000
    requires Ready(s, []) && s.disk.phase == Disk.DataIn && Pauses(pauses, ArmScript(r)) && CounterLoaded(s, r.Length())
    ensures var es := Paced(ArmScript(r), pauses);
            Armed(s, Run(s, es), r) && Run(s, es).ram == StoredAll(s.ram, es) && Reads(s, es) == []
  {
    assert |pauses| == 4;
    hide Step, CommandBuffer, HasBit, Pauses, Paced, Run, StoredAll, Reads, Read;
    var es := ArmScript(r);
    var u := PacedStep(s, es, pauses);
    NextStep(u, r.addr);
    var s1 := Step(u, es[0]);
    var u1 := PacedStep(s1, es[1..], pauses[1..]);
    LimitStep(u1, r.addr + r.Length());
    var s2 := Step(u1, es[1]);
    var u2 := PacedStep(s2, es[2..], pauses[2..]);
    EnableStep(u2, r.csr);
    var s3 := Step(u2, es[2]);
    var u3 := PacedLast(s3, es[3..], pauses[3..]);
    TransferStep(u3, r.Length(), r.residue);
  }

  lemma RequestPhase(s: State, r: Request, pauses: seq<seq<Event>>)
    requires r.WellFormed() && 0 < r.Length() <= 0x1_0000 && r.addr + r.Length() < 0x1_0000_0000
    requires Interrupted(s) && s.disk.phase == Disk.DataIn && Pauses(pauses, TransferScript(r))
    ensures var es := Paced(TransferScript(r), pauses);
            && Armed(s, Run(s, es), r) && Run(s, es).ram == StoredAll(s.ram, es) && Reads(s, es) == [s.esp.intStatus]
  {
    hide Step, CommandBuffer, Pauses, Paced, Run, StoredAll, Reads, Read, ArmScript, Interrupted;
    var t := LoadPhase(s, r.Length(), r.residue, ArmScript(r), pauses);
    ArmPhase(t, r, pauses[3..]);
  }

  /** The sectors are in RAM, the rest of it is as in `ram`, and the guest is told so. */
  ghost predicate Transferred(s: State, t: State, r: Request, ram: Ram)
    requires Servable(s.disk, r)
  {
    && t.ram == StoreAt(ram, r.addr, Sectors(s.disk, r))
    && t.esp.counter == 0 && t.esp.statTc && t.esp.statInt && t.esp.intStatus == INTR_FC
    && t.dma.complete && !t.dma.enable && !t.dma.busexc && Still(t)
    && t.disk.phase == Disk.Status && t.disk.status == Disk.STATUS_GOOD && t.disk.message == Disk.MSG_COMPLETE
    && !t.esp.waiting && t.esp.command1 == 0 && t.fifo == []
  }

  lemma SectorsLength(d: Disk.State, r: Request)
    requires Askable(d, r)
    ensures |Sectors(d, r)| == r.Length()
  {
  }

  /** The tick that carries the request out. */
  lemma FinalTick(s: State, r: Request, t: State)
    requires Servable(s.disk, r)
    requires Stream.Streaming(t.disk) && Stream.Owed(t.disk) == Sectors(s.disk, r)
    requires Stream.Readable(t.disk, t.disk.lba, t.disk.blocks) && t.disk.message == Disk.MSG_COMPLETE
    requires t.dma.enable && t.dma.next == r.addr && t.dma.limit == r.addr + r.Length()
    requires t.dma.pending && t.dma.inward && t.dma.counter == r.Length() && t.dma.countdown == 1
    requires !t.esp.statInt && !t.esp.waiting && t.esp.command1 == 0 && t.fifo == [] && !t.esp.selPending
    ensures Transferred(s, Step(t, InstructionTick), r, t.ram)
  {
    hide Dma.Transfer, Interrupts.HookCountdown, Interrupts.Set, HasBit, StoreAt, WindowInRam, Disk.CacheOk,
      Stream.Owed, Stream.Readable, CommandBuffer;
    var i := Interrupts.HookCountdown(t.intr);
    var c := t.dma.(pending := false, countdown := 0);
    SectorsLength(s.disk, r);
    Dma.TransferCompletes(c, t.disk, t.ram, i, r.Length());
    assert Sectors(s.disk, r)[..r.Length()] == Sectors(s.disk, r);
  }

  lemma TransferPhase(s: State, u: State, t: State, r: Request, wait: seq<Event>)
    requires Servable(s.disk, r) && Selected(s, u, r) && Armed(u, t, r) && Countdown(wait, Dma.DEFER_TICKS)
    ensures Transferred(s, Run(t, wait), r, StoredAll(t.ram, wait)) && Reads(t, wait) == []
  {
    hide Step, Stream.Owed, Stream.Readable, Stream.Streaming, StoreAt, Transferred, Run, StoredAll, Reads, Countdown;
    var v := RequestWaits(t, r.Length(), wait);
    FinalTick(s, r, v);
  }

  lemma CompletionPhase(s: State, r: Request, pauses: seq<seq<Event>>)
    requires Interrupted(s) && Pauses(pauses, CompletionScript(r))
    ensures var es := Paced(CompletionScript(r), pauses);
            var t := Run(s, es);
            && t.fifo == [s.disk.status, s.disk.message] && t.esp.statInt && t.esp.intStatus == INTR_FC
            && !t.esp.waiting && t.esp.command1 == 0 && Still(t)
            && t.ram == StoredAll(s.ram, es) && Reads(s, es) == [s.esp.intStatus]
  {
    assert |pauses| == 2;
    hide Step, Pauses, Paced, Run, StoredAll, Reads, Read;
    var es := CompletionScript(r);
    var u := PacedStep(s, es, pauses);
    AcknowledgeStep(u, r.residue);
    CauseRead(u, r.residue);
    var s1 := Step(u, es[0]);
    var v := PacedLast(s1, es[1..], pauses[1..]);
    CompletionStep(v, r.residue);
  }

  // ------------------------------------------------------------------- the theorem

  /** The guest's accesses up to the selection: flush the FIFO, push message and CDB,
      select. */
  function SelectScript(r: Request): seq<Event>
    requires r.command.Valid()
  {
    [EspWrite(0x03, CMD_FLUSH, r.residue)] + Pushes([r.identify] + r.command.Bytes(), r.residue) + SelectTail(r)
  }

  lemma PushAndSelect(s: State, r: Request, ps: seq<seq<Event>>, qs: seq<seq<Event>>)
    requires Disk.Wf(s.disk) && Askable(s.disk, r) && Ready(s, [])
    requires Pauses(ps, Pushes([r.identify] + r.command.Bytes(), r.residue)) && Pauses(qs, SelectTail(r))
    ensures var es := Paced(Pushes([r.identify] + r.command.Bytes(), r.residue), ps) + Paced(SelectTail(r), qs);
            Selected(s, Run(s, es), r) && Run(s, es).ram == StoredAll(s.ram, es) && Reads(s, es) == []
  {
    var bytes := [r.identify] + r.command.Bytes();
    assert |bytes| <= 11;
    var es, fs := Paced(Pushes(bytes, r.residue), ps), Paced(SelectTail(r), qs);
    hide Step, Askable, CommandBuffer, Selected, Pauses, Run, StoredAll, Reads, Paced, SelectTail, Disk.Wf;
    RunAppend(s, es, fs);
    StoredAppend(s.ram, es, fs);
    ReadsAppend(s, es, fs);
    PushAll(s, [], bytes, r.residue, ps);
    assert [] + bytes == bytes;
    SelectPhase(Run(s, es), r, qs);
    SelectedFrom(s, Run(s, es), Run(s, es + fs), r);
  }

  lemma SelectScriptPhase(s: State, r: Request, pauses: seq<seq<Event>>)
    requires Disk.Wf(s.disk) && Askable(s.disk, r) && Pauses(pauses, SelectScript(r))
    requires Ready(s, s.fifo)
    ensures var es := Paced(SelectScript(r), pauses);
            Selected(s, Run(s, es), r) && Run(s, es).ram == StoredAll(s.ram, es) && Reads(s, es) == []
  {
    var es, pushes := SelectScript(r), Pushes([r.identify] + r.command.Bytes(), r.residue);
    PushesLength([r.identify] + r.command.Bytes(), r.residue);
    var k := |pushes| + 1;
    var ps, qs := pauses[1..k], pauses[k..];
    assert pauses[1..] == ps + qs && es[1..] == pushes + SelectTail(r);
    hide Step, Askable, CommandBuffer, Selected, Bystanders, Run, StoredAll, Reads, Read, Paced, SelectTail, Disk.Wf;
    var u := PacedStep(s, es, pauses);
    FlushStep(u, r.residue, s.fifo);
    PacedAppend(pushes, SelectTail(r), ps, qs);
    var s1 := Step(u, es[0]);
    PushAndSelect(s1, r, ps, qs);
    SelectedFrom(s, s1, Run(s1, Paced(es[1..], pauses[1..])), r);
  }

  lemma SelectedFrom(s: State, s2: State, t: State, r: Request)
    requires Askable(s.disk, r) && s2.disk == s.disk && s2.dma == s.dma && Selected(s2, t, r)
    ensures Selected(s, t, r)
  {
  }

  lemma SelectedStill(s: State, t: State, r: Request)
    requires Askable(s.disk, r) && Selected(s, t, r) && Still(s)
    ensures Interrupted(t) && t.disk.phase == Disk.DataIn
  {
  }

  lemma TransferredStill(s: State, t: State, r: Request, ram: Ram)
    requires Servable(s.disk, r) && Transferred(s, t, r, ram)
    ensures Interrupted(t) && t.esp.intStatus == INTR_FC && t.disk.status == Disk.STATUS_GOOD
    ensures t.disk.message == Disk.MSG_COMPLETE && t.ram == StoreAt(ram, r.addr, Sectors(s.disk, r))
  {
  }

  /** Everything up to and including the last tick. */
  function ReadScript(r: Request, p1: seq<seq<Event>>, p2: seq<seq<Event>>, wait: seq<Event>): seq<Event>
    requires r.command.Valid() && r.addr + r.Length() < 0x1_0000_0000
    requires |p1| == |SelectScript(r)| && |p2| == |TransferScript(r)|
  {
    Paced(SelectScript(r), p1) + Paced(TransferScript(r), p2) + wait
  }

  lemma UpToTransfer(s: State, r: Request, p1: seq<seq<Event>>, p2: seq<seq<Event>>, wait: seq<Event>)
    requires Disk.Wf(s.disk) && Servable(s.disk, r) && Ready(s, s.fifo) && Countdown(wait, Dma.DEFER_TICKS)
    requires Pauses(p1, SelectScript(r)) && Pauses(p2, TransferScript(r))
    ensures var es := ReadScript(r, p1, p2, wait);
            Transferred(s, Run(s, es), r, StoredAll(s.ram, es)) && Reads(s, es) == [INTR_BS + INTR_FC]
  {
    var a, b := Paced(SelectScript(r), p1), Paced(TransferScript(r), p2);
    SelectScriptPhase(s, r, p1);
    var u := Run(s, a);
    SelectedStill(s, u, r);
    assert u.esp.intStatus == INTR_BS + INTR_FC;
    hide Step, Run, Ready, Selected, StoreAt, Disk.Wf, SelectScript, TransferScript, Paced, StoredAll, Reads, Pauses,
      Countdown, WindowInRam, Interrupted, Transferred;
    RequestPhase(u, r, p2);
    hide Armed;
    var w := Run(u, b);
    TransferPhase(s, u, w, r, wait);
    RunAppend(s, a + b, wait);
    RunAppend(s, a, b);
    StoredAppend(s.ram, a + b, wait);
    StoredAppend(s.ram, a, b);
    ReadsAppend(s, a + b, wait);
    ReadsAppend(s, a, b);
  }

  /** Acknowledge, complete the command, read the result. */
  function EndScript(r: Request, p3: seq<seq<Event>>, p4: seq<seq<Event>>): seq<Event>
    requires |p3| == |CompletionScript(r)| && |p4| == |ResultScript(r.residue)|
  {
    Paced(CompletionScript(r), p3) + Paced(ResultScript(r.residue), p4)
  }

  lemma EndPhase(s: State, r: Request, p3: seq<seq<Event>>, p4: seq<seq<Event>>)
    requires Interrupted(s) && Pauses(p3, CompletionScript(r)) && Pauses(p4, ResultScript(r.residue))
    ensures var es := EndScript(r, p3, p4);
            && Ready(Run(s, es), []) && Run(s, es).ram == StoredAll(s.ram, es)
            && Reads(s, es) == [s.esp.intStatus, INTR_FC, s.disk.status, s.disk.message]
  {
    var a, b := Paced(CompletionScript(r), p3), Paced(ResultScript(r.residue), p4);
    hide Step, Run, Paced, StoredAll, Reads, Pauses, Ready, Interrupted;
    CompletionPhase(s, r, p3);
    var t := Run(s, a);
    ResultPhase(t, s.disk.status, s.disk.message, r.residue, p4);
    RunAppend(s, a, b);
    StoredAppend(s.ram, a, b);
    ReadsAppend(s, a, b);
  }

  /** The law of the SCSI path. From any state with no command running, a driver that
      selects the target with a READ of 1..128 readable sectors, arms the channel with
      a window of RAM and starts the transfer, finds twenty ticks later exactly those
      sectors in the window, the rest of RAM as the CPU's own stores left it, the
      counter at zero and the completion bits set. On its way it reads from INTRSTATUS
      that the selection was answered, that the transfer is complete and that the command
      is, and then from the FIFO GOOD and COMMAND COMPLETE; and the controller is ready
      for the next command. This at whatever pace it works, and whatever other devices'
      interrupts, mask writes and CPU stores come in between. */
  lemma GuestReadDelivers(s: State, r: Request, p1: seq<seq<Event>>, p2: seq<seq<Event>>, wait: seq<Event>,
                          p3: seq<seq<Event>>, p4: seq<seq<Event>>)
    requires Disk.Wf(s.disk) && Servable(s.disk, r) && Ready(s, s.fifo) && Countdown(wait, Dma.DEFER_TICKS)
    requires Pauses(p1, SelectScript(r)) && Pauses(p2, TransferScript(r))
    requires Pauses(p3, CompletionScript(r)) && Pauses(p4, ResultScript(r.residue))
    ensures var es, fs := ReadScript(r, p1, p2, wait), EndScript(r, p3, p4);
            var t, v := Run(s, es), Run(s, es + fs);
            && Transferred(s, t, r, StoredAll(s.ram, es))
            && Reads(s, es + fs) ==
               [INTR_BS + INTR_FC, INTR_FC, INTR_FC, Disk.STATUS_GOOD, Disk.MSG_COMPLETE]
            && Ready(v, []) && v.ram == StoredAll(t.ram, fs)
            && (StoresMiss(fs, r.addr, r.Length()) ==>
                  v.ram == StoreAt(StoredAll(s.ram, es + fs), r.addr, Sectors(s.disk, r)))
  {
    var es, fs := ReadScript(r, p1, p2, wait), EndScript(r, p3, p4);
    hide Step, Run, Ready, StoreAt, Disk.Wf, ReadScript, EndScript, StoredAll, Reads, Pauses, Countdown, StoresMiss,
      WindowInRam, Interrupted, Transferred;
    UpToTransfer(s, r, p1, p2, wait);
    var t, ram := Run(s, es), StoredAll(s.ram, es);
    TransferredStill(s, t, r, ram);
    EndPhase(t, r, p3, p4);
    RunAppend(s, es, fs);
    StoredAppend(s.ram, es, fs);
    ReadsAppend(s, es, fs);
    LaterStores(s.disk, r, ram, fs);
  }

  lemma LaterStores(d: Disk.State, r: Request, ram: Ram, fs: seq<Event>)
    requires Servable(d, r)
    ensures StoresMiss(fs, r.addr, r.Length()) ==>
              StoredAll(StoreAt(ram, r.addr, Sectors(d, r)), fs) == StoreAt(StoredAll(ram, fs), r.addr, Sectors(d, r))
  {
    SectorsLength(d, r);
    hide StoreAt, StoredAll, Sectors, WindowInRam;
    if StoresMiss(fs, r.addr, r.Length()) {
      StoresElsewhere(ram, r.addr, Sectors(d, r), fs);
    }
  }
}
