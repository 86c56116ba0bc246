/** What a driver does to the controller as a script of register accesses, paced by
    whatever the rest of the machine does in between, and what the driver reads. */
module GuestScript {
  import opened Bits
  import opened MainMemory
  import opened Esp
  import opened ScsiPath
  import opened ScsiRuns
  import Interrupts
  import Disk = ScsiDisk
  import Dma = ScsiDma

  // ------------------------------------------------------------- the values read

  /** The bytes a run's reads of controller registers return, in order. */
  function Reads(s: State, es: seq<Event>): seq<uint8>
    decreases |es|
  {
    if es == [] then []
    else
      var rest := Reads(Step(s, es[0]), es[1..]);
      if es[0].EspRead? then [Read(s, es[0].off, es[0].residue).1] + rest else rest
  }

  lemma {:induction false} ReadsAppend(s: State, es: seq<Event>, fs: seq<Event>)
    ensures Reads(s, es + fs) == Reads(s, es) + Reads(Run(s, es), fs)
    decreases |es|
  {
    hide Step, Read;
    if es == [] {
      assert es + fs == fs;
    } else {
      assert (es + fs)[0] == es[0] && (es + fs)[1..] == es[1..] + fs;
      ReadsAppend(Step(s, es[0]), es[1..], fs);
    }
  }

  /** STATUS: bit 7 an interrupt, bits 0 to 2 the bus phase, bit 4 the counter at zero,
      bit 6 a gross error, and no other bit. */
  lemma StatusReads(s: State, residue: Disk.Cdb)
    ensures var (t, v) := Read(s, 0x04, residue);
            && t == s && v % 8 == s.disk.phase.Code()
            && (HasBit(v, 0x80) <==> s.esp.statInt) && (HasBit(v, 0x40) <==> s.esp.statGe)
            && (HasBit(v, 0x10) <==> s.esp.statTc) && !HasBit(v, 0x20) && !HasBit(v, 0x08)
  {
  }

  /** The bus phases as the bits I/O, C/D and MSG of the SCSI standard. */
  lemma PhaseBits(p: Disk.Phase)
    ensures HasBit(p.Code(), 1) <==> p in {Disk.DataIn, Disk.Status, Disk.MessageIn}
    ensures HasBit(p.Code(), 2) <==> p in {Disk.Command, Disk.Status, Disk.MessageOut, Disk.MessageIn}
    ensures HasBit(p.Code(), 4) <==> p in {Disk.MessageOut, Disk.MessageIn}
  {
  }

  /** The two halves of the counter, modulo 65536. */
  lemma CounterReads(s: State, residue: Disk.Cdb)
    ensures Read(s, 0x00, residue).0 == Read(s, 0x01, residue).0 == s
    ensures Read(s, 0x00, residue).1 as int + 0x100 * Read(s, 0x01, residue).1 as int == s.esp.counter % 0x1_0000
  {
    assert s.esp.counter / 0x100 % 0x100 == s.esp.counter % 0x1_0000 / 0x100;
  }

  /** Reading INTRSTATUS gives the cause and takes it down with the interrupt. */
  lemma CauseReads(s: State, residue: Disk.Cdb)
    requires !s.esp.waiting
    ensures var (t, v) := Read(s, 0x05, residue);
            && v == s.esp.intStatus
            && (s.esp.statInt ==> !t.esp.statInt && t.esp.intStatus == 0 && Interrupts.SCSI !in t.intr.status)
            && (!s.esp.statInt ==> t == s)
  {
  }

  // ------------------------------------------------------------------- bystanders

  /** What the rest of the machine does meanwhile: instructions pass, other devices'
      lines move, the interrupt registers and RAM are written. */
  predicate Bystander(e: Event) {
    || e.InstructionTick? || e.OtherRaise? || e.OtherLower? || e.MaskWrite? || e.Scr2Write? || e.Resync?
    || e.CpuStore?
  }

  predicate Bystanders(es: seq<Event>) {
    forall e | e in es :: Bystander(e)
  }

  function Stored(ram: Ram, e: Event): Ram {
    if e.CpuStore? then WriteByte(ram, e.addr, e.value) else ram
  }

  /** RAM after the CPU's own stores among `es`. */
  function StoredAll(ram: Ram, es: seq<Event>): Ram
    decreases |es|
  {
    if es == [] then ram else StoredAll(Stored(ram, es[0]), es[1..])
  }

  lemma {:induction false} StoredAppend(ram: Ram, es: seq<Event>, fs: seq<Event>)
    ensures StoredAll(ram, es + fs) == StoredAll(StoredAll(ram, es), fs)
    decreases |es|
  {
    hide Stored;
    if es == [] {
      assert es + fs == fs;
    } else {
      assert (es + fs)[0] == es[0] && (es + fs)[1..] == es[1..] + fs;
      StoredAppend(Stored(ram, es[0]), es[1..], fs);
    }
  }

  lemma BystanderStep(s: State, e: Event)
    requires Still(s) && Bystander(e)
    ensures var t := Step(s, e); t == s.(intr := t.intr, ram := Stored(s.ram, e))
  {
    hide Interrupts.HookCountdown, Interrupts.Set, Interrupts.Clear, Interrupts.WriteMask, Interrupts.WriteScr2,
      Interrupts.Recompute, WriteByte;
  }

  /** With nothing pending, bystanders move the interrupt controller and RAM alone. */
  lemma {:induction false} BystandersPass(s: State, es: seq<Event>)
    requires Still(s) && Bystanders(es)
    ensures var t := Run(s, es); t == s.(intr := t.intr, ram := StoredAll(s.ram, es))
    decreases |es|
  {
    if es != [] {
      BystanderStep(s, es[0]);
      hide Step, Stored, Bystander;
      BystandersPass(Step(s, es[0]), es[1..]);
    }
  }

  lemma {:induction false} NothingRead(s: State, es: seq<Event>)
    requires Bystanders(es)
    ensures Reads(s, es) == []
    decreases |es|
  {
    hide Step, Read;
    if es != [] {
      assert Bystander(es[0]);
      NothingRead(Step(s, es[0]), es[1..]);
    }
  }

  /** Byte `b` of the address space is not in the window. */
  predicate Misses(b: uint32, addr: uint32, n: nat) {
    !(0 <= Normalise(b) - Normalise(addr) < n)
  }

  predicate StoresMiss(es: seq<Event>, addr: uint32, n: nat) {
    forall e | e in es :: e.CpuStore? ==> Misses(e.addr, addr, n)
  }

  lemma MissedOffset(addr: uint32, n: nat, b: uint32)
    requires 0 < n <= RAM_SIZE && WindowInRam(addr, n) && Misses(b, addr, n) && InRam(b)
    ensures (RamOffset(b) - addr) % RAM_SIZE >= n
  {
    var gap := Normalise(b) - Normalise(addr);
    assert (RamOffset(b) - addr) % RAM_SIZE == if gap >= 0 then gap else gap + RAM_SIZE;
  }

  lemma StoreElsewhere(ram: Ram, addr: uint32, bytes: seq<uint8>, b: uint32, value: uint8)
    requires |bytes| <= RAM_SIZE && WindowInRam(addr, |bytes|) && Misses(b, addr, |bytes|)
    ensures WriteByte(StoreAt(ram, addr, bytes), b, value) == StoreAt(WriteByte(ram, b, value), addr, bytes)
  {
    hide InRam, RamOffset, WindowInRam, Misses;
    if bytes == [] {
      StoreAtNothing(ram, addr);
      StoreAtNothing(WriteByte(ram, b, value), addr);
    } else if InRam(b) {
      MissedOffset(addr, |bytes|, b);
      assert StoreAt(ram, addr, bytes)[RamOffset(b) := value] == StoreAt(ram[RamOffset(b) := value], addr, bytes);
    }
  }

  /** Stores outside a window may be done before it is filled or after. */
  lemma {:induction false} StoresElsewhere(ram: Ram, addr: uint32, bytes: seq<uint8>, es: seq<Event>)
    requires |bytes| <= RAM_SIZE && WindowInRam(addr, |bytes|) && StoresMiss(es, addr, |bytes|)
    ensures StoredAll(StoreAt(ram, addr, bytes), es) == StoreAt(StoredAll(ram, es), addr, bytes)
    decreases |es|
  {
    hide StoreAt, WriteByte, WindowInRam, Misses;
    if es != [] {
      if es[0].CpuStore? {
        StoreElsewhere(ram, addr, bytes, es[0].addr, es[0].value);
      }
      StoresElsewhere(Stored(ram, es[0]), addr, bytes, es[1..]);
    }
  }

  // ------------------------------------------------------------- pacing of a script

  /** Accesses `es`, each after whatever the rest of the machine does meanwhile. */
  function Paced(es: seq<Event>, pauses: seq<seq<Event>>): seq<Event>
    requires |pauses| == |es|
  {
    if es == [] then [] else pauses[0] + [es[0]] + Paced(es[1..], pauses[1..])
  }

  ghost predicate Pauses(pauses: seq<seq<Event>>, es: seq<Event>) {
    |pauses| == |es| && forall p | p in pauses :: Bystanders(p)
  }

  /** After one access at state `u` the rest of the script follows: the same final state,
      stores and values read. */
  ghost predicate Follows(s: State, es: seq<Event>, u: State, e: Event, fs: seq<Event>) {
    && Run(s, es) == Run(Step(u, e), fs)
    && StoredAll(s.ram, es) == StoredAll(u.ram, fs)
    && Reads(s, es) == if e.EspRead? then [Read(u, e.off, e.residue).1] + Reads(Step(u, e), fs) else Reads(Step(u, e), fs)
  }

  lemma StepFollows(u: State, e: Event, fs: seq<Event>)
    requires !e.CpuStore?
    ensures Follows(u, [e] + fs, u, e, fs)
  {
    assert ([e] + fs)[0] == e && ([e] + fs)[1..] == fs;
    hide Step, Read, WriteByte;
  }

  /** Between accesses only the interrupt controller and RAM move. */
  lemma PacedStep(s: State, es: seq<Event>, pauses: seq<seq<Event>>) returns (u: State)
    requires Pauses(pauses, es) && es != [] && Still(s) && !es[0].CpuStore?
    ensures u == s.(intr := u.intr, ram := u.ram)
    ensures Pauses(pauses[1..], es[1..])
    ensures Follows(s, Paced(es, pauses), u, es[0], Paced(es[1..], pauses[1..]))
  {
    hide Step, Stored, Bystanders, Read, Run, StoredAll, Reads;
    var p, rest := pauses[0], Paced(es[1..], pauses[1..]);
    BystandersPass(s, p);
    NothingRead(s, p);
    u := Run(s, p);
    RunAppend(s, p, [es[0]] + rest);
    StoredAppend(s.ram, p, [es[0]] + rest);
    ReadsAppend(s, p, [es[0]] + rest);
    StepFollows(u, es[0], rest);
    assert p + [es[0]] + rest == p + ([es[0]] + rest);
    assert [] + Reads(u, [es[0]] + rest) == Reads(u, [es[0]] + rest);
  }

  /** The last access of a script. */
  lemma PacedLast(s: State, es: seq<Event>, pauses: seq<seq<Event>>) returns (u: State)
    requires Pauses(pauses, es) && |es| == 1 && Still(s) && !es[0].CpuStore?
    ensures u == s.(intr := u.intr, ram := u.ram)
    ensures Run(s, Paced(es, pauses)) == Step(u, es[0]) && StoredAll(s.ram, Paced(es, pauses)) == u.ram
    ensures Reads(s, Paced(es, pauses)) == if es[0].EspRead? then [Read(u, es[0].off, es[0].residue).1] else []
  {
    hide Step, Stored, Pauses, Read;
    u := PacedStep(s, es, pauses);
  }

  lemma NoStore(ram: Ram, e: Event)
    requires !e.CpuStore?
    ensures Stored(ram, e) == ram
  {
  }

  // ------------------------------------------------------------------------ stages

  /** No command, no interrupt, nothing pending; the FIFO holds `q`. */
  predicate Ready(s: State, q: seq<uint8>) {
    && !s.esp.inProgress && !s.esp.waiting && !s.esp.statInt && s.esp.command1 == 0
    && Still(s) && s.fifo == q
  }

  /** Target, channel and RAM are those of `s`. */
  predicate SameRest(s: State, t: State) {
    t.disk == s.disk && t.dma == s.dma && t.ram == s.ram
  }

  lemma FlushStep(s: State, residue: Disk.Cdb, q: seq<uint8>)
    requires Ready(s, q)
    ensures var t := Step(s, EspWrite(0x03, CMD_FLUSH, residue)); Ready(t, []) && SameRest(s, t)
  {
    hide ResetHard, BusReset, SelectCommand, TransferInfo, CommandComplete, MessageAccepted, TransferPad, Illegal;
    var u := s.(esp := s.esp.(command1 := 0, command0 := CMD_FLUSH, statGe := s.esp.statGe || s.esp.waiting));
    var v := u.(esp := LoadCounter(u.esp.(inProgress := true), CMD_FLUSH), fifo := []);
    assert StartCommand(u, CMD_FLUSH, residue) == FinishCommand(v, residue);
  }

  /** NOP and the selection enables do nothing: no interrupt, the register free again. */
  lemma NothingStep(s: State, cmd: uint8, residue: Disk.Cdb, q: seq<uint8>)
    requires Ready(s, q) && cmd in {CMD_NOP, CMD_ENSEL, CMD_DISSEL}
    ensures var t := Step(s, EspWrite(0x03, cmd, residue));
            && Ready(t, q) && SameRest(s, t) && t.intr == s.intr && t.esp.intStatus == s.esp.intStatus
            && t.esp.counter == s.esp.counter && t.esp.latch == s.esp.latch
  {
    hide StartCommand, LoadCounter;
    var u := s.(esp := s.esp.(command1 := 0, command0 := cmd, statGe := s.esp.statGe || s.esp.waiting));
    NothingStarts(u, cmd, residue);
    PlainLoad(u.esp, cmd);
  }

  lemma NothingStarts(s: State, cmd: uint8, residue: Disk.Cdb)
    requires cmd in {CMD_NOP, CMD_ENSEL, CMD_DISSEL}
    ensures StartCommand(s, cmd, residue) == FinishCommand(s.(esp := LoadCounter(s.esp.(inProgress := true), cmd)), residue)
  {
    hide FinishCommand, LoadCounter, ResetHard, BusReset, SelectCommand, TransferInfo, CommandComplete, MessageAccepted,
      TransferPad, Illegal;
    assert cmd % 0x80 == cmd;
  }

  lemma PlainLoad(e: Regs, cmd: uint8)
    requires cmd < 0x80
    ensures LoadCounter(e.(inProgress := true), cmd) == e.(inProgress := true, modeDma := false)
  {
    assert !HasBit(cmd, CMD_DMA);
  }

  /** Any other unknown command interrupts at once as illegal and changes nothing else. */
  lemma UnknownStep(s: State, cmd: uint8, residue: Disk.Cdb, q: seq<uint8>)
    requires Ready(s, q)
    requires cmd % 0x80 !in {CMD_NOP, CMD_FLUSH, CMD_RESET, CMD_BUSRESET, CMD_TI, CMD_ICCS, CMD_MSGACC, CMD_PAD,
                             CMD_SEL, CMD_SELATN, CMD_ENSEL, CMD_DISSEL}
    ensures var t := Step(s, EspWrite(0x03, cmd, residue));
            && t.esp.statInt && HasBit(t.esp.intStatus, INTR_ILL) && t.fifo == q && SameRest(s, t)
            && !t.esp.waiting && t.esp.command1 == 0
  {
    hide ResetHard, BusReset, SelectCommand, TransferInfo, CommandComplete, MessageAccepted, TransferPad,
      LoadCounter, Interrupts.Set;
    var u := s.(esp := s.esp.(command1 := 0, command0 := cmd, statGe := s.esp.statGe || s.esp.waiting));
    var v := u.(esp := LoadCounter(u.esp.(inProgress := true), cmd));
    assert StartCommand(u, cmd, residue) == Illegal(v);
    LoadCounterTouches(u.esp, cmd);
    IllegalBit(v.esp.intStatus);
    LoadKeepsQueue(u.esp, cmd);
    hide HasBit;
  }

  lemma LoadKeepsQueue(e: Regs, cmd: uint8)
    ensures var l := LoadCounter(e.(inProgress := true), cmd);
            l.command1 == e.command1 && l.waiting == e.waiting && l.dmaControl == e.dmaControl
  {
    hide HasBit;
  }

  /** The queue is transparent: a command written while another still has its interrupt
      standing, and the interrupt then acknowledged, leaves everything as if it had been
      acknowledged first and the command written after. */
  lemma QueueIsTransparent(s: State, cmd: uint8, residue: Disk.Cdb)
    requires s.esp.inProgress && s.esp.statInt && !s.esp.waiting && s.esp.command1 == 0
    requires cmd % 0x80 != CMD_RESET && cmd % 0x80 != CMD_BUSRESET
    ensures var w, a := EspWrite(0x03, cmd, residue), EspRead(0x05, residue);
            && Step(Step(s, w), a) == Step(Step(s, a), w)
            && Step(s, w) == s.(esp := s.esp.(command1 := cmd, waiting := true))
  {
    hide StartCommand, Interrupts.Clear;
  }

  lemma PushStep(s: State, value: uint8, residue: Disk.Cdb, q: seq<uint8>)
    requires Ready(s, q) && |q| < FIFO_SIZE
    ensures var t := Step(s, EspWrite(0x02, value, residue)); Ready(t, q + [value]) && SameRest(s, t)
  {
  }

  lemma TargetStep(s: State, residue: Disk.Cdb, q: seq<uint8>)
    requires Ready(s, q)
    ensures var t := Step(s, EspWrite(0x04, Disk.TARGET_ID, residue));
            Ready(t, q) && SameRest(s, t) && t.esp.latch.busId == Disk.TARGET_ID
  {
  }

  lemma ExecuteResult(s: State, identify: uint8, residue: Disk.Cdb)
    requires |s.fifo| <= 12 && s.esp.command1 == 0
    ensures var t := Execute(s, identify, residue);
            && t.disk == Disk.ReceiveCommand(s.disk.(phase := Disk.Command), CommandBuffer(s.fifo, residue), identify)
            && t.dma == s.dma && t.ram == s.ram
            && t.esp.statInt && !t.esp.waiting && t.esp.command1 == 0 && t.fifo == []
            && t.esp.selPending == s.esp.selPending && t.esp.intStatus == INTR_BS + INTR_FC && t.esp.seqStep == 4
  {
    hide Disk.ReceiveCommand, Interrupts.Set, HasBit, CommandBuffer;
    assert s.fifo[Min(|s.fifo|, 12)..] == [];
  }

  /** Reading INTRSTATUS acknowledges the interrupt and frees the command register. */
  lemma AcknowledgeStep(s: State, residue: Disk.Cdb)
    requires s.esp.statInt && !s.esp.waiting && s.esp.command1 == 0 && Still(s)
    ensures var t := Step(s, EspRead(0x05, residue)); Ready(t, s.fifo) && SameRest(s, t)
  {
    hide Interrupts.Clear;
  }

  lemma CounterStep(s: State, n: nat, residue: Disk.Cdb)
    requires Ready(s, []) && 0 < n <= 0x1_0000
    ensures var t := Step(s, EspWrite(0x00, n % 0x100, residue));
            Ready(t, []) && SameRest(s, t) && t.esp.latch.tcl == n % 0x100
    ensures var t := Step(s, EspWrite(0x01, n / 0x100 % 0x100, residue));
            Ready(t, []) && SameRest(s, t) && t.esp.latch.tch == n / 0x100 % 0x100 && t.esp.latch.tcl == s.esp.latch.tcl
  {
  }

  /** TI with DMA loads the counter and leaves the request pending. */
  lemma TransferStep(s: State, n: nat, residue: Disk.Cdb)
    requires Ready(s, []) && 0 < n <= 0x1_0000 && s.disk.phase == Disk.DataIn
    requires s.esp.latch.tcl == n % 0x100 && s.esp.latch.tch == n / 0x100 % 0x100
    ensures var t := Step(s, EspWrite(0x03, TI_DMA, residue));
            && t.disk == s.disk && t.ram == s.ram
            && t.dma == s.dma.(inward := true, counter := n, countdown := Dma.DEFER_TICKS, pending := true)
            && !t.esp.statInt && !t.esp.waiting && t.esp.command1 == 0 && t.fifo == [] && !t.esp.selPending
            && t.esp.counter == n && !t.esp.statTc && t.esp.inProgress
  {
    assert HasBit(TI_DMA, CMD_DMA);
  }

  // -------------------------------------------------------------------- the script

  function Pushes(bytes: seq<uint8>, residue: Disk.Cdb): seq<Event>
    decreases |bytes|
  {
    if bytes == [] then [] else [EspWrite(0x02, bytes[0], residue)] + Pushes(bytes[1..], residue)
  }

  lemma PushesLength(bytes: seq<uint8>, residue: Disk.Cdb)
    ensures |Pushes(bytes, residue)| == |bytes|
    decreases |bytes|
  {
  }

  /** Target and channel are those of `s`, RAM is what the CPU's stores made of it, and
      nothing was read. */
  ghost predicate Waited(s: State, t: State, es: seq<Event>) {
    t == Run(s, es) && t.disk == s.disk && t.dma == s.dma && t.ram == StoredAll(s.ram, es) && Reads(s, es) == []
  }

  /** Filling the FIFO at any pace. */
  lemma {:induction false} PushAll(s: State, q: seq<uint8>, bytes: seq<uint8>, residue: Disk.Cdb, pauses: seq<seq<Event>>)
    requires Ready(s, q) && |q| + |bytes| <= FIFO_SIZE && Pauses(pauses, Pushes(bytes, residue))
    ensures var es := Paced(Pushes(bytes, residue), pauses);
            Ready(Run(s, es), q + bytes) && Waited(s, Run(s, es), es)
    decreases |bytes|
  {
    assert |pauses| == |Pushes(bytes, residue)|;
    hide Step, Pauses, Read;
    if bytes == [] {
      assert q + bytes == q;
    } else {
      var es := Pushes(bytes, residue);
      var u := PacedStep(s, es, pauses);
      PushStep(u, bytes[0], residue, q);
      assert es[1..] == Pushes(bytes[1..], residue);
      PushAll(Step(u, es[0]), q + [bytes[0]], bytes[1..], residue, pauses[1..]);
      assert (q + [bytes[0]]) + bytes[1..] == q + bytes;
    }
  }

  lemma {:induction false} PacedAppend(es: seq<Event>, fs: seq<Event>, ps: seq<seq<Event>>, qs: seq<seq<Event>>)
    requires |es| == |ps| && |fs| == |qs|
    ensures Paced(es + fs, ps + qs) == Paced(es, ps) + Paced(fs, qs)
    decreases |es|
  {
    if es == [] {
      assert es + fs == fs && ps + qs == qs;
    } else {
      assert (es + fs)[1..] == es[1..] + fs && (ps + qs)[1..] == ps[1..] + qs;
      PacedAppend(es[1..], fs, ps[1..], qs);
      assert ps[0] + [es[0]] + (Paced(es[1..], ps[1..]) + Paced(fs, qs)) ==
             (ps[0] + [es[0]] + Paced(es[1..], ps[1..])) + Paced(fs, qs);
    }
  }

  lemma NextStep(s: State, addr: uint32)
    requires Ready(s, [])
    ensures var t := Step(s, DmaReg(0x4010, addr));
            Ready(t, []) && t == s.(dma := t.dma) && t.dma.next == addr
  {
  }

  lemma LimitStep(s: State, addr: uint32)
    requires Ready(s, [])
    ensures var t := Step(s, DmaReg(0x4014, addr));
            Ready(t, []) && t == s.(dma := t.dma) && t.dma.limit == addr && t.dma.next == s.dma.next
  {
  }

  lemma EnableStep(s: State, csr: uint32)
    requires Ready(s, []) && HasBit(csr, Dma.CSR_SETENABLE)
    ensures var t := Step(s, DmaCsr(csr));
            Ready(t, []) && t == s.(dma := t.dma, intr := t.intr) && t.dma.enable
            && t.dma.next == s.dma.next && t.dma.limit == s.dma.limit
  {
    hide Interrupts.Clear;
  }

  lemma PendingStep(s: State, e: Event)
    requires s.dma.pending && !s.esp.selPending && Bystander(e) && (e.InstructionTick? ==> s.dma.countdown > 1)
    ensures CountedDown(s, Step(s, e), if e.InstructionTick? then 1 else 0, Stored(s.ram, e))
    ensures var t := Step(s, e);
            && t.dma.pending && !t.esp.selPending && t.ram == Stored(s.ram, e)
            && t.dma.countdown == s.dma.countdown - if e.InstructionTick? then 1 else 0
  {
    hide Dma.Transfer, DmaComplete, RaiseIrq, Interrupts.HookCountdown, Interrupts.Set, Interrupts.Clear,
      Interrupts.WriteMask, Interrupts.WriteScr2, Interrupts.Recompute, WriteByte;
  }

  /** The request of `s` with `n` ticks gone. */
  ghost predicate CountedDown(s: State, t: State, n: int, ram: Ram) {
    t == s.(intr := t.intr, ram := ram, dma := s.dma.(countdown := s.dma.countdown - n))
  }

  lemma Unfold(s: State, es: seq<Event>)
    requires es != [] && Bystanders(es)
    ensures Run(s, es) == Run(Step(s, es[0]), es[1..])
    ensures StoredAll(s.ram, es) == StoredAll(Stored(s.ram, es[0]), es[1..])
    ensures Ticks(es) == (if es[0].InstructionTick? then 1 else 0) + Ticks(es[1..])
    ensures Bystander(es[0]) && Bystanders(es[1..])
  {
    hide Step, Stored, Bystander;
  }

  lemma UnfoldNothing(s: State)
    ensures CountedDown(s, Run(s, []), Ticks([]), StoredAll(s.ram, []))
  {
    hide Step, Stored;
  }

  lemma CountOn(s: State, u: State, t: State, m: int, n: int, mid: Ram, ram: Ram)
    requires CountedDown(s, u, m, mid) && CountedDown(u, t, n, ram)
    ensures CountedDown(s, t, m + n, ram)
  {
  }

  /** Until the last tick the request only counts down. */
  lemma {:induction false} PendingPass(s: State, es: seq<Event>)
    requires s.dma.pending && !s.esp.selPending && Bystanders(es) && Ticks(es) < s.dma.countdown
    ensures CountedDown(s, Run(s, es), Ticks(es), StoredAll(s.ram, es))
    decreases |es|
  {
    hide Step, Stored, Bystander, Bystanders, Run, StoredAll, Ticks, CountedDown;
    if es == [] {
      UnfoldNothing(s);
    } else {
      Unfold(s, es);
      PendingStep(s, es[0]);
      var u := Step(s, es[0]);
      PendingPass(u, es[1..]);
      CountOn(s, u, Run(s, es), if es[0].InstructionTick? then 1 else 0, Ticks(es[1..]), u.ram, StoredAll(s.ram, es));
    }
  }

  /** Bystanders up to and including the `n`-th tick. */
  predicate Countdown(es: seq<Event>, n: nat) {
    Bystanders(es) && es != [] && es[|es| - 1].InstructionTick? && Ticks(es[..|es| - 1]) == n - 1
  }

  lemma CommandCompleteResult(s: State)
    requires s.fifo == []
    ensures var t := CommandComplete(s);
            && t.fifo == [s.disk.status, s.disk.message]
            && t.esp.statInt && t.esp.intStatus == INTR_FC && t.ram == s.ram && t.dma == s.dma
            && t.esp.waiting == s.esp.waiting && t.esp.command1 == s.esp.command1 && t.esp.selPending == s.esp.selPending
  {
    hide Interrupts.Set, HasBit;
  }

  /** ICCS leaves exactly the status and the message in the FIFO. */
  lemma CompletionStep(s: State, residue: Disk.Cdb)
    requires Ready(s, [])
    ensures var t := Step(s, EspWrite(0x03, CMD_ICCS, residue));
            && t.fifo == [s.disk.status, s.disk.message]
            && t.esp.statInt && t.esp.intStatus == INTR_FC && t.ram == s.ram && t.dma == s.dma
            && !t.esp.waiting && t.esp.command1 == 0 && Still(t)
  {
    hide CommandComplete;
    var u := s.(esp := s.esp.(command1 := 0, command0 := CMD_ICCS, statGe := s.esp.statGe || s.esp.waiting));
    var v := u.(esp := LoadCounter(u.esp.(inProgress := true), CMD_ICCS));
    assert StartCommand(u, CMD_ICCS, residue) == CommandComplete(v);
    CommandCompleteResult(v);
  }

  // --------------------------------------------------------------- common scripts

  /** The controller has an interrupt standing and nothing else going on. */
  predicate Interrupted(s: State) {
    s.esp.statInt && !s.esp.waiting && s.esp.command1 == 0 && s.fifo == [] && Still(s)
  }

  /** Acknowledge the interrupt and load the transfer counter. */
  function LoadScript(n: nat, residue: Disk.Cdb): seq<Event> {
    [EspRead(0x05, residue), EspWrite(0x00, n % 0x100, residue), EspWrite(0x01, n / 0x100 % 0x100, residue)]
  }

  predicate CounterLoaded(s: State, n: nat) {
    s.esp.latch.tcl == n % 0x100 && s.esp.latch.tch == n / 0x100 % 0x100
  }

  lemma LoadPhase(s: State, n: nat, residue: Disk.Cdb, tail: seq<Event>, pauses: seq<seq<Event>>) returns (t: State)
    requires Interrupted(s) && 0 < n <= 0x1_0000 && Pauses(pauses, LoadScript(n, residue) + tail)
    ensures |pauses| == 3 + |tail| && Pauses(pauses[3..], tail)
    ensures Ready(t, []) && t.disk == s.disk && t.dma == s.dma && CounterLoaded(t, n)
    ensures var es, fs := Paced(LoadScript(n, residue) + tail, pauses), Paced(tail, pauses[3..]);
            && Run(s, es) == Run(t, fs) && StoredAll(s.ram, es) == StoredAll(t.ram, fs)
            && Reads(s, es) == [s.esp.intStatus] + Reads(t, fs)
  {
    var es := LoadScript(n, residue) + tail;
    assert |pauses| == |es| && es[1..][1..][1..] == tail && pauses[1..][1..][1..] == pauses[3..];
    assert es[0] == EspRead(0x05, residue) && es[1..][0] == EspWrite(0x00, n % 0x100, residue)
      && es[1..][1..][0] == EspWrite(0x01, n / 0x100 % 0x100, residue);
    hide Step, HasBit, Paced, Run, StoredAll, Reads, Pauses, Read, LoadScript;
    var u0 := PacedStep(s, es, pauses);
    AcknowledgeStep(u0, residue);
    CauseRead(u0, residue);
    var s1 := Step(u0, es[0]);
    var u1 := PacedStep(s1, es[1..], pauses[1..]);
    CounterStep(u1, n, residue);
    var s2 := Step(u1, es[1..][0]);
    var u2 := PacedStep(s2, es[1..][1..], pauses[1..][1..]);
    CounterStep(u2, n, residue);
    t := Step(u2, es[1..][1..][0]);
  }

  lemma CauseRead(s: State, residue: Disk.Cdb)
    ensures Read(s, 0x05, residue).1 == s.esp.intStatus
  {
    hide LowerIrq;
  }

  /** A request of `n` bytes waits for its ticks. */
  predicate Requested(s: State, n: nat) {
    && s.dma.pending && s.dma.inward && s.dma.counter == n && s.dma.countdown == Dma.DEFER_TICKS
    && !s.esp.statInt && !s.esp.waiting && s.esp.command1 == 0 && s.fifo == [] && !s.esp.selPending
  }

  /** Up to its last tick a request only counts down; `v` is the state that tick finds. */
  lemma RequestWaits(t: State, n: nat, wait: seq<Event>) returns (v: State)
    requires Requested(t, n) && Countdown(wait, Dma.DEFER_TICKS)
    ensures v == t.(intr := v.intr, ram := StoredAll(t.ram, wait), dma := t.dma.(countdown := 1))
    ensures Run(t, wait) == Step(v, InstructionTick) && Reads(t, wait) == []
  {
    hide Step, Stored, Bystander, Read;
    var es, last := wait[..|wait| - 1], [InstructionTick];
    PendingPass(t, es);
    NothingRead(t, wait);
    v := Run(t, es);
    assert wait == es + last;
    RunAppend(t, es, last);
    StoredAppend(t.ram, es, last);
    NoStore(v.ram, InstructionTick);
    assert last[1..] == [] && Run(v, last) == Step(v, InstructionTick) && StoredAll(v.ram, last) == v.ram;
  }

  /** After the command-complete sequence: acknowledge it and empty the FIFO. */
  function ResultScript(residue: Disk.Cdb): seq<Event> {
    [EspRead(0x05, residue), EspRead(0x02, residue), EspRead(0x02, residue)]
  }

  lemma FifoStep(s: State, residue: Disk.Cdb, q: seq<uint8>)
    requires Ready(s, q) && q != []
    ensures var t := Step(s, EspRead(0x02, residue)); Ready(t, q[1..]) && SameRest(s, t)
    ensures Read(s, 0x02, residue).1 == q[0]
  {
  }

  /** The values of the acknowledged cause and of two queued bytes, in order. */
  lemma ResultPhase(s: State, a: uint8, b: uint8, residue: Disk.Cdb, pauses: seq<seq<Event>>)
    requires s.esp.statInt && !s.esp.waiting && s.esp.command1 == 0 && Still(s) && s.fifo == [a, b]
    requires Pauses(pauses, ResultScript(residue))
    ensures var es := Paced(ResultScript(residue), pauses);
            var t := Run(s, es);
            && Ready(t, []) && t.disk == s.disk && t.dma == s.dma && t.ram == StoredAll(s.ram, es)
            && Reads(s, es) == [s.esp.intStatus, a, b]
  {
    assert |pauses| == 3;
    hide Step, Pauses, Paced, Run, StoredAll, Reads, Read;
    var es := ResultScript(residue);
    var u := PacedStep(s, es, pauses);
    AcknowledgeStep(u, residue);
    CauseRead(u, residue);
    var s1 := Step(u, es[0]);
    var u1 := PacedStep(s1, es[1..], pauses[1..]);
    FifoStep(u1, residue, [a, b]);
    var s2 := Step(u1, es[1]);
    assert [a, b][1..] == [b] && [b][1..] == [];
    var u2 := PacedLast(s2, es[2..], pauses[2..]);
    FifoStep(u2, residue, [b]);
  }

  /** The bytes queued come out of the FIFO in order, at any pace, and FIFO FLAGS counts
      what is left. */
  lemma {:induction false} FifoReadsBack(s: State, q: seq<uint8>, residue: Disk.Cdb, pauses: seq<seq<Event>>)
    requires Ready(s, q) && Pauses(pauses, Pops(|q|, residue))
    ensures var es := Paced(Pops(|q|, residue), pauses);
            Reads(s, es) == q && Ready(Run(s, es), []) && Read(s, 0x07, residue) == (s, |q|)
    decreases |q|
  {
    assert |pauses| == |q|;
    assert Read(s, 0x07, residue) == (s, |q|);
    hide Step, Pauses, Read;
    if q != [] {
      var es := Pops(|q|, residue);
      var u := PacedStep(s, es, pauses);
      FifoStep(u, residue, q);
      assert es[1..] == Pops(|q| - 1, residue);
      FifoReadsBack(Step(u, es[0]), q[1..], residue, pauses[1..]);
      assert [q[0]] + q[1..] == q;
    }
  }

  function Pops(n: nat, residue: Disk.Cdb): (es: seq<Event>)
    ensures |es| == n
  {
    if n == 0 then [] else [EspRead(0x02, residue)] + Pops(n - 1, residue)
  }
}
