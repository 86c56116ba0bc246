/** A guest READ in two pieces: a chained channel goes on from one window of RAM to the
    next, and two transfer commands leave the sectors in both. */
module GuestChain {
  import opened Bits
  import opened MainMemory
  import opened Esp
  import opened ScsiPath
  import opened ScsiRuns
  import opened GuestScript
  import opened GuestRead
  import Interrupts
  import Disk = ScsiDisk
  import Stream = SectorStream
  import Dma = ScsiDma

  /** The first window ends at `limit`, the second is `start` to `stop`; the driver asks
      for `n1` and then for `n2` bytes. */
  datatype Windows = Windows(limit: uint32, start: uint32, stop: uint32, n1: nat, n2: nat) {
    function First(r: Request): int {
      limit - r.addr
    }

    /** The first request is for more than its window holds, the second for what its own
        window can take and the sectors can give. */
    predicate Fit(r: Request) {
      && HasBit(r.csr, Dma.CSR_SETSUPDATE)
      && 0 < First(r) < n1 <= 0x1_0000 && WindowInRam(r.addr, First(r))
      && 0 < n2 <= 0x1_0000 && n2 <= stop - start && WindowInRam(start, n2)
      && First(r) + n2 <= r.Length()
    }
  }

  // ------------------------------------------------------------------- arming

  function ArmChain(r: Request, w: Windows): seq<Event> {
    [DmaReg(0x4010, r.addr), DmaReg(0x4014, w.limit), DmaReg(0x4018, w.start), DmaReg(0x401C, w.stop),
     DmaCsr(r.csr), EspWrite(0x03, TI_DMA, r.residue)]
  }

  predicate Chaining(c: Dma.State, r: Request, w: Windows) {
    && c.enable && c.supdate && c.next == r.addr && c.limit == w.limit && c.start == w.start && c.stop == w.stop
  }

  lemma StartStep(s: State, addr: uint32)
    requires Ready(s, [])
    ensures var t := Step(s, DmaReg(0x4018, addr));
            Ready(t, []) && t == s.(dma := s.dma.(start := addr))
  {
  }

  lemma StopStep(s: State, addr: uint32)
    requires Ready(s, [])
    ensures var t := Step(s, DmaReg(0x401C, addr));
            Ready(t, []) && t == s.(dma := s.dma.(stop := addr))
  {
  }

  lemma ChainStep(s: State, csr: uint32)
    requires Ready(s, []) && HasBit(csr, Dma.CSR_SETENABLE) && HasBit(csr, Dma.CSR_SETSUPDATE)
    ensures var t := Step(s, DmaCsr(csr));
            Ready(t, []) && t == s.(dma := t.dma, intr := t.intr)
            && t.dma == s.dma.(enable := true, supdate := true, dev2m := t.dma.dev2m, complete := t.dma.complete)
  {
    hide Interrupts.Clear;
  }

  lemma ArmPhase(s: State, r: Request, w: Windows, pauses: seq<seq<Event>>)
    requires r.WellFormed() && w.Fit(r) && Ready(s, []) && s.disk.phase == Disk.DataIn
    requires Pauses(pauses, ArmChain(r, w)) && CounterLoaded(s, w.n1)
    ensures var es := Paced(ArmChain(r, w), pauses);
            var t := Run(s, es);
            && t.disk == s.disk && Chaining(t.dma, r, w) && Requested(t, w.n1)
            && t.ram == StoredAll(s.ram, es) && Reads(s, es) == []
  {
    assert |pauses| == 6;
    var es := ArmChain(r, w);
    hide Step, HasBit, Pauses, Paced, Run, StoredAll, Reads, Read, WindowInRam;
    var u := PacedStep(s, es, pauses);
    NextStep(u, r.addr);
    var s1 := Step(u, es[0]);
    var u1 := PacedStep(s1, es[1..], pauses[1..]);
    LimitStep(u1, w.limit);
    var s2 := Step(u1, es[1]);
    var u2 := PacedStep(s2, es[2..], pauses[2..]);
    StartStep(u2, w.start);
    var s3 := Step(u2, es[2]);
    var u3 := PacedStep(s3, es[3..], pauses[3..]);
    StopStep(u3, w.stop);
    var s4 := Step(u3, es[3]);
    var u4 := PacedStep(s4, es[4..], pauses[4..]);
    ChainStep(u4, r.csr);
    var s5 := Step(u4, es[4]);
    var u5 := PacedLast(s5, es[5..], pauses[5..]);
    TransferStep(u5, w.n1, r.residue);
  }

  // ------------------------------------------------------------------ transferring

  /** The tick that carries a request out, up to the end of its window. */
  lemma CarryOut(t: State, n: nat)
    requires t.dma.pending && t.dma.inward && t.dma.counter == n && t.dma.countdown == 1
    requires !t.esp.statInt && !t.esp.waiting && t.esp.command1 == 0 && t.fifo == [] && !t.esp.selPending
    requires Stream.Streaming(t.disk) && Stream.Readable(t.disk, t.disk.lba, t.disk.blocks)
    requires 0 < n <= 0x1_0000 && t.dma.enable && t.dma.next < t.dma.limit
    requires WindowInRam(t.dma.next, Min(n, t.dma.limit - t.dma.next))
    requires Min(n, t.dma.limit - t.dma.next) <= |Stream.Owed(t.disk)|
    ensures var v, c, k := Step(t, InstructionTick), t.dma, Min(n, t.dma.limit - t.dma.next);
            && v.ram == StoreAt(t.ram, c.next, Stream.Owed(t.disk)[..k])
            && Interrupted(v) && v.esp.counter == n - k
            && v.esp.intStatus == (if k == n then INTR_FC else INTR_BS)
            && (if k == n then v.esp.statTc else v.esp.statTc == t.esp.statTc)
            && (if k < |Stream.Owed(t.disk)| then
                  Stream.Streaming(v.disk) && Stream.Owed(v.disk) == Stream.Owed(t.disk)[k..]
                  && Stream.Readable(v.disk, v.disk.lba, v.disk.blocks)
                else v.disk.phase == Disk.Status)
            && v.disk.status == Disk.STATUS_GOOD && v.disk.message == t.disk.message
            && !v.dma.busexc
            && (if c.next + k >= c.limit && c.supdate then
                  v.dma.next == c.start && v.dma.limit == c.stop && !v.dma.supdate
                else v.dma.next == c.next + k && v.dma.limit == c.limit && v.dma.supdate == c.supdate)
            && (v.dma.complete <==> c.complete || Dma.Ends(c, c.next + k, n - k, false))
            && (v.dma.enable <==> !Dma.Ends(c, c.next + k, n - k, false))
  {
    hide Dma.Transfer, Interrupts.HookCountdown, Interrupts.Set, HasBit, StoreAt, WindowInRam, Disk.Wf,
      Stream.Owed, Stream.Readable, Dma.Ends;
    var i := Interrupts.HookCountdown(t.intr);
    var c := t.dma.(pending := false, countdown := 0);
    Dma.TransferFills(c, t.disk, t.ram, i, n);
    Dma.TransferChains(c, t.disk, t.ram, i, true, n);
    EndsSame(t.dma, c);
  }

  lemma EndsSame(c: Dma.State, d: Dma.State)
    requires d == c.(pending := d.pending, countdown := d.countdown)
    ensures forall at: int, left: nat, busexc: bool :: Dma.Ends(d, at, left, busexc) == Dma.Ends(c, at, left, busexc)
  {
  }

  /** After the first request: its window is full, the channel stands at the second. */
  ghost predicate Halfway(s: State, t: State, r: Request, w: Windows, ram: Ram)
    requires Askable(s.disk, r) && w.Fit(r)
  {
    && t.ram == StoreAt(ram, r.addr, Sectors(s.disk, r)[..w.First(r)])
    && Interrupted(t) && t.esp.intStatus == INTR_BS && t.esp.counter == w.n1 - w.First(r)
    && Stream.Streaming(t.disk) && Stream.Owed(t.disk) == Sectors(s.disk, r)[w.First(r)..]
    && Stream.Readable(t.disk, t.disk.lba, t.disk.blocks) && t.disk.message == Disk.MSG_COMPLETE
    && t.dma.enable && !t.dma.supdate && t.dma.next == w.start && t.dma.limit == w.stop && !t.dma.busexc
  }

  function FirstScript(r: Request, w: Windows): seq<Event> {
    LoadScript(w.n1, r.residue) + ArmChain(r, w)
  }

  lemma FirstPiece(s: State, u: State, r: Request, w: Windows, pauses: seq<seq<Event>>, wait: seq<Event>)
    requires Askable(s.disk, r) && w.Fit(r) && Selected(s, u, r) && Interrupted(u)
    requires Pauses(pauses, FirstScript(r, w)) && Countdown(wait, Dma.DEFER_TICKS)
    ensures var es := Paced(FirstScript(r, w), pauses) + wait;
            Halfway(s, Run(u, es), r, w, StoredAll(u.ram, es)) && Reads(u, es) == [INTR_BS + INTR_FC]
  {
    var a := Paced(FirstScript(r, w), pauses);
    SectorsLength(s.disk, r);
    hide Step, Run, StoredAll, Reads, Paced, Pauses, Countdown, StoreAt, Stream.Owed, Stream.Readable, Disk.Wf, ArmChain,
      LoadScript, Sectors, HasBit, WindowInRam;
    var t := LoadPhase(u, w.n1, r.residue, ArmChain(r, w), pauses);
    ArmPhase(t, r, w, pauses[3..]);
    var x := Run(u, a);
    var v := RequestWaits(x, w.n1, wait);
    CarryOut(v, w.n1);
    RunAppend(u, a, wait);
    StoredAppend(u.ram, a, wait);
    ReadsAppend(u, a, wait);
  }

  function SecondScript(r: Request, w: Windows): seq<Event> {
    LoadScript(w.n2, r.residue) + [EspWrite(0x03, TI_DMA, r.residue)]
  }

  /** After the second request: its bytes are in the second window and the guest is told. */
  ghost predicate Finished(s: State, t: State, r: Request, w: Windows, ram: Ram)
    requires Askable(s.disk, r) && w.Fit(r)
  {
    && t.ram == StoreAt(ram, w.start, Sectors(s.disk, r)[w.First(r)..w.First(r) + w.n2])
    && Interrupted(t) && t.esp.intStatus == INTR_FC && t.esp.counter == 0 && t.esp.statTc
    && t.dma.complete && !t.dma.enable && !t.dma.busexc && t.dma.next == w.start + w.n2
    && t.disk.phase == (if w.First(r) + w.n2 == r.Length() then Disk.Status else Disk.DataIn)
    && t.disk.status == Disk.STATUS_GOOD && t.disk.message == Disk.MSG_COMPLETE
  }

  lemma Slices(x: seq<uint8>, a: nat, b: nat)
    requires a + b <= |x|
    ensures x[a..][..b] == x[a..a + b]
  {
  }

  lemma SecondRequest(u: State, r: Request, w: Windows, pauses: seq<seq<Event>>)
    requires w.Fit(r) && Interrupted(u) && u.disk.phase == Disk.DataIn && Pauses(pauses, SecondScript(r, w))
    ensures var es := Paced(SecondScript(r, w), pauses);
            var x := Run(u, es);
            && x.disk == u.disk && Requested(x, w.n2)
            && x.dma == u.dma.(inward := true, counter := w.n2, countdown := Dma.DEFER_TICKS, pending := true)
            && x.ram == StoredAll(u.ram, es) && Reads(u, es) == [u.esp.intStatus]
  {
    hide Step, Run, StoredAll, Reads, Paced, Pauses, LoadScript, HasBit, WindowInRam, Interrupted;
    var tail := [EspWrite(0x03, TI_DMA, r.residue)];
    var t := LoadPhase(u, w.n2, r.residue, tail, pauses);
    var y := PacedLast(t, tail, pauses[3..]);
    TransferStep(y, w.n2, r.residue);
  }

  /** The tick that carries the second request out. */
  lemma SecondTick(s: State, u: State, v: State, r: Request, w: Windows, ram: Ram)
    requires Askable(s.disk, r) && w.Fit(r) && Halfway(s, u, r, w, ram)
    requires v.disk == u.disk && v.dma == u.dma.(inward := true, counter := w.n2, countdown := 1, pending := true)
    requires !v.esp.statInt && !v.esp.waiting && v.esp.command1 == 0 && v.fifo == [] && !v.esp.selPending
    ensures Finished(s, Step(v, InstructionTick), r, w, v.ram)
  {
    SectorsLength(s.disk, r);
    Slices(Sectors(s.disk, r), w.First(r), w.n2);
    hide Step, StoreAt, Stream.Owed, Stream.Readable, Disk.Wf, Sectors, HasBit, WindowInRam;
    CarryOut(v, w.n2);
  }

  lemma SecondPiece(s: State, u: State, r: Request, w: Windows, ram: Ram, pauses: seq<seq<Event>>, wait: seq<Event>)
    requires Askable(s.disk, r) && w.Fit(r) && Halfway(s, u, r, w, ram)
    requires Pauses(pauses, SecondScript(r, w)) && Countdown(wait, Dma.DEFER_TICKS)
    ensures var es := Paced(SecondScript(r, w), pauses) + wait;
            Finished(s, Run(u, es), r, w, StoredAll(u.ram, es)) && Reads(u, es) == [INTR_BS]
  {
    var a := Paced(SecondScript(r, w), pauses);
    assert Interrupted(u) && u.disk.phase == Disk.DataIn && u.esp.intStatus == INTR_BS;
    hide Step, Run, StoredAll, Reads, Paced, Pauses, Countdown, SecondScript, Halfway, Finished, Askable, Interrupted;
    SecondRequest(u, r, w, pauses);
    var x := Run(u, a);
    var v := RequestWaits(x, w.n2, wait);
    SecondTick(s, u, v, r, w, ram);
    RunAppend(u, a, wait);
    StoredAppend(u.ram, a, wait);
    ReadsAppend(u, a, wait);
  }

  /** Two transfer commands over chained windows: the first fills the window at the buffer
      pointer, though it asked for more, and the guest reads the bus-service cause; the
      channel has moved on to the start register, and the second command's bytes go there,
      after which COMPLETE is set. Together they are the sectors in order, and no other
      byte of RAM has changed but by the CPU's own stores. */
  lemma ChainedReadDelivers(s: State, r: Request, w: Windows, p1: seq<seq<Event>>, p2: seq<seq<Event>>,
                            wait1: seq<Event>, p3: seq<seq<Event>>, wait2: seq<Event>)
    requires Disk.Wf(s.disk) && Askable(s.disk, r) && w.Fit(r) && Ready(s, s.fifo)
    requires Countdown(wait1, Dma.DEFER_TICKS) && Countdown(wait2, Dma.DEFER_TICKS)
    requires Pauses(p1, SelectScript(r)) && Pauses(p2, FirstScript(r, w)) && Pauses(p3, SecondScript(r, w))
    ensures var a, b, c := Paced(SelectScript(r), p1), Paced(FirstScript(r, w), p2) + wait1,
                           Paced(SecondScript(r, w), p3) + wait2;
            var t, v := Run(s, a + b), Run(s, a + b + c);
            && Halfway(s, t, r, w, StoredAll(s.ram, a + b))
            && Finished(s, v, r, w, StoredAll(t.ram, c))
            && Reads(s, a + b + c) == [INTR_BS + INTR_FC, INTR_BS]
  {
    var a, b, c := Paced(SelectScript(r), p1), Paced(FirstScript(r, w), p2) + wait1,
                   Paced(SecondScript(r, w), p3) + wait2;
    SelectScriptPhase(s, r, p1);
    var u := Run(s, a);
    SelectedStill(s, u, r);
    hide Step, Run, Ready, Selected, Halfway, Finished, Disk.Wf, SelectScript, FirstScript, SecondScript, Paced, StoredAll,
      Reads, Pauses, Countdown, Interrupted, Askable;
    FirstPiece(s, u, r, w, p2, wait1);
    RunAppend(s, a, b);
    StoredAppend(s.ram, a, b);
    ReadsAppend(s, a, b);
    var t := Run(s, a + b);
    SecondPiece(s, t, r, w, StoredAll(s.ram, a + b), p3, wait2);
    RunAppend(s, a + b, c);
    StoredAppend(s.ram, a + b, c);
    ReadsAppend(s, a + b, c);
  }
}
