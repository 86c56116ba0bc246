/** The SCSI DMA channel of next_scsi_dma.c: control register, chunked copy into the
    bank-folded RAM, chaining, bus exceptions and the deferred completion. */
module ScsiDma {
  import opened Bits
  import opened MainMemory
  import Interrupts
  import Disk = ScsiDisk
  import Stream = SectorStream

  const CSR_SETENABLE := 0x0001_0000
  const CSR_SETSUPDATE := 0x0002_0000
  const CSR_DEV2M := 0x0004_0000
  const CSR_CLRCOMPLETE := 0x0008_0000
  const CSR_RESET := 0x0010_0000

  const DEFER_TICKS := 20

  type Scratch = q: seq<uint32> | |q| == 4 witness [0, 0, 0, 0]

  /** The channel registers, the CSR flags and the deferred request. */
  datatype State = State(
    next: uint32, limit: uint32, start: uint32, stop: uint32, saved: Scratch, initbuf: uint32,
    enable: bool, supdate: bool, complete: bool, busexc: bool, dev2m: bool,
    pending: bool, countdown: int, inward: bool, counter: uint32)

  const RESET_STATE := State(0, 0, 0, 0, [0, 0, 0, 0], 0, false, false, true, false, false, false, 0, false, 0)

  /** Register writes at $02004000..$02004210: four scratch words, the address
      registers, and an alias of `next` that is also remembered. */
  function WriteReg(c: State, off: nat, value: uint32): State {
    c.(saved := if off in {0x4000, 0x4004, 0x4008, 0x400C} then c.saved[(off - 0x4000) / 4 := value] else c.saved,
       next := if off == 0x4010 || off == 0x4210 then value else c.next,
       limit := if off == 0x4014 then value else c.limit,
       start := if off == 0x4018 then value else c.start,
       stop := if off == 0x401C then value else c.stop,
       initbuf := if off == 0x4210 then value else c.initbuf)
  }

  /** CSR write. The source applies RESET before the set bits and CLRCOMPLETE last. */
  function WriteCsr(c: State, intr: Interrupts.State, value: uint32): (State, Interrupts.State) {
    var reset := HasBit(value, CSR_RESET);
    var clear := HasBit(value, CSR_CLRCOMPLETE);
    var i := if reset then Interrupts.Clear(intr, Interrupts.SCSI_DMA) else intr;
    (c.(dev2m := HasBit(value, CSR_DEV2M),
        complete := c.complete && !reset && !clear,
        supdate := HasBit(value, CSR_SETSUPDATE) || (c.supdate && !reset),
        enable := HasBit(value, CSR_SETENABLE) || (c.enable && !reset),
        pending := c.pending && !reset),
     if clear then Interrupts.Clear(i, Interrupts.SCSI_DMA) else i)
  }

  const STATE_ENABLE := 0x0100_0000
  const STATE_SUPDATE := 0x0200_0000
  const STATE_COMPLETE := 0x0800_0000
  const STATE_BUSEXC := 0x1000_0000

  const REGISTERS: set<nat> := {0x4000, 0x4004, 0x4008, 0x400C, 0x4010, 0x4014, 0x4018, 0x401C, 0x4210}

  /** next_scsi_dma_reg_read. */
  function ReadReg(c: State, off: nat): uint32 {
    match off
    case 0x4000 => c.saved[0]
    case 0x4004 => c.saved[1]
    case 0x4008 => c.saved[2]
    case 0x400C => c.saved[3]
    case 0x4010 => c.next
    case 0x4014 => c.limit
    case 0x4018 => c.start
    case 0x401C => c.stop
    case 0x4210 => c.initbuf
    case _ => 0
  }

  /** next_scsi_dma_csr_read: the flags above the burst-buffer status, which is never 0. */
  function ReadCsr(c: State): uint32 {
    (if c.enable then STATE_ENABLE else 0) + (if c.supdate then STATE_SUPDATE else 0)
    + (if c.complete then STATE_COMPLETE else 0) + (if c.busexc then STATE_BUSEXC else 0) + 0x40
  }

  /** A new request is dropped while an older one is still waiting. */
  function StartDeferred(c: State, inward: bool, counter: uint32): State {
    if c.pending then c
    else c.(inward := inward, counter := counter, countdown := DEFER_TICKS, pending := true)
  }

  /** The deferred request is the same. */
  predicate SameRequest(c: State, d: State) {
    d.pending == c.pending && d.countdown == c.countdown && d.inward == c.inward && d.counter == c.counter
  }

  // --------------------------------------------------------------- the copying

  /** Result of a copy loop. `taken` is what left the SCSI side. */
  datatype Copy = Copy(disk: Disk.State, next: uint32, counter: uint32, ram: Ram, busexc: bool, taken: seq<uint8>)

  /** Size of the next piece: bounded by the buffer, the window, the counter, the end
      of RAM and the seam between the banks. */
  function ChunkSize(avail: nat, next: uint32, limit: uint32, counter: uint32): (n: nat)
    requires avail > 0 && next < limit && counter > 0 && InRam(next)
    ensures 1 <= n <= avail && n <= limit - next && n <= counter
    ensures Normalise(next) + n <= RAM_BASE + RAM_SIZE && RamOffset(next) + n <= RAM_SIZE
  {
    var phys := Normalise(next);
    var n := Min(Min(Min(avail, limit - next), counter), RAM_BASE + RAM_SIZE - phys);
    if phys < BANK_SEAM && phys + n > BANK_SEAM then BANK_SEAM - phys else n
  }

  /** Device to memory. */
  function CopyIn(disk: Disk.State, next: uint32, limit: uint32, counter: uint32, ram: Ram): Copy
    decreases counter
  {
    if counter == 0 || next >= limit || disk.buf == [] then Copy(disk, next, counter, ram, false, [])
    else if !InRam(next) then Copy(disk, next, counter, ram, true, [])
    else
      var n := ChunkSize(|disk.buf|, next, limit, counter);
      var ram' := Memcpy(ram, RamOffset(next), disk.buf[..n]);
      var rest := CopyIn(Disk.Consume(disk, n), next + n, limit, counter - n, ram');
      rest.(taken := disk.buf[..n] + rest.taken)
  }

  /** Memory to device: the bytes are counted and thrown away. */
  function CopyOut(disk: Disk.State, next: uint32, limit: uint32, counter: uint32): (r: (Disk.State, uint32, uint32))
    ensures r.2 <= counter
    decreases counter
  {
    if counter == 0 || next >= limit || disk.writePending == 0 then (disk, next, counter)
    else
      var n := Min(Min(disk.writePending, limit - next), counter);
      CopyOut(Disk.ConsumeWrite(disk, n), next + n, limit, counter - n)
  }

  datatype Outcome = Outcome(c: State, disk: Disk.State, ram: Ram, intr: Interrupts.State, counter: uint32, moved: nat)

  function Chain(c: State): State {
    if c.next >= c.limit && c.supdate then c.(next := c.start, limit := c.stop, supdate := false) else c
  }

  /** The end of a transfer that left `counter` bytes: chaining, then completion. */
  function Conclude(c: State, intr: Interrupts.State, counter: uint32): (State, Interrupts.State) {
    var d := Chain(c);
    if counter == 0 || d.next >= d.limit || d.busexc then
      (d.(complete := true, enable := false), Interrupts.Set(intr, Interrupts.SCSI_DMA))
    else (d, intr)
  }

  /** next_scsi_dma_transfer. */
  function Transfer(c: State, disk: Disk.State, ram: Ram, intr: Interrupts.State, inward: bool, counter: uint32): Outcome {
    if !c.enable then Outcome(c, disk, ram, intr, counter, 0)
    else if inward then
      var r := CopyIn(disk, c.next, c.limit, counter, ram);
      var (d, i) := Conclude(c.(next := r.next, busexc := r.busexc), intr, r.counter);
      Outcome(d, r.disk, r.ram, i, r.counter, |r.taken|)
    else
      var (disk', next, left) := CopyOut(disk, c.next, c.limit, counter);
      var (d, i) := Conclude(c.(next := next, busexc := false), intr, left);
      Outcome(d, disk', ram, i, left, counter - left)
  }

  // ---------------------------------------------------------------- properties

  lemma WindowAddress(next: uint32, n: nat, k: nat)
    requires WindowInRam(next, n) && k <= n && next + k < 0x1_0000_0000
    ensures k < n ==> InRam(next + k)
    ensures n > 0 ==> Normalise(next + k) == Normalise(next) + k
  {
  }

  lemma WindowJoin(next: uint32, n: nat, m: nat)
    requires n > 0 && WindowInRam(next, n) && next + n < 0x1_0000_0000 && WindowInRam(next + n, m)
    ensures WindowInRam(next, n + m)
  {
    WindowAddress(next, n, n);
  }

  lemma RamOffsetIsModulo(next: uint32)
    ensures RamOffset(next) == next % RAM_SIZE
  {
  }

  /** Bytes are conserved: what the counter loses, the address pointer gains and the
      SCSI side gives up; RAM changes in that window only, and is filled as by
      consecutive byte stores. */
  ghost predicate Conserved(next: uint32, limit: uint32, counter: uint32, ram: Ram, r: Copy) {
    && |r.taken| + r.counter == counter <= RAM_SIZE
    && r.next == next + |r.taken|
    && (r.taken != [] ==> r.next <= limit)
    && WindowInRam(next, |r.taken|)
    && r.ram == StoreAt(ram, next, r.taken)
    && (r.busexc ==> r.counter > 0 && r.next < limit && r.disk.buf != [] && !InRam(r.next))
    && (!r.busexc ==> r.counter == 0 || r.next >= limit || r.disk.buf == [])
  }

  lemma ConservedStep(next: uint32, limit: uint32, counter: uint32, ram: Ram, piece: seq<uint8>, ram': Ram, rest: Copy)
    requires 0 < |piece| <= counter && next + |piece| <= limit && WindowInRam(next, |piece|)
    requires |piece| <= RAM_SIZE && ram' == StoreAt(ram, next, piece)
    requires counter <= RAM_SIZE && Conserved(next + |piece|, limit, counter - |piece|, ram', rest)
    ensures Conserved(next, limit, counter, ram, rest.(taken := piece + rest.taken))
  {
    hide StoreAt, InRam, WindowInRam;
    StoreAtCompose(ram, next, piece, rest.taken);
    WindowJoin(next, |piece|, |rest.taken|);
  }

  lemma {:induction false} CopyInConserves(disk: Disk.State, next: uint32, limit: uint32, counter: uint32, ram: Ram)
    requires counter <= RAM_SIZE
    ensures Conserved(next, limit, counter, ram, CopyIn(disk, next, limit, counter, ram))
    decreases counter
  {
    hide StoreAt, Memcpy, Disk.Consume;
    if counter == 0 || next >= limit || disk.buf == [] || !InRam(next) {
      StoreAtNothing(ram, next);
    } else {
      var n := ChunkSize(|disk.buf|, next, limit, counter);
      var piece := disk.buf[..n];
      RamOffsetIsModulo(next);
      MemcpyIsStoreAt(ram, next, piece);
      var ram' := Memcpy(ram, RamOffset(next), piece);
      hide Conserved, ChunkSize;
      CopyInConserves(Disk.Consume(disk, n), next + n, limit, counter - n, ram');
      var rest := CopyIn(Disk.Consume(disk, n), next + n, limit, counter - n, ram');
      ConservedStep(next, limit, counter, ram, piece, ram', rest);
    }
  }

  lemma {:induction false} CopyInKeepsDisk(disk: Disk.State, next: uint32, limit: uint32, counter: uint32, ram: Ram)
    requires Disk.Wf(disk)
    ensures var r := CopyIn(disk, next, limit, counter, ram); Disk.Wf(r.disk) && Disk.SameMedium(disk, r.disk)
    decreases counter
  {
    hide Memcpy, Disk.Consume, Disk.Wf;
    if !(counter == 0 || next >= limit || disk.buf == [] || !InRam(next)) {
      var n := ChunkSize(|disk.buf|, next, limit, counter);
      Disk.ConsumeKeeps(disk, n);
      CopyInKeepsDisk(Disk.Consume(disk, n), next + n, limit, counter - n, Memcpy(ram, RamOffset(next), disk.buf[..n]));
    }
  }

  predicate CopyGoesOn(disk: Disk.State, next: uint32, limit: uint32, counter: uint32) {
    counter > 0 && next < limit && disk.buf != [] && InRam(next)
  }

  lemma CopyInUnfolds(disk: Disk.State, next: uint32, limit: uint32, counter: uint32, ram: Ram)
    requires CopyGoesOn(disk, next, limit, counter)
    ensures var n := ChunkSize(|disk.buf|, next, limit, counter);
            var rest := CopyIn(Disk.Consume(disk, n), next + n, limit, counter - n,
                               Memcpy(ram, RamOffset(next), disk.buf[..n]));
            CopyIn(disk, next, limit, counter, ram) == rest.(taken := disk.buf[..n] + rest.taken)
  {
    hide Memcpy, Disk.Consume, RamOffset, InRam, ChunkSize;
  }

  lemma CopyInStops(disk: Disk.State, next: uint32, limit: uint32, counter: uint32, ram: Ram)
    requires !CopyGoesOn(disk, next, limit, counter)
    ensures var r := CopyIn(disk, next, limit, counter, ram);
            && r.disk == disk && r.taken == [] && r.next == next && r.counter == counter && r.ram == ram
            && (r.busexc <==> counter > 0 && next < limit && disk.buf != [])
  {
    hide Memcpy, Disk.Consume, RamOffset, InRam, ChunkSize;
  }

  /** The copy loop is one of the host's ways of draining a READ: it takes the bytes
      owed, in order. */
  lemma {:induction false} CopyInDrains(disk: Disk.State, next: uint32, limit: uint32, counter: uint32, ram: Ram)
    requires Stream.Streaming(disk)
    ensures var r := CopyIn(disk, next, limit, counter, ram); Stream.Delivered(disk, r.disk, r.taken)
    decreases counter
  {
    hide CopyIn, Memcpy, Disk.Consume, Stream.Delivered, Stream.Streaming, InRam, RamOffset, ChunkSize;
    if !CopyGoesOn(disk, next, limit, counter) {
      CopyInStops(disk, next, limit, counter, ram);
      Stream.DeliveredNothing(disk);
    } else {
      CopyInUnfolds(disk, next, limit, counter, ram);
      var n := ChunkSize(|disk.buf|, next, limit, counter);
      var piece := disk.buf[..n];
      var ram' := Memcpy(ram, RamOffset(next), piece);
      var e := Disk.Consume(disk, n);
      assert Stream.PullBytes(disk, Stream.Chunk(n)) == (e, piece);
      Stream.PullStep(disk, Stream.Chunk(n));
      var rest := CopyIn(e, next + n, limit, counter - n, ram');
      if e.phase == Disk.DataIn {
        Stream.DeliveredStreams(disk, e, piece);
        CopyInDrains(e, next + n, limit, counter - n, ram');
        Stream.DeliveredJoin(disk, e, rest.disk, piece, rest.taken);
      } else {
        Stream.EndedIsEmpty(disk, e, piece);
        CopyInStops(e, next + n, limit, counter - n, ram');
        assert piece + [] == piece;
      }
    }
  }

  /** A request is carried out up to the end of the window, if RAM and the stream carry
      that much. */
  lemma CopyInFills(disk: Disk.State, next: uint32, limit: uint32, counter: uint32, ram: Ram)
    requires Stream.Streaming(disk) && 0 < counter <= RAM_SIZE && next < limit
    requires WindowInRam(next, Min(counter, limit - next))
    requires Min(counter, limit - next) <= |Stream.Owed(disk)| && Stream.Readable(disk, disk.lba, disk.blocks)
    ensures var r, n := CopyIn(disk, next, limit, counter, ram), Min(counter, limit - next);
            && r.counter == counter - n && !r.busexc && r.taken == Stream.Owed(disk)[..n]
            && r.next == next + n
            && r.ram == StoreAt(ram, next, Stream.Owed(disk)[..n])
            && r.disk.status == Disk.STATUS_GOOD && r.disk.message == disk.message
            && (if n < |Stream.Owed(disk)| then
                  Stream.Streaming(r.disk) && Stream.Owed(r.disk) == Stream.Owed(disk)[n..]
                  && Stream.Readable(r.disk, r.disk.lba, r.disk.blocks)
                else r.disk.phase == Disk.Status)
  {
    hide StoreAt, CopyIn, Disk.CacheOk;
    CopyInConserves(disk, next, limit, counter, ram);
    CopyInDrains(disk, next, limit, counter, ram);
    var r, n := CopyIn(disk, next, limit, counter, ram), Min(counter, limit - next);
    if r.disk.phase != Disk.DataIn {
      var missing :| r.taken + missing == Stream.Owed(disk) && Stream.Ended(r.disk, missing);
      assert r.disk.blocks == 0;
      assert r.taken == Stream.Owed(disk);
    } else {
      assert r.taken == Stream.Owed(disk)[..|r.taken|];
      assert Stream.Owed(r.disk) == Stream.Owed(disk)[|r.taken|..];
      assert Stream.Owed(r.disk) != [];
    }
    WindowAddress(next, n, |r.taken|);
  }

  /** A request for no more than the window can carry is carried out in full. */
  lemma CopyInCompletes(disk: Disk.State, next: uint32, limit: uint32, counter: uint32, ram: Ram)
    requires Stream.Streaming(disk) && 0 < counter <= RAM_SIZE
    requires limit - next >= counter && WindowInRam(next, counter)
    requires counter <= |Stream.Owed(disk)| && Stream.Readable(disk, disk.lba, disk.blocks)
    ensures var r := CopyIn(disk, next, limit, counter, ram);
            && r.counter == 0 && !r.busexc && r.taken == Stream.Owed(disk)[..counter]
            && r.next == next + counter
            && r.ram == StoreAt(ram, next, Stream.Owed(disk)[..counter])
            && r.disk.status == Disk.STATUS_GOOD
            && (r.disk.phase == Disk.DataIn <==> counter < |Stream.Owed(disk)|)
            && r.disk.phase in {Disk.DataIn, Disk.Status} && r.disk.message == disk.message
  {
    hide StoreAt, CopyIn, Disk.Wf, Stream.Owed, Stream.Readable, WindowInRam;
    CopyInFills(disk, next, limit, counter, ram);
  }

  /** The transfer such a request results in. */
  lemma TransferCompletes(c: State, disk: Disk.State, ram: Ram, intr: Interrupts.State, counter: uint32)
    requires Stream.Streaming(disk) && 0 < counter <= RAM_SIZE
    requires c.enable && c.limit - c.next >= counter && WindowInRam(c.next, counter)
    requires counter <= |Stream.Owed(disk)| && Stream.Readable(disk, disk.lba, disk.blocks)
    ensures var o := Transfer(c, disk, ram, intr, true, counter);
            && o.counter == 0 && o.moved == counter
            && o.ram == StoreAt(ram, c.next, Stream.Owed(disk)[..counter])
            && o.c.complete && !o.c.enable && !o.c.busexc && o.c.pending == c.pending
            && o.disk.status == Disk.STATUS_GOOD && o.disk.message == disk.message
            && o.disk.phase == (if counter < |Stream.Owed(disk)| then Disk.DataIn else Disk.Status)
            && Interrupts.SCSI_DMA in o.intr.status
  {
    hide StoreAt, CopyIn, Disk.CacheOk, Stream.Owed, Stream.Readable, WindowInRam, Interrupts.PendingIpl;
    CopyInCompletes(disk, c.next, c.limit, counter, ram);
  }

  /** What ends a transfer that stands at `at` with `left` bytes to go: the counter, a bus
      exception, or a window at its end with no other, non-empty one to go on with. */
  predicate Ends(c: State, at: int, left: nat, busexc: bool) {
    left == 0 || busexc || (at >= c.limit && (c.supdate ==> c.start >= c.stop))
  }

  /** Chaining, in both directions: a transfer that reaches its limit with SUPDATE set goes
      on from the start register up to the stop register, once; any other keeps its
      window, moved on by what was copied. COMPLETE, the interrupt and the end of ENABLE
      come together, exactly when the transfer ends. */
  lemma TransferChains(c: State, disk: Disk.State, ram: Ram, intr: Interrupts.State, inward: bool, counter: uint32)
    requires c.enable && counter <= RAM_SIZE
    ensures var o := Transfer(c, disk, ram, intr, inward, counter);
            var at := c.next + o.moved;
            && (if at >= c.limit && c.supdate then o.c.next == c.start && o.c.limit == c.stop && !o.c.supdate
                else o.c.next == at && o.c.limit == c.limit && o.c.supdate == c.supdate)
            && o.c.start == c.start && o.c.stop == c.stop && o.c.saved == c.saved && o.c.initbuf == c.initbuf
            && o.moved + o.counter == counter
            && (o.c.complete <==> c.complete || Ends(c, at, o.counter, o.c.busexc))
            && (o.c.enable <==> !Ends(c, at, o.counter, o.c.busexc))
            && o.intr == (if Ends(c, at, o.counter, o.c.busexc) then Interrupts.Set(intr, Interrupts.SCSI_DMA) else intr)
            && (o.c.busexc ==> inward && !InRam(at) && at < c.limit)
  {
    hide CopyIn, CopyOut, Conclude, Ends, Transfer;
    if inward {
      InwardIs(c, disk, ram, intr, counter);
      CopyInConserves(disk, c.next, c.limit, counter, ram);
      var r := CopyIn(disk, c.next, c.limit, counter, ram);
      ConcludeChains(c, r.next, r.busexc, intr, r.counter);
    } else {
      OutwardIs(c, disk, ram, intr, counter);
      CopyOutConserves(disk, c.next, c.limit, counter);
      var (_, next, left) := CopyOut(disk, c.next, c.limit, counter);
      ConcludeChains(c, next, false, intr, left);
    }
    hide StoreAt, WindowInRam;
  }

  lemma InwardIs(c: State, disk: Disk.State, ram: Ram, intr: Interrupts.State, counter: uint32)
    requires c.enable
    ensures var r := CopyIn(disk, c.next, c.limit, counter, ram);
            var (d, i) := Conclude(c.(next := r.next, busexc := r.busexc), intr, r.counter);
            Transfer(c, disk, ram, intr, true, counter) == Outcome(d, r.disk, r.ram, i, r.counter, |r.taken|)
  {
    hide CopyIn, Conclude;
  }

  lemma OutwardIs(c: State, disk: Disk.State, ram: Ram, intr: Interrupts.State, counter: uint32)
    requires c.enable
    ensures var (after, next, left) := CopyOut(disk, c.next, c.limit, counter);
            var (d, i) := Conclude(c.(next := next, busexc := false), intr, left);
            Transfer(c, disk, ram, intr, false, counter) == Outcome(d, after, ram, i, left, counter - left)
  {
    hide CopyOut, Conclude;
  }

  lemma ConcludeChains(c: State, at: uint32, busexc: bool, intr: Interrupts.State, left: uint32)
    ensures var (d, i) := Conclude(c.(next := at, busexc := busexc), intr, left);
            && (if at >= c.limit && c.supdate then d.next == c.start && d.limit == c.stop && !d.supdate
                else d.next == at && d.limit == c.limit && d.supdate == c.supdate)
            && d.start == c.start && d.stop == c.stop && d.saved == c.saved && d.initbuf == c.initbuf && d.busexc == busexc
            && (d.complete <==> c.complete || Ends(c, at, left, busexc))
            && (d.enable <==> c.enable && !Ends(c, at, left, busexc))
            && i == (if Ends(c, at, left, busexc) then Interrupts.Set(intr, Interrupts.SCSI_DMA) else intr)
  {
    hide Interrupts.Set;
  }

  /** An inward transfer up to the end of its window. */
  lemma TransferFills(c: State, disk: Disk.State, ram: Ram, intr: Interrupts.State, counter: uint32)
    requires Stream.Streaming(disk) && 0 < counter <= RAM_SIZE && c.enable && c.next < c.limit
    requires WindowInRam(c.next, Min(counter, c.limit - c.next))
    requires Min(counter, c.limit - c.next) <= |Stream.Owed(disk)| && Stream.Readable(disk, disk.lba, disk.blocks)
    ensures var o, n := Transfer(c, disk, ram, intr, true, counter), Min(counter, c.limit - c.next);
            && o.moved == n && o.counter == counter - n && !o.c.busexc
            && o.ram == StoreAt(ram, c.next, Stream.Owed(disk)[..n])
            && o.disk.status == Disk.STATUS_GOOD && o.disk.message == disk.message
            && (if n < |Stream.Owed(disk)| then
                  Stream.Streaming(o.disk) && Stream.Owed(o.disk) == Stream.Owed(disk)[n..]
                  && Stream.Readable(o.disk, o.disk.lba, o.disk.blocks)
                else o.disk.phase == Disk.Status)
            && SameRequest(c, o.c)
  {
    hide StoreAt, CopyIn, Disk.Wf, Stream.Owed, Stream.Readable, WindowInRam, Interrupts.Set;
    CopyInFills(disk, c.next, c.limit, counter, ram);
  }

  /** The outward copy conserves bytes too, and never touches RAM. */
  lemma CopyOutConserves(disk: Disk.State, next: uint32, limit: uint32, counter: uint32)
    ensures var (d, n, left) := CopyOut(disk, next, limit, counter);
            && left <= counter && n == next + (counter - left)
            && d.writePending + (counter - left) == disk.writePending
            && d == disk.(writePending := d.writePending, phase := d.phase)
            && d.phase == (if left < counter && d.writePending == 0 then Disk.Status else disk.phase)
            && (left == 0 || n >= limit || d.writePending == 0)
            && (left != counter ==> n <= limit)
    decreases counter
  {
  }

  /** An outward transfer takes as many bytes as counter, window and target all allow, and
      the target goes to Status with the last it asked for. */
  lemma TransferTakes(c: State, disk: Disk.State, ram: Ram, intr: Interrupts.State, counter: uint32)
    requires c.enable && disk.writePending > 0 && counter > 0 && c.next < c.limit
    ensures var o, n := Transfer(c, disk, ram, intr, false, counter),
                        Min(Min(disk.writePending, c.limit - c.next), counter);
            && o.moved == n && o.counter == counter - n && o.ram == ram && !o.c.busexc
            && o.disk == disk.(writePending := disk.writePending - n,
                               phase := if n == disk.writePending then Disk.Status else disk.phase)
  {
    hide Conclude;
    var n := Min(Min(disk.writePending, c.limit - c.next), counter);
    var d := Disk.ConsumeWrite(disk, n);
    assert CopyOut(disk, c.next, c.limit, counter) == CopyOut(d, c.next + n, c.limit, counter - n);
    assert CopyOut(d, c.next + n, c.limit, counter - n) == (d, c.next + n, counter - n);
    hide CopyOut;
    ConcludeFlags(c.(next := c.next + n, busexc := false), intr, counter - n);
  }

  lemma ConcludeFlags(c: State, intr: Interrupts.State, counter: uint32)
    ensures Conclude(c, intr, counter).0.busexc == c.busexc
  {
    hide Interrupts.Set;
  }

  lemma ConcludeKeeps(c: State, intr: Interrupts.State, counter: uint32)
    requires Interrupts.CountOk(intr)
    ensures var (d, i) := Conclude(c, intr, counter);
            && SameRequest(c, d)
            && Interrupts.CountOk(i) && (Interrupts.LevelOk(intr) ==> Interrupts.LevelOk(i))
            && (i.status == intr.status || i.status == intr.status + {Interrupts.SCSI_DMA})
            && i.countdown == intr.countdown && i.scr2 == intr.scr2 && i.mask == intr.mask
  {
    hide Interrupts.LevelOk, Interrupts.PendingIpl;
    Interrupts.SetKeepsLevel(intr, Interrupts.SCSI_DMA);
  }

  /** What any transfer keeps, whatever the registers hold. */
  lemma TransferKeeps(c: State, disk: Disk.State, ram: Ram, intr: Interrupts.State, inward: bool, counter: uint32)
    requires Disk.Wf(disk) && counter <= 0x1_0000
    requires Interrupts.CountOk(intr)
    ensures var o := Transfer(c, disk, ram, intr, inward, counter);
            && Disk.Wf(o.disk) && Disk.SameMedium(disk, o.disk)
            && o.counter <= counter && o.moved == counter - o.counter
            && Interrupts.CountOk(o.intr) && (Interrupts.LevelOk(intr) ==> Interrupts.LevelOk(o.intr))
            && (o.intr.status == intr.status || o.intr.status == intr.status + {Interrupts.SCSI_DMA})
            && o.intr.countdown == intr.countdown && o.intr.scr2 == intr.scr2 && o.intr.mask == intr.mask
            && SameRequest(c, o.c)
  {
    hide CopyIn, CopyOut, Disk.CacheOk, Interrupts.CountOk, Interrupts.LevelOk, Conclude, StoreAt;
    CopyInKeepsDisk(disk, c.next, c.limit, counter, ram);
    CopyInConserves(disk, c.next, c.limit, counter, ram);
    CopyOutConserves(disk, c.next, c.limit, counter);
    var r := CopyIn(disk, c.next, c.limit, counter, ram);
    var (d, next, left) := CopyOut(disk, c.next, c.limit, counter);
    ConcludeKeeps(c.(next := r.next, busexc := r.busexc), intr, r.counter);
    ConcludeKeeps(c.(next := next, busexc := false), intr, left);
  }

  /** Why an unchained inward transfer stopped can be read off what it leaves: data
      still waiting under an open window and a live counter means a bus exception,
      and completion is withheld exactly when the target ran dry first. */
  lemma TransferCompletion(c: State, disk: Disk.State, ram: Ram, intr: Interrupts.State, counter: uint32)
    requires c.enable && !c.complete && !c.supdate && counter <= 0x1_0000
    ensures var o := Transfer(c, disk, ram, intr, true, counter);
            var short := o.counter > 0 && o.c.next < o.c.limit;
            && (o.c.busexc <==> short && o.disk.buf != [])
            && (o.c.complete <==> !short || o.disk.buf != [])
            && (o.c.enable <==> !o.c.complete)
            && (o.c.busexc ==> !InRam(o.c.next))
            && (o.c.complete ==> Interrupts.SCSI_DMA in o.intr.status)
  {
    hide Disk.Consume, StoreAt, CopyIn, Interrupts.PendingIpl;
    CopyInConserves(disk, c.next, c.limit, counter, ram);
  }

  /** A register written reads back, and no other reads differently for it, but for the
      buffer pointer that the init register sets too. */
  lemma WrittenRegisterReadsBack(c: State, off: nat, value: uint32, other: nat)
    requires off in REGISTERS
    ensures ReadReg(WriteReg(c, off, value), other) ==
            if other == off || (off == 0x4210 && other == 0x4010) then value else ReadReg(c, other)
  {
  }

  /** The flags as the CPU reads them, in a word that is never 0. */
  lemma CsrShowsFlags(c: State)
    ensures var v := ReadCsr(c);
            && (HasBit(v, STATE_ENABLE) <==> c.enable) && (HasBit(v, STATE_SUPDATE) <==> c.supdate)
            && (HasBit(v, STATE_COMPLETE) <==> c.complete) && (HasBit(v, STATE_BUSEXC) <==> c.busexc)
            && v % 0x100_0000 == 0x40 && v < 0x2000_0000 && !HasBit(v, 0x0400_0000)
  {
  }

  /** What the CPU reads back after a CSR write: RESET takes ENABLE, SUPDATE and COMPLETE
      away before the set bits are applied, CLRCOMPLETE takes COMPLETE away, and BUSEXC
      stays. */
  lemma WrittenCsrReadsBack(c: State, intr: Interrupts.State, value: uint32)
    ensures var (v, w) := (ReadCsr(c), ReadCsr(WriteCsr(c, intr, value).0));
            var reset := HasBit(value, CSR_RESET);
            && (HasBit(w, STATE_ENABLE) <==> HasBit(value, CSR_SETENABLE) || (HasBit(v, STATE_ENABLE) && !reset))
            && (HasBit(w, STATE_SUPDATE) <==> HasBit(value, CSR_SETSUPDATE) || (HasBit(v, STATE_SUPDATE) && !reset))
            && (HasBit(w, STATE_COMPLETE) <==> HasBit(v, STATE_COMPLETE) && !reset && !HasBit(value, CSR_CLRCOMPLETE))
            && (HasBit(w, STATE_BUSEXC) <==> HasBit(v, STATE_BUSEXC))
  {
    CsrShowsFlags(c);
    hide HasBit, ReadCsr, Interrupts.Clear;
    CsrShowsFlags(WriteCsr(c, intr, value).0);
  }

  /** A CSR write touches the flags, the pending request and its own interrupt line;
      RESET cancels the request but leaves a bus exception standing, which only the
      next transfer takes down. */
  lemma WriteCsrKeeps(c: State, intr: Interrupts.State, value: uint32)
    requires Interrupts.CountOk(intr)
    ensures var (d, i) := WriteCsr(c, intr, value);
            && d == c.(dev2m := d.dev2m, complete := d.complete, supdate := d.supdate, enable := d.enable,
                       pending := c.pending && !HasBit(value, CSR_RESET))
            && d.busexc == c.busexc
            && Interrupts.CountOk(i) && i.scr2 == intr.scr2 && i.mask == intr.mask
            && i.status == (if HasBit(value, CSR_RESET) || HasBit(value, CSR_CLRCOMPLETE)
                            then intr.status - {Interrupts.SCSI_DMA} else intr.status)
            && (Interrupts.LevelOk(intr) ==> Interrupts.LevelOk(i))
  {
    hide Interrupts.Clear, Interrupts.CountOk, Interrupts.LevelOk, HasBit;
    Interrupts.ClearKeepsLevel(intr, Interrupts.SCSI_DMA);
    Interrupts.ClearKeepsLevel(Interrupts.Clear(intr, Interrupts.SCSI_DMA), Interrupts.SCSI_DMA);
  }
}
