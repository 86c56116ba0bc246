/** The DMA channel as next_scsi_dma.c keeps it, with the RAM buffer it copies into.
    Every method refines the function of the same operation in ScsiDma. */
module DmaDevice {
  import opened Bits
  import opened MainMemory
  import opened ScsiDma
  import Interrupts
  import Disk = ScsiDisk
  import DiskDevice

  class Channel {
    const disk: DiskDevice.Target
    const intr: Interrupts.Controller
    const ram: array<uint8>
    var next: uint32
    var limit: uint32
    var start: uint32
    var stop: uint32
    var saved: Scratch
    var initbuf: uint32
    var enable: bool
    var supdate: bool
    var complete: bool
    var busexc: bool
    var dev2m: bool
    var pending: bool
    var countdown: int
    var inward: bool
    var counter: uint32

    ghost predicate Valid()
      reads this, disk
    {
      && disk.Valid() && ram.Length == RAM_SIZE
      && ram as object != disk.tags as object && ram as object != disk.data as object
      && ram as object != disk.lines as object
    }

    ghost function Value(): State
      reads this
    {
      State(next, limit, start, stop, saved, initbuf, enable, supdate, complete, busexc, dev2m,
            pending, countdown, inward, counter)
    }

    constructor (disk: DiskDevice.Target, intr: Interrupts.Controller, ram: array<uint8>)
      requires disk.Valid() && ram.Length == RAM_SIZE
      requires ram as object != disk.tags as object && ram as object != disk.data as object
      requires ram as object != disk.lines as object
      ensures Valid() && Value() == RESET_STATE
      ensures this.disk == disk && this.intr == intr && this.ram == ram
    {
      this.disk, this.intr, this.ram := disk, intr, ram;
      next, limit, start, stop, saved, initbuf := 0, 0, 0, 0, [0, 0, 0, 0], 0;
      enable, supdate, complete, busexc, dev2m := false, false, true, false, false;
      pending, countdown, inward, counter := false, 0, false, 0;
    }

    method RegWrite(off: nat, value: uint32)
      modifies this
      ensures Value() == WriteReg(old(Value()), off, value)
    {
      match off
      case 0x4000 => saved := saved[0 := value];
      case 0x4004 => saved := saved[1 := value];
      case 0x4008 => saved := saved[2 := value];
      case 0x400C => saved := saved[3 := value];
      case 0x4010 => next := value;
      case 0x4014 => limit := value;
      case 0x4018 => start := value;
      case 0x401C => stop := value;
      case 0x4210 =>
        next := value;
        initbuf := value;
      case _ =>
    }

    method RegRead(off: nat) returns (value: uint32)
      ensures value == ReadReg(Value(), off)
    {
      match off
      case 0x4000 => value := saved[0];
      case 0x4004 => value := saved[1];
      case 0x4008 => value := saved[2];
      case 0x400C => value := saved[3];
      case 0x4010 => value := next;
      case 0x4014 => value := limit;
      case 0x4018 => value := start;
      case 0x401C => value := stop;
      case 0x4210 => value := initbuf;
      case _ => value := 0;
    }

    /** The CSR write, flag by flag in the order of the source. */
    method CsrWrite(value: uint32)
      modifies this`dev2m, this`complete, this`supdate, this`enable, this`pending, intr
      ensures (Value(), intr.Value()) == WriteCsr(old(Value()), old(intr.Value()), value)
    {
      hide Interrupts.Clear, HasBit;
      dev2m := HasBit(value, CSR_DEV2M);
      if HasBit(value, CSR_RESET) {
        Cancel();
      }
      if HasBit(value, CSR_SETSUPDATE) {
        supdate := true;
      }
      if HasBit(value, CSR_SETENABLE) {
        enable := true;
      }
      if HasBit(value, CSR_CLRCOMPLETE) {
        complete := false;
        intr.Lower(Interrupts.SCSI_DMA);
      }
    }

    /** The RESET part: the flags, the interrupt and the pending request go. */
    method Cancel()
      modifies this`complete, this`supdate, this`enable, this`pending, intr
      ensures !complete && !supdate && !enable && !pending
      ensures intr.Value() == Interrupts.Clear(old(intr.Value()), Interrupts.SCSI_DMA)
    {
      complete, supdate, enable := false, false, false;
      intr.Lower(Interrupts.SCSI_DMA);
      if pending {
        pending := false;
      }
    }

    /** next_scsi_dma_start_deferred. */
    method Start(towardsMemory: bool, bytes: uint32)
      modifies this`inward, this`counter, this`countdown, this`pending
      ensures Value() == StartDeferred(old(Value()), towardsMemory, bytes)
    {
      if pending {
        return;
      }
      inward, counter := towardsMemory, bytes;
      countdown, pending := DEFER_TICKS, true;
    }

    /** memcpy from the head of the target's buffer. */
    method CopyFromBuffer(off: nat, n: nat)
      requires Valid() && n <= disk.size && off + n <= RAM_SIZE
      modifies ram
      ensures ram[..] == Memcpy(old(ram[..]), off, disk.Value().buf[..n])
    {
      var from := disk.limit - disk.size;
      ghost var bytes := disk.Value().buf;
      var i := 0;
      while i < n
        invariant 0 <= i <= n
        invariant disk.Value().buf == bytes
        invariant forall j | 0 <= j < RAM_SIZE :: ram[j] == if off <= j < off + i then bytes[j - off] else old(ram[j])
      {
        ram[off + i] := disk.data[from + i];
        i := i + 1;
      }
    }

    /** Size of the next piece of an inward copy. */
    method NextChunk(left: uint32) returns (n: nat)
      requires Valid() && disk.size > 0 && next < limit && left > 0 && InRam(next)
      ensures n == ChunkSize(disk.size, next, limit, left)
    {
      n := disk.size;
      if n > limit - next {
        n := limit - next;
      }
      if n > left {
        n := left;
      }
      var phys := Normalise(next);
      var room := RAM_BASE + RAM_SIZE - phys;
      if n > room {
        n := room;
      }
      if phys < BANK_SEAM && phys + n > BANK_SEAM {
        n := BANK_SEAM - phys;
      }
    }

    /** The copy loop towards memory. */
    method PullIn(bytes: uint32) returns (left: uint32, total: nat)
      requires Valid()
      modifies this`next, this`busexc, disk, disk.tags, disk.lines, disk.data, ram
      ensures Valid()
      ensures var r := CopyIn(old(disk.Value()), old(next), limit, bytes, old(ram[..]));
              && disk.Value() == r.disk && next == r.next && ram[..] == r.ram && left == r.counter
              && busexc == (old(busexc) || r.busexc) && total == |r.taken|
    {
      hide CopyIn, Disk.Consume, Memcpy, InRam, RamOffset, Normalise, ChunkSize;
      left, total := bytes, 0;
      ghost var whole := CopyIn(disk.Value(), next, limit, bytes, ram[..]);
      while left > 0 && next < limit
        invariant Valid()
        invariant unchanged(this`limit) && busexc == old(busexc)
        invariant SameEnd(whole, CopyIn(disk.Value(), next, limit, left, ram[..]), total)
        decreases left
      {
        assert disk.Value().buf == [] <==> disk.size == 0;
        if disk.size <= 0 {
          break;
        }
        if !InRam(next) {
          busexc := true;
          break;
        }
        CopyInUnfolds(disk.Value(), next, limit, left, ram[..]);
        var n := NextChunk(left);
        CopyFromBuffer(RamOffset(next), n);
        disk.ConsumeBytes(n);
        next := next + n;
        left := left - n;
        total := total + n;
      }
      CopyInStops(disk.Value(), next, limit, left, ram[..]);
    }

    /** The loop that counts and discards outgoing bytes. */
    method PushOut(bytes: uint32) returns (left: uint32, total: nat)
      requires Valid()
      modifies this`next, disk`writePending, disk`phase
      ensures Valid()
      ensures (disk.Value(), next, left) == CopyOut(old(disk.Value()), old(next), limit, bytes)
      ensures total == bytes - left && Value() == old(Value()).(next := next)
    {
      hide Disk.ConsumeWrite;
      left, total := bytes, 0;
      ghost var whole := CopyOut(disk.Value(), next, limit, bytes);
      while left > 0 && next < limit
        invariant Valid() && unchanged(this`limit)
        invariant whole == CopyOut(disk.Value(), next, limit, left)
        invariant total + left == bytes
        decreases left
      {
        if disk.writePending == 0 {
          break;
        }
        var n := Min(Min(disk.writePending, limit - next), left);
        disk.ConsumeWriteBytes(n);
        next := next + n;
        left := left - n;
        total := total + n;
      }
    }

    method ClearException()
      modifies this`busexc
      ensures Value() == old(Value()).(busexc := false)
    {
      busexc := false;
    }

    method TransferIn(bytes: uint32) returns (left: uint32, total: nat)
      requires Valid() && enable
      modifies this, intr, disk, disk.tags, disk.lines, disk.data, ram
      ensures Valid()
      ensures var o := Transfer(old(Value()), old(disk.Value()), old(ram[..]), old(intr.Value()), true, bytes);
              && Value() == o.c && disk.Value() == o.disk && ram[..] == o.ram && intr.Value() == o.intr
              && left == o.counter && total == o.moved
    {
      hide CopyIn, CopyOut, ScsiDma.Conclude;
      busexc := false;
      left, total := PullIn(bytes);
      Conclude(left);
    }

    method TransferOut(bytes: uint32) returns (left: uint32, total: nat)
      requires Valid() && enable
      modifies this, intr, disk`writePending, disk`phase
      ensures Valid()
      ensures var o := Transfer(old(Value()), old(disk.Value()), old(ram[..]), old(intr.Value()), false, bytes);
              && Value() == o.c && disk.Value() == o.disk && ram[..] == o.ram && intr.Value() == o.intr
              && left == o.counter && total == o.moved
    {
      ghost var c := Value();
      assert c.next == next && c.limit == limit && c.enable;
      OutwardIs(c, disk.Value(), ram[..], intr.Value(), bytes);
      hide CopyIn, CopyOut, ScsiDma.Conclude, Transfer, Value, DiskDevice.Target.Value, Interrupts.Controller.Value;
      ClearException();
      left, total := PushOut(bytes);
      Conclude(left);
    }

    /** next_scsi_dma_transfer. */
    method Run(towardsMemory: bool, bytes: uint32) returns (left: uint32, total: nat)
      requires Valid()
      modifies this, intr, disk, disk.tags, disk.lines, disk.data, ram
      ensures Valid()
      ensures var o := Transfer(old(Value()), old(disk.Value()), old(ram[..]), old(intr.Value()), towardsMemory, bytes);
              && Value() == o.c && disk.Value() == o.disk && ram[..] == o.ram && intr.Value() == o.intr
              && left == o.counter && total == o.moved
    {
      hide CopyIn, CopyOut, ScsiDma.Conclude;
      if !enable {
        return bytes, 0;
      }
      if towardsMemory {
        left, total := TransferIn(bytes);
      } else {
        left, total := TransferOut(bytes);
      }
    }

    method Conclude(left: uint32)
      modifies this`next, this`limit, this`supdate, this`complete, this`enable, intr
      ensures (Value(), intr.Value()) == ScsiDma.Conclude(old(Value()), old(intr.Value()), left)
    {
      hide Interrupts.Set;
      if next >= limit && supdate {
        next, limit := start, stop;
        supdate := false;
      }
      if left == 0 || next >= limit || busexc {
        complete := true;
        enable := false;
        intr.Raise(Interrupts.SCSI_DMA);
      }
    }
  }

  /** The copies end alike, `q` having `total` bytes less to take. */
  ghost predicate SameEnd(r: Copy, q: Copy, total: nat) {
    && r.disk == q.disk && r.next == q.next && r.counter == q.counter && r.ram == q.ram && r.busexc == q.busexc
    && |r.taken| == total + |q.taken|
  }
}
