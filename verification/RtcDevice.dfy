/** The clock chip in place: a register array, the serial state machine, and the NVRAM
    image with its checksum. */
module RtcDevice {
  import opened Bits
  import opened Rtc

  const NVRAM_WORDS := 16
  const SOFT_EPOCH := 3_913_401_600

  /** Word `i` of the NVRAM image, high byte first. */
  function Word(regs: RegFile, i: nat): nat
    requires i < NVRAM_WORDS
  {
    256 * (regs[2 * i] as int) + regs[2 * i + 1]
  }

  function WordSum(regs: RegFile, n: nat): nat
    requires n <= NVRAM_WORDS
  {
    if n == 0 then 0 else WordSum(regs, n - 1) + Word(regs, n - 1)
  }

  /** The ones-complement sum the ROM takes: each carry is added back at the bottom. */
  function EndAround(regs: RegFile, n: nat): nat
    requires n <= NVRAM_WORDS
  {
    if n == 0 then 0
    else
      var sum := EndAround(regs, n - 1) + Word(regs, n - 1);
      if sum > 0xFFFF then sum % 0x1_0000 + 1 else sum
  }

  /** The 16-bit value that stands for `sum` when carries wrap round. */
  function Wrapped(sum: nat): nat {
    if sum == 0 then 0 else (sum - 1) % 0xFFFF + 1
  }

  lemma {:induction false} EndAroundIsWrapped(regs: RegFile, n: nat)
    requires n <= NVRAM_WORDS
    ensures EndAround(regs, n) == Wrapped(WordSum(regs, n))
  {
    if n > 0 {
      EndAroundIsWrapped(regs, n - 1);
      var acc, sum, w := EndAround(regs, n - 1), WordSum(regs, n - 1), Word(regs, n - 1);
      assert 0 <= w <= 0xFFFF;
      WrapAdds(sum, w);
    }
  }

  lemma WrapAdds(sum: nat, w: nat)
    requires w <= 0xFFFF
    ensures var s := Wrapped(sum) + w;
            Wrapped(sum + w) == if s > 0xFFFF then s % 0x1_0000 + 1 else s
  {
  }

  lemma {:induction false} SumOfPrefix(a: RegFile, b: RegFile, n: nat)
    requires n <= NVRAM_WORDS && a[..2 * n] == b[..2 * n]
    ensures WordSum(a, n) == WordSum(b, n)
  {
    if n > 0 {
      assert a[..2 * n][..2 * n - 2] == a[..2 * n - 2] && b[..2 * n][..2 * n - 2] == b[..2 * n - 2];
      assert a[..2 * n][2 * n - 2] == b[..2 * n][2 * n - 2] && a[..2 * n][2 * n - 1] == b[..2 * n][2 * n - 1];
      SumOfPrefix(a, b, n - 1);
    }
  }

  /** The complement of the wrapped sum brings the whole image to all ones. */
  lemma ChecksumBalances(sum: nat)
    ensures Wrapped(sum) <= 0xFFFF && Wrapped(sum + (0xFFFF - Wrapped(sum))) == 0xFFFF
  {
  }

  lemma FoldKeeps(sum: nat)
    ensures Wrapped(sum % 0x1_0000 + sum / 0x1_0000) == Wrapped(sum)
  {
  }

  lemma FoldedIsWrapped(sum: nat)
    ensures Wrapped(sum) == sum <==> sum <= 0xFFFF
  {
  }

  lemma ChecksumStored(blank: RegFile, image: RegFile, cksum: nat)
    requires blank[30] == blank[31] == 0 && image[..30] == blank[..30]
    requires Word(image, 15) == cksum == 0xFFFF - Wrapped(WordSum(blank, NVRAM_WORDS))
    ensures EndAround(image, NVRAM_WORDS) == 0xFFFF
  {
    var total := WordSum(blank, NVRAM_WORDS);
    assert total == WordSum(blank, 15) + Word(blank, 15);
    assert WordSum(image, NVRAM_WORDS) == WordSum(image, 15) + Word(image, 15);
    hide WordSum, EndAround, Wrapped;
    SumOfPrefix(blank, image, 15);
    EndAroundIsWrapped(image, NVRAM_WORDS);
    ChecksumBalances(total);
  }

  lemma SnapshotSparesImage(image: RegFile, after: RegFile, secs: uint32)
    requires after == Snapshot(image, secs)
    ensures EndAround(after, NVRAM_WORDS) == EndAround(image, NVRAM_WORDS)
    ensures after[CNTR0..CNTR0 + 4] == CounterBytes(secs)
    ensures after[STATUS] == image[STATUS] && after[CONTROL] == image[CONTROL]
  {
    hide WordSum, EndAround;
    SumOfPrefix(image, after, NVRAM_WORDS);
    EndAroundIsWrapped(image, NVRAM_WORDS);
    EndAroundIsWrapped(after, NVRAM_WORDS);
  }

  class Chip {
    const regs: array<uint8>
    var phase: Phase
    var count: nat
    var shiftIn: uint8
    var shiftOut: uint8
    var address: uint8
    var isWrite: bool
    var dataBit: bool
    var prevClk: bool
    var ce: bool
    var seconds: uint32
    const soft: bool

    ghost predicate Valid()
    {
      regs.Length == 64
    }

    ghost function Value(): State
      requires Valid()
      reads this, regs
    {
      State(regs[..], phase, count, shiftIn, shiftOut, address, isWrite, dataBit, prevClk, ce, seconds, soft)
    }

    /** Power-on state: the default NVRAM image, checksummed, and a counter snapshot. */
    constructor (soft: bool)
      ensures Valid() && fresh(regs) && this.soft == soft
      ensures !ce && phase.Resting?
      ensures EndAround(regs[..], NVRAM_WORDS) == 0xFFFF
      ensures regs[STATUS] == 0x80 && regs[CONTROL] == 0x80
      ensures regs[CNTR0..CNTR0 + 4] == CounterBytes(Clock(Value()))
    {
      regs := new uint8[64](_ => 0);
      phase, count, shiftIn, shiftOut, address := Resting, 0, 0, 0, 0;
      isWrite, dataBit, prevClk, ce := false, false, false, false;
      seconds := if soft then SOFT_EPOCH else 0;
      this.soft := soft;
      new;
      hide EndAround, WordSum, CounterBytes;
      regs[STATUS], regs[CONTROL] := 0x80, 0x80;
      StoreDefaults();
      StoreChecksum();
      ghost var image := regs[..];
      TakeSnapshot();
      SnapshotSparesImage(image, regs[..], Clock(Value()));
    }

    /** Configuration, SIMM sizes, power-on test flags, clock chip type and boot command. */
    method StoreDefaults()
      requires Valid()
      modifies regs
      ensures regs[32..] == old(regs[32..])
    {
      regs[0], regs[1], regs[2], regs[3] := 0x94, 0x0F, 0x40, 0x00;
      regs[10], regs[11], regs[14], regs[17] := 0x02, 0x49, 0x21, 0x80;
      regs[18], regs[19] := 's' as int, 'd' as int;
      regs[0] := SetBit(regs[0], 8);
    }

    /** Whatever bytes 0 to 29 hold, afterwards the end-around sum of all sixteen words is
        all ones. */
    method StoreChecksum()
      requires Valid()
      modifies regs
      ensures regs[..30] == old(regs[..30]) && regs[32..] == old(regs[32..])
      ensures EndAround(regs[..], NVRAM_WORDS) == 0xFFFF
    {
      hide EndAround, Wrapped;
      regs[30], regs[31] := 0, 0;
      ghost var blank := regs[..];
      assert blank[..30] == old(regs[..30]) && blank[32..] == old(regs[32..]);
      var sum: nat := 0;
      for i := 0 to NVRAM_WORDS
        invariant regs[..] == blank && sum == WordSum(blank, i)
      {
        sum := sum + Word(regs[..], i);
      }
      ghost var total := sum;
      while sum > 0xFFFF
        invariant regs[..] == blank && Wrapped(sum) == Wrapped(total)
      {
        FoldKeeps(sum);
        sum := sum % 0x1_0000 + sum / 0x1_0000;
      }
      FoldedIsWrapped(sum);
      var cksum := 0xFFFF - sum;
      hide WordSum;
      regs[30], regs[31] := cksum / 256, cksum % 256;
      assert regs[..30] == blank[..30] && regs[32..] == blank[32..];
      ChecksumStored(blank, regs[..], cksum);
    }

    method TakeSnapshot()
      requires Valid()
      modifies regs
      ensures regs[..] == Snapshot(old(regs[..]), Clock(old(Value())))
    {
      var secs := if soft then seconds else EPOCH;
      regs[CNTR0] := secs / 0x100_0000;
      regs[0x21] := secs / 0x1_0000 % 256;
      regs[0x22] := secs / 256 % 256;
      regs[CNTR3] := secs % 256;
    }

    method ReadReg(addr: uint8) returns (value: uint8)
      requires Valid()
      modifies regs
      ensures Value().(shiftOut := value) == Load(old(Value()), addr)
    {
      if addr % 64 == CNTR0 {
        TakeSnapshot();
      }
      value := regs[addr % 64];
    }

    method WriteReg(addr: uint8, value: uint8)
      requires Valid()
      modifies regs, this`seconds
      ensures Value() == RegWrite(old(Value()), Write(addr % 64, value))
    {
      var reg := addr % 64;
      regs[reg] := value;
      if reg == CNTR3 && soft {
        var (b0: int, b1: int, b2: int) := (regs[CNTR0], regs[0x21], regs[0x22]);
        seconds := b0 * 0x100_0000 + b1 * 0x1_0000 + b2 * 256 + regs[CNTR3];
      }
    }

    /** One write to SCR2. */
    method WriteScr2(p: Pins)
      requires Valid()
      modifies this, regs
      ensures Value() == Step(old(Value()), Scr2(p))
    {
      var oldCe := ce;
      ce := p.ce;
      if p.ce && !oldCe {
        phase, count, shiftIn, shiftOut, address := Addressing, 0, 0, 0, 0;
        isWrite, dataBit, prevClk := false, false, p.clk;
        return;
      }
      if !p.ce {
        if oldCe && phase.Transferring? && isWrite && count == 8 {
          WriteReg(address, shiftIn);
        }
        phase, dataBit, prevClk := Resting, false, false;
        return;
      }
      if phase.Resting? {
        prevClk := p.clk;
        return;
      }
      var fall, rise := prevClk && !p.clk, !prevClk && p.clk;
      prevClk := p.clk;
      if phase.Addressing? {
        if fall {
          ClockAddress(p.data);
        }
      } else if isWrite {
        if fall {
          ClockIn(p.data);
        }
      } else if rise {
        ClockOut();
      }
    }

    method ClockAddress(data: bool)
      requires Valid()
      modifies this, regs
      ensures Value() == AddressBit(old(Value()), data)
    {
      shiftIn := ShiftIn(shiftIn, data);
      count := count + 1;
      if count == 8 {
        address := shiftIn;
        isWrite := address >= 128;
        phase, count, shiftIn := Transferring, 0, 0;
        if !isWrite {
          var value := ReadReg(address);
          shiftOut := value;
        }
      }
    }

    method ClockIn(data: bool)
      requires Valid()
      modifies this, regs
      ensures Value() == DataBitIn(old(Value()), data)
    {
      shiftIn := ShiftIn(shiftIn, data);
      count := count + 1;
      if count == 8 {
        WriteReg(address, shiftIn);
        address := NextAddress(address);
        count, shiftIn := 0, 0;
      }
    }

    method ClockOut()
      requires Valid()
      modifies this, regs
      ensures Value() == DataBitOut(old(Value()))
    {
      if count == 8 {
        address := NextAddress(address);
        var value := ReadReg(address);
        shiftOut := value;
        count := 0;
      }
      dataBit := shiftOut >= 128;
      shiftOut := 2 * shiftOut % 256;
      count := count + 1;
    }

    /** RTDATA in a read of SCR2; the register's own bit when RTCE is off. */
    method ReadData(own: bool) returns (bit: bool)
      requires Valid()
      ensures ce ==> bit == ReadBack(Value(), own)
      ensures !ce ==> bit == own
    {
      if !ce {
        return own;
      }
      return if phase.Transferring? && !isWrite then dataBit else own;
    }
  }
}
