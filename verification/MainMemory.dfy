/** Main RAM of next_memory.c: four banks at $04000000..$0BFFFFFF folded into one
    128 MB buffer by masking the address. */
module MainMemory {
  import opened Bits

  const RAM_BASE := 0x0400_0000
  const RAM_SIZE := 0x0800_0000
  const BANK_SEAM := 0x0800_0000

  type Ram = r: seq<uint8> | |r| == RAM_SIZE witness seq(RAM_SIZE, _ => 0)

  /** Bit 31 is stripped: the upper half of the address space mirrors the lower. */
  function Normalise(addr: uint32): int {
    addr % 0x8000_0000
  }

  predicate InRam(addr: uint32) {
    RAM_BASE <= Normalise(addr) < RAM_BASE + RAM_SIZE
  }

  function RamOffset(addr: uint32): (off: int)
    ensures 0 <= off < RAM_SIZE
  {
    Normalise(addr) % RAM_SIZE
  }

  /** The RAM part of m68k_write_memory_8. */
  function WriteByte(ram: Ram, addr: uint32, value: uint8): Ram {
    if InRam(addr) then ram[RamOffset(addr) := value] else ram
  }

  /** The RAM part of m68k_read_memory_8. */
  function ReadByte(ram: Ram, addr: uint32): uint8
    requires InRam(addr)
  {
    ram[RamOffset(addr)]
  }

  /** The fold of the banks loses nothing: two RAM addresses below the mirror share a byte
      only if they are the same, and every address of the upper half is the byte of its
      lower half. */
  lemma FoldIsInjective(ram: Ram, a: uint32, b: uint32, value: uint8)
    requires a < 0x8000_0000 && b < 0x8000_0000 && InRam(a)
    ensures 0x0400_0000 <= a < 0x0C00_0000
    ensures InRam(b) ==> ReadByte(WriteByte(ram, a, value), b) == if a == b then value else ReadByte(ram, b)
    ensures InRam(a + 0x8000_0000) && WriteByte(ram, a + 0x8000_0000, value) == WriteByte(ram, a, value)
    ensures ReadByte(ram, a + 0x8000_0000) == ReadByte(ram, a)
  {
    assert RamOffset(a) == if a < BANK_SEAM then a else a - BANK_SEAM;
    assert InRam(b) ==> RamOffset(b) == if b < BANK_SEAM then b else b - BANK_SEAM;
  }

  /** `bytes` written one after the other, as the CPU would. */
  function WriteBytes(ram: Ram, addr: uint32, bytes: seq<uint8>): Ram
    requires addr + |bytes| <= 0x1_0000_0000
    decreases |bytes|
  {
    if bytes == [] then ram
    else if |bytes| == 1 then WriteByte(ram, addr, bytes[0])
    else WriteBytes(WriteByte(ram, addr, bytes[0]), addr + 1, bytes[1..])
  }

  /** Every address of the window is RAM. */
  predicate WindowInRam(addr: uint32, n: nat) {
    n > 0 ==> InRam(addr) && Normalise(addr) + n <= RAM_BASE + RAM_SIZE
  }

  /** `bytes` laid out from `addr` on in the folded buffer, everything else as before. */
  function StoreAt(ram: Ram, addr: nat, bytes: seq<uint8>): Ram
    requires |bytes| <= RAM_SIZE
  {
    seq(RAM_SIZE, j requires 0 <= j < RAM_SIZE =>
      if (j - addr) % RAM_SIZE < |bytes| then bytes[(j - addr) % RAM_SIZE] else ram[j])
  }

  /** memcpy into the flat buffer. */
  function Memcpy(ram: Ram, off: nat, bytes: seq<uint8>): Ram
    requires off + |bytes| <= RAM_SIZE
  {
    ram[..off] + bytes + ram[off + |bytes|..]
  }

  lemma MemcpyIsStoreAt(ram: Ram, addr: nat, bytes: seq<uint8>)
    requires addr % RAM_SIZE + |bytes| <= RAM_SIZE
    ensures Memcpy(ram, addr % RAM_SIZE, bytes) == StoreAt(ram, addr, bytes)
  {
    var off := addr % RAM_SIZE;
    forall j | 0 <= j < RAM_SIZE
      ensures Memcpy(ram, off, bytes)[j] == StoreAt(ram, addr, bytes)[j]
    {
      assert (j - addr) % RAM_SIZE == if j >= off then j - off else j - off + RAM_SIZE;
    }
  }

  lemma StoreAtCompose(ram: Ram, addr: nat, x: seq<uint8>, y: seq<uint8>)
    requires |x| + |y| <= RAM_SIZE
    ensures StoreAt(StoreAt(ram, addr, x), addr + |x|, y) == StoreAt(ram, addr, x + y)
  {
    var z := StoreAt(StoreAt(ram, addr, x), addr + |x|, y);
    forall j | 0 <= j < RAM_SIZE
      ensures z[j] == StoreAt(ram, addr, x + y)[j]
    {
      var k := (j - addr) % RAM_SIZE;
      assert (j - (addr + |x|)) % RAM_SIZE == if k >= |x| then k - |x| else k - |x| + RAM_SIZE;
    }
  }

  lemma StoreAtNothing(ram: Ram, addr: nat)
    ensures StoreAt(ram, addr, []) == ram
  {
  }

  lemma WriteByteIsStoreAt(ram: Ram, addr: uint32, value: uint8)
    requires InRam(addr)
    ensures WriteByte(ram, addr, value) == StoreAt(ram, addr, [value])
  {
    var off := RamOffset(addr);
    assert off == addr % RAM_SIZE;
    MemcpyIsStoreAt(ram, addr, [value]);
    assert Memcpy(ram, off, [value]) == ram[off := value];
  }

  /** The fold of the banks, across the seam at $08000000 included, is invisible to
      the CPU: storing a window byte by byte fills the same bytes of the buffer. */
  lemma {:induction false} WriteBytesIsStoreAt(ram: Ram, addr: uint32, bytes: seq<uint8>)
    requires addr + |bytes| <= 0x1_0000_0000 && WindowInRam(addr, |bytes|)
    ensures WriteBytes(ram, addr, bytes) == StoreAt(ram, addr, bytes)
    decreases |bytes|
  {
    hide StoreAt, WriteByte;
    if bytes == [] {
      StoreAtNothing(ram, addr);
    } else {
      WriteByteIsStoreAt(ram, addr, bytes[0]);
      if |bytes| == 1 {
        assert bytes == [bytes[0]];
      } else {
        WriteBytesIsStoreAt(WriteByte(ram, addr, bytes[0]), addr + 1, bytes[1..]);
        StoreAtCompose(ram, addr, [bytes[0]], bytes[1..]);
        assert [bytes[0]] + bytes[1..] == bytes;
      }
    }
  }

  /** Reading back a stored window. */
  lemma StoreAtReadsBack(ram: Ram, addr: uint32, bytes: seq<uint8>, a: uint32)
    requires WindowInRam(addr, |bytes|) && InRam(a)
    ensures |bytes| <= RAM_SIZE
    ensures ReadByte(StoreAt(ram, addr, bytes), a) ==
            if 0 <= Normalise(a) - Normalise(addr) < |bytes| then bytes[Normalise(a) - Normalise(addr)]
            else ReadByte(ram, a)
  {
    var j := RamOffset(a);
    var gap := Normalise(a) - Normalise(addr);
    if bytes != [] {
      assert (j - addr) % RAM_SIZE == if gap >= 0 then gap else gap + RAM_SIZE;
    }
  }
}
