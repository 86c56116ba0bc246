/** The blitter of blitter_emu.c: what one blit does to memory and to the address
    registers. Bytes and words are strings of bits, heaviest first, so a shift is a
    slice and a logic operation works place by place. */
module Blitter {
  import opened Bits

  const SPACE := 0x100_0000        // bytes of memory, and of the address space

  type Byte = b: seq<bool> | |b| == 8 witness seq(8, _ => false)
  type Word = w: seq<bool> | |w| == 16 witness seq(16, _ => false)
  type Memory = m: seq<Byte> | |m| == SPACE witness seq(SPACE, _ => seq(8, _ => false))
  type addr = a: int | 0 <= a < SPACE
  type int16 = x: int | -0x8000 <= x < 0x8000
  type nibble = x: int | 0 <= x < 16

  function Filled(bit: bool): Word {
    seq(16, _ => bit)
  }

  datatype Regs = Regs(halftone: seq<Word>, srcX: int16, srcY: int16, src: uint32, mask1: Word, mask2: Word, mask3: Word,
                       dstX: int16, dstY: int16, dst: uint32, xCount: uint16, yCount: uint16,
                       hop: nibble, op: nibble, status: uint8, skew: uint8)

  function Wrap(x: int): addr {
    x % SPACE
  }

  function ReadWord(m: Memory, a: addr): Word {
    var (high: seq<bool>, low: seq<bool>) := (m[a], m[Wrap(a + 1)]);
    high + low
  }

  function WriteWord(m: Memory, a: addr, w: Word): Memory {
    m[a := w[..8]][Wrap(a + 1) := w[8..]]
  }

  // ------------------------------------------------------------------ one word

  /** One place of the 4-bit truth table `op`. */
  predicate OpBit(op: nibble, s: bool, d: bool) {
    || (HasBit(op, 1) && s && d) || (HasBit(op, 2) && s && !d)
    || (HasBit(op, 4) && !s && d) || (HasBit(op, 8) && !s && !d)
  }

  function ApplyOp(op: nibble, s: Word, d: Word): Word {
    seq(16, k requires 0 <= k < 16 => OpBit(op, s[k], d[k]))
  }

  function And(a: Word, b: Word): Word {
    seq(16, k requires 0 <= k < 16 => a[k] && b[k])
  }

  /** `result` where `mask` is on, `dest` elsewhere. */
  function Merge(result: Word, dest: Word, mask: Word): Word {
    seq(16, k requires 0 <= k < 16 => if mask[k] then result[k] else dest[k])
  }

  /** The low half of the 32 bits `high`, `low` shifted right by `n`. */
  function ShiftRight(high: Word, low: Word, n: nibble): Word {
    (high + low)[16 - n..32 - n]
  }

  /** The barrel shifter, which turns with the direction of the scan. */
  function Skewed(r: Regs, prev: Word, word: Word): Word {
    if r.skew % 16 == 0 then word
    else if r.srcX >= 0 then ShiftRight(prev, word, r.skew % 16)
    else ShiftRight(word, prev, r.skew % 16)
  }

  predicate ValidRegs(r: Regs) {
    |r.halftone| == 16
  }

  function Source(r: Regs, prev: Word, word: Word, line: nibble): Word
    requires ValidRegs(r)
  {
    if r.hop % 4 == 0 then Filled(true)
    else if r.hop % 4 == 1 then r.halftone[line]
    else if r.hop % 4 == 2 then Skewed(r, prev, word)
    else And(Skewed(r, prev, word), r.halftone[line])
  }

  /** The endmask of word `x` of a line of `n`. */
  function Mask(r: Regs, x: nat, n: nat): Word {
    if n == 1 then And(r.mask1, r.mask3)
    else if x == 0 then r.mask1
    else if x == n - 1 then r.mask3
    else r.mask2
  }

  predicate Fxsr(r: Regs) {
    HasBit(r.skew, 0x80)
  }

  predicate Nfsr(r: Regs) {
    HasBit(r.skew, 0x40)
  }

  function Width(r: Regs): nat {
    if r.xCount == 0 then 0x1_0000 else r.xCount
  }

  function Height(r: Regs): nat {
    if r.yCount == 0 then 0x1_0000 else r.yCount
  }

  datatype Cursor = Cursor(src: addr, dst: addr, prev: Word, line: nibble, ram: Memory)

  function FetchStep(r: Regs, x: nat, n: nat): int {
    if Nfsr(r) && x + 1 == n then 0
    else if x + 1 == n || (Nfsr(r) && x + 2 == n) then r.srcY
    else r.srcX
  }

  function WordStep(r: Regs, c: Cursor, x: nat, n: nat): Cursor
    requires ValidRegs(r)
  {
    var word := if Nfsr(r) && x + 1 == n then c.prev else ReadWord(c.ram, c.src);
    var dest := ReadWord(c.ram, c.dst);
    var result := ApplyOp(r.op % 16, Source(r, c.prev, word, c.line), dest);
    Cursor(Wrap(c.src + FetchStep(r, x, n)),
           Wrap(c.dst + if x + 1 == n then r.dstY else r.dstX),
           word, c.line, WriteWord(c.ram, c.dst, Merge(result, dest, Mask(r, x, n))))
  }

  function StartLine(r: Regs, c: Cursor): Cursor {
    if Fxsr(r) then c.(prev := ReadWord(c.ram, c.src), src := Wrap(c.src + r.srcX)) else c.(prev := Filled(false))
  }

  /** After the first `x` words of the line `c` starts. */
  function Words(r: Regs, c: Cursor, x: nat): Cursor
    requires ValidRegs(r)
  {
    if x == 0 then StartLine(r, c) else WordStep(r, Words(r, c, x - 1), x - 1, Width(r))
  }

  function NextLine(r: Regs, line: nibble): nibble {
    if r.dstY >= 0 then (line + 1) % 16 else (line + 15) % 16
  }

  /** After the first `y` lines. */
  function Lines(r: Regs, c: Cursor, y: nat): Cursor
    requires ValidRegs(r)
  {
    if y == 0 then c
    else
      var d := Words(r, Lines(r, c, y - 1), Width(r));
      d.(line := NextLine(r, d.line))
  }

  function First(r: Regs, ram: Memory): Cursor {
    Cursor(Wrap(r.src - r.src % 2), Wrap(r.dst - r.dst % 2), Filled(false), r.status % 16, ram)
  }

  /** blitter_execute. */
  function Execute(r: Regs, ram: Memory): (Regs, Memory)
    requires ValidRegs(r)
  {
    var c := Lines(r, First(r, ram), Height(r));
    (r.(src := c.src, dst := c.dst, yCount := 0, status := r.status / 16 % 4 * 16 + c.line), c.ram)
  }

  /** A write to the status register: the BUSY bit starts the blit unless no line is left. */
  function WriteStatus(r: Regs, ram: Memory, value: uint8): (Regs, Memory)
    requires ValidRegs(r)
  {
    var status := value - value / 16 % 2 * 16;
    var s := r.(status := status);
    if value < 0x80 then (s, ram)
    else if r.yCount == 0 then (s.(status := status % 0x40), ram)
    else Execute(s, ram)
  }

  /** What the processor finds after a write to the status register: BUSY is off again,
      whether there was anything to do or not, and bit 4 never stands; without BUSY, or
      with no line left, memory and the other registers are as they were. */
  lemma StatusLeaves(r: Regs, ram: Memory, value: uint8)
    requires ValidRegs(r)
    ensures var (t, m) := WriteStatus(r, ram, value);
            && t.status < 0x80 && !HasBit(t.status, 0x10)
            && (HasBit(value, 0x80) ==> t.yCount == 0 && !HasBit(t.status, 0x40))
            && (!HasBit(value, 0x80) || r.yCount == 0 ==> m == ram && t == r.(status := t.status))
            && (!HasBit(value, 0x80) ==> t.status == ClearBit(value, 0x10))
  {
    hide Lines, First, Height;
  }

  // ---------------------------------------------------------------- closed forms

  function DstStride(r: Regs): int {
    (Width(r) - 1) * r.dstX + r.dstY
  }

  function Fx(r: Regs): nat {
    if Fxsr(r) then 1 else 0
  }

  function SrcStride(r: Regs): int {
    Fx(r) * r.srcX +
    if !Nfsr(r) then (Width(r) - 1) * r.srcX + r.srcY
    else if Width(r) == 1 then 0
    else (Width(r) - 2) * r.srcX + r.srcY
  }

  /** The word of destination line `i`, column `x`. */
  function DstAt(r: Regs, i: nat, x: nat): addr {
    Wrap(r.dst - r.dst % 2 + i * DstStride(r) + x * r.dstX)
  }

  /** The address of fetch `k` of source line `i`, the extra first one included. */
  function SrcAt(r: Regs, i: nat, k: nat): addr {
    Wrap(r.src - r.src % 2 + i * SrcStride(r) + k * r.srcX)
  }

  function LineNo(r: Regs, i: nat): nibble {
    if r.dstY >= 0 then (r.status % 16 + i) % 16 else (r.status % 16 - i) % 16
  }

  /** Fetches of one line: an extra one with FXSR, the last one missing with NFSR. */
  function Fetches(r: Regs): int {
    Fx(r) + Width(r) - if Nfsr(r) then 1 else 0
  }

  /** Where the source stands after `x` words of line `i`. */
  function SrcAfter(r: Regs, i: nat, x: nat): addr {
    if Fx(r) + x < Fetches(r) || x == 0 then SrcAt(r, i, Fx(r) + x) else SrcAt(r, i + 1, 0)
  }

  function DstAfter(r: Regs, i: nat, x: nat): addr {
    if x < Width(r) then DstAt(r, i, x) else DstAt(r, i + 1, 0)
  }

  lemma WrapAdd(a: int, b: int)
    ensures Wrap(Wrap(a) + b) == Wrap(a + b)
  {
  }

  lemma DstStep(r: Regs, i: nat, x: nat)
    requires x < Width(r)
    ensures DstAfter(r, i, x + 1) == Wrap(DstAfter(r, i, x) + if x + 1 == Width(r) then r.dstY else r.dstX)
  {
    var base := r.dst - r.dst % 2;
    assert (i + 1) * DstStride(r) == i * DstStride(r) + DstStride(r);
    assert (x + 1) * r.dstX == x * r.dstX + r.dstX;
    WrapAdd(base + i * DstStride(r) + x * r.dstX, if x + 1 == Width(r) then r.dstY else r.dstX);
  }

  /** One source line on from raw address `base`, of which `done` is what its words have
      stepped: the stride is what is left. */
  lemma SrcStrideSplits(r: Regs, x: nat)
    requires Width(r) == x + if Nfsr(r) then 2 else 1
    ensures SrcStride(r) == (Fx(r) + x) * r.srcX + r.srcY
  {
    assert (Fx(r) + x) * r.srcX == Fx(r) * r.srcX + x * r.srcX;
  }

  lemma SrcStep(r: Regs, i: nat, x: nat)
    requires x < Width(r)
    ensures SrcAfter(r, i, x + 1) == Wrap(SrcAfter(r, i, x) + FetchStep(r, x, Width(r)))
  {
    var k := Fx(r) + x;
    var line := r.src - r.src % 2 + i * SrcStride(r);
    assert SrcAt(r, i, k) == Wrap(line + k * r.srcX);
    assert SrcAt(r, i + 1, 0) == Wrap(line + SrcStride(r)) by {
      assert (i + 1) * SrcStride(r) == i * SrcStride(r) + SrcStride(r);
    }
    WrapAdd(line + k * r.srcX, FetchStep(r, x, Width(r)));
    if Nfsr(r) && x + 1 == Width(r) {
      WrapAdd(line + SrcStride(r), 0);
      hide SrcAt, Width;
    } else if x + 1 == Width(r) || (Nfsr(r) && x + 2 == Width(r)) {
      SrcStrideSplits(r, x);
      hide SrcAt, Width, SrcStride;
    } else {
      assert SrcAt(r, i, k + 1) == Wrap(line + k * r.srcX + r.srcX) by {
        assert (k + 1) * r.srcX == k * r.srcX + r.srcX;
      }
      hide SrcAt, Width, SrcStride;
    }
  }

  lemma {:induction false} WordsPosition(r: Regs, c: Cursor, i: nat, x: nat)
    requires ValidRegs(r) && c.src == SrcAt(r, i, 0) && c.dst == DstAt(r, i, 0) && x <= Width(r)
    ensures var d := Words(r, c, x);
            d.src == SrcAfter(r, i, x) && d.dst == DstAfter(r, i, x) && d.line == c.line
  {
    hide DstAfter, SrcAfter, SrcAt, DstAt, FetchStep, ReadWord, WriteWord, Merge, ApplyOp, Source, Mask, Width, Nfsr;
    if x == 0 {
      StartPosition(r, i);
    } else {
      WordsPosition(r, c, i, x - 1);
      DstStep(r, i, x - 1);
      SrcStep(r, i, x - 1);
    }
  }

  lemma StartPosition(r: Regs, i: nat)
    ensures DstAfter(r, i, 0) == DstAt(r, i, 0)
    ensures SrcAfter(r, i, 0) == if Fxsr(r) then Wrap(SrcAt(r, i, 0) + r.srcX) else SrcAt(r, i, 0)
  {
    WrapAdd(r.src - r.src % 2 + i * SrcStride(r), r.srcX);
  }

  /** The end of one line is the start of the next. */
  lemma EndPosition(r: Regs, i: nat)
    ensures DstAfter(r, i, Width(r)) == DstAt(r, i + 1, 0)
    ensures SrcAfter(r, i, Width(r)) == SrcAt(r, i + 1, 0)
  {
  }

  lemma FirstPosition(r: Regs, ram: Memory)
    ensures First(r, ram).src == SrcAt(r, 0, 0) && First(r, ram).dst == DstAt(r, 0, 0)
    ensures First(r, ram).line == LineNo(r, 0)
  {
    hide SrcStride, DstStride;
  }

  lemma SixteenApart(a: int, b: int)
    ensures (a % 16 + b) % 16 == (a + b) % 16
  {
  }

  lemma LineNoStep(r: Regs, i: nat)
    ensures NextLine(r, LineNo(r, i)) == LineNo(r, i + 1)
  {
    var first: int, y: int := r.status % 16, i;
    if r.dstY >= 0 {
      SixteenApart(first + y, 1);
    } else {
      SixteenApart(first - y, 15);
      SixteenApart(first - y - 1 + 16, 0);
      assert (first - y + 15) % 16 == (first - (y + 1)) % 16;
    }
  }

  /** Where the registers stand after `y` lines, in closed form. */
  lemma {:induction false} LinesPosition(r: Regs, ram: Memory, y: nat)
    requires ValidRegs(r)
    ensures var c := Lines(r, First(r, ram), y);
            c.src == SrcAt(r, y, 0) && c.dst == DstAt(r, y, 0) && c.line == LineNo(r, y)
  {
    hide SrcAt, DstAt, SrcAfter, DstAfter, Words, Width, First, NextLine, LineNo;
    if y == 0 {
      FirstPosition(r, ram);
    } else {
      LinesPosition(r, ram, y - 1);
      WordsPosition(r, Lines(r, First(r, ram), y - 1), y - 1, Width(r));
      EndPosition(r, y - 1);
      LineNoStep(r, y - 1);
    }
  }

  /** The address registers after a blit: Height lines on from the word-aligned start,
      each line (Width - 1) steps and a line step, the source with its fetches. */
  lemma FinalAddresses(r: Regs, ram: Memory)
    requires ValidRegs(r)
    ensures var t := Execute(r, ram).0;
            && t.dst == Wrap(r.dst - r.dst % 2 + Height(r) * ((Width(r) - 1) * r.dstX + r.dstY))
            && t.src == Wrap(r.src - r.src % 2 + Height(r) * SrcStride(r))
            && t.status % 16 == LineNo(r, Height(r)) && t.status < 0x40 && t.yCount == 0
  {
    hide Lines, Height, Width, SrcStride, LineNo, First;
    LinesPosition(r, ram, Height(r));
  }
}
