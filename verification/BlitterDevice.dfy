/** The blitter in place: its registers as fields, memory as one array, the blit as the
    two nested loops. */
module BlitterDevice {
  import opened Bits
  import opened Blitter

  class Chip {
    const ram: array<Byte>
    var halftone: seq<Word>
    var srcX: int16
    var srcY: int16
    var src: uint32
    var mask1: Word
    var mask2: Word
    var mask3: Word
    var dstX: int16
    var dstY: int16
    var dst: uint32
    var xCount: uint16
    var yCount: uint16
    var hop: nibble
    var op: nibble
    var status: uint8
    var skew: uint8

    ghost predicate Valid()
      reads this
    {
      ram.Length == SPACE && |halftone| == 16
    }

    function Value(): Regs
      reads this
    {
      Regs(halftone, srcX, srcY, src, mask1, mask2, mask3, dstX, dstY, dst, xCount, yCount, hop, op, status, skew)
    }

    constructor (ram: array<Byte>)
      requires ram.Length == SPACE
      ensures Valid() && this.ram == ram
      ensures Value() == Regs(seq(16, _ => Filled(false)), 0, 0, 0, Filled(true), Filled(true), Filled(true),
                              0, 0, 0, 0, 0, 0, 0, 0, 0)
    {
      this.ram := ram;
      halftone := seq(16, _ => Filled(false));
      srcX, srcY, src, dstX, dstY, dst := 0, 0, 0, 0, 0, 0;
      mask1, mask2, mask3 := Filled(true), Filled(true), Filled(true);
      xCount, yCount, hop, op, status, skew := 0, 0, 0, 0, 0, 0;
    }

    method Read16(a: addr) returns (w: Word)
      requires Valid()
      ensures w == ReadWord(ram[..], a)
    {
      var (high: seq<bool>, low: seq<bool>) := (ram[a], ram[Wrap(a + 1)]);
      return high + low;
    }

    method Write16(a: addr, w: Word)
      requires Valid()
      modifies ram
      ensures ram[..] == WriteWord(old(ram[..]), a, w)
    {
      ram[a] := w[..8];
      ram[Wrap(a + 1)] := w[8..];
    }

    /** The source operand of one word. */
    method Operand(prev: Word, word: Word, line: nibble) returns (source: Word)
      requires Valid()
      ensures source == Source(Value(), prev, word, line)
    {
      var skewed := word;
      if skew % 16 != 0 {
        skewed := if srcX >= 0 then ShiftRight(prev, word, skew % 16) else ShiftRight(word, prev, skew % 16);
      }
      match hop % 4 {
        case 0 => source := Filled(true);
        case 1 => source := halftone[line];
        case 2 => source := skewed;
        case _ => source := And(skewed, halftone[line]);
      }
    }

    /** One word of a line of `n`: fetch, shift, combine, merge, advance. */
    method BlitWord(src0: addr, dst0: addr, prev: Word, line: nibble, x: nat, n: nat)
      returns (srcAddr: addr, dstAddr: addr, word: Word)
      requires Valid() && x < n
      modifies ram
      ensures Cursor(srcAddr, dstAddr, word, line, ram[..]) ==
              WordStep(Value(), Cursor(src0, dst0, prev, line, old(ram[..])), x, n)
    {
      hide ReadWord, WriteWord, Source, ApplyOp, Merge, And;
      var last, nfsr := x == n - 1, HasBit(skew, 0x40);
      if nfsr && last {
        word := prev;
      } else {
        word := Read16(src0);
      }
      var source := Operand(prev, word, line);
      var dest := Read16(dst0);
      var result := ApplyOp(op % 16, source, dest);
      var mask := if n == 1 then And(mask1, mask3) else if x == 0 then mask1 else if last then mask3 else mask2;
      Write16(dst0, Merge(result, dest, mask));
      srcAddr := src0;
      if !(nfsr && last) {
        if last || (nfsr && x == n - 2) {
          srcAddr := Wrap(src0 + srcY);
        } else {
          srcAddr := Wrap(src0 + srcX);
        }
      }
      if last {
        dstAddr := Wrap(dst0 + dstY);
      } else {
        dstAddr := Wrap(dst0 + dstX);
      }
    }

    /** One line of `width` words. */
    method BlitLine(src0: addr, dst0: addr, line: nibble, ghost before: Word, width: nat)
      returns (srcAddr: addr, dstAddr: addr, prev: Word)
      requires Valid() && width == Width(Value())
      modifies ram
      ensures Cursor(srcAddr, dstAddr, prev, line, ram[..]) ==
              Words(Value(), Cursor(src0, dst0, before, line, old(ram[..])), width)
    {
      hide Width, WordStep, ReadWord;
      ghost var r, c := Value(), Cursor(src0, dst0, before, line, ram[..]);
      srcAddr, dstAddr, prev := src0, dst0, Filled(false);
      if HasBit(skew, 0x80) {
        prev := Read16(srcAddr);
        srcAddr := Wrap(srcAddr + srcX);
      }
      for x := 0 to width
        invariant Cursor(srcAddr, dstAddr, prev, line, ram[..]) == Words(r, c, x)
      {
        srcAddr, dstAddr, prev := BlitWord(srcAddr, dstAddr, prev, line, x, width);
      }
    }

    /** `height` lines of `width` words. */
    method BlitLines(src0: addr, dst0: addr, line0: nibble, width: nat, height: nat)
      returns (srcAddr: addr, dstAddr: addr, line: nibble, ghost prev: Word)
      requires Valid() && width == Width(Value())
      modifies ram
      ensures Cursor(srcAddr, dstAddr, prev, line, ram[..]) ==
              Lines(Value(), Cursor(src0, dst0, Filled(false), line0, old(ram[..])), height)
    {
      hide Width, Words;
      ghost var r, c := Value(), Cursor(src0, dst0, Filled(false), line0, ram[..]);
      srcAddr, dstAddr, line, prev := src0, dst0, line0, Filled(false);
      for y := 0 to height
        invariant Cursor(srcAddr, dstAddr, prev, line, ram[..]) == Lines(r, c, y)
      {
        srcAddr, dstAddr, prev := BlitLine(srcAddr, dstAddr, line, prev, width);
        line := if dstY >= 0 then (line + 1) % 16 else (line + 15) % 16;
      }
    }

    /** Run the blit the registers describe. */
    method Blit()
      requires Valid()
      modifies this`src, this`dst, this`yCount, this`status, ram
      ensures Valid()
      ensures (Value(), ram[..]) == Execute(old(Value()), old(ram[..]))
    {
      hide Lines;
      var width := if xCount != 0 then xCount else 0x1_0000;
      var height := if yCount != 0 then yCount else 0x1_0000;
      var srcAddr, dstAddr, line, prev :=
        BlitLines(Wrap(src - src % 2), Wrap(dst - dst % 2), status % 16, width, height);
      src, dst, yCount := srcAddr, dstAddr, 0;
      status := status / 16 % 4 * 16 + line;
    }

    method StatusWrite(value: uint8)
      requires Valid()
      modifies this`src, this`dst, this`yCount, this`status, ram
      ensures Valid()
      ensures (Value(), ram[..]) == WriteStatus(old(Value()), old(ram[..]), value)
    {
      status := value - value / 16 % 2 * 16;
      if value >= 0x80 {
        if yCount == 0 {
          status := status % 0x40;
        } else {
          Blit();
        }
      }
    }
  }
}
