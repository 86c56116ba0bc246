/** What a blit leaves in memory, word by word in terms of memory before it, when its
    destination words are apart from each other and from its sources. */
module BlitResult {
  import opened Bits
  import opened Blitter

  // ------------------------------------------------------- the words it should leave

  function Fetched(r: Regs, m: Memory, i: nat, k: nat): Word {
    ReadWord(m, SrcAt(r, i, k))
  }

  /** The word in front of column `x`: the fetch before, or zeros at the start of a line. */
  function PrevIn(r: Regs, m: Memory, i: nat, x: nat): Word {
    if Fx(r) + x == 0 then Filled(false) else Fetched(r, m, i, Fx(r) + x - 1)
  }

  /** The word at column `x`; with NFSR the last column sees the fetch before once more. */
  function WordIn(r: Regs, m: Memory, i: nat, x: nat): Word {
    if Nfsr(r) && x + 1 == Width(r) then PrevIn(r, m, i, x) else Fetched(r, m, i, Fx(r) + x)
  }

  function Expected(r: Regs, m: Memory, i: nat, x: nat): Word
    requires ValidRegs(r)
  {
    var dest := ReadWord(m, DstAt(r, i, x));
    var source := Source(r, PrevIn(r, m, i, x), WordIn(r, m, i, x), LineNo(r, i));
    Merge(ApplyOp(r.op % 16, source, dest), dest, Mask(r, x, Width(r)))
  }

  // ------------------------------------------------------------------- geometry

  predicate Covers(a: addr, b: addr) {
    b == a || b == Wrap(a + 1)
  }

  /** Two words of memory that share no byte. */
  predicate Apart(a: addr, b: addr) {
    a != b && Wrap(a + 1) != b && Wrap(b + 1) != a
  }

  predicate InBlit(r: Regs, i: nat, x: nat) {
    i < Height(r) && x < Width(r)
  }

  /** No two destination words share a byte. */
  ghost predicate DistinctDst(r: Regs) {
    forall i: nat, x: nat, j: nat, y: nat | InBlit(r, i, x) && InBlit(r, j, y) && (i != j || x != y) ::
      Apart(DstAt(r, i, x), DstAt(r, j, y))
  }

  /** No destination word shares a byte with a source word. */
  ghost predicate SrcClear(r: Regs) {
    forall i: nat, x: nat, j: nat, k: nat | InBlit(r, i, x) && j < Height(r) && k < Fetches(r) ::
      Apart(DstAt(r, i, x), SrcAt(r, j, k))
  }

  // ------------------------------------------------------------------ word by word

  /** Word (j, y) is among the first `x` words of line `i` or on an earlier line. */
  predicate Done(r: Regs, i: nat, x: nat, j: nat, y: nat) {
    InBlit(r, j, y) && (j < i || (j == i && y < x))
  }

  ghost predicate Untouched(r: Regs, i: nat, x: nat, b: addr) {
    forall j: nat, y: nat | Done(r, i, x, j, y) :: !Covers(DstAt(r, j, y), b)
  }

  /** The words done hold what they should, every byte outside them is as it was. */
  ghost predicate Blitted(r: Regs, m: Memory, ram: Memory, i: nat, x: nat)
    requires ValidRegs(r)
  {
    && (forall j: nat, y: nat | Done(r, i, x, j, y) :: ReadWord(ram, DstAt(r, j, y)) == Expected(r, m, j, y))
    && (forall b: addr | Untouched(r, i, x, b) :: ram[b] == m[b])
  }

  lemma ReadWritten(m: Memory, a: addr, w: Word)
    ensures ReadWord(WriteWord(m, a, w), a) == w
    ensures forall b: addr | !Covers(a, b) :: WriteWord(m, a, w)[b] == m[b]
    ensures WriteWord(m, a, w)[a] == w[..8] && WriteWord(m, a, w)[Wrap(a + 1)] == w[8..]
  {
    assert w[..8] + w[8..] == w;
  }

  lemma ReadApart(m: Memory, a: addr, w: Word, b: addr)
    requires Apart(a, b)
    ensures ReadWord(WriteWord(m, a, w), b) == ReadWord(m, b)
  {
  }

  /** A word apart from all words done still reads as at the start. */
  lemma ReadUntouched(r: Regs, m: Memory, ram: Memory, i: nat, x: nat, a: addr)
    requires ValidRegs(r) && Blitted(r, m, ram, i, x)
    requires forall j: nat, y: nat | Done(r, i, x, j, y) :: Apart(DstAt(r, j, y), a)
    ensures ReadWord(ram, a) == ReadWord(m, a)
  {
    hide DstAt, Expected;
    assert Untouched(r, i, x, a) && Untouched(r, i, x, Wrap(a + 1));
  }

  /** The cursor before column `x` of line `i`. */
  ghost predicate At(r: Regs, m: Memory, c: Cursor, i: nat, x: nat)
    requires ValidRegs(r)
  {
    && Blitted(r, m, c.ram, i, x) && c.line == LineNo(r, i)
    && c.src == SrcAfter(r, i, x) && c.dst == DstAfter(r, i, x)
    && (x < Width(r) ==> c.prev == PrevIn(r, m, i, x))
  }

  /** One word more. */
  lemma WordBlits(r: Regs, m: Memory, c: Cursor, i: nat, x: nat)
    requires ValidRegs(r) && DistinctDst(r) && SrcClear(r)
    requires InBlit(r, i, x) && At(r, m, c, i, x)
    ensures At(r, m, WordStep(r, c, x, Width(r)), i, x + 1)
  {
    hide DstAt, SrcAt, ReadWord, WriteWord, ApplyOp, Source, Merge, Mask, FetchStep, LineNo, DistinctDst, SrcClear;
    if !(Nfsr(r) && x + 1 == Width(r)) {
      SourceStands(r, m, c, i, x);
    }
    DestStands(r, m, c, i, x);
    hide Blitted;
    DstStep(r, i, x);
    SrcStep(r, i, x);
    BlittedStep(r, m, c.ram, i, x);
    hide SrcAfter;
  }

  /** The word at the cursor's source is still the original one. */
  lemma SourceStands(r: Regs, m: Memory, c: Cursor, i: nat, x: nat)
    requires ValidRegs(r) && SrcClear(r) && InBlit(r, i, x) && At(r, m, c, i, x)
    requires !(Nfsr(r) && x + 1 == Width(r))
    ensures ReadWord(c.ram, c.src) == Fetched(r, m, i, Fx(r) + x)
  {
    hide DstAt, SrcAt, ReadWord, Apart, Blitted;
    ReadUntouched(r, m, c.ram, i, x, SrcAt(r, i, Fx(r) + x));
  }

  lemma DestStands(r: Regs, m: Memory, c: Cursor, i: nat, x: nat)
    requires ValidRegs(r) && DistinctDst(r) && InBlit(r, i, x) && At(r, m, c, i, x)
    ensures c.dst == DstAt(r, i, x) && ReadWord(c.ram, c.dst) == ReadWord(m, c.dst)
  {
    hide DstAt, ReadWord, Apart, Blitted;
    ReadUntouched(r, m, c.ram, i, x, DstAt(r, i, x));
  }

  lemma BlittedStep(r: Regs, m: Memory, ram: Memory, i: nat, x: nat)
    requires ValidRegs(r) && DistinctDst(r) && InBlit(r, i, x) && Blitted(r, m, ram, i, x)
    ensures Blitted(r, m, WriteWord(ram, DstAt(r, i, x), Expected(r, m, i, x)), i, x + 1)
  {
    hide DstAt, Expected, ReadWord, WriteWord, Covers, Apart;
    var d, w := DstAt(r, i, x), Expected(r, m, i, x);
    var after := WriteWord(ram, d, w);
    ReadWritten(ram, d, w);
    forall j: nat, y: nat | Done(r, i, x + 1, j, y)
      ensures ReadWord(after, DstAt(r, j, y)) == Expected(r, m, j, y)
    {
      if j != i || y != x {
        assert Done(r, i, x, j, y);
        ReadApart(ram, d, w, DstAt(r, j, y));
      }
    }
    forall b: addr | Untouched(r, i, x + 1, b)
      ensures after[b] == m[b]
    {
      assert Done(r, i, x + 1, i, x);
      assert !Covers(d, b);
      forall j: nat, y: nat | Done(r, i, x, j, y)
        ensures !Covers(DstAt(r, j, y), b)
      {
        assert Done(r, i, x + 1, j, y);
      }
      assert Untouched(r, i, x, b);
    }
  }

  lemma {:induction false} WordsBlit(r: Regs, m: Memory, c: Cursor, i: nat, x: nat)
    requires ValidRegs(r) && DistinctDst(r) && SrcClear(r) && i < Height(r) && x <= Width(r)
    requires Blitted(r, m, c.ram, i, 0) && c.line == LineNo(r, i)
    requires c.src == SrcAt(r, i, 0) && c.dst == DstAt(r, i, 0)
    ensures At(r, m, Words(r, c, x), i, x)
  {
    hide DistinctDst, SrcClear, WordStep, DstAt, SrcAt, Blitted, LineNo, SrcAfter, DstAfter, ReadWord, Height, Width;
    if x == 0 {
      LineStarts(r, m, c, i);
    } else {
      WordsBlit(r, m, c, i, x - 1);
      hide At;
      WordBlits(r, m, Words(r, c, x - 1), i, x - 1);
    }
  }

  lemma LineStarts(r: Regs, m: Memory, c: Cursor, i: nat)
    requires ValidRegs(r) && SrcClear(r) && i < Height(r)
    requires Blitted(r, m, c.ram, i, 0) && c.line == LineNo(r, i)
    requires c.src == SrcAt(r, i, 0) && c.dst == DstAt(r, i, 0)
    ensures At(r, m, StartLine(r, c), i, 0)
  {
    hide Blitted, Apart, ReadWord, LineNo, DstAt, SrcAt, SrcAfter, DstAfter, Height;
    StartPosition(r, i);
    if Fxsr(r) {
      ReadUntouched(r, m, c.ram, i, 0, SrcAt(r, i, 0));
    }
  }

  lemma LineDone(r: Regs, m: Memory, ram: Memory, i: nat)
    requires ValidRegs(r) && Blitted(r, m, ram, i, Width(r))
    ensures Blitted(r, m, ram, i + 1, 0)
  {
    hide DstAt, Expected, ReadWord, Covers, Height, Width;
    forall j: nat, y: nat
      ensures Done(r, i, Width(r), j, y) <==> Done(r, i + 1, 0, j, y)
    {
    }
  }

  lemma BlitStarts(r: Regs, m: Memory)
    requires ValidRegs(r)
    ensures First(r, m).ram == m && Blitted(r, m, m, 0, 0)
  {
    hide DstAt, Expected, ReadWord, Height, Width;
  }

  lemma OneLineBlits(r: Regs, m: Memory, c: Cursor, i: nat)
    requires ValidRegs(r) && DistinctDst(r) && SrcClear(r) && i < Height(r)
    requires Blitted(r, m, c.ram, i, 0) && c.line == LineNo(r, i)
    requires c.src == SrcAt(r, i, 0) && c.dst == DstAt(r, i, 0)
    ensures Blitted(r, m, Words(r, c, Width(r)).ram, i + 1, 0)
  {
    hide DistinctDst, SrcClear, Words, DstAt, SrcAt, LineNo, SrcAfter, DstAfter, Height, Width, Blitted;
    WordsBlit(r, m, c, i, Width(r));
    LineDone(r, m, Words(r, c, Width(r)).ram, i);
  }

  lemma {:induction false} LinesBlit(r: Regs, m: Memory, y: nat)
    requires ValidRegs(r) && DistinctDst(r) && SrcClear(r) && y <= Height(r)
    ensures Blitted(r, m, Lines(r, First(r, m), y).ram, y, 0)
  {
    hide DistinctDst, SrcClear, Words, DstAt, SrcAt, LineNo, Height, Width, First, Blitted;
    if y == 0 {
      BlitStarts(r, m);
    } else {
      LinesBlit(r, m, y - 1);
      LinesPosition(r, m, y - 1);
      OneLineBlits(r, m, Lines(r, First(r, m), y - 1), y - 1);
    }
  }

  /** With destination words apart from each other and from every source word: afterwards
      each destination word is the endmasked logic operation on the original source and
      the original destination, and no other byte of memory has changed. */
  lemma BlitLeaves(r: Regs, m: Memory)
    requires ValidRegs(r) && DistinctDst(r) && SrcClear(r)
    ensures var t := Execute(r, m).1;
            && (forall i: nat, x: nat | InBlit(r, i, x) :: ReadWord(t, DstAt(r, i, x)) == Expected(r, m, i, x))
            && (forall b: addr | (forall i: nat, x: nat | InBlit(r, i, x) :: !Covers(DstAt(r, i, x), b)) :: t[b] == m[b])
  {
    hide DistinctDst, SrcClear, DstAt, Expected, ReadWord, Covers, Height, Width, First, Lines;
    LinesBlit(r, m, Height(r));
    var t := Execute(r, m).1;
    forall i: nat, x: nat | InBlit(r, i, x)
      ensures ReadWord(t, DstAt(r, i, x)) == Expected(r, m, i, x)
    {
      assert Done(r, Height(r), 0, i, x);
    }
    forall b: addr | forall i: nat, x: nat | InBlit(r, i, x) :: !Covers(DstAt(r, i, x), b)
      ensures t[b] == m[b]
    {
      assert Untouched(r, Height(r), 0, b);
    }
  }

  // ------------------------------------------------------------------- bit by bit

  /** Bit `p` of the row of words at DstAt(r, i, 0), DstAt(r, i, 1), ... */
  function DstBit(r: Regs, m: Memory, i: nat, p: nat): bool {
    ReadWord(m, DstAt(r, i, p / 16))[p % 16]
  }

  /** Word `w` of the row a line fetches, counted from the one column 0 sees: -1 is the
      extra fetch of FXSR, bit 7 of the skew register, or zeros without it; with NFSR, bit
      6, the last word comes again instead of a fetch for the last column. */
  function StreamWord(r: Regs, m: Memory, i: nat, w: int): Word
    requires -1 <= w < Width(r)
  {
    if r.skew / 0x40 % 2 == 1 && w + 1 == Width(r) && w >= 0 then StreamWord(r, m, i, w - 1)
    else if w >= 0 || r.skew >= 0x80 then Fetched(r, m, i, w + r.skew / 0x80)
    else Filled(false)
  }

  /** Bit `p` of that row moved to the right by the skew, or with a backward scan, word by
      word, to the left by what the skew lacks to 16. */
  function ShiftedBit(r: Regs, m: Memory, i: nat, p: nat): bool
    requires p < 16 * Width(r)
  {
    var n, x, q := r.skew % 16, p / 16, p % 16;
    if n == 0 then StreamWord(r, m, i, x)[q]
    else if r.srcX >= 0 then
      if q >= n then StreamWord(r, m, i, x)[q - n] else StreamWord(r, m, i, x - 1)[16 + q - n]
    else if q < n then StreamWord(r, m, i, x)[16 + q - n]
    else StreamWord(r, m, i, x - 1)[q - n]
  }

  /** The halftone word of a line: one further down for each line, or up when the
      destination is scanned upwards. */
  function HalftoneBit(r: Regs, i: nat, q: nat): bool
    requires ValidRegs(r) && q < 16
  {
    var first: int := r.status;
    r.halftone[(if r.dstY >= 0 then first + i else first - i) % 16][q]
  }

  lemma LineIsHalftone(r: Regs, i: nat, q: nat)
    requires ValidRegs(r) && q < 16
    ensures r.halftone[LineNo(r, i)][q] == HalftoneBit(r, i, q)
  {
    var up: int := i;
    SixteenApart(r.status, up);
    SixteenApart(r.status, 0 - up);
  }

  function SourceBit(r: Regs, m: Memory, i: nat, p: nat): bool
    requires ValidRegs(r) && p < 16 * Width(r)
  {
    match r.hop % 4
    case 0 => true
    case 1 => HalftoneBit(r, i, p % 16)
    case 2 => ShiftedBit(r, m, i, p)
    case _ => ShiftedBit(r, m, i, p) && HalftoneBit(r, i, p % 16)
  }

  /** The entry of the truth table `op` for a source and a destination bit: bits 0 to 3
      stand for (1,1), (1,0), (0,1) and (0,0). */
  function TableEntry(op: nibble, s: bool, d: bool): bool {
    HasBit(op, (if s then 1 else 4) * (if d then 1 else 2))
  }

  lemma StreamWords(r: Regs, m: Memory, i: nat, x: nat)
    requires x < Width(r)
    ensures WordIn(r, m, i, x) == StreamWord(r, m, i, x) && PrevIn(r, m, i, x) == StreamWord(r, m, i, x - 1)
  {
    hide Fetched, Width;
  }

  lemma SkewedBit(r: Regs, m: Memory, i: nat, p: nat)
    requires p < 16 * Width(r)
    ensures Skewed(r, PrevIn(r, m, i, p / 16), WordIn(r, m, i, p / 16))[p % 16] == ShiftedBit(r, m, i, p)
  {
    StreamWords(r, m, i, p / 16);
    hide StreamWord, PrevIn, WordIn, Width;
  }

  lemma SourceOfBit(r: Regs, m: Memory, i: nat, p: nat)
    requires ValidRegs(r) && p < 16 * Width(r)
    ensures Source(r, PrevIn(r, m, i, p / 16), WordIn(r, m, i, p / 16), LineNo(r, i))[p % 16] == SourceBit(r, m, i, p)
  {
    SkewedBit(r, m, i, p);
    LineIsHalftone(r, i, p % 16);
    hide Skewed, ShiftedBit, PrevIn, WordIn, Width, LineNo, HalftoneBit;
    var (prev, word, line) := (PrevIn(r, m, i, p / 16), WordIn(r, m, i, p / 16), LineNo(r, i));
    SourceCases(r, prev, word, line, p % 16);
  }

  lemma SourceCases(r: Regs, prev: Word, word: Word, line: nibble, q: nat)
    requires ValidRegs(r) && q < 16
    ensures var hop, s := r.hop % 4, Source(r, prev, word, line)[q];
            && (hop == 0 ==> s) && (hop == 1 ==> s == r.halftone[line][q]) && (hop == 2 ==> s == Skewed(r, prev, word)[q])
            && (hop == 3 ==> s == (Skewed(r, prev, word)[q] && r.halftone[line][q]))
  {
    hide Skewed;
  }

  lemma MergedBit(op: nibble, source: Word, dest: Word, mask: Word, q: nat)
    requires q < 16
    ensures Merge(ApplyOp(op % 16, source, dest), dest, mask)[q] ==
            if mask[q] then TableEntry(op, source[q], dest[q]) else dest[q]
  {
  }

  lemma ExpectedBit(r: Regs, m: Memory, i: nat, p: nat)
    requires ValidRegs(r) && p < 16 * Width(r)
    ensures Expected(r, m, i, p / 16)[p % 16] ==
            if Mask(r, p / 16, Width(r))[p % 16] then TableEntry(r.op, SourceBit(r, m, i, p), DstBit(r, m, i, p))
            else DstBit(r, m, i, p)
  {
    SourceOfBit(r, m, i, p);
    hide Source, SourceBit, PrevIn, WordIn, LineNo, Mask, Width, TableEntry, ReadWord, DstAt, Merge, ApplyOp;
    var source := Source(r, PrevIn(r, m, i, p / 16), WordIn(r, m, i, p / 16), LineNo(r, i));
    MergedBit(r.op, source, ReadWord(m, DstAt(r, i, p / 16)), Mask(r, p / 16, Width(r)), p % 16);
  }

  /** What a blit does to each bit of a destination row. Where the endmask is on, the bit
      becomes the entry of the truth table for its source bit and its old value; elsewhere
      it stays. Endmask 1 governs the first word of a row, 3 the last and 2 those between;
      a row of one word is governed by 1 and 3 together. */
  lemma BlitBit(r: Regs, m: Memory, i: nat, p: nat)
    requires ValidRegs(r) && DistinctDst(r) && SrcClear(r) && i < Height(r) && p < 16 * Width(r)
    ensures var before, after := DstBit(r, m, i, p), DstBit(r, Execute(r, m).1, i, p);
            var n, q, v := Width(r), p % 16, TableEntry(r.op, SourceBit(r, m, i, p), before);
            && (n == 1 ==> after == if r.mask1[q] && r.mask3[q] then v else before)
            && (n > 1 && p < 16 ==> after == if r.mask1[q] then v else before)
            && (n > 1 && p >= 16 * (n - 1) ==> after == if r.mask3[q] then v else before)
            && (16 <= p < 16 * (n - 1) ==> after == if r.mask2[q] then v else before)
  {
    hide DistinctDst, SrcClear, DstAt, Execute, ReadWord, Expected, Width, Height, SourceBit, TableEntry;
    BlitLeaves(r, m);
    assert InBlit(r, i, p / 16);
    ExpectedBit(r, m, i, p);
  }

  // ------------------------------------------------------------------ skewed copies

  /** A plain copy through the shifter: source selected, copied unmasked, one fetch a word. */
  predicate PlainCopy(r: Regs) {
    && r.hop % 4 == 2 && r.op % 16 == 3 && !Fxsr(r) && !Nfsr(r)
    && r.mask1 == r.mask2 == r.mask3 == Filled(true)
  }

  function SrcBit(r: Regs, m: Memory, i: nat, p: nat): bool {
    ReadWord(m, SrcAt(r, i, p / 16))[p % 16]
  }

  lemma PlainCopyWord(r: Regs, m: Memory, i: nat, x: nat, q: nat)
    requires ValidRegs(r) && PlainCopy(r) && q < 16
    ensures Expected(r, m, i, x)[q] == Skewed(r, PrevIn(r, m, i, x), WordIn(r, m, i, x))[q]
  {
    hide ReadWord, DstAt, SrcAt, Skewed, PrevIn, WordIn, Width;
    assert Mask(r, x, Width(r))[q];
  }

  /** Scanning forward, each destination row is the source row shifted right by the skew,
      zeros entering on the left. */
  lemma ForwardCopyShiftsRight(r: Regs, m: Memory, i: nat, p: nat)
    requires ValidRegs(r) && DistinctDst(r) && SrcClear(r) && PlainCopy(r) && r.srcX >= 0
    requires i < Height(r) && p < 16 * Width(r)
    ensures DstBit(r, Execute(r, m).1, i, p) == if p < r.skew % 16 then false else SrcBit(r, m, i, p - r.skew % 16)
  {
    hide DistinctDst, SrcClear, DstAt, SrcAt, Execute, ReadWord, Expected, Width, Height;
    var n, x, q := r.skew % 16, p / 16, p % 16;
    BlitLeaves(r, m);
    assert InBlit(r, i, x);
    PlainCopyWord(r, m, i, x, q);
    hide PlainCopy;
    if q < n {
      assert p - n >= 0 ==> (p - n) / 16 == x - 1 && (p - n) % 16 == 16 + q - n;
    } else {
      assert (p - n) / 16 == x && (p - n) % 16 == q - n;
    }
  }

  /** Scanning backward with a skew, the row in memory order (last column first) is the
      source row shifted left by what is missing to 16, zeros entering on the right. */
  lemma BackwardCopyShiftsLeft(r: Regs, m: Memory, i: nat, x: nat, q: nat)
    requires ValidRegs(r) && DistinctDst(r) && SrcClear(r) && PlainCopy(r) && r.srcX < 0 && r.skew % 16 > 0
    requires InBlit(r, i, x) && q < 16
    ensures ReadWord(Execute(r, m).1, DstAt(r, i, x))[q] ==
            var from := q + (16 - r.skew % 16);
            if from < 16 then ReadWord(m, SrcAt(r, i, x))[from]
            else if x > 0 then ReadWord(m, SrcAt(r, i, x - 1))[from - 16]
            else false
  {
    hide DistinctDst, SrcClear, DstAt, SrcAt, Execute, ReadWord, Expected, Width, Height;
    BlitLeaves(r, m);
    PlainCopyWord(r, m, i, x, q);
  }

  // ----------------------------------------------------------- rows in two regions

  function DstBase(r: Regs): int {
    r.dst - r.dst % 2
  }

  function SrcBase(r: Regs): int {
    r.src - r.src % 2
  }

  /** Forward by words within rows that do not overlap, destination and source rows in
      two regions of memory apart from each other, neither crossing the top. */
  predicate TwoRegions(r: Regs) {
    && r.srcX == 2 && r.dstX == 2 && r.srcY >= 2 && r.dstY >= 2 && !Fxsr(r) && !Nfsr(r)
    && DstBase(r) + Height(r) * DstStride(r) <= SPACE && SrcBase(r) + Height(r) * SrcStride(r) <= SPACE
    && (SrcBase(r) + Height(r) * SrcStride(r) <= DstBase(r) || DstBase(r) + Height(r) * DstStride(r) <= SrcBase(r))
  }

  lemma RowInside(base: int, stride: int, i: nat, x: nat, width: nat, height: nat)
    requires i < height && x < width && stride >= 2 * width && base >= 0 && base + height * stride <= SPACE
    ensures base <= base + i * stride + 2 * x && base + i * stride + 2 * x + 2 <= base + (i + 1) * stride
    ensures base + (i + 1) * stride <= base + height * stride
    ensures Wrap(base + i * stride + 2 * x) == base + i * stride + 2 * x
  {
    assert 0 <= i * stride;
    assert (i + 1) * stride == i * stride + stride;
    assert (i + 1) * stride <= height * stride;
  }

  lemma LaterRow(stride: int, i: nat, j: nat)
    requires i < j && stride >= 0
    ensures (i + 1) * stride <= j * stride
  {
  }

  lemma WordsInside(r: Regs, i: nat, x: nat)
    requires TwoRegions(r) && InBlit(r, i, x)
    ensures var (d, s) := (DstBase(r), SrcBase(r));
            && DstAt(r, i, x) == d + i * DstStride(r) + 2 * x
            && d <= DstAt(r, i, x) && DstAt(r, i, x) + 2 <= d + (i + 1) * DstStride(r) <= d + Height(r) * DstStride(r)
            && s <= SrcAt(r, i, x) && SrcAt(r, i, x) + 2 <= s + Height(r) * SrcStride(r)
  {
    RowInside(DstBase(r), DstStride(r), i, x, Width(r), Height(r));
    RowInside(SrcBase(r), SrcStride(r), i, x, Width(r), Height(r));
  }

  lemma FarApart(a: addr, b: addr)
    requires a + 2 <= b && b + 2 <= SPACE
    ensures Apart(a, b) && Apart(b, a)
  {
  }

  lemma WordsApart(r: Regs, i: nat, x: nat, j: nat, y: nat)
    requires TwoRegions(r) && InBlit(r, i, x) && InBlit(r, j, y) && (i < j || (i == j && x < y))
    ensures Apart(DstAt(r, i, x), DstAt(r, j, y)) && Apart(DstAt(r, j, y), DstAt(r, i, x))
  {
    WordsInside(r, i, x);
    WordsInside(r, j, y);
    var s := DstStride(r);
    hide DstAt, SrcAt, DstStride, SrcStride, Height, Width, Apart, Fxsr, Nfsr;
    if i < j {
      LaterRow(s, i, j);
    }
    FarApart(DstAt(r, i, x), DstAt(r, j, y));
  }

  lemma RegionsApart(r: Regs, i: nat, x: nat, j: nat, k: nat)
    requires TwoRegions(r) && InBlit(r, i, x) && InBlit(r, j, k)
    ensures Apart(DstAt(r, i, x), SrcAt(r, j, k))
  {
    WordsInside(r, i, x);
    WordsInside(r, j, k);
    hide DstAt, SrcAt, DstStride, SrcStride, Height, Width, Apart, Fxsr, Nfsr;
    if SrcBase(r) + Height(r) * SrcStride(r) <= DstBase(r) {
      FarApart(SrcAt(r, j, k), DstAt(r, i, x));
    } else {
      FarApart(DstAt(r, i, x), SrcAt(r, j, k));
    }
  }

  /** Such a blit meets the conditions of BlitLeaves. */
  lemma TwoRegionsAreApart(r: Regs)
    requires TwoRegions(r)
    ensures DistinctDst(r) && SrcClear(r)
  {
    assert Fetches(r) == Width(r);
    hide DstAt, SrcAt, TwoRegions, Apart, Fetches, Height, Width;
    forall i: nat, x: nat, j: nat, y: nat | InBlit(r, i, x) && InBlit(r, j, y) && (i != j || x != y)
      ensures Apart(DstAt(r, i, x), DstAt(r, j, y))
    {
      if i < j || (i == j && x < y) {
        WordsApart(r, i, x, j, y);
      } else {
        WordsApart(r, j, y, i, x);
      }
    }
    forall i: nat, x: nat, j: nat, k: nat | InBlit(r, i, x) && j < Height(r) && k < Fetches(r)
      ensures Apart(DstAt(r, i, x), SrcAt(r, j, k))
    {
      RegionsApart(r, i, x, j, k);
    }
  }

  /** The copy of a bitmap between two regions, bit by bit, for every width, height and skew. */
  lemma SkewedCopy(r: Regs, m: Memory, i: nat, p: nat)
    requires ValidRegs(r) && PlainCopy(r) && TwoRegions(r) && i < Height(r) && p < 16 * Width(r)
    ensures DstBit(r, Execute(r, m).1, i, p) == if p < r.skew % 16 then false else SrcBit(r, m, i, p - r.skew % 16)
  {
    TwoRegionsAreApart(r);
    hide TwoRegions, DistinctDst, SrcClear, Execute, DstBit, SrcBit, Height, Width;
    ForwardCopyShiftsRight(r, m, i, p);
  }

  // -------------------------------------------------------------------- xor twice

  /** The sources of a blit are the same after it. */
  lemma SourcesSurvive(r: Regs, m: Memory, t: Memory, i: nat, k: nat)
    requires SrcClear(r) && i < Height(r) && k < Fetches(r)
    requires forall b: addr | (forall j: nat, y: nat | InBlit(r, j, y) :: !Covers(DstAt(r, j, y), b)) :: t[b] == m[b]
    ensures Fetched(r, t, i, k) == Fetched(r, m, i, k)
  {
    var a := SrcAt(r, i, k);
    hide DstAt, SrcAt, Height, Width;
    forall b: addr | Covers(a, b)
      ensures t[b] == m[b]
    {
      forall j: nat, y: nat | InBlit(r, j, y)
        ensures !Covers(DstAt(r, j, y), b)
      {
        assert Apart(DstAt(r, j, y), SrcAt(r, i, k));
      }
    }
  }

  lemma XorMergeTwice(s: Word, d: Word, mask: Word)
    ensures var once := Merge(ApplyOp(6, s, d), d, mask);
            Merge(ApplyOp(6, s, once), once, mask) == d
  {
  }

  lemma WordBytes(m: Memory, t: Memory, a: addr, b: addr)
    requires ReadWord(m, a) == ReadWord(t, a) && Covers(a, b)
    ensures m[b] == t[b]
  {
    assert m[a] == ReadWord(m, a)[..8] && m[Wrap(a + 1)] == ReadWord(m, a)[8..];
    assert t[a] == ReadWord(t, a)[..8] && t[Wrap(a + 1)] == ReadWord(t, a)[8..];
  }

  lemma XorWordRestored(r: Regs, m: Memory, t: Memory, i: nat, x: nat)
    requires ValidRegs(r) && SrcClear(r) && r.op % 16 == 6 && InBlit(r, i, x)
    requires ReadWord(t, DstAt(r, i, x)) == Expected(r, m, i, x)
    requires forall b: addr | (forall j: nat, y: nat | InBlit(r, j, y) :: !Covers(DstAt(r, j, y), b)) :: t[b] == m[b]
    ensures Expected(r, t, i, x) == ReadWord(m, DstAt(r, i, x))
  {
    hide SrcClear, DstAt, SrcAt, ReadWord, ApplyOp, Merge, Mask, Source, Fetched, Covers;
    var k := Fx(r) + x;
    if k > 0 {
      SourcesSurvive(r, m, t, i, k - 1);
    }
    if !(Nfsr(r) && x + 1 == Width(r)) {
      SourcesSurvive(r, m, t, i, k);
    }
    assert PrevIn(r, t, i, x) == PrevIn(r, m, i, x) && WordIn(r, t, i, x) == WordIn(r, m, i, x);
    XorMergeTwice(Source(r, PrevIn(r, m, i, x), WordIn(r, m, i, x), LineNo(r, i)), ReadWord(m, DstAt(r, i, x)),
                  Mask(r, x, Width(r)));
  }

  /** An exclusive-or blit run twice from the same registers, whatever its halftone,
      masks, skew and fetches, puts every byte of memory back. */
  lemma XorTwiceRestores(r: Regs, m: Memory)
    requires ValidRegs(r) && DistinctDst(r) && SrcClear(r) && r.op % 16 == 6
    ensures Execute(r, Execute(r, m).1).1 == m
  {
    hide DistinctDst, SrcClear, DstAt, Execute, ReadWord, Expected, Covers;
    var t := Execute(r, m).1;
    var u := Execute(r, t).1;
    BlitLeaves(r, m);
    BlitLeaves(r, t);
    forall b: addr
      ensures u[b] == m[b]
    {
      if i: nat, x: nat :| InBlit(r, i, x) && Covers(DstAt(r, i, x), b) {
        XorWordRestored(r, m, t, i, x);
        WordBytes(u, m, DstAt(r, i, x), b);
      }
    }
  }
}
