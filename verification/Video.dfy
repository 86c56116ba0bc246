/** The renderer of next_video.c in place: the decode table, the 1920x1080 pixel buffer
    with the picture centred in it, and the words of the dirty bitmap. */
module Video {
  import opened Bits
  import opened DirtyLines

  const OUT_W := 1920
  const OUT_H := 1080
  const OUT_SIZE := 2_073_600      // OUT_W * OUT_H
  const OFS_X := 400
  const OFS_Y := 124
  const WIDTH := 1120
  const BLACK: uint32 := 0xFF00_0000

  function Nth(g: Group, k: int): uint32
    requires 0 <= k < 4
  {
    if k == 0 then g.p0 else if k == 1 then g.p1 else if k == 2 then g.p2 else g.p3
  }

  /** Position `i` of the buffer shows column Col(i) of picture line Row(i); both are
      out of range on the borders. */
  function Row(i: int): int {
    i / OUT_W - OFS_Y
  }

  function Col(i: int): int {
    i % OUT_W - OFS_X
  }

  predicate InPicture(i: int) {
    0 <= Row(i) < HEIGHT && 0 <= Col(i) < WIDTH
  }

  /** The byte of VRAM shown at position `i`. */
  function ByteAt(i: int): (g: int)
    requires InPicture(i)
    ensures 0 <= g < VISIBLE && Line(g) == Row(i)
  {
    Row(i) * STRIDE + Col(i) / 4
  }

  /** The position of pixel `k` of group `g`. */
  function PosOf(g: int, k: int): (i: int)
    requires 0 <= g < VISIBLE && 0 <= k < 4
    ensures 0 <= i < OUT_SIZE && InPicture(i) && ByteAt(i) == g && Col(i) % 4 == k
  {
    var y, bx := g / STRIDE, g % STRIDE;
    assert 0 <= y < HEIGHT && 0 <= bx < STRIDE;
    var i := (y + OFS_Y) * OUT_W + (OFS_X + 4 * bx + k);
    assert i / OUT_W == y + OFS_Y && i % OUT_W == OFS_X + 4 * bx + k;
    i
  }

  /** What is on screen, group by group. */
  function Picture(buf: seq<uint32>): Frame
    requires |buf| == OUT_SIZE
  {
    seq(VISIBLE, g requires 0 <= g < VISIBLE =>
      Group(buf[PosOf(g, 0)], buf[PosOf(g, 1)], buf[PosOf(g, 2)], buf[PosOf(g, 3)]))
  }

  // ------------------------------------------------------------------------ pixels

  /** An opaque grey, 0 black and 255 white. */
  function Grey(level: int): uint32
    requires 0 <= level < 256
  {
    0xFF00_0000 + level * 0x1_0101
  }

  /** The two bits of picture position (x, y): four pixels to a byte, the leftmost in the
      top bits. */
  function Field(vram: Vram, x: nat, y: nat): (f: int)
    requires x < WIDTH && y < HEIGHT
    ensures 0 <= f < 4
  {
    var b: int := vram[y * STRIDE + x / 4];
    if x % 4 == 0 then b / 64 else if x % 4 == 1 then b / 16 % 4 else if x % 4 == 2 then b / 4 % 4 else b % 4
  }

  /** The field a pixel was made from. */
  function FieldOf(pixel: uint32): int {
    (255 - pixel % 0x100) / 85
  }

  /** Field 0 is white, 3 black, and the steps between are even. */
  lemma ShadesAreEven(field: int)
    requires 0 <= field < 4
    ensures Shade(field) == Grey(255 - 85 * field) && FieldOf(Shade(field)) == field
  {
    var level := 255 - 85 * field;
    assert Grey(level) == 0x100 * (0xFF_0000 + level * 0x101) + level;
    assert Grey(level) % 0x100 == level;
  }

  /** The four pixels of a byte, left to right, are its fields from the top down: the byte
      can be read back off the screen. */
  lemma DecodeReadsBack(b: uint8)
    ensures var g := Decode(b);
            b == 64 * FieldOf(g.p0) + 16 * FieldOf(g.p1) + 4 * FieldOf(g.p2) + FieldOf(g.p3)
  {
    ShadesAreEven(b / 64);
    ShadesAreEven(b / 16 % 4);
    ShadesAreEven(b / 4 % 4);
    ShadesAreEven(b % 4);
    assert b / 4 == 4 * (b / 16) + b / 4 % 4;
    assert b / 16 == 4 * (b / 64) + b / 16 % 4;
  }

  /** A full render puts the grey of each two-bit field of VRAM at its place in the centred
      picture. */
  lemma RenderedPixel(buf: seq<uint32>, vram: Vram, x: nat, y: nat)
    requires |buf| == OUT_SIZE && x < WIDTH && y < HEIGHT
    requires forall g | 0 <= g < VISIBLE :: Picture(buf)[g] == Decode(vram[g])
    ensures 0 <= (y + OFS_Y) * OUT_W + x + OFS_X < OUT_SIZE
    ensures buf[(y + OFS_Y) * OUT_W + x + OFS_X] == Grey(255 - 85 * Field(vram, x, y))
  {
    var g, k := y * STRIDE + x / 4, x % 4;
    assert 0 <= g < VISIBLE && g / STRIDE == y && g % STRIDE == x / 4;
    assert PosOf(g, k) == (y + OFS_Y) * OUT_W + x + OFS_X;
    hide PosOf, Shade;
    assert Nth(Picture(buf)[g], k) == buf[PosOf(g, k)];
    ShadesAreEven(Field(vram, x, y));
  }

  // -------------------------------------------------------------- the dirty bitmap

  predicate Marked(words: seq<set<int>>, y: int) {
    0 <= y < HEIGHT && |words| == WORDS && y % 32 in words[y / 32]
  }

  function MarkedLines(words: seq<set<int>>): set<int> {
    set y | 0 <= y < HEIGHT && Marked(words, y)
  }

  /** Every position after `lines` whole lines and `bytes` bytes of the next have been
      looked at. */
  ghost predicate PaintedTo(was: seq<uint32>, buf: seq<uint32>, vram: Vram, words: seq<set<int>>, y: int, bytes: int)
    requires |was| == |buf| == OUT_SIZE
  {
    forall i | 0 <= i < OUT_SIZE ::
      buf[i] == if InPicture(i) && Marked(words, Row(i)) && (Row(i) < y || (Row(i) == y && Col(i) < 4 * bytes))
                then Nth(Decode(vram[ByteAt(i)]), Col(i) % 4) else was[i]
  }

  /** The marked lines redrawn, and the borders black if `borders`. */
  ghost predicate Redrawn(was: seq<uint32>, buf: seq<uint32>, vram: Vram, words: seq<set<int>>, borders: bool)
    requires |was| == |buf| == OUT_SIZE
  {
    forall i | 0 <= i < OUT_SIZE ::
      buf[i] == if InPicture(i) then
                  if Marked(words, Row(i)) then Nth(Decode(vram[ByteAt(i)]), Col(i) % 4) else was[i]
                else if borders then BLACK else was[i]
  }

  /** The screen after one redraw, as the interleaved protocol computes it. */
  lemma RedrawnIsRepainted(was: seq<uint32>, buf: seq<uint32>, vram: Vram, words: seq<set<int>>, borders: bool)
    requires |was| == |buf| == OUT_SIZE
    requires Redrawn(was, buf, vram, words, borders)
    ensures Picture(buf) == Repainted(Picture(was), vram, MarkedLines(words), 0)
  {
    forall g | 0 <= g < VISIBLE
      ensures Picture(buf)[g] == Repainted(Picture(was), vram, MarkedLines(words), 0)[g]
    {
      forall k | 0 <= k < 4
        ensures Nth(Picture(buf)[g], k) ==
                if Line(g) in MarkedLines(words) then Nth(Decode(vram[g]), k) else Nth(Picture(was)[g], k)
      {
        var i := PosOf(g, k);
        assert buf[i] == if Marked(words, Row(i)) then Nth(Decode(vram[ByteAt(i)]), Col(i) % 4) else was[i];
      }
      assert Nth(Picture(buf)[g], 0) == Picture(buf)[g].p0 && Nth(Picture(buf)[g], 1) == Picture(buf)[g].p1;
      assert Nth(Picture(buf)[g], 2) == Picture(buf)[g].p2 && Nth(Picture(buf)[g], 3) == Picture(buf)[g].p3;
    }
  }

  /** Four neighbouring writes paint exactly the pixels of the next byte. */
  lemma GroupPainted(was: seq<uint32>, before: seq<uint32>, buf: seq<uint32>, vram: Vram, words: seq<set<int>>,
                     y: int, bx: int)
    requires |was| == |before| == |buf| == OUT_SIZE && 0 <= bx < STRIDE && Marked(words, y)
    requires PaintedTo(was, before, vram, words, y, bx)
    requires var dst := (y + OFS_Y) * OUT_W + OFS_X + 4 * bx;
             var p := Decode(vram[y * STRIDE + bx]);
             buf == before[dst := p.p0][dst + 1 := p.p1][dst + 2 := p.p2][dst + 3 := p.p3]
    ensures PaintedTo(was, buf, vram, words, y, bx + 1)
  {
    var dst := (y + OFS_Y) * OUT_W + OFS_X + 4 * bx;
    forall i | 0 <= i < OUT_SIZE
      ensures buf[i] == if InPicture(i) && Marked(words, Row(i)) &&
                           (Row(i) < y || (Row(i) == y && Col(i) < 4 * (bx + 1)))
                        then Nth(Decode(vram[ByteAt(i)]), Col(i) % 4) else was[i]
    {
      assert before[i] == if InPicture(i) && Marked(words, Row(i)) && (Row(i) < y || (Row(i) == y && Col(i) < 4 * bx))
                          then Nth(Decode(vram[ByteAt(i)]), Col(i) % 4) else was[i];
      if dst <= i < dst + 4 {
        assert Row(i) == y && Col(i) == 4 * bx + (i - dst) && ByteAt(i) == y * STRIDE + bx;
      } else {
        assert buf[i] == before[i];
      }
    }
  }

  class Screen {
    const vram: array<uint8>
    const pbuf: array<uint32>
    const lut: array2<uint32>
    const bitmap: array<set<int>>
    var bordersDone: bool

    ghost predicate Shaped() {
      && vram.Length == VRAM_SIZE && pbuf.Length == OUT_SIZE
      && lut.Length0 == 256 && lut.Length1 == 4 && bitmap.Length == WORDS
    }

    ghost predicate LutOk(n: int)
      requires Shaped()
      reads lut
    {
      forall b, k | 0 <= b < n && b < 256 && 0 <= k < 4 :: lut[b, k] == Nth(Decode(b), k)
    }

    ghost predicate Valid()
      reads this, lut
    {
      Shaped() && LutOk(256)
    }

    /** Black screen, nothing marked. */
    constructor (vram: array<uint8>)
      requires vram.Length == VRAM_SIZE
      ensures Valid() && this.vram == vram && !bordersDone
      ensures fresh(pbuf) && fresh(lut) && fresh(bitmap)
      ensures forall i | 0 <= i < OUT_SIZE :: pbuf[i] == BLACK
      ensures forall y :: !Marked(bitmap[..], y)
    {
      this.vram := vram;
      pbuf := new uint32[OUT_SIZE];
      lut := new uint32[256, 4];
      bitmap := new set<int>[WORDS](_ => {});
      bordersDone := false;
      new;
      BuildLut();
      BlackSpan(0, OUT_SIZE);
    }

    method BuildLut()
      requires Shaped()
      modifies lut
      ensures LutOk(256)
    {
      for b := 0 to 256
        invariant LutOk(b)
      {
        lut[b, 0] := Shade(b / 64);
        lut[b, 1] := Shade(b / 16 % 4);
        lut[b, 2] := Shade(b / 4 % 4);
        lut[b, 3] := Shade(b % 4);
      }
    }

    method BlackSpan(lo: nat, n: nat)
      requires lo + n <= pbuf.Length
      modifies pbuf
      ensures forall i | 0 <= i < pbuf.Length :: pbuf[i] == if lo <= i < lo + n then BLACK else old(pbuf[i])
    {
      for x := lo to lo + n
        invariant forall i | 0 <= i < pbuf.Length :: pbuf[i] == if lo <= i < x then BLACK else old(pbuf[i])
      {
        pbuf[x] := BLACK;
      }
    }

    method MarkAll()
      requires Valid()
      modifies bitmap
      ensures forall y | 0 <= y < HEIGHT :: Marked(bitmap[..], y)
    {
      var full := set b | 0 <= b < 32 && InWord(b, 0);
      for i := 0 to WORDS
        invariant forall j | 0 <= j < i :: bitmap[j] == full
      {
        bitmap[i] := full;
      }
    }

    /** The emulator core's half: mark the line of a byte just stored. */
    method MarkLine(offset: nat)
      requires Valid()
      modifies bitmap
      ensures forall y :: Marked(bitmap[..], y) <==> old(Marked(bitmap[..], y)) || (y == Line(offset) && y < HEIGHT)
    {
      var line := Line(offset);
      if line < HEIGHT {
        bitmap[line / 32] := bitmap[line / 32] + {line % 32};
      }
    }

    /** Take the words one at a time, leaving each empty. */
    method TakeDirtyLines() returns (words: seq<set<int>>)
      requires Valid()
      modifies bitmap
      ensures words == old(bitmap[..])
      ensures forall y :: !Marked(bitmap[..], y)
    {
      words := [];
      for i := 0 to WORDS
        invariant words == old(bitmap[..i])
        invariant forall j | 0 <= j < WORDS :: bitmap[j] == if j < i then {} else old(bitmap[j])
      {
        words := words + [bitmap[i]];
        bitmap[i] := {};
      }
    }

    /** Decode the bytes of one marked line through the table. */
    method PaintLine(ghost was: seq<uint32>, words: seq<set<int>>, y: nat)
      requires Valid() && |was| == OUT_SIZE && Marked(words, y)
      requires PaintedTo(was, pbuf[..], vram[..], words, y, 0)
      modifies pbuf
      ensures PaintedTo(was, pbuf[..], vram[..], words, y + 1, 0)
    {
      var dst := (y + OFS_Y) * OUT_W + OFS_X;
      for bx := 0 to STRIDE
        invariant dst == (y + OFS_Y) * OUT_W + OFS_X + 4 * bx
        invariant PaintedTo(was, pbuf[..], vram[..], words, y, bx)
      {
        var b := vram[y * STRIDE + bx];
        ghost var before := pbuf[..];
        pbuf[dst] := lut[b, 0];
        pbuf[dst + 1] := lut[b, 1];
        pbuf[dst + 2] := lut[b, 2];
        pbuf[dst + 3] := lut[b, 3];
        GroupPainted(was, before, pbuf[..], vram[..], words, y, bx);
        dst := dst + 4;
      }
    }

    method PaintBorders()
      requires Valid()
      modifies pbuf
      ensures forall i | 0 <= i < OUT_SIZE :: pbuf[i] == if InPicture(i) then old(pbuf[i]) else BLACK
    {
      for y := 0 to OFS_Y
        invariant forall i | 0 <= i < OUT_SIZE :: pbuf[i] == if i < y * OUT_W then BLACK else old(pbuf[i])
      {
        BlackSpan(y * OUT_W, OUT_W);
      }
      for y := 0 to HEIGHT
        invariant forall i | 0 <= i < OUT_SIZE ::
          pbuf[i] == if i < (y + OFS_Y) * OUT_W && !InPicture(i) then BLACK else old(pbuf[i])
      {
        BlackSpan((y + OFS_Y) * OUT_W, OFS_X);
        BlackSpan((y + OFS_Y) * OUT_W + OFS_X + WIDTH, OUT_W - OFS_X - WIDTH);
      }
      for y := OFS_Y + HEIGHT to OUT_H
        invariant forall i | 0 <= i < OUT_SIZE ::
          pbuf[i] == if i < y * OUT_W && !InPicture(i) then BLACK else old(pbuf[i])
      {
        BlackSpan(y * OUT_W, OUT_W);
      }
    }

    /** Redraw the marked lines and report the range of screen rows that changed. */
    method RenderDirty() returns (drawn: bool, minY: int, maxY: int)
      requires Valid()
      modifies pbuf, bitmap, this`bordersDone
      ensures Valid() && bordersDone
      ensures forall y :: !Marked(bitmap[..], y)
      ensures Redrawn(old(pbuf[..]), pbuf[..], vram[..], old(bitmap[..]), old(!bordersDone))
      ensures Picture(pbuf[..]) == Repainted(old(Picture(pbuf[..])), vram[..], MarkedLines(old(bitmap[..])), 0)
      ensures drawn <==> old(!bordersDone) || exists y :: Marked(old(bitmap[..]), y)
      ensures forall i | 0 <= i < OUT_SIZE && pbuf[i] != old(pbuf[i]) :: drawn && minY <= i / OUT_W <= maxY
      ensures drawn && old(bordersDone) ==>
                Marked(old(bitmap[..]), minY - OFS_Y) && Marked(old(bitmap[..]), maxY - OFS_Y)
    {
      ghost var was := pbuf[..];
      var words := TakeDirtyLines();
      var rmin, rmax := HEIGHT, -1;
      for y := 0 to HEIGHT
        invariant PaintedTo(was, pbuf[..], vram[..], words, y, 0)
        invariant bordersDone == old(bordersDone) && forall z :: !Marked(bitmap[..], z)
        invariant forall z | z < y && Marked(words, z) :: rmin <= z <= rmax
        invariant if rmax < 0 then rmin == HEIGHT && rmax == -1 else Marked(words, rmin) && Marked(words, rmax)
        invariant rmax < y
      {
        if y % 32 in words[y / 32] {
          PaintLine(was, words, y);
          if y < rmin {
            rmin := y;
          }
          if y > rmax {
            rmax := y;
          }
        }
      }
      var fullFrame := false;
      if !bordersDone {
        bordersDone := true;
        PaintBorders();
        fullFrame := true;
      }
      assert Redrawn(was, pbuf[..], vram[..], words, fullFrame);
      RedrawnIsRepainted(was, pbuf[..], vram[..], words, fullFrame);
      if fullFrame {
        return true, 0, OUT_H - 1;
      }
      if rmax < 0 {
        return false, 0, 0;
      }
      return true, rmin + OFS_Y, rmax + OFS_Y;
    }
  }
}
