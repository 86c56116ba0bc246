/** The two-core display protocol: the emulator core stores VRAM bytes and then marks
    the scanline, the render core takes the marks word by word and repaints. Each
    store, atomic or, atomic exchange, load of a byte and painting of its pixels is one
    step, and the steps of the two cores interleave freely. */
module DirtyLines {
  import opened Bits

  const STRIDE := 280
  const HEIGHT := 832
  const VISIBLE := 232960          // STRIDE * HEIGHT
  const VRAM_SIZE := 262144
  const WORDS := 26

  type Vram = v: seq<uint8> | |v| == VRAM_SIZE witness seq(VRAM_SIZE, _ => 0)

  /** Four pixels, one per two-bit field of a byte, leftmost first. */
  datatype Group = Group(p0: uint32, p1: uint32, p2: uint32, p3: uint32)

  type Frame = f: seq<Group> | |f| == VISIBLE witness seq(VISIBLE, _ => Group(0, 0, 0, 0))

  function Shade(field: int): uint32 {
    if field == 0 then 0xFFFF_FFFF
    else if field == 1 then 0xFFAA_AAAA
    else if field == 2 then 0xFF55_5555
    else 0xFF00_0000
  }

  function Decode(b: uint8): Group {
    Group(Shade(b / 64), Shade(b / 16 % 4), Shade(b / 4 % 4), Shade(b % 4))
  }

  function Line(offset: int): int {
    offset / STRIDE
  }

  /** The emulator core: between instructions, or inside a store of `values` at `off`
      with `done` bytes written. */
  datatype Cpu = Idle | Storing(off: nat, values: seq<uint8>, done: nat)

  /** The byte the render core has loaded and not yet painted. */
  datatype Held = Nothing | Loaded(byte: uint8)

  /** The render core: idle, exchanging the words of the bitmap, or repainting; `next`
      is the first byte of VRAM not yet repainted or passed over. */
  datatype Renderer =
    | Resting
    | Fetching(word: nat, taken: set<int>)
    | Painting(next: nat, taken: set<int>, held: Held)

  /** `dirty` is the set of marked lines, 32 to a word of the bitmap. */
  datatype State = State(vram: Vram, dirty: set<int>, frame: Frame, cpu: Cpu, render: Renderer)

  datatype Step = BeginStore(off: nat, values: seq<uint8>) | StoreByte | MarkLine | MarkWord(word: nat)
    | BeginRender | ExchangeWord | PassOver | LoadByte | PaintPixels | EndRender

  predicate InWord(y: int, word: nat) {
    y / 32 == word
  }

  function WordLines(word: nat): set<int> {
    set y | word * 32 <= y < word * 32 + 32 && InWord(y, word)
  }

  /** A store the bitmap can account for: it stays on one line, or below the picture. */
  predicate OnOneLine(off: nat, n: nat) {
    off % STRIDE + n <= STRIDE || Line(off) >= HEIGHT - 1
  }

  predicate Enabled(s: State, e: Step) {
    match e
    case BeginStore(off, values) => s.cpu.Idle? && 0 < |values| <= 4 && off + |values| <= VRAM_SIZE
    case StoreByte => s.cpu.Storing? && s.cpu.done < |s.cpu.values| && s.cpu.off + s.cpu.done < VRAM_SIZE
    case MarkLine => s.cpu.Storing? && s.cpu.done == |s.cpu.values|
    case MarkWord(word) => word < WORDS
    case BeginRender => s.render.Resting?
    case ExchangeWord => s.render.Fetching? && s.render.word < WORDS
    case PassOver => s.render.Painting? && s.render.next < VISIBLE && Line(s.render.next) !in s.render.taken
    case LoadByte =>
      s.render.Painting? && s.render.next < VISIBLE && Line(s.render.next) in s.render.taken && s.render.held.Nothing?
    case PaintPixels => s.render.Painting? && s.render.next < VISIBLE && s.render.held.Loaded?
    case EndRender => s.render.Painting? && s.render.next == VISIBLE
  }

  function Next(s: State, e: Step): State
    requires Enabled(s, e)
  {
    match e
    case BeginStore(off, values) => s.(cpu := Storing(off, values, 0))
    case StoreByte =>
      var c := s.cpu;
      s.(vram := s.vram[c.off + c.done := c.values[c.done]], cpu := c.(done := c.done + 1))
    case MarkLine =>
      var y := Line(s.cpu.off);
      s.(dirty := if y < HEIGHT then s.dirty + {y} else s.dirty, cpu := Idle)
    case MarkWord(word) => s.(dirty := s.dirty + WordLines(word))
    case BeginRender => s.(render := Fetching(0, {}))
    case ExchangeWord =>
      var r := s.render;
      var taken := r.taken + s.dirty * WordLines(r.word);
      s.(dirty := s.dirty - WordLines(r.word),
         render := if r.word + 1 == WORDS then Painting(0, taken, Nothing) else Fetching(r.word + 1, taken))
    case PassOver => s.(render := s.render.(next := s.render.next + 1))
    case LoadByte => s.(render := s.render.(held := Loaded(s.vram[s.render.next])))
    case PaintPixels =>
      var r := s.render;
      s.(frame := s.frame[r.next := Decode(r.held.byte)], render := r.(next := r.next + 1, held := Nothing))
    case EndRender => s.(render := Resting)
  }

  // ------------------------------------------------------------------- invariant

  /** Byte `g` belongs to a line the renderer has taken and has yet to repaint it. */
  predicate StillToPaint(r: Renderer, g: int) {
    match r
    case Resting => false
    case Fetching(_, taken) => Line(g) in taken
    case Painting(next, taken, _) => Line(g) in taken && g >= next
  }

  /** A store to the line of `g` has changed VRAM and not yet marked it. */
  predicate InFlight(c: Cpu, g: int) {
    c.Storing? && c.done > 0 && Line(c.off) == Line(g)
  }

  /** What is on screen is right, or somebody still owes the repaint. */
  ghost predicate Accounted(s: State, g: int)
    requires 0 <= g < VISIBLE
  {
    || s.frame[g] == Decode(s.vram[g])
    || Line(g) in s.dirty
    || StillToPaint(s.render, g)
    || InFlight(s.cpu, g)
  }

  /** The byte in hand belongs to a taken line, and is the one in VRAM unless a store has
      come between, which then is in flight or has marked the line. */
  ghost predicate HeldOk(s: State) {
    s.render.Painting? && s.render.held.Loaded? ==>
      && s.render.next < VISIBLE && Line(s.render.next) in s.render.taken
      && (|| s.render.held.byte == s.vram[s.render.next]
          || Line(s.render.next) in s.dirty
          || InFlight(s.cpu, s.render.next))
  }

  ghost predicate Inv(s: State) {
    && (forall g | 0 <= g < VISIBLE :: Accounted(s, g))
    && (forall y | y in s.dirty :: 0 <= y < HEIGHT)
    && (s.cpu.Storing? ==> s.cpu.done <= |s.cpu.values| && OnOneLine(s.cpu.off, |s.cpu.values|))
    && (s.render.Painting? ==> s.render.next <= VISIBLE) && HeldOk(s)
  }

  /** No interleaving of the two cores loses a repaint, as long as stores stay on one line. */
  lemma StepKeepsInv(s: State, e: Step)
    requires Inv(s) && Enabled(s, e) && (e.BeginStore? ==> OnOneLine(e.off, |e.values|))
    ensures Inv(Next(s, e))
  {
    var t := Next(s, e);
    forall g | 0 <= g < VISIBLE
      ensures Accounted(t, g)
    {
      assert Accounted(s, g);
      if e.StoreByte? && g == s.cpu.off + s.cpu.done {
        assert Line(s.cpu.off) == Line(g);
      }
    }
    if e.StoreByte? && s.render.Painting? && s.render.next == s.cpu.off + s.cpu.done {
      assert s.render.next < VISIBLE ==> Line(s.cpu.off) == Line(s.render.next);
    }
  }

  /** A run of both cores: every step enabled, every store on one line. */
  ghost predicate Possible(s: State, es: seq<Step>)
    decreases |es|
  {
    es == [] || (Enabled(s, es[0]) && (es[0].BeginStore? ==> OnOneLine(es[0].off, |es[0].values|))
                 && Possible(Next(s, es[0]), es[1..]))
  }

  function Run(s: State, es: seq<Step>): State
    requires Possible(s, es)
    decreases |es|
  {
    if es == [] then s else Run(Next(s, es[0]), es[1..])
  }

  lemma {:induction false} RunKeepsInv(s: State, es: seq<Step>)
    requires Inv(s) && Possible(s, es)
    ensures Inv(Run(s, es))
    decreases |es|
  {
    if es != [] {
      StepKeepsInv(s, es[0]);
      hide Next, Inv;
      RunKeepsInv(Next(s, es[0]), es[1..]);
    }
  }

  ghost predicate FullyRendered(s: State) {
    forall g | 0 <= g < VISIBLE :: s.frame[g] == Decode(s.vram[g])
  }

  /** At rest with nothing marked, the screen is what a full render would show. */
  lemma {:induction false} QuiescentFrameIsExact(s: State, es: seq<Step>)
    requires Inv(s) && Possible(s, es)
    ensures var t := Run(s, es); t.cpu.Idle? && t.render.Resting? && t.dirty == {} ==> FullyRendered(t)
  {
    RunKeepsInv(s, es);
    var t := Run(s, es);
    if t.cpu.Idle? && t.render.Resting? && t.dirty == {} {
      forall g | 0 <= g < VISIBLE
        ensures t.frame[g] == Decode(t.vram[g])
      {
        assert Accounted(t, g);
      }
    }
  }

  /** The protocol may start from any screen with every line marked, as after the
      initial black fill and mark-all. */
  lemma AllMarkedIsInv(s: State)
    requires s.cpu.Idle? && s.render.Resting? && forall y :: y in s.dirty <==> 0 <= y < HEIGHT
    ensures Inv(s)
  {
  }

  /** The lines of `taken` redrawn from byte `from` on, everything else as it was. */
  function Repainted(frame: Frame, vram: Vram, taken: set<int>, from: int): Frame {
    seq(VISIBLE, g requires 0 <= g < VISIBLE =>
      if g >= from && Line(g) in taken then Decode(vram[g]) else frame[g])
  }

  /** Redrawing only `lines` gives the full picture exactly when every other line was
      already right. */
  lemma RepaintIsFullIff(s: State, lines: set<int>)
    ensures FullyRendered(s.(frame := Repainted(s.frame, s.vram, lines, 0))) <==>
            forall g | 0 <= g < VISIBLE && Line(g) !in lines :: s.frame[g] == Decode(s.vram[g])
  {
    var t := s.(frame := Repainted(s.frame, s.vram, lines, 0));
    forall g | 0 <= g < VISIBLE
      ensures t.frame[g] == Decode(t.vram[g]) <==> Line(g) in lines || s.frame[g] == Decode(s.vram[g])
    {
    }
  }

  // -------------------------------------------------------------- an undisturbed pass

  function Exchanges(n: nat): seq<Step> {
    seq(n, _ => ExchangeWord)
  }

  /** The steps over `n` bytes from byte `g` on: taken lines are loaded and painted. */
  function Paints(taken: set<int>, g: nat, n: nat): seq<Step>
    decreases n, taken
  {
    if n == 0 then []
    else (if Line(g) in taken then [LoadByte, PaintPixels] else [PassOver]) + Paints(taken, g + 1, n - 1)
  }

  lemma {:induction false} RunAppend(s: State, es: seq<Step>, fs: seq<Step>)
    requires Possible(s, es) && Possible(Run(s, es), fs)
    ensures Possible(s, es + fs) && Run(s, es + fs) == Run(Run(s, es), fs)
    decreases |es|
  {
    hide Next, Enabled;
    if es == [] {
      assert es + fs == fs;
    } else {
      assert (es + fs)[0] == es[0] && (es + fs)[1..] == es[1..] + fs;
      RunAppend(Next(s, es[0]), es[1..], fs);
    }
  }

  /** One byte passed over or painted. */
  lemma PaintOne(s: State)
    requires s.render.Painting? && s.render.held.Nothing? && s.render.next < VISIBLE
    ensures var es := if Line(s.render.next) in s.render.taken then [LoadByte, PaintPixels] else [PassOver];
            && Possible(s, es)
            && Run(s, es) == s.(frame := if Line(s.render.next) in s.render.taken
                                         then s.frame[s.render.next := Decode(s.vram[s.render.next])] else s.frame,
                                render := s.render.(next := s.render.next + 1))
  {
    if Line(s.render.next) in s.render.taken {
      var t := Next(s, LoadByte);
      assert [LoadByte, PaintPixels][1..] == [PaintPixels] && [PaintPixels][1..] == [];
      assert Run(t, [PaintPixels]) == Next(t, PaintPixels);
    } else {
      assert Run(s, [PassOver]) == Next(s, PassOver);
    }
  }

  lemma {:induction false} PaintAll(s: State, n: nat)
    requires s.render.Painting? && s.render.held.Nothing? && s.render.next + n == VISIBLE
    ensures Possible(s, Paints(s.render.taken, s.render.next, n))
    ensures Run(s, Paints(s.render.taken, s.render.next, n)) ==
            s.(frame := Repainted(s.frame, s.vram, s.render.taken, s.render.next),
               render := s.render.(next := VISIBLE))
    decreases n
  {
    var taken, g := s.render.taken, s.render.next;
    if n > 0 {
      PaintOne(s);
      var one := if Line(g) in taken then [LoadByte, PaintPixels] else [PassOver];
      var t := Run(s, one);
      hide Next, Run, Possible;
      PaintAll(t, n - 1);
      RunAppend(s, one, Paints(taken, g + 1, n - 1));
      assert Repainted(t.frame, t.vram, taken, g + 1) == Repainted(s.frame, s.vram, taken, g);
    } else {
      assert Repainted(s.frame, s.vram, taken, g) == s.frame;
    }
  }

  lemma {:induction false} ExchangeAll(s: State, n: nat)
    requires s.render.Fetching? && s.render.word + n == WORDS && n > 0
    requires forall y | y in s.dirty :: s.render.word * 32 <= y < HEIGHT
    ensures Possible(s, Exchanges(n))
    ensures var t := Run(s, Exchanges(n));
            t == s.(dirty := {}, render := Painting(0, s.render.taken + s.dirty, Nothing))
    decreases n
  {
    assert Exchanges(n)[0] == ExchangeWord && Exchanges(n)[1..] == Exchanges(n - 1);
    var t := Next(s, ExchangeWord);
    forall y | y in t.dirty
      ensures (s.render.word + 1) * 32 <= y < HEIGHT
    {
      assert y !in WordLines(s.render.word);
    }
    assert t.render.taken + t.dirty == s.render.taken + s.dirty;
    if n > 1 {
      ExchangeAll(t, n - 1);
    } else {
      assert t.dirty == {} && t.render.taken == s.render.taken + s.dirty;
      assert Run(t, Exchanges(0)) == t;
    }
  }

  lemma OneStep(s: State, e: Step)
    requires Enabled(s, e) && (e.BeginStore? ==> OnOneLine(e.off, |e.values|))
    ensures Possible(s, [e]) && Run(s, [e]) == Next(s, e)
  {
    hide Next;
    assert [e][1..] == [];
    assert Run(Next(s, e), []) == Next(s, e);
  }

  /** One pass of the renderer with the emulator core quiet: the bitmap is empty and the
      screen exact, whatever was on it before. */
  lemma PassRendersExactly(s: State)
    requires Inv(s) && s.cpu.Idle? && s.render.Resting?
    ensures var pass := [BeginRender] + Exchanges(WORDS) + Paints(s.dirty, 0, VISIBLE) + [EndRender];
            && Possible(s, pass)
            && var t := Run(s, pass);
               t.vram == s.vram && t.dirty == {} && t.frame == Repainted(s.frame, s.vram, s.dirty, 0) && FullyRendered(t)
  {
    hide Paints, Exchanges, Repainted, Run, Possible;
    var fetch, paint := Exchanges(WORDS), Paints(s.dirty, 0, VISIBLE);
    OneStep(s, BeginRender);
    var s1 := Next(s, BeginRender);
    ExchangeAll(s1, WORDS);
    assert {} + s.dirty == s.dirty;
    var s2 := Run(s1, fetch);
    PaintAll(s2, VISIBLE);
    var s3 := Run(s2, paint);
    OneStep(s3, EndRender);
    RunAppend(s, [BeginRender], fetch);
    RunAppend(s, [BeginRender] + fetch, paint);
    RunAppend(s, [BeginRender] + fetch + paint, [EndRender]);
    hide Inv;
    QuiescentFrameIsExact(s, [BeginRender] + fetch + paint + [EndRender]);
  }

  // ---------------------------------------------------- stores that cross a line end

  /** `values` written and the first byte's line marked, with no renderer in between. */
  function WholeStore(s: State, off: nat, values: seq<uint8>): State
    requires off + |values| <= VRAM_SIZE
  {
    var y := Line(off);
    s.(vram := s.vram[..off] + values + s.vram[off + |values|..],
       dirty := if y < HEIGHT then s.dirty + {y} else s.dirty)
  }

  /** Every store of `n` bytes at `off`, from every consistent state at rest, leaves the
      state consistent. */
  ghost predicate StoreSafe(off: nat, n: nat) {
    forall s: State, values: seq<uint8> ::
      Inv(s) && s.cpu.Idle? && |values| == n && off + n <= VRAM_SIZE ==> Inv(WholeStore(s, off, values))
  }

  /** Exactly the stores on one line are safe: a wider one leaves bytes of the next line
      unmarked. */
  lemma StoreSafeIff(off: nat, n: nat)
    requires 0 < n <= 4 && off + n <= VRAM_SIZE
    ensures StoreSafe(off, n) <==> OnOneLine(off, n)
  {
    if OnOneLine(off, n) {
      forall s: State, values: seq<uint8> | Inv(s) && s.cpu.Idle? && |values| == n
        ensures Inv(WholeStore(s, off, values))
      {
        var t := WholeStore(s, off, values);
        forall g | 0 <= g < VISIBLE
          ensures Accounted(t, g)
        {
          assert Accounted(s, g);
          if off <= g < off + n {
            assert Line(g) == Line(off);
          } else {
            assert t.vram[g] == s.vram[g];
          }
        }
      }
    } else {
      var s := State(seq(VRAM_SIZE, _ => 0), {}, seq(VISIBLE, _ => Decode(0)), Idle, Resting);
      var values: seq<uint8> := seq(n, _ => 0xFF);
      var g := (Line(off) + 1) * STRIDE;
      var t := WholeStore(s, off, values);
      assert Inv(s);
      assert t.vram[g] == 0xFF && Line(g) == Line(off) + 1;
      assert !Accounted(t, g);
    }
  }

  /** Naturally aligned stores of 1, 2 or 4 bytes never cross a line end. */
  lemma AlignedStoresAreSafe(off: nat, n: nat)
    requires n in {1, 2, 4} && off % n == 0
    ensures OnOneLine(off, n)
  {
    var q, r := off / STRIDE, off % STRIDE;
    assert off == STRIDE * q + r;
    if n == 2 {
      assert r == 2 * (off / 2 - STRIDE / 2 * q);
    } else if n == 4 {
      assert r == 4 * (off / 4 - STRIDE / 4 * q);
    }
  }
}
