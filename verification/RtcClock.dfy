/** Setting the clock over the wire and reading it back. */
module RtcClock {
  import opened Bits
  import opened Powers
  import opened Rtc
  import opened RtcHost

  function BigEndian(bytes: seq<uint8>): nat
    decreases |bytes|
  {
    if bytes == [] then 0 else 256 * BigEndian(bytes[..|bytes| - 1]) + bytes[|bytes| - 1]
  }

  // ------------------------------------------------- the register file under writes

  /** What register writes act on. */
  datatype File = File(regs: RegFile, seconds: uint32, soft: bool)

  function FileOf(s: State): File {
    File(s.regs, s.seconds, s.soft)
  }

  function Put(f: File, w: Write): File {
    var regs := Store(f.regs, w);
    File(regs, if w.reg % 64 == CNTR3 && f.soft then Counter(regs) else f.seconds, f.soft)
  }

  function PutAll(f: File, ws: seq<Write>): File
    decreases |ws|
  {
    if ws == [] then f else PutAll(Put(f, ws[0]), ws[1..])
  }

  lemma {:induction false} PutAllAppend(f: File, a: seq<Write>, b: seq<Write>)
    ensures PutAll(f, a + b) == PutAll(PutAll(f, a), b)
    decreases |a|
  {
    if a == [] {
      assert a + b == b;
    } else {
      assert (a + b)[0] == a[0] && (a + b)[1..] == a[1..] + b;
      hide Put;
      PutAllAppend(Put(f, a[0]), a[1..], b);
    }
  }

  /** A selected chip is being written to, as far as the wires tell. */
  predicate Writing(w: Wire) {
    w.open ==> w.bits == [] || w.bits[0]
  }

  /** The chip is never read during `es`, and the clock does not tick. */
  predicate OnlyWrites(w: Wire, es: seq<Event>)
    decreases |es|
  {
    es == [] || (es[0].Scr2? && Writing(Watch(w, es[0])) && OnlyWrites(Watch(w, es[0]), es[1..]))
  }

  lemma WriteAddress(bits: seq<bool>, data: bool)
    requires |bits| == 7 && bits[0]
    ensures ShiftIn(Value(bits), data) >= 128
  {
    var more := bits + [data];
    AppendBit(bits, data);
    ValueRange(more);
    assert Power(7) == 128 && more[0];
    hide Value, Power;
  }

  /** Then nothing but the writes moves the registers and the soft counter. */
  lemma StepPuts(s: State, w: Wire, e: Event)
    requires Linked(s, w) && e.Scr2? && Writing(Watch(w, e))
    ensures FileOf(Step(s, e)) == PutAll(FileOf(s), WritesOf(s, e))
  {
    var p := e.pins;
    if w.open && w.clk && p.ce && !p.clk && |w.bits| == 7 {
      var more := w.bits + [p.data];
      assert more[0] == w.bits[0];
      WriteAddress(w.bits, p.data);
    } else if w.open && p.ce && |w.bits| >= 8 {
      var more := w.bits + [p.data];
      assert more[0] == w.bits[0];
    }
    hide Value, ShiftIn, Left, BitAt, NextAddress, Counter, Store, Snapshot, Clock, Partial;
    assert forall f: File, x: Write :: PutAll(f, [x]) == Put(f, x);
  }

  lemma {:induction false} RunPuts(s: State, w: Wire, es: seq<Event>)
    requires Linked(s, w) && OnlyWrites(w, es)
    ensures FileOf(Run(s, es)) == PutAll(FileOf(s), AllWrites(s, es))
    decreases |es|
  {
    hide Step, Watch, WritesOf, Writing, Put, Linked, FileOf;
    if es != [] {
      StepRefines(s, w, es[0]);
      StepPuts(s, w, es[0]);
      var t := Step(s, es[0]);
      RunPuts(t, Watch(w, es[0]), es[1..]);
      PutAllAppend(FileOf(s), WritesOf(s, es[0]), AllWrites(t, es[1..]));
    }
  }

  // -------------------------------------------------------------- a block write

  lemma {:induction false} OnlyWritesAppend(w: Wire, a: seq<Event>, b: seq<Event>)
    requires OnlyWrites(w, a) && OnlyWrites(WatchAll(w, a), b)
    ensures OnlyWrites(w, a + b)
    decreases |a|
  {
    hide Watch, Writing;
    if a == [] {
      assert a + b == b;
    } else {
      assert (a + b)[0] == a[0] && (a + b)[1..] == a[1..] + b;
      OnlyWritesAppend(Watch(w, a[0]), a[1..], b);
    }
  }

  lemma PutBitOnlyWrites(w: Wire, bit: bool)
    requires w.ce && w.open && !w.clk && (w.bits + [bit])[0]
    ensures OnlyWrites(w, PutBit(bit))
  {
    var e := PutBit(bit);
    assert e[1..][0] == e[1] && e[1..][1..] == [e[2]] && e[1..][1..][1..] == [];
    var w1 := Watch(w, e[0]);
    var w2 := Watch(w1, e[1]);
    assert w1.bits == w.bits && w2.bits == w.bits && Watch(w2, e[2]).bits == w.bits + [bit];
  }

  lemma {:induction false} PutBitsOnlyWrite(w: Wire, bits: seq<bool>)
    requires w.ce && w.open && !w.clk && (bits != [] ==> (w.bits + bits)[0])
    ensures OnlyWrites(w, PutBits(bits))
    decreases |bits|
  {
    if bits != [] {
      assert (w.bits + bits)[0] == (w.bits + [bits[0]])[0];
      PutBitOnlyWrites(w, bits[0]);
      PutBitWire(w, bits[0]);
      hide Watch, OnlyWrites, PutBit;
      var v := WatchAll(w, PutBit(bits[0]));
      assert v.bits + bits[1..] == w.bits + bits;
      PutBitsOnlyWrite(v, bits[1..]);
      OnlyWritesAppend(w, PutBit(bits[0]), PutBits(bits[1..]));
    }
  }

  lemma EndsOnlyWrite(w: Wire)
    ensures OnlyWrites(w, OPEN) && OnlyWrites(w, CLOSE)
  {
    assert OPEN[1..][0] == Scr2(Pins(true, false, false)) && OPEN[1..][1..] == [] && CLOSE[1..] == [];
  }

  lemma BlockOnlyWrites(w: Wire, start: nat, bytes: seq<uint8>)
    requires start < 64 && (w.open ==> w.ce)
    ensures OnlyWrites(w, BlockWrite(start, bytes))
  {
    var bits := AllBits([128 + start]) + AllBits(bytes);
    assert bits[0] by { WriteBit(start); }
    EndsOnlyWrite(w);
    OpenWire(w);
    var v := WatchAll(w, OPEN);
    assert v.bits + bits == bits;
    hide OnlyWrites, Watch, WatchAll, AllBits, PutBits;
    PutBitsOnlyWrite(v, bits);
    OnlyWritesAppend(w, OPEN, PutBits(bits));
    WatchAppend(w, OPEN, PutBits(bits));
    EndsOnlyWrite(WatchAll(v, PutBits(bits)));
    OnlyWritesAppend(w, OPEN + PutBits(bits), CLOSE);
  }

  lemma WriteBit(start: nat)
    requires start < 64
    ensures AllBits([128 + start])[0]
  {
    var head := AllBits([128 + start]);
    BitsOfByte(128 + start, head);
    ValueRange(head);
    assert Power(7) == 128;
    hide Power, Value, BitAt;
  }

  /** Four bytes stored from the first counter register on set the soft counter. */
  lemma CounterSet(f: File, bytes: seq<uint8>)
    requires |bytes| == 4 && f.soft
    ensures var g := PutAll(f, Stores(CNTR0, bytes)); g.soft && g.seconds == BigEndian(bytes)
  {
    var ws := Stores(CNTR0, bytes);
    assert ws == [Write(0x20, bytes[0]), Write(0x21, bytes[1]), Write(0x22, bytes[2]), Write(0x23, bytes[3])];
    var f1 := Put(f, ws[0]);
    var f2 := Put(f1, ws[1]);
    var f3 := Put(f2, ws[2]);
    var f4 := Put(f3, ws[3]);
    FourPuts(f, ws[0], ws[1], ws[2], ws[3]);
    assert f4.seconds == Counter(f4.regs);
    assert f4.regs[CNTR0] == bytes[0] && f4.regs[0x21] == bytes[1] && f4.regs[0x22] == bytes[2] && f4.regs[CNTR3] == bytes[3];
    FourBytes(bytes);
    hide BigEndian, Stores, Put, PutAll, Store;
  }

  lemma FourPuts(f: File, a: Write, b: Write, c: Write, d: Write)
    ensures PutAll(f, [a, b, c, d]) == Put(Put(Put(Put(f, a), b), c), d)
  {
    hide Put;
    var f1 := Put(f, a);
    assert [a, b, c, d][1..] == [b, c, d] && [b, c, d][1..] == [c, d] && [c, d][1..] == [d] && [d][1..] == [];
    assert PutAll(f1, [b, c, d]) == PutAll(Put(f1, b), [c, d]);
    assert PutAll(Put(Put(f1, b), c), [d]) == Put(Put(Put(f1, b), c), d);
  }

  lemma FourBytes(b: seq<uint8>)
    requires |b| == 4
    ensures BigEndian(b) == b[0] as int * 0x100_0000 + b[1] as int * 0x1_0000 + b[2] as int * 0x100 + b[3] as int
  {
    assert b[..3][..2] == b[..2] && b[..2][..1] == b[..1] && b[..1][..0] == [];
    assert BigEndian(b[..1]) == 256 * BigEndian([]) + b[0];
    assert BigEndian(b[..2]) == 256 * BigEndian(b[..1]) + b[1];
    assert BigEndian(b[..3]) == 256 * BigEndian(b[..2]) + b[2];
  }

  // ------------------------------------------------------------------ the clock

  lemma {:induction false} SecondsAdd(s: State, n: nat)
    ensures Run(s, Seconds(n)) == s.(seconds := (s.seconds + n) % 0x1_0000_0000)
    decreases n
  {
    if n > 0 {
      assert Seconds(n)[0] == Second && Seconds(n)[1..] == Seconds(n - 1);
      SecondsAdd(Step(s, Second), n - 1);
      NextSecond(s.seconds, n);
    }
  }

  lemma NextSecond(x: uint32, n: nat)
    requires n > 0
    ensures ((x + 1) % 0x1_0000_0000 + (n - 1)) % 0x1_0000_0000 == (x + n) % 0x1_0000_0000
  {
  }

  lemma CounterBytesValue(x: uint32)
    ensures BigEndian(CounterBytes(x)) == x
  {
    FourBytes(CounterBytes(x));
    assert x / 0x100 == 0x100 * (x / 0x1_0000) + x / 0x100 % 0x100;
    assert x / 0x1_0000 == 0x100 * (x / 0x100_0000) + x / 0x1_0000 % 0x100;
  }

  lemma ClockSet(s: State, w: Wire, bytes: seq<uint8>)
    requires Linked(s, w) && |bytes| == 4
    ensures var es := BlockWrite(CNTR0, bytes);
            var t := Run(s, es);
            && Linked(t, WatchAll(w, es)) && t.soft == s.soft && (s.soft ==> t.seconds == BigEndian(bytes))
  {
    var es := BlockWrite(CNTR0, bytes);
    ScriptIsHostPart(CNTR0, bytes);
    hide Run, WatchAll, BlockWrite, PutAll, Stores, OnlyWrites, HostPart, AllWrites, BigEndian;
    BlockWritePerforms(s, w, CNTR0, bytes, es);
    assert w.open ==> w.ce;
    BlockOnlyWrites(w, CNTR0, bytes);
    RunPuts(s, w, es);
    SoftStays(FileOf(s), AllWrites(s, es));
    hide Linked;
    if s.soft {
      CounterSet(FileOf(s), bytes);
    }
  }

  /** The clock set by a block write of four bytes goes on from there: after `n` seconds a
      block read gives the time set plus `n`, modulo 2^32, whenever the clock ticks during
      the read. Without the soft counter it gives the fixed epoch whatever was set. */
  lemma ClockGoesOn(s: State, w: Wire, bytes: seq<uint8>, n: nat, pauses: seq<Pause>)
    requires Linked(s, w) && |bytes| == 4 && |pauses| == 32
    ensures var t := Run(Run(s, BlockWrite(CNTR0, bytes)), Seconds(n));
            BigEndian(BlockRead(t, ReadOpening(CNTR0), pauses)) ==
            if s.soft then (BigEndian(bytes) + n) % 0x1_0000_0000 else EPOCH
  {
    hide Run, WatchAll, BlockWrite, BlockRead, Linked, ReadOpening, Seconds, BigEndian;
    ClockSet(s, w, bytes);
    TimeReads(Run(s, BlockWrite(CNTR0, bytes)), WatchAll(w, BlockWrite(CNTR0, bytes)), n, pauses);
  }

  lemma TimeReads(s: State, w: Wire, n: nat, pauses: seq<Pause>)
    requires Linked(s, w) && |pauses| == 32
    ensures BigEndian(BlockRead(Run(s, Seconds(n)), ReadOpening(CNTR0), pauses)) ==
            if s.soft then (s.seconds + n) % 0x1_0000_0000 else EPOCH
  {
    SecondsKeepReading(s, w, n);
    SecondsAdd(s, n);
    var u := Run(s, Seconds(n));
    hide Run, WatchAll, BlockRead, Linked, ReadOpening, Seconds, BigEndian, CounterBytes;
    ClockReadIsWhole(u, w, pauses);
    CounterBytesValue(Clock(u));
  }

  lemma {:induction false} SoftStays(f: File, ws: seq<Write>)
    ensures PutAll(f, ws).soft == f.soft
    decreases |ws|
  {
    if ws != [] {
      SoftStays(Put(f, ws[0]), ws[1..]);
    }
  }

  /** The host's own events are a block write without any ticks in it. */
  lemma ScriptIsHostPart(start: nat, bytes: seq<uint8>)
    requires start < 64
    ensures HostPart(BlockWrite(start, bytes)) == BlockWrite(start, bytes)
  {
    var bits := AllBits([128 + start]) + AllBits(bytes);
    NoTicks(bits);
    forall e | e in BlockWrite(start, bytes)
      ensures e.Scr2?
    {
      assert e in OPEN || e in PutBits(bits) || e in CLOSE;
    }
    HostOnly(BlockWrite(start, bytes));
  }

  lemma {:induction false} NoTicks(bits: seq<bool>)
    ensures forall e | e in PutBits(bits) :: e.Scr2?
    decreases |bits|
  {
    if bits != [] {
      NoTicks(bits[1..]);
    }
  }

  lemma {:induction false} HostOnly(es: seq<Event>)
    requires forall e | e in es :: e.Scr2?
    ensures HostPart(es) == es
    decreases |es|
  {
    if es != [] {
      assert es[0] in es;
      HostOnly(es[1..]);
      assert es == [es[0]] + es[1..];
    }
  }
}
