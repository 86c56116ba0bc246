/** What a host sees that talks to the clock by pulsing the SCR2 lines: block writes,
    block reads, and the two after each other. */
module RtcHost {
  import opened Bits
  import opened Powers
  import opened Rtc

  // ------------------------------------------------------------- wire-level scripts

  /** Set RTDATA, pulse RTCLK. */
  function PutBit(bit: bool): seq<Event> {
    [Scr2(Pins(true, false, bit)), Scr2(Pins(true, true, bit)), Scr2(Pins(true, false, bit))]
  }

  function PutBits(bits: seq<bool>): seq<Event>
    decreases |bits|
  {
    if bits == [] then [] else PutBit(bits[0]) + PutBits(bits[1..])
  }

  function AllBits(bytes: seq<uint8>): seq<bool> {
    seq(8 * |bytes|, i requires 0 <= i < 8 * |bytes| => BitAt(bytes[i / 8], i % 8))
  }

  const OPEN: seq<Event> := [Scr2(Pins(false, false, false)), Scr2(Pins(true, false, false))]
  const CLOSE: seq<Event> := [Scr2(Pins(false, false, false))]

  /** Select, write address, data bytes, deselect. */
  function BlockWrite(start: nat, bytes: seq<uint8>): seq<Event>
    requires start < 64
  {
    OPEN + PutBits(AllBits([128 + start]) + AllBits(bytes)) + CLOSE
  }

  function Seconds(n: nat): seq<Event> {
    seq(n, _ => Second)
  }

  /** `es` without the ticks of the seconds counter: what the host itself does. */
  function HostPart(es: seq<Event>): seq<Event>
    decreases |es|
  {
    if es == [] then [] else (if es[0].Second? then [] else [es[0]]) + HostPart(es[1..])
  }

  /** Ticks of the seconds counter before, between and after the two edges of a cycle. */
  datatype Pause = Pause(before: nat, between: nat, after: nat)

  const RISE: Event := Scr2(Pins(true, true, false))
  const FALL: Event := Scr2(Pins(true, false, false))

  /** RTCLK is pulsed, the seconds counter ticking as it likes. */
  function Cycle(pause: Pause): seq<Event> {
    Seconds(pause.before) + ([RISE] + (Seconds(pause.between) + ([FALL] + Seconds(pause.after))))
  }

  /** One bit per clock cycle, sampled some time after the falling edge. */
  function GetBits(s: State, pauses: seq<Pause>): seq<bool>
    decreases |pauses|
  {
    if pauses == [] then []
    else
      var t := Run(s, Cycle(pauses[0]));
      [ReadBack(t, false)] + GetBits(t, pauses[1..])
  }

  function Bytes(bits: seq<bool>): seq<uint8> {
    seq(|bits| / 8, k requires 0 <= k < |bits| / 8 => Value(bits[8 * k..8 * k + 8]))
  }

  /** Select and read address. */
  function ReadOpening(start: nat): seq<Event>
    requires start < 64
  {
    OPEN + PutBits(AllBits([start]))
  }

  /** What the host assembles from a block read: `opening` selects the chip and sends the
      address, then each clock cycle gives a bit. */
  function BlockRead(s: State, opening: seq<Event>, pauses: seq<Pause>): seq<uint8> {
    Bytes(GetBits(Run(s, opening), pauses))
  }

  // ---------------------------------------------------------------------- bytes

  function Doubled(x: nat, n: nat): nat {
    if n == 0 then x else 2 * Doubled(x, n - 1)
  }

  lemma DoubledEight(x: nat)
    ensures Doubled(x, 8) == 256 * x
  {
    assert Doubled(x, 1) == 2 * x && Doubled(x, 2) == 4 * x && Doubled(x, 3) == 8 * x && Doubled(x, 4) == 16 * x;
    assert Doubled(x, 5) == 32 * x && Doubled(x, 6) == 64 * x && Doubled(x, 7) == 128 * x;
  }

  lemma SplitStep(v: uint8, left: uint8, d: nat)
    requires v < 128 && 256 * v + left == d
    ensures 256 * ShiftIn(v, left >= 128) + 2 * left % 256 == 2 * d
  {
  }

  /** After `n` places the byte is split between the bits out and the register. */
  lemma {:induction false} BitsSplitByte(byte: uint8, bits: seq<bool>)
    requires |bits| <= 8 && forall i | 0 <= i < |bits| :: bits[i] == BitAt(byte, i)
    ensures 256 * Value(bits) + Left(byte, |bits|) == Doubled(byte, |bits|)
    decreases |bits|
  {
    if bits != [] {
      var n := |bits| - 1;
      var front := bits[..n];
      PowerBound(n);
      BitsSplitByte(byte, front);
      if n > 0 {
        ValueRange(front);
      }
      SplitStep(Value(front), Left(byte, n), Doubled(byte, n));
      assert bits[n] == BitAt(byte, n);
      hide ShiftIn, Power;
    }
  }

  /** Clocking a byte out and in again gives the byte. */
  lemma BitsOfByte(byte: uint8, bits: seq<bool>)
    requires |bits| == 8 && forall i | 0 <= i < 8 :: bits[i] == BitAt(byte, i)
    ensures Value(bits) == byte
  {
    BitsSplitByte(byte, bits);
    DoubledEight(byte);
    hide Value, Left, Doubled, BitAt;
  }

  lemma BytesOfAllBits(bytes: seq<uint8>)
    ensures Bytes(AllBits(bytes)) == bytes
  {
    hide Value, BitAt;
    forall k | 0 <= k < |bytes|
      ensures Value(AllBits(bytes)[8 * k..8 * k + 8]) == bytes[k]
    {
      BitsOfByte(bytes[k], AllBits(bytes)[8 * k..8 * k + 8]);
    }
  }

  lemma BytesOfBits(bits: seq<bool>, bytes: seq<uint8>)
    requires |bits| == 8 * |bytes| && forall i | 0 <= i < |bits| :: bits[i] == BitAt(bytes[i / 8], i % 8)
    ensures Bytes(bits) == bytes
  {
    hide BitAt, Value;
    assert bits == AllBits(bytes);
    BytesOfAllBits(bytes);
  }

  // ---------------------------------------------------------------------- writing

  lemma {:induction false} WatchAppend(w: Wire, a: seq<Event>, b: seq<Event>)
    ensures WatchAll(w, a + b) == WatchAll(WatchAll(w, a), b)
    decreases |a|
  {
    hide Watch;
    if a == [] {
      assert a + b == b;
    } else {
      assert (a + b)[0] == a[0] && (a + b)[1..] == a[1..] + b;
      WatchAppend(Watch(w, a[0]), a[1..], b);
    }
  }

  lemma {:induction false} RunAppend(s: State, a: seq<Event>, b: seq<Event>)
    ensures Run(s, a + b) == Run(Run(s, a), b)
    decreases |a|
  {
    hide Step;
    if a == [] {
      assert a + b == b;
    } else {
      assert (a + b)[0] == a[0] && (a + b)[1..] == a[1..] + b;
      RunAppend(Step(s, a[0]), a[1..], b);
    }
  }

  /** The seconds counter is not on the wires. */
  lemma {:induction false} WatchHostPart(w: Wire, es: seq<Event>)
    ensures WatchAll(w, es) == WatchAll(w, HostPart(es))
    decreases |es|
  {
    if es != [] {
      WatchHostPart(Watch(w, es[0]), es[1..]);
      if es[0].Second? {
        assert HostPart(es) == HostPart(es[1..]);
      } else {
        assert HostPart(es)[0] == es[0] && HostPart(es)[1..] == HostPart(es[1..]);
      }
    }
  }

  lemma PutBitWire(w: Wire, bit: bool)
    requires w.ce && w.open && !w.clk
    ensures var v := WatchAll(w, PutBit(bit));
            v.ce && v.open && !v.clk && v.past == w.past && v.bits == w.bits + [bit]
            && (|w.bits| < 8 ==> v.rises == w.rises)
  {
    var e := PutBit(bit);
    assert e[1..][1..] == [e[2]] && e[1..][1..][1..] == [];
  }

  /** The script puts exactly its bits on the wire. */
  lemma {:induction false} PutBitsWire(w: Wire, bits: seq<bool>)
    requires w.ce && w.open && !w.clk
    ensures var v := WatchAll(w, PutBits(bits));
            v.ce && v.open && !v.clk && v.past == w.past && v.bits == w.bits + bits
            && (|w.bits| + |bits| <= 8 ==> v.rises == w.rises)
    decreases |bits|
  {
    if bits != [] {
      PutBitWire(w, bits[0]);
      hide Watch;
      WatchAppend(w, PutBit(bits[0]), PutBits(bits[1..]));
      var v := WatchAll(w, PutBit(bits[0]));
      PutBitsWire(v, bits[1..]);
      assert v.bits + bits[1..] == w.bits + bits;
    }
  }

  lemma OpenWire(w: Wire)
    requires w.open ==> w.ce
    ensures WatchAll(w, OPEN) == Wire(true, true, false, [], 0, if w.open then w.past + [w.bits] else w.past)
  {
    assert OPEN[1..][0] == Scr2(Pins(true, false, false)) && OPEN[1..][1..] == [];
  }

  lemma CloseWire(w: Wire)
    requires w.open
    ensures WatchAll(w, CLOSE) == Wire(false, false, false, [], 0, w.past + [w.bits])
  {
    assert CLOSE[1..] == [];
  }

  /** The interval a block write makes. */
  lemma BlockWriteWire(w: Wire, start: nat, bytes: seq<uint8>)
    requires start < 64 && (w.open ==> w.ce)
    ensures WatchAll(w, BlockWrite(start, bytes)) ==
            Wire(false, false, false, [], 0, (if w.open then w.past + [w.bits] else w.past)
                                             + [AllBits([128 + start]) + AllBits(bytes)])
  {
    var bits := AllBits([128 + start]) + AllBits(bytes);
    OpenWire(w);
    var v := WatchAll(w, OPEN);
    PutBitsWire(v, bits);
    assert [] + bits == bits;
    CloseWire(WatchAll(v, PutBits(bits)));
    WatchAppend(w, OPEN, PutBits(bits));
    WatchAppend(w, OPEN + PutBits(bits), CLOSE);
  }

  function Stores(start: nat, bytes: seq<uint8>): seq<Write> {
    seq(|bytes|, k requires 0 <= k < |bytes| => Write((start + k) % 64, bytes[k]))
  }

  lemma BlockTransaction(start: nat, bytes: seq<uint8>)
    requires start < 64
    ensures Transaction(AllBits([128 + start]) + AllBits(bytes)) == Stores(start, bytes)
  {
    hide Value, BitAt;
    var head := AllBits([128 + start]);
    var bits := head + AllBits(bytes);
    assert bits[..8] == head && bits[0] == head[0];
    BitsOfByte(128 + start, head);
    ValueRange(head);
    assert Power(7) == 128;
    hide Power;
    forall k | 0 <= k < |bytes|
      ensures Group(bits, k) == bytes[k]
    {
      BitsOfByte(bytes[k], bits[8 + 8 * k..8 + 8 * k + 8]);
    }
  }

  lemma Cancel(a: seq<Write>, b: seq<Write>, c: seq<Write>)
    requires a + b == a + c
    ensures b == c
  {
    assert (a + b)[|a|..] == b && (a + c)[|a|..] == c;
  }

  lemma BlockAsked(w: Wire, start: nat, bytes: seq<uint8>)
    requires start < 64 && (w.open ==> w.ce) && (!w.open ==> w.bits == [])
    ensures Asked(WatchAll(w, BlockWrite(start, bytes))) == Asked(w) + Stores(start, bytes)
  {
    hide Flat, Transaction, Stores, BlockWrite, WatchAll, AllBits;
    BlockWriteWire(w, start, bytes);
    BlockTransaction(start, bytes);
    NothingAsked();
    var past := if w.open then w.past + [w.bits] else w.past;
    FlatAppend(w.past, w.bits);
    FlatAppend(past, AllBits([128 + start]) + AllBits(bytes));
    assert Flat(past) == Asked(w);
    var v := WatchAll(w, BlockWrite(start, bytes));
    assert Asked(v) == Flat(v.past) + [];
  }

  lemma NothingAsked()
    ensures Transaction([]) == []
  {
  }

  /** A block write, from any state the chip can be in and with the clock ticking anywhere
      in it, performs one register write per byte, at successive addresses modulo 64. */
  lemma BlockWritePerforms(s: State, w: Wire, start: nat, bytes: seq<uint8>, es: seq<Event>)
    requires Linked(s, w) && start < 64 && HostPart(es) == BlockWrite(start, bytes)
    ensures AllWrites(s, es) == Stores(start, bytes)
    ensures Linked(Run(s, es), WatchAll(w, es))
  {
    BlockAsked(w, start, bytes);
    WatchHostPart(w, es);
    hide BlockWrite, HostPart, Asked, Stores, AllWrites, Run, WatchAll;
    WritesAreTheGroups(s, w, es);
    Cancel(Asked(w), AllWrites(s, es), Stores(start, bytes));
  }

  /** The register byte `k` of a block goes to or comes from. */
  function RegAt(start: nat, k: nat): int {
    (start + k) % 64
  }

  ghost predicate ClearOfCounter(start: nat, n: nat) {
    forall k | 0 <= k < n :: !IsCounter(RegAt(start, k))
  }

  /** Such a block cannot wrap round onto itself. */
  lemma ClearIsShort(start: nat, n: nat)
    requires start < 64 && ClearOfCounter(start, n)
    ensures n < 64
  {
    assert RegAt(start, (CNTR0 - start) % 64) == CNTR0;
  }

  /** Distances round the register file, from one register and from the next. */
  lemma Behind(start: int, r: int)
    requires 0 <= start < 64 && 0 <= r < 64
    ensures (r - (start + 1) % 64) % 64 == if r == start then 63 else (r - start) % 64 - 1
    ensures (r - start) % 64 == 0 <==> r == start
  {
  }

  lemma StoresSplit(start: nat, bytes: seq<uint8>)
    requires start < 64 && bytes != []
    ensures var ws := Stores(start, bytes);
            ws != [] && ws[0] == Write(start, bytes[0]) && ws[1..] == Stores((start + 1) % 64, bytes[1..])
  {
  }

  lemma {:induction false} StoresLand(regs: RegFile, start: nat, bytes: seq<uint8>, r: int)
    requires start < 64 && |bytes| < 64 && 0 <= r < 64
    ensures var k := (r - start) % 64;
            StoreAll(regs, Stores(start, bytes))[r] == if k < |bytes| then bytes[k] else regs[r]
    decreases |bytes|
  {
    if bytes != [] {
      var ws := Stores(start, bytes);
      var next := (start + 1) % 64;
      StoresSplit(start, bytes);
      Behind(start, r);
      assert StoreAll(regs, ws) == StoreAll(Store(regs, ws[0]), ws[1..]);
      assert Store(regs, ws[0]) == regs[start := bytes[0]];
      hide Stores, StoreAll, Store;
      StoresLand(regs[start := bytes[0]], next, bytes[1..], r);
    }
  }

  /** A block write clear of the counter stores its bytes and touches nothing else. */
  lemma BlockWriteStores(s: State, w: Wire, start: nat, bytes: seq<uint8>, es: seq<Event>, r: int)
    requires Linked(s, w) && start < 64 && ClearOfCounter(start, |bytes|) && HostPart(es) == BlockWrite(start, bytes)
    requires 0 <= r < 64 && !IsCounter(r)
    ensures var k := (r - start) % 64;
            Run(s, es).regs[r] == if k < |bytes| then bytes[k] else s.regs[r]
  {
    hide BlockWrite, HostPart, Run, Linked, Stores, StoreAll;
    ClearIsShort(start, |bytes|);
    BlockWritePerforms(s, w, start, bytes, es);
    RegistersAreTheWrites(s, es);
    StoresLand(s.regs, start, bytes, r);
  }

  // ---------------------------------------------------------------------- reading

  lemma {:induction false} SecondsPass(s: State, w: Wire, n: nat)
    ensures WatchAll(w, Seconds(n)) == w
    ensures Run(s, Seconds(n)) == s.(seconds := Run(s, Seconds(n)).seconds)
    decreases n
  {
    if n > 0 {
      assert Seconds(n)[0] == Second && Seconds(n)[1..] == Seconds(n - 1);
      SecondsPass(Step(s, Second), w, n - 1);
    }
  }

  /** A chip and wire in a read of `start`, the clock low. */
  ghost predicate Reading(s: State, w: Wire, start: nat) {
    Linked(s, w) && w.open && !w.clk && |w.bits| >= 8 && !w.bits[0] && Value(w.bits[..8]) == start < 64
  }

  /** The bit a rising edge put out. */
  lemma BitOut(s: State, start: nat, rises: nat)
    requires start < 64 && Sending(s, start, rises + 1)
    ensures s.address % 64 == RegAt(start, rises / 8) && s.dataBit == BitAt(s.regs[RegAt(start, rises / 8)], rises % 8)
  {
    hide Left, BitAt;
    assert rises - 8 * (rises / 8) == rises % 8;
  }

  /** Only moving on to the first counter byte changes registers. */
  lemma RegsRead(s: State)
    ensures s.count < 8 || DataBitOut(s).address % 64 != CNTR0 ==> DataBitOut(s).regs == s.regs
  {
    hide NextAddress;
  }

  lemma AtBoundary(s: State, start: nat, rises: nat)
    requires start < 64 && Sending(s, start, rises)
    ensures s.count <= 8 && (s.count == 8 ==> rises > 0 && rises % 8 == 0)
  {
    hide Left, BitAt;
  }

  lemma RiseBit(s: State, w: Wire, start: nat)
    requires Reading(s, w, start)
    requires w.rises > 0 && w.rises % 8 == 0 ==> RegAt(start, w.rises / 8) != CNTR0
    ensures var t := Step(s, Scr2(Pins(true, true, false)));
            && t.regs == s.regs && t.phase.Transferring? && !t.isWrite
            && t.dataBit == BitAt(s.regs[RegAt(start, w.rises / 8)], w.rises % 8)
  {
    var u := s.(prevClk := true);
    assert Step(s, Scr2(Pins(true, true, false))) == DataBitOut(u) && Sending(u, start, w.rises) by {
      hide Value, Left, BitAt, DataBitOut;
    }
    hide Value, Left, BitAt, DataBitOut, Step, Sending, RegAt;
    SendStep(u, start, w.rises);
    BitOut(DataBitOut(u), start, w.rises);
    RegsRead(u);
    AtBoundary(u, start, w.rises);
  }

  lemma TwoEvents(s: State, w: Wire, a: Event, b: Event)
    ensures Run(s, [a, b]) == Step(Step(s, a), b) && WatchAll(w, [a, b]) == Watch(Watch(w, a), b)
  {
    hide Step, Watch;
    assert [a, b][1..] == [b] && [b][1..] == [];
    assert Run(Step(s, a), [b]) == Step(Step(s, a), b) && WatchAll(Watch(w, a), [b]) == Watch(Watch(w, a), b);
  }

  /** Time passing changes nothing a read depends on. */
  lemma SecondsKeepReading(s: State, w: Wire, n: nat)
    requires Linked(s, w)
    ensures var t := Run(s, Seconds(n));
            && WatchAll(w, Seconds(n)) == w && Linked(t, w) && t.regs == s.regs
            && t.phase == s.phase && t.isWrite == s.isWrite && t.dataBit == s.dataBit
  {
    SecondsPass(s, w, n);
    hide Run, Seconds, WatchAll;
  }

  /** Some ticks, then one write to SCR2. */
  lemma TicksThen(s: State, w: Wire, n: nat, e: Event, rest: seq<Event>)
    ensures Run(s, Seconds(n) + ([e] + rest)) == Run(Step(Run(s, Seconds(n)), e), rest)
    ensures WatchAll(w, Seconds(n) + ([e] + rest)) == WatchAll(Watch(w, e), rest)
  {
    SecondsPass(s, w, n);
    hide Step, Watch, Seconds;
    RunAppend(s, Seconds(n), [e] + rest);
    WatchAppend(w, Seconds(n), [e] + rest);
    assert ([e] + rest)[0] == e && ([e] + rest)[1..] == rest;
  }

  /** One clock cycle of a read shows the next bit of the current register, whenever the
      seconds counter ticks. */
  lemma CycleBit(s: State, w: Wire, start: nat, pause: Pause)
    requires Reading(s, w, start)
    requires w.rises > 0 && w.rises % 8 == 0 ==> RegAt(start, w.rises / 8) != CNTR0
    ensures var t, v := Run(s, Cycle(pause)), WatchAll(w, Cycle(pause));
            && Reading(t, v, start) && v.rises == w.rises + 1 && t.regs == s.regs
            && ReadBack(t, false) == BitAt(s.regs[RegAt(start, w.rises / 8)], w.rises % 8)
  {
    var s1 := Run(s, Seconds(pause.before));
    var s2, w2 := Step(s1, RISE), Watch(w, RISE);
    var s3 := Run(s2, Seconds(pause.between));
    var s4, w4 := Step(s3, FALL), Watch(w2, FALL);
    var end := [FALL] + Seconds(pause.after);
    TicksThen(s, w, pause.before, RISE, Seconds(pause.between) + end);
    TicksThen(s2, w2, pause.between, FALL, Seconds(pause.after));
    assert w4.bits[..8] == w.bits[..8];
    SecondsKeepReading(s, w, pause.before);
    hide Run, WatchAll, Seconds, Value, Left, BitAt;
    RiseBit(s1, w, start);
    StepRefines(s1, w, RISE);
    SecondsKeepReading(s2, w2, pause.between);
    StepRefines(s3, w2, FALL);
    SecondsKeepReading(s4, w4, pause.after);
  }

  /** The bits of a block read are those of successive registers. */
  lemma {:induction false} BitsRead(s: State, w: Wire, start: nat, pauses: seq<Pause>)
    requires Reading(s, w, start)
    requires forall i | w.rises <= i < w.rises + |pauses| && i > 0 && i % 8 == 0 :: RegAt(start, i / 8) != CNTR0
    ensures |GetBits(s, pauses)| == |pauses|
    ensures forall i | 0 <= i < |pauses| ::
              GetBits(s, pauses)[i] == BitAt(s.regs[RegAt(start, (w.rises + i) / 8)], (w.rises + i) % 8)
    decreases |pauses|
  {
    hide Reading, Run, WatchAll, Cycle, BitAt, ReadBack;
    if pauses != [] {
      CycleBit(s, w, start, pauses[0]);
      BitsRead(Run(s, Cycle(pauses[0])), WatchAll(w, Cycle(pauses[0])), start, pauses[1..]);
    }
  }

  /** Registers after an address byte: only a read of the first counter byte changes any. */
  function Addressed(s: State, byte: uint8): RegFile {
    if byte == CNTR0 then Snapshot(s.regs, Clock(s)) else s.regs
  }

  /** Before the address is complete, a write to SCR2 that is not a falling edge only
      moves the clock line. */
  lemma AddressRest(s: State, w: Wire, p: Pins)
    requires Linked(s, w) && w.open && |w.bits| < 8 && p.ce && !(w.clk && !p.clk)
    ensures Step(s, Scr2(p)) == s.(prevClk := p.clk) && Watch(w, Scr2(p)) == w.(clk := p.clk)
    ensures Linked(Step(s, Scr2(p)), Watch(w, Scr2(p)))
  {
    hide Value;
  }

  lemma AddressFall(s: State, w: Wire, bit: bool)
    requires Linked(s, w) && w.open && w.clk && |w.bits| < 8 && (|w.bits| == 7 ==> Value(w.bits + [bit]) < 64)
    ensures var t := Step(s, Scr2(Pins(true, false, bit)));
            && t.regs == (if |w.bits| == 7 then Addressed(s, Value(w.bits + [bit])) else s.regs)
            && Clock(t) == Clock(s)
  {
    AppendBit(w.bits, bit);
    hide Value, ShiftIn, Left, BitAt, NextAddress, DataBitIn, DataBitOut, Selected, Deselected, Snapshot;
    assert s.count == |w.bits| && s.phase.Addressing? && s.shiftIn == Value(w.bits) && s.prevClk;
  }

  lemma AddressBitRegs(s: State, w: Wire, bit: bool)
    requires Linked(s, w) && w.open && !w.clk && |w.bits| < 8 && (|w.bits| == 7 ==> Value(w.bits + [bit]) < 64)
    ensures var t, v := Run(s, PutBit(bit)), w.(bits := w.bits + [bit]);
            && WatchAll(w, PutBit(bit)) == v && Linked(t, v)
            && t.regs == (if |w.bits| == 7 then Addressed(s, Value(v.bits)) else s.regs)
            && Clock(t) == Clock(s)
  {
    var e := PutBit(bit);
    AddressRest(s, w, e[0].pins);
    var s1, w1 := Step(s, e[0]), Watch(w, e[0]);
    AddressRest(s1, w1, e[1].pins);
    var s2, w2 := Step(s1, e[1]), Watch(w1, e[1]);
    AddressFall(s2, w2, bit);
    SampleStep(s2, w2, e[2].pins);
    TwoEvents(s1, w1, e[1], e[2]);
    assert e[1..] == [e[1], e[2]];
    assert Run(s, e) == Step(s2, e[2]) && WatchAll(w, e) == Watch(w2, e[2]);
    hide Value, Run, WatchAll, Linked, Step;
  }

  lemma {:induction false} AddressBits(s: State, w: Wire, bits: seq<bool>)
    requires Linked(s, w) && w.open && !w.clk && bits != [] && |w.bits| + |bits| == 8 && Value(w.bits + bits) < 64
    ensures var t, v := Run(s, PutBits(bits)), w.(bits := w.bits + bits);
            && WatchAll(w, PutBits(bits)) == v && Linked(t, v) && t.regs == Addressed(s, Value(v.bits))
    decreases |bits|
  {
    hide Value, Linked, PutBit, Snapshot, Clock;
    var b, rest := bits[0], bits[1..];
    RunAppend(s, PutBit(b), PutBits(rest));
    WatchAppend(w, PutBit(b), PutBits(rest));
    assert w.bits + [b] + rest == w.bits + bits;
    if rest == [] {
      assert w.bits + [b] == w.bits + bits;
    }
    AddressBitRegs(s, w, b);
    var t, v := Run(s, PutBit(b)), WatchAll(w, PutBit(b));
    if rest == [] {
      assert Run(t, PutBits([])) == t && WatchAll(v, PutBits([])) == v;
    } else {
      AddressBits(t, v, rest);
    }
  }

  /** Selecting the chip. */
  lemma OpenChip(s: State, w: Wire)
    requires Linked(s, w)
    ensures var t, v := Run(s, OPEN), WatchAll(w, OPEN);
            && Linked(t, v) && v.ce && v.open && !v.clk && v.bits == [] && v.rises == 0
            && t.regs == s.regs && Clock(t) == Clock(s)
  {
    OpenWire(w);
    TwoEvents(s, w, OPEN[0], OPEN[1]);
    assert OPEN == [OPEN[0], OPEN[1]];
    StepRefines(s, w, OPEN[0]);
    var s1, w1 := Step(s, OPEN[0]), Watch(w, OPEN[0]);
    StepRefines(s1, w1, OPEN[1]);
    assert s1.regs == s.regs && s1.seconds == s.seconds && !s1.ce;
    hide Run, WatchAll, Linked;
  }

  lemma ReadAddress(start: nat)
    requires start < 64
    ensures var bits := AllBits([start]); |bits| == 8 && Value(bits) == start && !bits[0]
  {
    var bits := AllBits([start]);
    hide BitAt;
    BitsOfByte(start, bits);
    ValueRange(bits);
    assert Power(7) == 128;
    hide Value;
  }

  lemma SameAddressed(s: State, t: State, byte: uint8)
    requires t.regs == s.regs && Clock(t) == Clock(s)
    ensures Addressed(t, byte) == Addressed(s, byte)
  {
    hide Snapshot, Clock;
  }

  /** Selecting the chip and sending a read address. */
  lemma OpenRead(s: State, w: Wire, start: nat)
    requires Linked(s, w) && start < 64
    ensures var t, v := Run(s, ReadOpening(start)), WatchAll(w, ReadOpening(start));
            Reading(t, v, start) && v.rises == 0 && t.regs == Addressed(s, start)
  {
    var bits := AllBits([start]);
    hide AllBits, Linked, Run, WatchAll, PutBits, Value, Addressed, Clock, Reading;
    RunAppend(s, OPEN, PutBits(bits));
    WatchAppend(w, OPEN, PutBits(bits));
    OpenChip(s, w);
    ReadAddress(start);
    var t, v := Run(s, OPEN), WatchAll(w, OPEN);
    assert v.bits + bits == bits && bits[..8] == bits;
    SameAddressed(s, t, start);
    AddressBits(t, v, bits);
    StartsReading(Run(t, PutBits(bits)), v.(bits := v.bits + bits), start);
  }

  lemma StartsReading(s: State, w: Wire, start: nat)
    requires Linked(s, w) && w.open && !w.clk && |w.bits| == 8 && !w.bits[0] && Value(w.bits) == start < 64
    ensures Reading(s, w, start)
  {
    assert w.bits[..8] == w.bits;
    hide Linked, Value;
  }

  /** The wires after a read address, whatever was on them before. */
  lemma OpeningWire(w: Wire, start: nat)
    requires start < 64 && (w.open ==> w.ce) && (!w.open ==> w.bits == [])
    ensures var v := WatchAll(w, ReadOpening(start));
            && v.open && !v.clk && v.rises == 0 && v.bits == AllBits([start]) && Asked(v) == Asked(w)
  {
    var bits := AllBits([start]);
    WatchAppend(w, OPEN, PutBits(bits));
    OpenWire(w);
    ReadAddress(start);
    PutBitsWire(WatchAll(w, OPEN), bits);
    assert [] + bits == bits && Transaction(bits) == [];
    NothingAsked();
    FlatAppend(w.past, w.bits);
    hide Flat, Transaction, WatchAll, AllBits, PutBits;
    var v := WatchAll(w, ReadOpening(start));
    assert Asked(v) == Flat(v.past) + [];
  }

  /** The same of the chip, with the clock ticking anywhere in between. */
  lemma OpeningReads(s: State, w: Wire, start: nat, opening: seq<Event>)
    requires Linked(s, w) && start < 64 && HostPart(opening) == ReadOpening(start)
    ensures var t, v := Run(s, opening), WatchAll(w, opening);
            Reading(t, v, start) && v.rises == 0 && AgreeOutside(s.regs, t.regs)
  {
    OpeningWire(w, start);
    ReadAddress(start);
    WatchHostPart(w, opening);
    WritesAreTheGroups(s, w, opening);
    var v := WatchAll(w, opening);
    assert Asked(w) + AllWrites(s, opening) == Asked(w) + [];
    Cancel(Asked(w), AllWrites(s, opening), []);
    RegistersAreTheWrites(s, opening);
    assert v.bits[..8] == v.bits;
    hide Run, WatchAll, HostPart, ReadOpening, Asked, AllWrites, Linked, AllBits, Value;
  }

  /** Reading any registers outside the counter gives their contents, with the clock
      ticking anywhere during the read. */
  lemma BlockReadReturns(s: State, w: Wire, start: nat, n: nat, opening: seq<Event>, pauses: seq<Pause>)
    requires Linked(s, w) && start < 64 && ClearOfCounter(start, n) && |pauses| == 8 * n
    requires HostPart(opening) == ReadOpening(start)
    ensures BlockRead(s, opening, pauses) == seq(n, k requires 0 <= k < n => s.regs[RegAt(start, k)])
  {
    OpeningReads(s, w, start, opening);
    var t, v := Run(s, opening), WatchAll(w, opening);
    forall i | 0 <= i < 8 * n
      ensures RegAt(start, i / 8) != CNTR0
    {
      assert !IsCounter(RegAt(start, i / 8));
    }
    hide Run, WatchAll, Reading, BitAt, Linked, PutBits, Value, HostPart, ReadOpening;
    BitsRead(t, v, start, pauses);
    var bytes := seq(n, k requires 0 <= k < n => t.regs[RegAt(start, k)]);
    BytesOfBits(GetBits(t, pauses), bytes);
    forall k | 0 <= k < n
      ensures t.regs[RegAt(start, k)] == s.regs[RegAt(start, k)]
    {
      assert !IsCounter(RegAt(start, k));
    }
  }

  /** What a host writes it reads back bit for bit, from any state the chip can be in and
      with the clock ticking anywhere during the write and the read. */
  lemma RoundTrip(s: State, w: Wire, start: nat, bytes: seq<uint8>, write: seq<Event>, opening: seq<Event>,
                  pauses: seq<Pause>)
    requires Linked(s, w) && start < 64 && ClearOfCounter(start, |bytes|) && |pauses| == 8 * |bytes|
    requires HostPart(write) == BlockWrite(start, bytes) && HostPart(opening) == ReadOpening(start)
    ensures BlockRead(Run(s, write), opening, pauses) == bytes
  {
    var t := Run(s, write);
    hide Run, BlockWrite, ReadOpening, HostPart, Linked, BlockRead, ClearOfCounter;

    BlockWritePerforms(s, w, start, bytes, write);
    BlockReadReturns(t, WatchAll(w, write), start, |bytes|, opening, pauses);
    forall k | 0 <= k < |bytes|
      ensures t.regs[RegAt(start, k)] == bytes[k]
    {
      ByteStored(s, w, start, bytes, write, k);
    }
  }

  lemma ByteStored(s: State, w: Wire, start: nat, bytes: seq<uint8>, write: seq<Event>, k: nat)
    requires Linked(s, w) && start < 64 && ClearOfCounter(start, |bytes|) && HostPart(write) == BlockWrite(start, bytes)
    requires k < |bytes|
    ensures Run(s, write).regs[RegAt(start, k)] == bytes[k]
  {
    hide Run, BlockWrite, HostPart, Linked;
    ClearIsShort(start, |bytes|);
    var r := RegAt(start, k);
    assert !IsCounter(r) && (r - start) % 64 == k;
    BlockWriteStores(s, w, start, bytes, write, r);
  }

  /** Addressing the first counter byte for a read fills all four from the clock. */
  lemma CounterLatched(s: State, i: nat)
    requires i < 32
    ensures Addressed(s, CNTR0)[RegAt(CNTR0, i / 8)] == CounterBytes(Clock(s))[i / 8]
  {
    assert i / 8 == 0 || i / 8 == 1 || i / 8 == 2 || i / 8 == 3;
    hide Clock;
  }

  /** A block read of the four counter bytes is one instant of the clock, not torn by
      ticks between its bytes. */
  lemma ClockReadIsWhole(s: State, w: Wire, pauses: seq<Pause>)
    requires Linked(s, w) && |pauses| == 32
    ensures BlockRead(s, ReadOpening(CNTR0), pauses) == CounterBytes(Clock(s))
  {
    var bytes := CounterBytes(Clock(s));
    assert |bytes| == 4;
    forall i | 0 < i < 32 && i % 8 == 0
      ensures RegAt(CNTR0, i / 8) != CNTR0
    {
      assert i / 8 <= 3;
    }
    hide Run, WatchAll, Reading, BitAt, Linked, Value, Addressed, CounterBytes, ReadOpening, RegAt, GetBits, Bytes;
    OpenRead(s, w, CNTR0);
    var t, v := Run(s, ReadOpening(CNTR0)), WatchAll(w, ReadOpening(CNTR0));
    BitsRead(t, v, CNTR0, pauses);
    forall i | 0 <= i < 32
      ensures GetBits(t, pauses)[i] == BitAt(bytes[i / 8], i % 8)
    {
      CounterLatched(s, i);
    }
    BytesOfBits(GetBits(t, pauses), bytes);
  }
}
