/** The real-time clock of next_rtc.c: a serial chip driven by three bits of SCR2.
    The register file, the edge-driven state machine, and what it means for the host. */
module Rtc {
  import opened Bits
  import opened Powers

  const CNTR0 := 0x20
  const CNTR3 := 0x23
  const STATUS := 0x30
  const CONTROL := 0x31
  const EPOCH := 1_704_067_200

  type RegFile = r: seq<uint8> | |r| == 64 witness seq(64, _ => 0)

  /** The three lines as one write to SCR2 sets them. */
  datatype Pins = Pins(ce: bool, clk: bool, data: bool)

  datatype Event = Scr2(pins: Pins) | Second

  datatype Phase = Resting | Addressing | Transferring

  /** `ce` is the RTCE bit SCR2 holds; `soft` selects the software seconds counter, which
      only then is what the clock shows. */
  datatype State = State(regs: RegFile, phase: Phase, count: nat, shiftIn: uint8, shiftOut: uint8, address: uint8,
                         isWrite: bool, dataBit: bool, prevClk: bool, ce: bool, seconds: uint32, soft: bool)

  /** One call of rtc_reg_write. */
  datatype Write = Write(reg: int, value: uint8)

  function ShiftIn(byte: uint8, bit: bool): uint8 {
    (2 * byte + if bit then 1 else 0) % 256
  }

  function NextAddress(address: uint8): uint8 {
    (if address >= 128 then 128 else 0) + (address % 64 + 1) % 64
  }

  // -------------------------------------------------------------- register file

  function Clock(s: State): uint32 {
    if s.soft then s.seconds else EPOCH
  }

  function CounterBytes(secs: uint32): seq<uint8> {
    [secs / 0x100_0000, secs / 0x1_0000 % 256, secs / 256 % 256, secs % 256]
  }

  function Snapshot(regs: RegFile, secs: uint32): RegFile {
    regs[..CNTR0] + CounterBytes(secs) + regs[CNTR0 + 4..]
  }

  function Store(regs: RegFile, w: Write): RegFile {
    regs[w.reg % 64 := w.value]
  }

  function Counter(regs: RegFile): uint32 {
    var (b0: int, b1: int, b2: int) := (regs[CNTR0], regs[0x21], regs[0x22]);
    b0 * 0x100_0000 + b1 * 0x1_0000 + b2 * 256 + regs[CNTR3]
  }

  /** rtc_reg_write: storing the last counter byte also sets the soft counter. */
  function RegWrite(s: State, w: Write): State {
    var regs := Store(s.regs, w);
    s.(regs := regs, seconds := if w.reg % 64 == CNTR3 && s.soft then Counter(regs) else s.seconds)
  }

  /** rtc_reg_read: reading the first counter byte takes a snapshot. */
  function Load(s: State, address: uint8): State {
    var regs := if address % 64 == CNTR0 then Snapshot(s.regs, Clock(s)) else s.regs;
    s.(regs := regs, shiftOut := regs[address % 64])
  }

  // -------------------------------------------------------------- state machine

  /** A falling edge while the address comes in. */
  function AddressBit(s: State, data: bool): State {
    var byte := ShiftIn(s.shiftIn, data);
    if s.count + 1 == 8 then
      var t := s.(address := byte, isWrite := byte >= 128, phase := Transferring, count := 0, shiftIn := 0);
      if t.isWrite then t else Load(t, byte)
    else
      s.(shiftIn := byte, count := s.count + 1)
  }

  /** A falling edge while a data byte comes in. */
  function DataBitIn(s: State, data: bool): State {
    var byte := ShiftIn(s.shiftIn, data);
    if s.count + 1 == 8 then
      RegWrite(s, Write(s.address % 64, byte)).(address := NextAddress(s.address), count := 0, shiftIn := 0)
    else
      s.(shiftIn := byte, count := s.count + 1)
  }

  /** A rising edge while a data byte goes out. */
  function DataBitOut(s: State): State {
    var t := if s.count == 8 then
               Load(s, NextAddress(s.address)).(address := NextAddress(s.address), count := 0)
             else s;
    t.(dataBit := t.shiftOut >= 128, shiftOut := 2 * t.shiftOut % 256, count := t.count + 1)
  }

  function Selected(s: State, p: Pins): State {
    s.(phase := Addressing, count := 0, shiftIn := 0, shiftOut := 0, address := 0, isWrite := false,
       dataBit := false, prevClk := p.clk, ce := true)
  }

  /** RTCE low: the one other place a byte could be committed. */
  function Deselected(s: State): State {
    var t := if s.ce && s.phase.Transferring? && s.isWrite && s.count == 8 then
               RegWrite(s, Write(s.address % 64, s.shiftIn))
             else s;
    t.(phase := Resting, dataBit := false, prevClk := false, ce := false)
  }

  function Clocked(s: State, p: Pins): State {
    var fall, rise := s.prevClk && !p.clk, !s.prevClk && p.clk;
    var t := s.(prevClk := p.clk);
    if s.phase.Addressing? && fall then AddressBit(t, p.data)
    else if s.phase.Transferring? && s.isWrite && fall then DataBitIn(t, p.data)
    else if s.phase.Transferring? && !s.isWrite && rise then DataBitOut(t)
    else t
  }

  function Step(s: State, e: Event): State {
    match e
    case Second => s.(seconds := (s.seconds + 1) % 0x1_0000_0000)
    case Scr2(p) =>
      if p.ce && !s.ce then Selected(s, p)
      else if !p.ce then Deselected(s)
      else Clocked(s, p)
  }

  /** RTDATA as the host reads it back from SCR2 while RTCE is on, `own` being the bit it
      last wrote. */
  function ReadBack(s: State, own: bool): bool {
    if s.phase.Transferring? && !s.isWrite then s.dataBit else own
  }

  /** The calls of rtc_reg_write one event makes. */
  function WritesOf(s: State, e: Event): seq<Write> {
    match e
    case Second => []
    case Scr2(p) =>
      if p.ce && !s.ce then []
      else if !p.ce then
        if s.ce && s.phase.Transferring? && s.isWrite && s.count == 8 then [Write(s.address % 64, s.shiftIn)] else []
      else if s.phase.Transferring? && s.isWrite && s.prevClk && !p.clk && s.count + 1 == 8 then
        [Write(s.address % 64, ShiftIn(s.shiftIn, p.data))]
      else []
  }

  function Run(s: State, es: seq<Event>): State
    decreases |es|
  {
    if es == [] then s else Run(Step(s, es[0]), es[1..])
  }

  function AllWrites(s: State, es: seq<Event>): seq<Write>
    decreases |es|
  {
    if es == [] then [] else WritesOf(s, es[0]) + AllWrites(Step(s, es[0]), es[1..])
  }

  // ------------------------------------------------- what the wires say, by themselves

  /** The bits sampled on falling edges since RTCE last rose, the rising edges after the
      eighth of them, and the samples of the intervals that have ended. */
  datatype Wire = Wire(ce: bool, open: bool, clk: bool, bits: seq<bool>, rises: nat, past: seq<seq<bool>>)

  function Watch(w: Wire, e: Event): Wire {
    match e
    case Second => w
    case Scr2(p) =>
      if p.ce && !w.ce then Wire(true, true, p.clk, [], 0, w.past)
      else if !p.ce then Wire(false, false, false, [], 0, if w.open then w.past + [w.bits] else w.past)
      else if !w.open then w.(clk := p.clk)
      else w.(clk := p.clk,
              bits := if w.clk && !p.clk then w.bits + [p.data] else w.bits,
              rises := if !w.clk && p.clk && |w.bits| >= 8 then w.rises + 1 else w.rises)
  }

  function WatchAll(w: Wire, es: seq<Event>): Wire
    decreases |es|
  {
    if es == [] then w else WatchAll(Watch(w, es[0]), es[1..])
  }

  /** A string of bits, first bit heaviest, in an 8-bit register. */
  function Value(bits: seq<bool>): uint8
    decreases |bits|
  {
    if bits == [] then 0 else ShiftIn(Value(bits[..|bits| - 1]), bits[|bits| - 1])
  }

  /** Byte `k` after the address byte. */
  function Group(bits: seq<bool>, k: nat): uint8
    requires 8 + 8 * k + 8 <= |bits|
  {
    Value(bits[8 + 8 * k..8 + 8 * k + 8])
  }

  /** The writes one interval asks for: none without a whole address byte with its top bit
      on, otherwise one for each whole group of eight bits after it. */
  function Transaction(bits: seq<bool>): seq<Write> {
    if |bits| < 8 || !bits[0] then []
    else seq((|bits| - 8) / 8, k requires 0 <= k < (|bits| - 8) / 8 =>
           Write((Value(bits[..8]) % 64 + k) % 64, Group(bits, k)))
  }

  function Flat(past: seq<seq<bool>>): seq<Write> {
    if past == [] then [] else Flat(past[..|past| - 1]) + Transaction(past[|past| - 1])
  }

  function Asked(w: Wire): seq<Write> {
    Flat(w.past) + Transaction(w.bits)
  }

  // ---------------------------------------------------------------- refinement

  /** How the state machine stands for what has been on the wires. */
  ghost predicate Linked(s: State, w: Wire) {
    && s.ce == w.ce
    && (if w.open then w.ce && s.prevClk == w.clk && InTransaction(s, w.bits, w.rises)
        else s.phase.Resting? && w.bits == [])
  }

  ghost predicate InTransaction(s: State, bits: seq<bool>, rises: nat) {
    if |bits| < 8 then
      s.phase.Addressing? && s.count == |bits| && s.shiftIn == Value(bits) && rises == 0
    else
      && s.phase.Transferring? && s.isWrite == bits[0]
      && (if bits[0] then Receiving(s, bits) else Sending(s, Value(bits[..8]), rises))
  }

  /** The bits of the byte not yet complete. */
  function Partial(bits: seq<bool>): seq<bool>
    requires |bits| >= 8
  {
    bits[8 + 8 * ((|bits| - 8) / 8)..]
  }

  ghost predicate Receiving(s: State, bits: seq<bool>)
    requires |bits| >= 8
  {
    var whole := (|bits| - 8) / 8;
    && s.count == (|bits| - 8) % 8
    && s.shiftIn == Value(Partial(bits))
    && s.address % 64 == (Value(bits[..8]) % 64 + whole) % 64
  }

  /** `byte` after `n` places to the left. */
  function Left(byte: uint8, n: nat): uint8 {
    if n == 0 then byte else 2 * Left(byte, n - 1) % 256
  }

  /** Bit `n` of a byte, heaviest first. */
  function BitAt(byte: uint8, n: nat): bool {
    Left(byte, n) >= 128
  }

  /** `rises` clocks into a read starting at register `start`. */
  ghost predicate Sending(s: State, start: uint8, rises: nat) {
    var done := if rises == 0 then 0 else (rises - 1) / 8;
    && s.count == rises - 8 * done
    && s.count <= 8
    && s.address % 64 == (start % 64 + done) % 64
    && s.shiftOut == Left(s.regs[s.address % 64], s.count)
    && (s.count > 0 ==> s.dataBit == BitAt(s.regs[s.address % 64], s.count - 1))
  }

  lemma {:induction false} PowerBound(n: nat)
    requires n <= 8
    ensures 1 <= Power(n) <= 256 && (n < 8 ==> Power(n) <= 128)
  {
    assert Power(1) == 2 && Power(2) == 4 && Power(3) == 8 && Power(4) == 16;
    assert Power(5) == 32 && Power(6) == 64 && Power(7) == 128 && Power(8) == 256;
  }

  lemma RangeStep(v: uint8, bit: bool, p: int)
    requires v < p <= 128
    ensures ShiftIn(v, bit) < 2 * p
    ensures p % 2 == 0 ==> (v >= p / 2 <==> ShiftIn(v, bit) >= p)
    ensures p == 1 ==> (bit <==> ShiftIn(v, bit) >= 1)
  {
  }

  /** Up to eight bits nothing is lost, and the first bit is the heaviest. */
  lemma {:induction false} ValueRange(bits: seq<bool>)
    requires 1 <= |bits| <= 8
    ensures Value(bits) < Power(|bits|)
    ensures bits[0] <==> Value(bits) >= Power(|bits| - 1)
    decreases |bits|
  {
    var n := |bits| - 1;
    var front, bit := bits[..n], bits[n];
    PowerBound(n);
    assert Value(bits) == ShiftIn(Value(front), bit) && Power(n + 1) == 2 * Power(n);
    if n == 0 {
      assert Value(front) == 0;
      RangeStep(0, bit, 1);
    } else {
      ValueRange(front);
      assert Power(n) == 2 * Power(n - 1) && front[0] == bits[0];
      RangeStep(Value(front), bit, Power(n));
      hide Power, Value, ShiftIn;
    }
  }

  lemma AppendBit(bits: seq<bool>, b: bool)
    ensures Value(bits + [b]) == ShiftIn(Value(bits), b)
  {
    assert (bits + [b])[..|bits|] == bits;
  }

  /** One more bit completes a byte exactly when the count reaches eight. */
  lemma TransactionGrows(bits: seq<bool>, b: bool)
    requires |bits| >= 8 && bits[0]
    ensures var whole := (|bits| - 8) / 8;
            Transaction(bits + [b]) == Transaction(bits) +
              if (|bits| - 8) % 8 == 7 then
                [Write((Value(bits[..8]) % 64 + whole) % 64, ShiftIn(Value(Partial(bits)), b))]
              else []
  {
    hide Value;
    var whole := (|bits| - 8) / 8;
    var more := bits + [b];
    assert more[..8] == bits[..8] && more[0];
    assert |Transaction(bits)| == whole && |Transaction(more)| == (|bits| - 7) / 8;
    forall k | 0 <= k < whole
      ensures Group(more, k) == Group(bits, k)
    {
      assert more[8 + 8 * k..8 + 8 * k + 8] == bits[8 + 8 * k..8 + 8 * k + 8];
    }
    if (|bits| - 8) % 8 == 7 {
      assert more[8 + 8 * whole..8 + 8 * whole + 8] == bits[8 + 8 * whole..] + [b];
      AppendBit(bits[8 + 8 * whole..], b);
    }
  }

  lemma FlatAppend(past: seq<seq<bool>>, bits: seq<bool>)
    ensures Flat(past + [bits]) == Flat(past) + Transaction(bits)
  {
    assert (past + [bits])[..|past|] == past;
  }

  /** A falling edge during the address byte. */
  lemma AddressStep(s: State, bits: seq<bool>, data: bool)
    requires InTransaction(s, bits, 0) && |bits| < 8
    ensures InTransaction(AddressBit(s, data), bits + [data], 0)
  {
    var more := bits + [data];
    AppendBit(bits, data);
    if |bits| == 7 {
      ValueRange(more);
      assert Power(7) == 128 && Value(more[8..]) == 0;
      hide Value, Power;
      assert more[..8] == more;
    } else {
      hide Value;
    }
  }

  /** Addresses advance modulo 64. */
  lemma AddressAdvances(address: uint8, start: uint8, k: nat)
    requires address % 64 == (start % 64 + k) % 64
    ensures NextAddress(address) % 64 == (start % 64 + k + 1) % 64
  {
  }

  lemma ReceivedFields(s: State, data: bool)
    ensures var t := DataBitIn(s, data);
            if s.count == 7 then t.count == 0 && t.shiftIn == 0 && t.address == NextAddress(s.address)
            else t.count == s.count + 1 && t.shiftIn == ShiftIn(s.shiftIn, data) && t.address == s.address
  {
    hide RegWrite, ShiftIn, NextAddress;
  }

  lemma PartialGrows(bits: seq<bool>, data: bool)
    requires |bits| >= 8
    ensures var more, n := bits + [data], |bits| - 8;
            && more[..8] == bits[..8]
            && if n % 8 == 7 then Partial(more) == [] && (n + 1) % 8 == 0 && (n + 1) / 8 == n / 8 + 1
               else Partial(more) == Partial(bits) + [data] && (n + 1) % 8 == n % 8 + 1 && (n + 1) / 8 == n / 8
  {
  }

  /** A falling edge during a data byte of a write. */
  lemma ReceiveStep(s: State, bits: seq<bool>, data: bool)
    requires |bits| >= 8 && bits[0] && Receiving(s, bits)
    ensures Receiving(DataBitIn(s, data), bits + [data])
  {
    assert Value([]) == 0;
    hide Value, NextAddress, ShiftIn, DataBitIn, Partial;
    ReceivedFields(s, data);
    PartialGrows(bits, data);
    AppendBit(Partial(bits), data);
    AddressAdvances(s.address, Value(bits[..8]), (|bits| - 8) / 8);
  }

  /** A falling edge, by the kind of bit it brings. */
  lemma SampleCases(s: State, w: Wire, p: Pins)
    requires Linked(s, w) && w.open && p.ce && w.clk && !p.clk
    ensures var t, u := s.(prevClk := false), Step(s, Scr2(p));
            && u.ce && !u.prevClk
            && (if |w.bits| < 8 then u == AddressBit(t, p.data)
                else if w.bits[0] then u == DataBitIn(t, p.data) && u.phase == s.phase && u.isWrite == s.isWrite
                else u == t)
    ensures Watch(w, Scr2(p)) == w.(clk := false, bits := w.bits + [p.data])
  {
    hide Value, Left, BitAt, NextAddress, ShiftIn, Snapshot, Store, Sending, Receiving, Partial;
  }

  /** A falling edge brings a bit in. */
  lemma SampleStep(s: State, w: Wire, p: Pins)
    requires Linked(s, w) && w.open && p.ce && w.clk && !p.clk
    ensures Linked(Step(s, Scr2(p)), Watch(w, Scr2(p)))
  {
    var bits, t := w.bits, s.(prevClk := false);
    var more := bits + [p.data];
    hide Value, Left, BitAt, NextAddress, ShiftIn, Step, Watch, AddressBit, DataBitIn, Partial;
    SampleCases(s, w, p);
    if |bits| < 8 {
      AddressStep(t, bits, p.data);
    } else {
      assert more[..8] == bits[..8] && more[0] == bits[0];
      if bits[0] {
        ReceiveStep(t, bits, p.data);
        hide Receiving;
      }
    }
  }

  lemma ReceivingWrites(s: State, bits: seq<bool>, p: Pins)
    requires |bits| >= 8 && bits[0] && Receiving(s, bits) && s.phase.Transferring? && s.isWrite
    requires s.ce && p.ce && s.prevClk && !p.clk
    ensures var whole := (|bits| - 8) / 8;
            WritesOf(s, Scr2(p)) ==
            if (|bits| - 8) % 8 == 7 then [Write((Value(bits[..8]) % 64 + whole) % 64, ShiftIn(Value(Partial(bits)), p.data))]
            else []
  {
    hide Value, Partial, ShiftIn;
  }

  lemma NoTransaction(bits: seq<bool>)
    requires |bits| < 8 || !bits[0]
    ensures Transaction(bits) == []
  {
  }

  /** A falling edge performs the write of the group it completes, if any. */
  lemma SampleWrites(s: State, w: Wire, p: Pins)
    requires Linked(s, w) && w.open && p.ce && w.clk && !p.clk
    ensures Transaction(w.bits + [p.data]) == Transaction(w.bits) + WritesOf(s, Scr2(p))
  {
    var bits := w.bits;
    assert |bits| > 0 ==> (bits + [p.data])[0] == bits[0];
    hide Value, Left, BitAt, ShiftIn, Partial, Transaction;
    if |bits| >= 8 && bits[0] {
      TransactionGrows(bits, p.data);
      ReceivingWrites(s, bits, p);
    } else {
      NoTransaction(bits);
      if |bits| == 7 && bits[0] {
        SevenBits(bits + [p.data]);
      } else {
        NoTransaction(bits + [p.data]);
      }
      assert WritesOf(s, Scr2(p)) == [];
    }
  }

  lemma SevenBits(bits: seq<bool>)
    requires |bits| == 8
    ensures Transaction(bits) == []
  {
  }

  /** A rising edge that puts a bit out. */
  lemma SendStep(s: State, start: uint8, rises: nat)
    requires Sending(s, start, rises)
    ensures Sending(DataBitOut(s), start, rises + 1)
    ensures DataBitOut(s) == s.(regs := DataBitOut(s).regs, count := DataBitOut(s).count, shiftOut := DataBitOut(s).shiftOut,
                                address := DataBitOut(s).address, dataBit := DataBitOut(s).dataBit)
  {
    var done := if rises == 0 then 0 else (rises - 1) / 8;
    var t := DataBitOut(s);
    if s.count == 8 {
      assert rises / 8 == done + 1;
      AddressAdvances(s.address, start, done);
      hide NextAddress;
      var byte := t.regs[t.address % 64];
      assert Left(byte, 0) == byte && Left(byte, 1) == 2 * (byte as int) % 256;
    } else {
      assert rises / 8 == done;
    }
  }

  /** Any other event. */
  lemma OtherStep(s: State, w: Wire, e: Event)
    requires Linked(s, w) && !(e.Scr2? && w.open && e.pins.ce && w.clk && !e.pins.clk)
    ensures Linked(Step(s, e), Watch(w, e))
    ensures Asked(Watch(w, e)) == Asked(w) && WritesOf(s, e) == []
  {
    assert Transaction([]) == [];
    hide Flat, Transaction, NextAddress, Left, BitAt, ShiftIn, Store, Snapshot;
    match e
    case Second =>
      hide Value;
    case Scr2(p) =>
      if !p.ce {
        hide Value;
        if w.open {
          FlatAppend(w.past, w.bits);
        }
      } else if !w.ce {
        assert Value([]) == 0;
      } else if w.open && !w.clk && p.clk && |w.bits| >= 8 && !w.bits[0] {
        hide Value;
        SendStep(s.(prevClk := true), Value(w.bits[..8]), w.rises);
        hide Sending, DataBitOut;
      } else {
        hide Value;
      }
  }

  lemma StepRefines(s: State, w: Wire, e: Event)
    requires Linked(s, w)
    ensures Linked(Step(s, e), Watch(w, e))
    ensures Asked(Watch(w, e)) == Asked(w) + WritesOf(s, e)
  {
    if e.Scr2? && w.open && e.pins.ce && w.clk && !e.pins.clk {
      SampleStep(s, w, e.pins);
      SampleWrites(s, w, e.pins);
      hide Step, Linked, Transaction, WritesOf;
    } else {
      OtherStep(s, w, e);
    }
  }

  lemma Associative(a: seq<Write>, b: seq<Write>, c: seq<Write>)
    ensures (a + b) + c == a + (b + c)
  {
  }

  /** Over any run, the register writes are exactly the whole groups of eight bits
      sampled on falling edges after a write address, interval by interval. */
  lemma {:induction false} WritesAreTheGroups(s: State, w: Wire, es: seq<Event>)
    requires Linked(s, w)
    ensures Linked(Run(s, es), WatchAll(w, es))
    ensures Asked(WatchAll(w, es)) == Asked(w) + AllWrites(s, es)
    decreases |es|
  {
    if es != [] {
      StepRefines(s, w, es[0]);
      hide Step, Watch, Linked, Asked, WritesOf;
      var t, v := Step(s, es[0]), Watch(w, es[0]);
      WritesAreTheGroups(t, v, es[1..]);
      Associative(Asked(w), WritesOf(s, es[0]), AllWrites(t, es[1..]));
    }
  }

  /** Nothing on the wires yet. */
  function Quiet(ce: bool): Wire {
    Wire(ce, false, false, [], 0, [])
  }

  /** So it is from power-on, or whenever the chip rests. */
  lemma FromRest(s: State, es: seq<Event>)
    requires s.phase.Resting?
    ensures AllWrites(s, es) == Asked(WatchAll(Quiet(s.ce), es))
  {
    WritesAreTheGroups(s, Quiet(s.ce), es);
    assert Asked(Quiet(s.ce)) == [];
    assert [] + AllWrites(s, es) == AllWrites(s, es);
  }

  /** The commit on falling RTCE is dead code: a write never rests on eight bits. */
  lemma CommitNeverFires(s: State, w: Wire, es: seq<Event>)
    requires Linked(s, w)
    ensures var t := Run(s, es); !(t.phase.Transferring? && t.isWrite && t.count == 8)
  {
    WritesAreTheGroups(s, w, es);
  }

  // -------------------------------------------------------------- what registers hold

  predicate IsCounter(reg: int) {
    CNTR0 <= reg <= CNTR3
  }

  ghost predicate AgreeOutside(a: RegFile, b: RegFile) {
    forall r | 0 <= r < 64 && !IsCounter(r) :: a[r] == b[r]
  }

  function StoreAll(regs: RegFile, ws: seq<Write>): RegFile
    decreases |ws|
  {
    if ws == [] then regs else StoreAll(Store(regs, ws[0]), ws[1..])
  }

  lemma {:induction false} StoreAllAgrees(a: RegFile, b: RegFile, vs: seq<Write>, ws: seq<Write>)
    requires AgreeOutside(StoreAll(a, vs), b)
    ensures AgreeOutside(StoreAll(a, vs + ws), StoreAll(b, ws))
    decreases |vs| + |ws|
  {
    if vs != [] {
      assert (vs + ws)[0] == vs[0] && (vs + ws)[1..] == vs[1..] + ws;
      StoreAllAgrees(Store(a, vs[0]), b, vs[1..], ws);
    } else {
      assert vs + ws == ws;
      if ws != [] {
        assert [] + ws[1..] == ws[1..];
        StoreAllAgrees(Store(a, ws[0]), Store(b, ws[0]), [], ws[1..]);
      }
    }
  }

  lemma StepStores(s: State, e: Event)
    ensures AgreeOutside(StoreAll(s.regs, WritesOf(s, e)), Step(s, e).regs)
  {
    hide ShiftIn, NextAddress, Counter, Clock, CounterBytes;
  }

  /** Outside the counter, the registers change by those writes and nothing else. */
  lemma {:induction false} RegistersAreTheWrites(s: State, es: seq<Event>)
    ensures AgreeOutside(StoreAll(s.regs, AllWrites(s, es)), Run(s, es).regs)
    decreases |es|
  {
    if es != [] {
      StepStores(s, es[0]);
      var t := Step(s, es[0]);
      hide Step, WritesOf;
      StoreAllAgrees(s.regs, t.regs, WritesOf(s, es[0]), AllWrites(t, es[1..]));
      RegistersAreTheWrites(t, es[1..]);
    }
  }
}
