/** The interrupt controller of next_devs.c and the delayed SCSI delivery in the
    instruction hook of main.c. The 32-bit status and mask registers are sets of
    bit numbers. */
module Interrupts {
  import opened Bits

  type irq = b: int | 0 <= b < 32

  const NMI: irq := 31
  const PFAIL: irq := 30
  const TIMER: irq := 29
  const SCSI_DMA: irq := 26
  const SCSI: irq := 12
  const SOFTINT1: irq := 1
  const SOFTINT0: irq := 0

  const SCR2_SOFTINT0 := 0x0100_0000
  const SCR2_SOFTINT1 := 0x0200_0000
  const SCR2_TIMERIPL7 := 0x8000

  const DELIVERY_DELAY := 10

  /** `level` is the value last passed to m68k_set_irq, `countdown` is
      next_irq_pending_update. */
  datatype State = State(status: set<irq>, mask: set<irq>, scr2: uint32, countdown: int, level: int)

  const RESET_STATE := State({}, {}, 0x000F_1080, 0, 0)

  function Timer7(s: State): bool {
    HasBit(s.scr2, SCR2_TIMERIPL7)
  }

  function Pending(s: State): set<irq> {
    s.status * s.mask
  }

  predicate AnyIn(p: set<irq>, lo: int, hi: int) {
    exists b | b in p :: lo <= b <= hi
  }

  /** next_intr_pending_ipl: a cascade of mask tests, highest level first. */
  function PendingIpl(s: State): int {
    var p := Pending(s);
    if p == {} then 0
    else if NMI in p || PFAIL in p then 7
    else if Timer7(s) && TIMER in p then 7
    else if AnyIn(p, 18, 29) then 6
    else if AnyIn(p, 15, 17) then 5
    else if 14 in p then 4
    else if AnyIn(p, 2, 13) then 3
    else if SOFTINT1 in p then 2
    else if SOFTINT0 in p then 1
    else 0
  }

  /** The level each line is wired to. */
  function LineLevel(b: irq, timer7: bool): int {
    if b >= 30 then 7
    else if b == TIMER && timer7 then 7
    else if b >= 18 then 6
    else if b >= 15 then 5
    else if b == 14 then 4
    else if b >= 2 then 3
    else b + 1
  }

  predicate IsMaximumLevel(level: int, p: set<irq>, timer7: bool) {
    && (forall b | b in p :: LineLevel(b, timer7) <= level)
    && (if p == {} then level == 0 else exists b | b in p :: LineLevel(b, timer7) == level)
  }

  /** The cascade computes the highest level over all unmasked pending lines. */
  lemma PendingIplIsMaximum(s: State)
    ensures IsMaximumLevel(PendingIpl(s), Pending(s), Timer7(s))
    ensures PendingIpl(s) == 0 <==> Pending(s) == {}
  {
    var p := Pending(s);
    if p != {} {
      var b :| b in p;
      assert LineLevel(b, Timer7(s)) >= 1;
      var ipl := PendingIpl(s);
      if ipl == 7 {
        assert exists c | c in p :: LineLevel(c, Timer7(s)) == ipl;
      } else if ipl == 6 {
        var c: irq :| c in p && 18 <= c <= 29;
        assert LineLevel(c, Timer7(s)) == ipl;
      } else if ipl == 5 {
        var c: irq :| c in p && 15 <= c <= 17;
        assert LineLevel(c, Timer7(s)) == ipl;
      } else if ipl == 4 {
        assert LineLevel(14, Timer7(s)) == ipl;
      } else if ipl == 3 {
        var c: irq :| c in p && 2 <= c <= 13;
        assert LineLevel(c, Timer7(s)) == ipl;
      } else {
        assert LineLevel(SOFTINT1, Timer7(s)) == 2 && LineLevel(SOFTINT0, Timer7(s)) == 1;
      }
    }
  }

  /** More pending lines never lower the level. */
  lemma PendingIplMonotone(s: State, t: State)
    requires Pending(s) <= Pending(t) && Timer7(s) == Timer7(t)
    ensures PendingIpl(s) <= PendingIpl(t)
  {
    PendingIplIsMaximum(s);
    PendingIplIsMaximum(t);
  }

  // ---------------------------------------------------------------- operations

  function Recompute(s: State): State {
    s.(level := PendingIpl(s))
  }

  function Set(s: State, b: irq): State {
    var t := s.(status := s.status + {b});
    if b == SCSI then
      if t.countdown <= 0 then t.(countdown := DELIVERY_DELAY) else t
    else
      Recompute(t)
  }

  function Clear(s: State, b: irq): State {
    var t := s.(status := s.status - {b});
    Recompute(if b == SCSI && t.countdown > 0 then t.(countdown := 0) else t)
  }

  function WriteMask(s: State, mask: set<irq>): State {
    Recompute(s.(mask := mask))
  }

  function SoftLine(s: State, value: uint32, weight: nat, b: irq): State
    requires weight > 0
  {
    if HasBit(value, weight) == HasBit(s.scr2, weight) then s
    else if HasBit(value, weight) then Set(s, b)
    else Clear(s, b)
  }

  /** SCR2 write: the soft interrupt lines follow their bits, and only then does
      the register take its new value. */
  function WriteScr2(s: State, value: uint32): State {
    var t := SoftLine(s, value, SCR2_SOFTINT0, SOFTINT0);
    var u := SoftLine(t, value, SCR2_SOFTINT1, SOFTINT1);
    u.(scr2 := value)
  }

  /** Head of the instruction hook. */
  function HookCountdown(s: State): State {
    if s.countdown > 0 then
      var t := s.(countdown := s.countdown - 1);
      if t.countdown == 0 then Recompute(t) else t
    else s
  }

  // ----------------------------------------------------------------- invariant

  /** The delayed SCSI delivery: running for at most ten instructions, and only while
      the line it will deliver is still pending. */
  ghost predicate CountOk(s: State) {
    0 <= s.countdown <= DELIVERY_DELAY && (s.countdown > 0 ==> SCSI in s.status)
  }

  /** The CPU sees no level above the highest pending one, and exactly that one when no
      delivery is outstanding. */
  ghost predicate LevelOk(s: State) {
    && CountOk(s)
    && s.level <= PendingIpl(s)
    && (s.countdown == 0 ==> s.level == PendingIpl(s))
  }

  lemma RecomputeSyncs(s: State)
    requires CountOk(s)
    ensures CountOk(Recompute(s)) && LevelOk(Recompute(s))
    ensures Recompute(s) == s.(level := PendingIpl(Recompute(s)))
  {
    assert Pending(Recompute(s)) == Pending(s);
  }

  lemma SetKeepsLevel(s: State, b: irq)
    requires CountOk(s)
    ensures CountOk(Set(s, b)) && (LevelOk(s) || b != SCSI ==> LevelOk(Set(s, b)))
    ensures Set(s, b).status == s.status + {b} && Set(s, b).scr2 == s.scr2 && Set(s, b).mask == s.mask
    ensures if b == SCSI then
              Set(s, b).level == s.level && Set(s, b).countdown == if s.countdown > 0 then s.countdown else 10
            else
              IsMaximumLevel(Set(s, b).level, (s.status + {b}) * s.mask, Timer7(s)) && Set(s, b).countdown == s.countdown
  {
    PendingIplIsMaximum(Set(s, b));
    var t := s.(status := s.status + {b});
    if b != SCSI {
      RecomputeSyncs(t);
    } else if LevelOk(s) {
      PendingIplMonotone(s, Set(s, b));
    }
  }

  lemma ClearKeepsLevel(s: State, b: irq)
    requires CountOk(s)
    ensures CountOk(Clear(s, b)) && LevelOk(Clear(s, b)) && Clear(s, b).level == PendingIpl(Clear(s, b))
    ensures Clear(s, b).status == s.status - {b} && Clear(s, b).scr2 == s.scr2 && Clear(s, b).mask == s.mask
    ensures IsMaximumLevel(Clear(s, b).level, (s.status - {b}) * s.mask, Timer7(s))
    ensures Clear(s, b).countdown == if b == SCSI then 0 else s.countdown
  {
    PendingIplIsMaximum(Clear(s, b));
    var t := s.(status := s.status - {b});
    RecomputeSyncs(if b == SCSI && t.countdown > 0 then t.(countdown := 0) else t);
  }

  /** A mask write takes effect at once: the CPU gets the highest level over the standing
      lines the new mask lets through. */
  lemma WriteMaskKeepsLevel(s: State, mask: set<irq>)
    requires CountOk(s)
    ensures var t := WriteMask(s, mask);
            && CountOk(t) && LevelOk(t)
            && t.mask == mask && t.status == s.status && t.scr2 == s.scr2 && t.countdown == s.countdown
            && IsMaximumLevel(t.level, s.status * mask, Timer7(s))
  {
    RecomputeSyncs(s.(mask := mask));
    PendingIplIsMaximum(WriteMask(s, mask));
  }

  /** A line the mask did not let through reaches the CPU by the mask write that does. */
  lemma UnmaskingDelivers(s: State, mask: set<irq>, b: irq)
    requires CountOk(s) && b in s.status && b in mask
    ensures WriteMask(s, mask).level >= LineLevel(b, Timer7(s))
    ensures s.status * mask == {b} ==> WriteMask(s, mask).level == LineLevel(b, Timer7(s))
  {
    WriteMaskKeepsLevel(s, mask);
    assert b in s.status * mask;
  }

  lemma HookKeepsLevel(s: State)
    requires CountOk(s)
    ensures CountOk(HookCountdown(s)) && (LevelOk(s) ==> LevelOk(HookCountdown(s)))
    ensures HookCountdown(s).status == s.status && HookCountdown(s).scr2 == s.scr2 && HookCountdown(s).mask == s.mask
    ensures HookCountdown(s).countdown == if s.countdown > 0 then s.countdown - 1 else 0
  {
    var t := s.(countdown := s.countdown - 1);
    assert Pending(t) == Pending(s) && PendingIpl(t) == PendingIpl(s);
    if s.countdown == 1 {
      RecomputeSyncs(t);
    }
  }

  lemma SoftLineKeepsLevel(s: State, value: uint32, weight: nat, b: irq)
    requires weight > 0 && b != SCSI && CountOk(s)
    ensures CountOk(SoftLine(s, value, weight, b))
    ensures LevelOk(s) ==> LevelOk(SoftLine(s, value, weight, b))
    ensures SoftLine(s, value, weight, b).scr2 == s.scr2 && SoftLine(s, value, weight, b).mask == s.mask
    ensures SoftLine(s, value, weight, b).countdown == s.countdown
    ensures SoftLine(s, value, weight, b).status - {b} == s.status - {b}
  {
    SetKeepsLevel(s, b);
    ClearKeepsLevel(s, b);
  }

  /** The level a write to SCR2 leaves behind is computed with the old TIMERIPL7. */
  ghost predicate TimerLevelStale(s: State, value: uint32) {
    && HasBit(value, SCR2_TIMERIPL7) != Timer7(s)
    && TIMER in Pending(s)
    && NMI !in Pending(s) && PFAIL !in Pending(s)
  }

  /** The write raises or lowers a soft interrupt line, which resynchronises the level. */
  predicate MovesSoftLine(s: State, value: uint32) {
    || HasBit(value, SCR2_SOFTINT0) != HasBit(s.scr2, SCR2_SOFTINT0)
    || HasBit(value, SCR2_SOFTINT1) != HasBit(s.scr2, SCR2_SOFTINT1)
  }

  /** From a synchronised state, a write to SCR2 leaves the CPU level right exactly
      when it does not flip TIMERIPL7 under a pending timer that nothing outranks. While a
      delivery is running the level may lag, so there only turning the bit off can put it
      too high, and does exactly when the CPU has, or by a soft line is given, level 7. */
  lemma WriteScr2Level(s: State, value: uint32)
    requires CountOk(s)
    ensures CountOk(WriteScr2(s, value))
    ensures LevelOk(s) && s.countdown == 0 ==>
              (WriteScr2(s, value).level == PendingIpl(WriteScr2(s, value)) <==> !TimerLevelStale(s, value))
    ensures LevelOk(s) && s.countdown > 0 ==>
              (LevelOk(WriteScr2(s, value)) <==>
               !(TimerLevelStale(s, value) && Timer7(s) && (s.level == 7 || MovesSoftLine(s, value))))
    ensures LevelOk(s) && HasBit(value, SCR2_TIMERIPL7) == Timer7(s) ==> LevelOk(WriteScr2(s, value))
    ensures SCSI in WriteScr2(s, value).status <==> SCSI in s.status
    ensures WriteScr2(s, value).scr2 == value && WriteScr2(s, value).mask == s.mask
    ensures WriteScr2(s, value).countdown == s.countdown
  {
    var t := SoftLine(s, value, SCR2_SOFTINT0, SOFTINT0);
    var u := SoftLine(t, value, SCR2_SOFTINT1, SOFTINT1);
    SoftLineKeepsLevel(s, value, SCR2_SOFTINT0, SOFTINT0);
    SoftLineKeepsLevel(t, value, SCR2_SOFTINT1, SOFTINT1);
    var w := WriteScr2(s, value);
    assert Pending(w) == Pending(u);
    assert forall b: irq | b > 1 :: b in u.status <==> b in (u.status - {SOFTINT1}) ;
    assert forall b: irq | b > 1 :: b in t.status <==> b in (t.status - {SOFTINT0}) ;
    assert forall b: irq | b > 1 :: b in Pending(s) <==> b in Pending(w);
    if HasBit(value, SCR2_TIMERIPL7) == Timer7(s) {
      PendingIplMonotone(u, w);
      PendingIplMonotone(w, u);
    } else if TIMER in Pending(s) {
      assert AnyIn(Pending(u), 18, 29) && AnyIn(Pending(w), 18, 29);
    } else {
      PendingIplIsMaximum(u);
      PendingIplIsMaximum(w);
      assert forall b | b in Pending(u) :: LineLevel(b, Timer7(u)) == LineLevel(b, Timer7(w));
    }
  }

  /** The soft lines stand exactly when their bits in SCR2 are on. */
  ghost predicate SoftOk(s: State) {
    && (SOFTINT0 in s.status <==> HasBit(s.scr2, SCR2_SOFTINT0))
    && (SOFTINT1 in s.status <==> HasBit(s.scr2, SCR2_SOFTINT1))
  }

  /** Turning a soft bit of SCR2 on raises its line, turning it off lowers it, and no
      other line moves. */
  lemma WriteScr2MovesSoftLines(s: State, value: uint32)
    ensures var t := WriteScr2(s, value);
            && (SOFTINT0 in t.status <==>
                if HasBit(value, SCR2_SOFTINT0) == HasBit(s.scr2, SCR2_SOFTINT0) then SOFTINT0 in s.status
                else HasBit(value, SCR2_SOFTINT0))
            && (SOFTINT1 in t.status <==>
                if HasBit(value, SCR2_SOFTINT1) == HasBit(s.scr2, SCR2_SOFTINT1) then SOFTINT1 in s.status
                else HasBit(value, SCR2_SOFTINT1))
            && (forall b: irq | b > SOFTINT1 :: b in t.status <==> b in s.status)
            && (SoftOk(s) ==> SoftOk(t))
  {
    hide HasBit, PendingIpl;
  }

  /** A concrete SCR2 write after which the CPU is held one level too low. */
  lemma Scr2CanLeaveLevelStale()
    ensures var s := State({TIMER}, {TIMER}, 0, 0, 6);
            && LevelOk(s)
            && WriteScr2(s, SCR2_TIMERIPL7).level == 6
            && PendingIpl(WriteScr2(s, SCR2_TIMERIPL7)) == 7
  {
    var s := State({TIMER}, {TIMER}, 0, 0, 6);
    assert TIMER in Pending(s);
    assert AnyIn(Pending(s), 18, 29);
    assert TIMER in Pending(WriteScr2(s, SCR2_TIMERIPL7));
  }

  // -------------------------------------------------------------------- runs

  datatype Op = Raise(b: irq) | Lower(b: irq) | Mask(lines: set<irq>) | Scr2(value: uint32) | Instruction

  function Apply(s: State, op: Op): State {
    match op
    case Raise(b) => Set(s, b)
    case Lower(b) => Clear(s, b)
    case Mask(lines) => WriteMask(s, lines)
    case Scr2(value) => WriteScr2(s, value)
    case Instruction => HookCountdown(s)
  }

  function Run(s: State, ops: seq<Op>): State
    decreases |ops|
  {
    if ops == [] then s else Run(Apply(s, ops[0]), ops[1..])
  }

  /** No SCR2 write of the run changes TIMERIPL7 from its starting value. */
  predicate LeavesTimer7(s: State, ops: seq<Op>) {
    forall op | op in ops :: op.Scr2? ==> HasBit(op.value, SCR2_TIMERIPL7) == Timer7(s)
  }

  /** The mask last written in a run. */
  function LastMask(mask: set<irq>, ops: seq<Op>): set<irq>
    decreases |ops|
  {
    if ops == [] then mask else LastMask(if ops[0].Mask? then ops[0].lines else mask, ops[1..])
  }

  /** The value last written to SCR2 in a run. */
  function LastScr2(value: uint32, ops: seq<Op>): uint32
    decreases |ops|
  {
    if ops == [] then value else LastScr2(if ops[0].Scr2? then ops[0].value else value, ops[1..])
  }

  /** Whether line `b` was last raised or last lowered. */
  predicate LastUp(b: irq, up: bool, ops: seq<Op>)
    decreases |ops|
  {
    if ops == [] then up
    else LastUp(b, ops[0] == Raise(b) || (up && ops[0] != Lower(b)), ops[1..])
  }

  /** The soft lines belong to SCR2: no device raises or lowers them. */
  predicate LeavesSoftLines(ops: seq<Op>) {
    forall op | op in ops :: !(op.Raise? && op.b <= SOFTINT1) && !(op.Lower? && op.b <= SOFTINT1)
  }

  lemma ApplyKeeps(s: State, op: Op)
    requires CountOk(s)
    ensures CountOk(Apply(s, op))
    ensures LevelOk(s) && (op.Scr2? ==> HasBit(op.value, SCR2_TIMERIPL7) == Timer7(s)) ==> LevelOk(Apply(s, op))
    ensures Apply(s, op).scr2 == if op.Scr2? then op.value else s.scr2
    ensures Apply(s, op).mask == if op.Mask? then op.lines else s.mask
    ensures op != Lower(SCSI) && SCSI in s.status ==> SCSI in Apply(s, op).status
    ensures op != Lower(SCSI) && s.countdown > 0 ==>
              Apply(s, op).countdown == s.countdown - (if op.Instruction? then 1 else 0)
  {
    match op
    case Raise(b) => SetKeepsLevel(s, b);
    case Lower(b) => ClearKeepsLevel(s, b);
    case Mask(lines) => WriteMaskKeepsLevel(s, lines);
    case Scr2(value) => WriteScr2Level(s, value);
    case Instruction => HookKeepsLevel(s);
  }

  lemma ApplyMoves(s: State, op: Op)
    requires CountOk(s)
    ensures forall b: irq | b > SOFTINT1 :: b in Apply(s, op).status <==> op == Raise(b) || (b in s.status && op != Lower(b))
    ensures SoftOk(s) && LeavesSoftLines([op]) ==> SoftOk(Apply(s, op))
  {
    hide PendingIpl, HasBit;
    match op
    case Raise(b) => assert op in [op];
    case Lower(b) => assert op in [op];
    case Mask(lines) => WriteMaskKeepsLevel(s, lines);
    case Scr2(value) => WriteScr2MovesSoftLines(s, value);
    case Instruction => HookKeepsLevel(s);
  }

  /** What the registers hold after a run is what was last asked of each: the mask and
      SCR2 as last written, a line standing if and only if it was last raised, a soft line
      if and only if its bit in SCR2 is on. */
  lemma {:induction false} RunIsLastAsked(s: State, ops: seq<Op>)
    requires CountOk(s)
    ensures var t := Run(s, ops);
            && CountOk(t) && t.mask == LastMask(s.mask, ops) && t.scr2 == LastScr2(s.scr2, ops)
            && (forall b: irq | b > SOFTINT1 :: b in t.status <==> LastUp(b, b in s.status, ops))
            && (SoftOk(s) && LeavesSoftLines(ops) ==> SoftOk(t))
    decreases |ops|
  {
    if ops != [] {
      ApplyKeeps(s, ops[0]);
      ApplyMoves(s, ops[0]);
      assert LeavesSoftLines(ops) ==> LeavesSoftLines([ops[0]]) && LeavesSoftLines(ops[1..]);
      hide Apply, CountOk, SoftOk, LeavesSoftLines;
      RunIsLastAsked(Apply(s, ops[0]), ops[1..]);
    }
  }

  /** The CPU has no level above the highest of `pending`, and exactly that level when no
      delivery is outstanding. */
  ghost predicate LevelBound(s: State, pending: set<irq>, timer7: bool) {
    exists top | 0 <= top <= 7 ::
      IsMaximumLevel(top, pending, timer7) && s.level <= top && (s.countdown == 0 ==> s.level == top)
  }

  lemma LevelOkIsBound(s: State)
    requires LevelOk(s)
    ensures LevelBound(s, Pending(s), Timer7(s))
  {
    PendingIplIsMaximum(s);
    assert IsMaximumLevel(PendingIpl(s), Pending(s), Timer7(s));
  }

  lemma {:induction false} RunKeepsLevelOk(s: State, ops: seq<Op>)
    requires LevelOk(s) && LeavesTimer7(s, ops)
    ensures LevelOk(Run(s, ops)) && Timer7(Run(s, ops)) == Timer7(s)
    decreases |ops|
  {
    if ops != [] {
      assert ops[0] in ops;
      ApplyKeeps(s, ops[0]);
      hide Apply, LevelOk;
      RunKeepsLevelOk(Apply(s, ops[0]), ops[1..]);
    }
  }

  /** Over every run that leaves TIMERIPL7 alone, the CPU level is never above the
      highest line standing under the mask last written, and is exactly it whenever no
      delivery is outstanding. */
  lemma RunKeepsLevel(s: State, ops: seq<Op>)
    requires LevelOk(s) && LeavesTimer7(s, ops)
    ensures LevelOk(Run(s, ops))
    ensures LevelBound(Run(s, ops), Run(s, ops).status * LastMask(s.mask, ops), Timer7(s))
  {
    RunKeepsLevelOk(s, ops);
    RunIsLastAsked(s, ops);
    hide LevelOk, LevelBound;
    LevelOkIsBound(Run(s, ops));
  }

  function Instructions(ops: seq<Op>): nat {
    if ops == [] then 0 else (if ops[0].Instruction? then 1 else 0) + Instructions(ops[1..])
  }

  /** A raised SCSI line reaches the CPU within the countdown, at most ten instructions,
      whatever else is raised, lowered, masked or raised again meanwhile: some prefix of
      the run ends with the level equal to the highest pending one, SCSI included. */
  lemma {:induction false} DeliveredInTime(s: State, ops: seq<Op>) returns (k: nat)
    requires LevelOk(s) && LeavesTimer7(s, ops) && SCSI in s.status
    requires Lower(SCSI) !in ops && Instructions(ops) >= s.countdown
    ensures k <= |ops| && Instructions(ops[..k]) == s.countdown <= DELIVERY_DELAY
    ensures var t := Run(s, ops[..k]);
            SCSI in t.status && t.level == PendingIpl(t) && (SCSI in t.mask ==> t.level >= 3)
    decreases |ops|
  {
    if s.countdown == 0 {
      k := 0;
      if SCSI in s.mask {
        PendingIplIsMaximum(s);
        assert SCSI in Pending(s) && LineLevel(SCSI, Timer7(s)) == 3;
      }
    } else {
      assert ops != [] && ops[0] in ops;
      ApplyKeeps(s, ops[0]);
      var t := Apply(s, ops[0]);
      var j := DeliveredInTime(t, ops[1..]);
      k := j + 1;
      assert ops[..k][0] == ops[0] && ops[..k][1..] == ops[1..][..j];
    }
  }

  // ---------------------------------------------------------------- the device

  class Controller {
    var status: set<irq>
    var mask: set<irq>
    var scr2: uint32
    var countdown: int
    var level: int

    function Value(): State
      reads this
    {
      State(status, mask, scr2, countdown, level)
    }

    constructor ()
      ensures Value() == RESET_STATE
    {
      status, mask, scr2, countdown, level := {}, {}, 0x000F_1080, 0, 0;
    }

    method PendingLevel() returns (ipl: int)
      ensures ipl == PendingIpl(Value())
      ensures IsMaximumLevel(ipl, status * mask, Timer7(Value()))
    {
      PendingIplIsMaximum(Value());
      var pending := status * mask;
      if pending == {} {
        return 0;
      }
      if NMI in pending || PFAIL in pending {
        return 7;
      }
      if HasBit(scr2, SCR2_TIMERIPL7) && TIMER in pending {
        return 7;
      }
      if AnyIn(pending, 18, 29) {
        return 6;
      }
      if AnyIn(pending, 15, 17) {
        return 5;
      }
      if 14 in pending {
        return 4;
      }
      if AnyIn(pending, 2, 13) {
        return 3;
      }
      return if SOFTINT1 in pending then 2 else if SOFTINT0 in pending then 1 else 0;
    }

    method SetIrq()
      modifies this`level
      ensures Value() == Recompute(old(Value()))
    {
      var ipl := PendingLevel();
      level := ipl;
    }

    method Raise(b: irq)
      modifies this`status, this`countdown, this`level
      ensures Value() == Set(old(Value()), b)
    {
      status := status + {b};
      if b == SCSI {
        if countdown <= 0 {
          countdown := DELIVERY_DELAY;
        }
        return;
      }
      SetIrq();
    }

    method Lower(b: irq)
      modifies this`status, this`countdown, this`level
      ensures Value() == Clear(old(Value()), b)
    {
      status := status - {b};
      if b == SCSI {
        if countdown > 0 && SCSI !in status {
          countdown := 0;
        }
      }
      SetIrq();
    }

    method MaskWrite(value: set<irq>)
      modifies this`mask, this`level
      ensures Value() == WriteMask(old(Value()), value)
    {
      mask := value;
      SetIrq();
    }

    method Scr2Write(value: uint32)
      modifies this
      ensures Value() == WriteScr2(old(Value()), value)
    {
      if HasBit(value, SCR2_SOFTINT0) != HasBit(scr2, SCR2_SOFTINT0) {
        if HasBit(value, SCR2_SOFTINT0) {
          Raise(SOFTINT0);
        } else {
          Lower(SOFTINT0);
        }
      }
      if HasBit(value, SCR2_SOFTINT1) != HasBit(scr2, SCR2_SOFTINT1) {
        if HasBit(value, SCR2_SOFTINT1) {
          Raise(SOFTINT1);
        } else {
          Lower(SOFTINT1);
        }
      }
      scr2 := value;
    }

    method Hook()
      modifies this`countdown, this`level
      ensures Value() == HookCountdown(old(Value()))
    {
      if countdown > 0 {
        countdown := countdown - 1;
        if countdown == 0 {
          SetIrq();
        }
      }
    }
  }
}
