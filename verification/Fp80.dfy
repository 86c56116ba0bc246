/** The extended format of fline_handler.c and its conversions: IEEE singles and doubles
    and the signed integers, into the 80-bit form and back out of it. */
module Fp80 {
  import opened Bits
  import opened Powers

  const BIAS80 := 16383
  const ONES80 := 0x7FFF
  const TOP: int := 0x8000_0000_0000_0000      // the explicit integer bit
  const QUIET: int := 0x4000_0000_0000_0000

  type uint64 = x: int | 0 <= x < 0x1_0000_0000_0000_0000

  /** A sign, a biased exponent and a 64-bit significand with its integer bit. */
  datatype Extended = Extended(negative: bool, exp: int, sig: int)

  predicate ValidExtended(v: Extended) {
    0 <= v.exp <= ONES80 && 0 <= v.sig < 2 * TOP
  }

  function Value80(v: Extended): real {
    Signed(v.negative, Times(v.sig as real, Scale(v.exp - BIAS80 - 63)))
  }

  // ------------------------------------------------------------------ IEEE formats

  datatype Format = Single | Double

  /** Bits of the fraction field, two to that power, and what is left of 63 bits. */
  function FracBits(f: Format): nat {
    if f.Single? then 23 else 52
  }

  function Unit(f: Format): int {
    if f.Single? then 0x80_0000 else 0x10_0000_0000_0000
  }

  function Rest(f: Format): int {
    if f.Single? then 0x100_0000_0000 else 0x800
  }

  function Bias(f: Format): int {
    if f.Single? then 127 else 1023
  }

  function Ones(f: Format): int {
    if f.Single? then 255 else 2047
  }

  datatype Ieee = Ieee(negative: bool, exp: int, frac: int)

  predicate ValidIeee(f: Format, p: Ieee) {
    0 <= p.exp <= Ones(f) && 0 <= p.frac < Unit(f)
  }

  predicate Finite(f: Format, p: Ieee) {
    ValidIeee(f, p) && p.exp < Ones(f)
  }

  predicate Subnormal(p: Ieee) {
    p.exp == 0 && p.frac != 0
  }

  predicate IsNaN(f: Format, p: Ieee) {
    p.exp == Ones(f) && p.frac != 0
  }

  /** The significand and the power of two its last place weighs. */
  function Mantissa(f: Format, p: Ieee): int {
    if p.exp == 0 then p.frac else Unit(f) + p.frac
  }

  function Place(f: Format, p: Ieee): int {
    (if p.exp == 0 then 1 else p.exp) - Bias(f) - FracBits(f)
  }

  function ValueIeee(f: Format, p: Ieee): real {
    Signed(p.negative, Times(Mantissa(f, p) as real, Scale(Place(f, p))))
  }

  /** The leading one of a subnormal fraction shifted up to the place of the hidden bit,
      and by how much. */
  function Normalised(f: Format, frac: int): (r: (int, nat))
    requires 0 < frac < 2 * Unit(f)
    decreases 2 * Unit(f) - frac
  {
    if frac >= Unit(f) then (frac, 0)
    else
      var (g, n) := Normalised(f, 2 * frac);
      (g, n + 1)
  }

  function Quieted(payload: int): int {
    if payload >= QUIET then payload else payload + QUIET
  }

  function Widen(f: Format, p: Ieee): Extended
    requires ValidIeee(f, p)
  {
    if p.exp == 0 && p.frac == 0 then Extended(p.negative, 0, 0)
    else if p.exp == Ones(f) then
      Extended(p.negative, ONES80, TOP + if p.frac == 0 then 0 else Quieted(p.frac * Rest(f)))
    else if p.exp == 0 then
      var (g, n) := Normalised(f, p.frac);
      Extended(p.negative, BIAS80 - (Bias(f) - 1) - n, g * Rest(f))
    else Extended(p.negative, p.exp - Bias(f) + BIAS80, TOP + p.frac * Rest(f))
  }

  /** The fraction field a significand is cut down to. */
  function FracOf(f: Format, sig: int): int {
    sig / Rest(f) % Unit(f)
  }

  function Narrow(f: Format, v: Extended): Ieee {
    var exp := v.exp - BIAS80 + Bias(f);
    if v.exp == ONES80 then Ieee(v.negative, Ones(f), FracOf(f, v.sig))
    else if v.exp == 0 && v.sig == 0 then Ieee(v.negative, 0, 0)
    else if exp <= 0 then Ieee(v.negative, 0, 0)
    else if exp >= Ones(f) then Ieee(v.negative, Ones(f), 0)
    else Ieee(v.negative, exp, FracOf(f, v.sig))
  }

  // ------------------------------------------------------------------- widening

  lemma UnitTimesRest(f: Format)
    ensures Unit(f) * Rest(f) == TOP && Rest(f) == Power(63 - FracBits(f))
  {
    PowerValues();
    hide Power;
  }

  /** Moving a significand up to 63 bits and its place down leaves the value alone. */
  lemma PlaceMoves(f: Format, m: int, p: int)
    ensures Times((m * Rest(f)) as real, Scale(p)) == Times(m as real, Scale(p + 63 - FracBits(f)))
  {
    UnitTimesRest(f);
    ScaleShift(p, 63 - FracBits(f));
    var s, d := Scale(p), Rest(f) as real;
    assert (m * Rest(f)) as real == m as real * d;
    assert (m as real * d) * s == m as real * (s * d);
  }

  lemma {:induction false} NormalisedKeeps(f: Format, frac: int, p: int)
    requires 0 < frac < 2 * Unit(f)
    ensures var (g, n) := Normalised(f, frac);
            && Unit(f) <= g < 2 * Unit(f) && n <= FracBits(f)
            && Times(g as real, Scale(p - n)) == Times(frac as real, Scale(p))
    decreases 2 * Unit(f) - frac
  {
    PowerValues();
    assert frac * Unit(f) >= Unit(f);
    hide Power;
    ShiftBound(f, frac, FracBits(f));
    NormalisedValue(f, frac, p);
  }

  lemma TimesTwice(x: int, s: real)
    ensures Times((2 * x) as real, s) == Times(x as real, 2.0 * s)
  {
  }

  lemma {:induction false} NormalisedValue(f: Format, frac: int, p: int)
    requires 0 < frac < 2 * Unit(f)
    ensures var (g, n) := Normalised(f, frac);
            Unit(f) <= g < 2 * Unit(f) && Times(g as real, Scale(p - n)) == Times(frac as real, Scale(p))
    decreases 2 * Unit(f) - frac
  {
    if frac < Unit(f) {
      NormalisedValue(f, 2 * frac, p - 1);
      ScaleDoubles(p - 1);
      TimesTwice(frac, Scale(p - 1));
      hide Times, Scale;
    }
  }

  lemma {:induction false} ShiftBound(f: Format, frac: int, k: nat)
    requires 0 < frac < 2 * Unit(f) && frac * Power(k) >= Unit(f)
    ensures Normalised(f, frac).1 <= k
    decreases k
  {
    if frac < Unit(f) {
      if k == 0 {
        assert false;
      } else {
        assert (2 * frac) * Power(k - 1) == frac * Power(k);
        ShiftBound(f, 2 * frac, k - 1);
      }
    }
  }

  /** Every finite single or double, subnormals included, widens to a normalised extended
      of the same sign and exactly the same value. */
  lemma WidenIsExact(f: Format, p: Ieee)
    requires Finite(f, p)
    ensures var v := Widen(f, p);
            && ValidExtended(v) && v.exp < ONES80 && v.negative == p.negative
            && Value80(v) == ValueIeee(f, p)
            && (if p.exp == 0 && p.frac == 0 then v.exp == v.sig == 0 else v.sig >= TOP && v.exp > 0)
  {
    hide Scale, Power, Normalised;
    UnitTimesRest(f);
    if p.exp == 0 && p.frac == 0 {
      ZeroTimes(Scale(Place(f, p)), Scale(-BIAS80 - 63));
    } else if p.exp == 0 {
      NormalisedKeeps(f, p.frac, Place(f, p));
      var (g, n) := Normalised(f, p.frac);
      PlaceMoves(f, g, Place(f, p) - n - 63 + FracBits(f));
      hide Times;
    } else {
      var v := Widen(f, p);
      PlaceMoves(f, Unit(f) + p.frac, v.exp - BIAS80 - 63);
      hide Times;
    }
  }

  lemma ZeroTimes(s: real, t: real)
    ensures Times(0.0, s) == Times(0.0, t) == 0.0
  {
  }

  /** A not-a-number keeps its sign and payload and becomes quiet; an infinity stays one. */
  lemma WidenSpecial(f: Format, p: Ieee)
    requires ValidIeee(f, p) && p.exp == Ones(f)
    ensures var v := Widen(f, p);
            && ValidExtended(v) && v.exp == ONES80 && v.negative == p.negative && v.sig >= TOP
            && (v.sig == TOP <==> !IsNaN(f, p))
            && (IsNaN(f, p) ==> v.sig >= TOP + QUIET && (v.sig - p.frac * Rest(f)) in {TOP, TOP + QUIET})
  {
    UnitTimesRest(f);
  }

  // ------------------------------------------------------------------- narrowing

  /** The top bits of a significand with its integer bit, and their whole part. */
  lemma CutDown(f: Format, v: Extended)
    requires ValidExtended(v) && v.sig >= TOP
    ensures var q := v.sig as real / Rest(f) as real;
            && q.Floor == v.sig / Rest(f) == Unit(f) + FracOf(f, v.sig)
            && Unit(f) as real <= q < 2.0 * (Unit(f) as real)
            && 0 <= FracOf(f, v.sig) < Unit(f)
  {
    UnitTimesRest(f);
    hide Power;
  }

  lemma CutPlace(f: Format, sig: int, p: int)
    ensures Times(sig as real / Rest(f) as real, Scale(p + 63 - FracBits(f))) == Times(sig as real, Scale(p))
  {
    UnitTimesRest(f);
    ScaleShift(p, 63 - FracBits(f));
    hide Scale, Power;
    var s, d := Scale(p), Rest(f) as real;
    var q := sig as real / d;
    assert q * d == sig as real;
    assert q * (s * d) == (q * d) * s;
  }

  /** The exponents an extended can have and still fall in the normal range of `f`. */
  predicate InRange(f: Format, v: Extended) {
    0 < v.exp - BIAS80 + Bias(f) < Ones(f)
  }

  /** In range, the stored value has the sign of the register, does not exceed it in
      magnitude, and no finite value of the format of at most that magnitude is larger. */
  lemma NarrowTruncates(f: Format, v: Extended, t: Ieee)
    requires ValidExtended(v) && v.sig >= TOP && InRange(f, v) && Finite(f, t)
    ensures var p := Narrow(f, v);
            && Finite(f, p) && p.exp > 0 && p.negative == v.negative
            && Abs(ValueIeee(f, p)) <= Abs(Value80(v))
            && (Abs(ValueIeee(f, t)) <= Abs(Value80(v)) ==> Abs(ValueIeee(f, t)) <= Abs(ValueIeee(f, p)))
  {
    hide Scale, Power;
    var p := Narrow(f, v);
    var q := v.sig as real / Rest(f) as real;
    CutDown(f, v);
    CutPlace(f, v.sig, v.exp - BIAS80 - 63);
    MagnitudeIeee(f, t);
    MagnitudeIeee(f, p);
    Magnitude80(v);
    GridBelow(Abs(Value80(v)), Place(f, p), q, Unit(f), Mantissa(f, t), Place(f, t));
  }

  lemma MagnitudeIeee(f: Format, p: Ieee)
    requires ValidIeee(f, p)
    ensures Abs(ValueIeee(f, p)) == Times(Mantissa(f, p) as real, Scale(Place(f, p)))
  {
    MulOrder(0.0, Mantissa(f, p) as real, Scale(Place(f, p)));
  }

  lemma Magnitude80(v: Extended)
    requires ValidExtended(v)
    ensures Abs(Value80(v)) == Times(v.sig as real, Scale(v.exp - BIAS80 - 63))
  {
    MulOrder(0.0, v.sig as real, Scale(v.exp - BIAS80 - 63));
  }

  lemma TopTimes(u: real)
    ensures var t := TOP as real; Times(t, u) == u * t && Times(2.0 * t, u) == 2.0 * (u * t)
  {
  }

  /** The magnitude of a normalised extended, by its exponent. */
  lemma Magnitude80Range(v: Extended)
    requires ValidExtended(v) && v.sig >= TOP
    ensures var e := v.exp - BIAS80; Scale(e) <= Abs(Value80(v)) < Scale(e + 1)
  {
    var e := v.exp - BIAS80;
    var t, u := TOP as real, Scale(e - 63);
    hide Scale, Power, Value80, Times;
    Magnitude80(v);
    ScaleShift(e - 63, 63);
    PowerValues();
    ScaleDoubles(e);
    TopTimes(u);
    MulOrder(t, v.sig as real, u);
    MulOrder(v.sig as real, 2.0 * t, u);
  }

  /** Truncation: a finite value of the format no larger in magnitude than the register,
      and no other such value is larger. */
  ghost predicate IsTruncation(f: Format, v: Extended, p: Ieee) {
    && Finite(f, p) && p.negative == v.negative
    && Abs(ValueIeee(f, p)) <= Abs(Value80(v))
    && forall t | Finite(f, t) && Abs(ValueIeee(f, t)) <= Abs(Value80(v)) :: Abs(ValueIeee(f, t)) <= Abs(ValueIeee(f, p))
  }

  /** The smallest positive value of the format, a subnormal. */
  function Least(f: Format): Ieee {
    Ieee(false, 0, 1)
  }

  lemma LeastValue(f: Format)
    ensures Finite(f, Least(f)) && ValueIeee(f, Least(f)) == Scale(1 - Bias(f) - FracBits(f))
  {
    hide Scale;
  }

  /** Every finite value but zero is at least that large. */
  lemma LeastIsLeast(f: Format, t: Ieee)
    requires Finite(f, t)
    ensures Mantissa(f, t) == 0 ==> ValueIeee(f, t) == 0.0
    ensures Mantissa(f, t) != 0 ==> Abs(ValueIeee(f, t)) >= Scale(1 - Bias(f) - FracBits(f))
  {
    var m, p := Mantissa(f, t), Place(f, t);
    MagnitudeIeee(f, t);
    ZeroTimes(Scale(p), 1.0);
    if m != 0 {
      ScaleMonotone(1 - Bias(f) - FracBits(f), p);
      hide Scale;
      MulOrder(1.0, m as real, Scale(p));
      assert Times(1.0, Scale(p)) == Scale(p);
    }
  }

  /** A register too large for the format is not truncated but stored as infinity. */
  lemma TooLargeIsLarge(f: Format, v: Extended)
    requires ValidExtended(v) && v.sig >= TOP && v.exp < ONES80 && v.exp - BIAS80 + Bias(f) >= Ones(f)
    ensures Abs(Value80(v)) >= Scale(1 - Bias(f) - FracBits(f)) && !Finite(f, Narrow(f, v))
  {
    Magnitude80Range(v);
    ScaleMonotone(1 - Bias(f) - FracBits(f), v.exp - BIAS80);
  }

  /** Below the normal range the store gives a signed zero, which truncates exactly the
      registers smaller than every value of the format. */
  lemma FlushTruncatesIff(f: Format, v: Extended)
    requires ValidExtended(v) && v.sig >= TOP && v.exp < ONES80 && v.exp - BIAS80 + Bias(f) <= 0
    ensures IsTruncation(f, v, Narrow(f, v)) <==> Abs(Value80(v)) < Scale(1 - Bias(f) - FracBits(f))
  {
    var p := Narrow(f, v);
    assert p == Ieee(v.negative, 0, 0);
    LeastIsLeast(f, p);
    LeastValue(f);
    hide Scale, Narrow;
    if Abs(Value80(v)) < Scale(1 - Bias(f) - FracBits(f)) {
      forall t | Finite(f, t) && Abs(ValueIeee(f, t)) <= Abs(Value80(v))
        ensures Abs(ValueIeee(f, t)) <= Abs(ValueIeee(f, p))
      {
        LeastIsLeast(f, t);
      }
    } else {
      assert Finite(f, Least(f)) && Abs(ValueIeee(f, Least(f))) > Abs(ValueIeee(f, p));
    }
  }

  /** A store to single or double truncates exactly when the register is in the normal
      range of the format or below everything in it: values the format could only hold
      as subnormals are flushed to zero, and values too large become infinity. */
  lemma NarrowTruncatesIff(f: Format, v: Extended)
    requires ValidExtended(v) && v.sig >= TOP && v.exp < ONES80
    ensures IsTruncation(f, v, Narrow(f, v)) <==>
            InRange(f, v) || Abs(Value80(v)) < Scale(1 - Bias(f) - FracBits(f))
  {
    hide Scale, Narrow;
    if InRange(f, v) {
      NarrowTruncates(f, v, Least(f));
      forall t | Finite(f, t)
        ensures Abs(ValueIeee(f, t)) <= Abs(Value80(v)) ==> Abs(ValueIeee(f, t)) <= Abs(ValueIeee(f, Narrow(f, v)))
      {
        NarrowTruncates(f, v, t);
      }
    } else if v.exp - BIAS80 + Bias(f) <= 0 {
      FlushTruncatesIff(f, v);
    } else {
      TooLargeIsLarge(f, v);
    }
  }

  lemma ExponentByMagnitude(v: Extended, k: int)
    requires ValidExtended(v) && v.sig >= TOP
    ensures v.exp - BIAS80 >= k <==> Abs(Value80(v)) >= Scale(k)
  {
    var e := v.exp - BIAS80;
    Magnitude80Range(v);
    hide Scale, Value80;
    if e >= k {
      ScaleMonotone(k, e);
    } else {
      ScaleMonotone(e + 1, k);
    }
  }

  /** What a store gives, by magnitude alone: the infinity of the register's sign from
      2^128 or 2^1024 on, the zero of its sign below the least normal value of the format,
      and in between a finite value of its sign. */
  lemma NarrowByMagnitude(f: Format, v: Extended)
    requires ValidExtended(v) && v.sig >= TOP && v.exp < ONES80
    ensures var p, a := Narrow(f, v), Abs(Value80(v));
            && p.negative == v.negative
            && (p == Ieee(v.negative, Ones(f), 0) <==> a >= Scale(if f.Single? then 128 else 1024))
            && (p == Ieee(v.negative, 0, 0) <==> a < Scale(if f.Single? then -126 else -1022))
            && (Finite(f, p) <==> a < Scale(if f.Single? then 128 else 1024))
  {
    ExponentByMagnitude(v, if f.Single? then 128 else 1024);
    ExponentByMagnitude(v, if f.Single? then -126 else -1022);
    CutDown(f, v);
    hide Scale, Value80, Power;
  }

  /** A register that is exactly a single and is stored as zero. */
  lemma SubnormalIsFlushed()
    ensures var v, t := Extended(false, BIAS80 - 127, TOP), Ieee(false, 0, 0x40_0000);
            && Finite(Single, t) && Value80(v) == ValueIeee(Single, t) > 0.0
            && Narrow(Single, v) == Ieee(false, 0, 0) && !IsTruncation(Single, v, Narrow(Single, v))
  {
    var t := Ieee(false, 0, 0x40_0000);
    assert Normalised(Single, 0x80_0000) == (0x80_0000, 0);
    assert Widen(Single, t) == Extended(false, BIAS80 - 127, TOP);
    WidenIsExact(Single, t);
    MagnitudeIeee(Single, t);
    LeastIsLeast(Single, t);
    LeastIsLeast(Single, Ieee(false, 0, 0));
    hide Scale, Widen, Normalised;
  }

  lemma FracSurvives(f: Format, frac: int)
    requires 0 <= frac < Unit(f)
    ensures FracOf(f, TOP + frac * Rest(f)) == frac
    ensures FracOf(f, TOP + Quieted(frac * Rest(f))) == if frac < Unit(f) / 2 then frac + Unit(f) / 2 else frac
  {
    if f.Single? {
      assert (TOP + frac * 0x100_0000_0000) / 0x100_0000_0000 == 0x80_0000 + frac;
      assert (TOP + QUIET + frac * 0x100_0000_0000) / 0x100_0000_0000 == 0xC0_0000 + frac;
    } else {
      assert (TOP + frac * 0x800) / 0x800 == 0x10_0000_0000_0000 + frac;
      assert (TOP + QUIET + frac * 0x800) / 0x800 == 0x18_0000_0000_0000 + frac;
    }
  }

  lemma ShiftedAtLeastOnce(f: Format, frac: int)
    requires 0 < frac < Unit(f)
    ensures Normalised(f, frac).1 >= 1
  {
  }

  /** Widening and then storing gives the operand back: zeros, normals, infinities and
      quiet NaNs unchanged, signalling NaNs made quiet, subnormals flushed to zero. */
  lemma NarrowOfWiden(f: Format, p: Ieee)
    requires ValidIeee(f, p)
    ensures Narrow(f, Widen(f, p)) ==
            if Subnormal(p) then Ieee(p.negative, 0, 0)
            else if IsNaN(f, p) && p.frac < Unit(f) / 2 then p.(frac := p.frac + Unit(f) / 2)
            else p
  {
    FracSurvives(f, p.frac);
    if Subnormal(p) {
      ShiftedAtLeastOnce(f, p.frac);
      NormalisedKeeps(f, p.frac, 0);
      hide Normalised, FracOf, Quieted, Scale, Times;
    } else if p.exp == Ones(f) {
      FracSurvives(f, 0);
      hide Normalised, FracOf, Quieted;
    } else {
      hide Normalised, FracOf, Quieted;
    }
  }

  /** A store turns a NaN into an infinity exactly when all the payload bits the format
      keeps are zero. */
  lemma NaNBecomesInfinity(f: Format, v: Extended)
    requires ValidExtended(v) && v.exp == ONES80 && v.sig > TOP
    ensures Narrow(f, v).exp == Ones(f)
    ensures !IsNaN(f, Narrow(f, v)) <==> v.sig - TOP < Rest(f)
  {
    UnitTimesRest(f);
    hide Power;
    var rest := v.sig - TOP;
    CutDown(f, v);
    assert rest / Rest(f) == FracOf(f, v.sig);
  }

  // -------------------------------------------------------------------- integers

  /** The position of the highest one of `v`. */
  function Msb(v: nat): (k: nat)
    requires v > 0
    ensures Power(k) <= v < 2 * Power(k)
  {
    if v == 1 then 0 else Msb(v / 2) + 1
  }

  lemma {:induction false} MsbBound(v: nat, k: nat)
    requires 0 < v <= Power(k)
    ensures Msb(v) <= k
    decreases k
  {
    if v > 1 {
      MsbBound(v / 2, k - 1);
    }
  }

  function ShiftLeft(v: nat, n: nat): int {
    v * Power(n)
  }

  function WidenInt(n: int): Extended
    requires -TOP <= n < TOP
  {
    if n == 0 then Extended(false, 0, 0)
    else
      var v := if n < 0 then -n else n;
      PowerValues();
      MsbBound(v, 63);
      Extended(n < 0, BIAS80 + Msb(v), ShiftLeft(v, 63 - Msb(v)))
  }

  /** The bounds of a signed integer of `bits` bits. */
  function Limit(bits: nat): int {
    if bits == 32 then 0x8000_0000 else if bits == 16 then 0x8000 else 0x80
  }

  function Clamp(n: int, bits: nat): int {
    if n < -Limit(bits) then -Limit(bits) else if n >= Limit(bits) then Limit(bits) - 1 else n
  }

  /** The store conversion to a signed integer of `bits` bits. */
  function NarrowInt(v: Extended, bits: nat): int
    requires bits <= 64
  {
    var exp := v.exp - BIAS80;
    if exp < 0 then 0
    else if exp >= bits - 1 then (if v.negative then -Limit(bits) else Limit(bits) - 1)
    else
      var n := v.sig / Power(63 - exp);
      if v.negative then -n else n
  }

  function Truncated(x: real): int {
    if x >= 0.0 then x.Floor else -((-x).Floor)
  }

  lemma LimitIsScale(bits: nat)
    requires bits in {8, 16, 32}
    ensures Scale(bits - 1) == Limit(bits) as real
  {
    LimitIsPower(bits);
    ScaleShift(0, bits - 1);
    assert Scale(0) == 1.0;
    hide Scale, Power;
  }

  lemma LimitIsPower(bits: nat)
    requires bits in {8, 16, 32}
    ensures Power(bits - 1) == Limit(bits)
  {
    assert Power(4) == 16 && Power(7) == 128 && Power(8) == 256;
    PowerSum(8, 7);
    PowerSum(16, 15);
  }

  lemma DivisionIsFloor(a: int, b: int)
    requires a >= 0 && b > 0
    ensures (a as real / b as real).Floor == a / b
  {
    var q := a / b;
    assert q * b <= a < q * b + b;
    assert (q * b) as real == q as real * b as real;
    assert q as real * b as real <= a as real < (q as real + 1.0) * b as real;
    FloorBetween(a as real, q, b as real);
  }

  lemma FloorBetween(x: real, q: int, b: real)
    requires b > 0.0 && q as real * b <= x < (q as real + 1.0) * b
    ensures (x / b).Floor == q
  {
    var y := x / b;
    assert y * b == x;
    MulOrder(q as real, y, b);
    MulOrder(y, q as real + 1.0, b);
  }

  lemma TimesInverse(x: real, s: real, p: real)
    requires s * p == 1.0
    ensures Times(x, s) == x / p
  {
    assert (x * s) * p == x * (s * p);
  }

  lemma WholePart(v: Extended)
    requires ValidExtended(v) && 0 <= v.exp - BIAS80 <= 63
    ensures Abs(Value80(v)).Floor == v.sig / Power(63 - (v.exp - BIAS80))
  {
    var k := 63 - (v.exp - BIAS80);
    assert Scale(0) == 1.0;
    hide Scale, Power, Value80, Times;
    Magnitude80(v);
    ScaleShift(-k, k);
    TimesInverse(v.sig as real, Scale(-k), Power(k) as real);
    DivisionIsFloor(v.sig, Power(k));
  }

  /** A store to a signed integer gives the value truncated toward zero and clamped to
      the range of the format. */
  lemma NarrowIntIsClamped(v: Extended, bits: nat)
    requires ValidExtended(v) && v.sig >= TOP && bits in {8, 16, 32}
    ensures NarrowInt(v, bits) == Clamp(Truncated(Value80(v)), bits)
  {
    var e := v.exp - BIAS80;
    assert Scale(0) == 1.0;
    hide Scale, Power, Times;
    Magnitude80Range(v);
    LimitIsScale(bits);
    assert Value80(v) == Signed(v.negative, Abs(Value80(v))) by {
      Magnitude80(v);
    }
    hide Value80;
    if e < 0 {
      ScaleMonotone(e + 1, 0);
    } else if e >= bits - 1 {
      ScaleMonotone(bits - 1, e);
    } else {
      WholePart(v);
      ScaleMonotone(e + 1, bits - 1);
    }
  }

  lemma TopBounds(low: int, m: int, p: int)
    requires low <= m < 2 * low && p > 0
    ensures low * p <= m * p < 2 * (low * p)
  {
  }

  lemma WidenIntShape(n: int)
    requires -TOP <= n < TOP && n != 0
    ensures var v, k := WidenInt(n), Msb(if n < 0 then -n else n);
            k <= 63 && v.negative == (n < 0) && v.exp == BIAS80 + k && TOP <= v.sig < 2 * TOP
  {
    var m := if n < 0 then -n else n;
    PowerValues();
    MsbBound(m, 63);
    var k: int := Msb(m);
    PowerSum(k, 63 - k);
    hide Power, Msb;
    TopBounds(Power(k), m, Power(63 - k));
  }

  lemma ShiftedTimes(m: nat, p: int)
    requires p <= 0
    ensures Times(ShiftLeft(m, -p) as real, Scale(p)) == m as real
  {
    ScaleShift(p, -p);
    assert Scale(0) == 1.0;
    hide Scale, Power;
    var d, s := Power(-p), Scale(p);
    assert (m * d) as real == m as real * d as real;
    assert (m as real * d as real) * s == m as real * (s * d as real);
  }

  lemma WidenIntValue(n: int)
    requires -TOP <= n < TOP && n != 0
    ensures Value80(WidenInt(n)) == n as real
  {
    hide Scale, Power, Msb, Times, ShiftLeft;
    var m := if n < 0 then -n else n;
    PowerValues();
    MsbBound(m, 63);
    ShiftedTimes(m, WidenInt(n).exp - BIAS80 - 63);
  }

  /** Every integer of up to 64 bits widens exactly. */
  lemma WidenIntIsExact(n: int)
    requires -TOP <= n < TOP
    ensures var v := WidenInt(n);
            && ValidExtended(v) && v.exp < ONES80 && Value80(v) == n as real
            && (n != 0 ==> v.sig >= TOP && v.negative == (n < 0))
  {
    if n == 0 {
      ZeroTimes(Scale(-BIAS80 - 63), 1.0);
    } else {
      WidenIntShape(n);
      WidenIntValue(n);
      hide WidenInt, Value80, Msb;
    }
  }

  /** Loading an integer and storing it back gives the integer. */
  lemma NarrowIntOfWiden(n: int, bits: nat)
    requires bits in {8, 16, 32} && -Limit(bits) <= n < Limit(bits)
    ensures NarrowInt(WidenInt(n), bits) == n
  {
    if n != 0 {
      WidenIntIsExact(n);
      NarrowIntIsClamped(WidenInt(n), bits);
      hide WidenInt, NarrowInt, Value80;
    }
  }
}
