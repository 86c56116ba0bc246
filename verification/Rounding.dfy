/** Rounding of exact reals to the 64-bit significand of the extended format, as
    gen_golden_vectors.py does it for its reference values. */
module Rounding {
  import opened Powers

  const BIAS := 16383
  const TOP: int := 0x8000_0000_0000_0000        // 2^63
  const EXP_ALL_ONES := 0x7FFF

  datatype Mode = Nearest | TowardZero | Up | Down

  function LogUp(a: real): (e: nat)
    requires a >= 1.0
    ensures Scale(e) <= a < Scale(e + 1)
    decreases a.Floor
  {
    if a < 2.0 then
      assert Scale(0) == 1.0 && Scale(1) == 2.0;
      0
    else
      var e := LogUp(a / 2.0);
      ScaleDoubles(e);
      ScaleDoubles(e + 1);
      e + 1
  }

  function LogDown(a: real): (e: int)
    requires 0.0 < a < 1.0
    ensures Scale(e) <= a < Scale(e + 1)
    decreases (1.0 / a).Floor
  {
    if a >= 0.5 then
      assert Scale(-1) == 0.5 && Scale(0) == 1.0;
      -1
    else
      var e := LogDown(2.0 * a);
      ScaleDoubles(e - 1);
      ScaleDoubles(e);
      e - 1
  }

  /** The largest `e` with 2^e <= a. */
  function FloorLog2(a: real): (e: int)
    requires a > 0.0
    ensures Scale(e) <= a < Scale(e + 1)
  {
    if a >= 1.0 then LogUp(a) else LogDown(a)
  }

  // ------------------------------------------------------------------- rounding

  function RoundTiesEven(v: real): int {
    var base := v.Floor;
    var frac := v - base as real;
    if frac > 0.5 then base + 1
    else if frac < 0.5 then base
    else if base % 2 == 0 then base else base + 1
  }

  function Ceiling(v: real): int {
    -((-v).Floor)
  }

  /** The integer significand for `q`, in [2^63, 2^64] when `q` is in [2^63, 2^64). */
  function Significand(q: real, negative: bool, mode: Mode): int {
    match mode
    case Nearest => RoundTiesEven(q)
    case TowardZero => q.Floor
    case Up => if negative then q.Floor else Ceiling(q)
    case Down => if negative then Ceiling(q) else q.Floor
  }

  /** A sign, a significand and the power of two it stands at. */
  datatype Rounded = Rounded(negative: bool, mant: int, exp: int)

  function Round(x: real, mode: Mode): Rounded
    requires x != 0.0
  {
    var a := if x < 0.0 then -x else x;
    var e := FloorLog2(a);
    var mant := Significand(a / Scale(e) * (TOP as real), x < 0.0, mode);
    if mant == 2 * TOP then Rounded(x < 0.0, TOP, e + 1) else Rounded(x < 0.0, mant, e)
  }

  datatype Pattern = Zero | Infinity(negative: bool) | Number(negative: bool, field: int, mant: int) | Unsupported

  /** fp80_hex for a real argument. */
  function Encode(x: real, mode: Mode): Pattern {
    if x == 0.0 then Zero
    else
      var r := Round(x, mode);
      if r.exp + BIAS <= 0 then Unsupported
      else if r.exp + BIAS >= EXP_ALL_ONES then Infinity(r.negative)
      else Number(r.negative, r.exp + BIAS, r.mant)
  }

  /** The magnitude of a significand at exponent `e`: its last place weighs 2^(e - 63). */
  function Magnitude(mant: int, e: int): real {
    Times(mant as real, Scale(e - 63))
  }

  function Value(r: Rounded): real {
    Signed(r.negative, Magnitude(r.mant, r.exp))
  }

  // ----------------------------------------------------------------- one magnitude

  lemma ScaledAlgebra(a: real, s: real, u: real, t: real)
    requires s > 0.0 && u > 0.0 && t > 0.0 && s == u * t && s <= a < 2.0 * s
    ensures var q := a / s * t; t <= q < 2.0 * t && Times(q, u) == a
  {
    var m := a / s;
    assert m * s == a;
    MulOrder(1.0, m, s);
    MulOrder(m, 2.0, s);
    MulOrder(1.0, m, t);
    MulOrder(m, 2.0, t);
    assert (m * t) * u == m * (u * t);
  }

  /** `a` is `q` units in the last place at exponent `e`. */
  ghost predicate Units(a: real, e: int, q: real) {
    Times(q, Scale(e - 63)) == a && TOP as real <= q < 2.0 * (TOP as real)
  }

  /** The scaled argument is `a` in units of the last place. */
  lemma Scaled(a: real)
    requires a > 0.0
    ensures var e := FloorLog2(a); Units(a, e, a / Scale(e) * (TOP as real))
  {
    hide Scale, Power, FloorLog2, Times;
    var e := FloorLog2(a);
    var s, u, t := Scale(e), Scale(e - 63), TOP as real;
    assert s <= a < 2.0 * s by {
      ScaleDoubles(e);
    }
    assert s == u * t by {
      ScaleShift(e - 63, 63);
      PowerValues();
      assert e - 63 + 63 == e;
    }
    ScaledAlgebra(a, s, u, t);
  }

  /** A normalised significand at any exponent that is at least `a` is at least `a`
      rounded up to exponent `e`. */
  lemma GridAbove(a: real, e: int, q: real, m: int, k: int)
    requires Units(a, e, q) && TOP <= m < 2 * TOP
    ensures Magnitude(Ceiling(q), e) >= a
    ensures Magnitude(m, k) >= a ==> Magnitude(m, k) >= Magnitude(Ceiling(q), e)
  {
    hide Scale, Times;
    var u := Scale(e - 63);
    var c := Ceiling(q);
    assert c <= 2 * TOP && q <= c as real && (m as real >= q ==> m >= c);
    MulOrder(q, c as real, u);
    if k == e {
      MulOrder(q, m as real, u);
      MulOrder(c as real, m as real, u);
    } else if k < e {
      HigherIsAbove(k - 63, e - 63, TOP, TOP);
      MulOrder(m as real, 2.0 * (TOP as real), Scale(k - 63));
      MulOrder(TOP as real, q, u);
    } else {
      HigherIsAbove(e - 63, k - 63, m, TOP);
      MulOrder(c as real, 2.0 * (TOP as real), u);
    }
  }

  // ------------------------------------------------------------ what rounding gives

  /** `x` in units of the last place of its own exponent. */
  function InUnits(x: real): real
    requires x != 0.0
  {
    Abs(x) / Scale(FloorLog2(Abs(x))) * (TOP as real)
  }

  predicate Normalised(r: Rounded) {
    TOP <= r.mant < 2 * TOP
  }

  lemma Carry(e: int)
    ensures Magnitude(2 * TOP, e) == Magnitude(TOP, e + 1)
  {
    ScaleDoubles(e - 63);
    hide Scale;
    var t, u := TOP as real, Scale(e - 63);
    assert Times(2.0 * t, u) == Times(t, 2.0 * u);
  }

  /** The result is normalised even after a carry out, has the sign of `x`, and is worth
      exactly the significand chosen at the exponent of `x`. */
  lemma RoundShape(x: real, mode: Mode)
    requires x != 0.0
    ensures var r, e := Round(x, mode), FloorLog2(Abs(x));
            && Normalised(r) && r.negative == (x < 0.0)
            && Value(r) == Signed(x < 0.0, Magnitude(Significand(InUnits(x), x < 0.0, mode), e))
            && Units(Abs(x), e, InUnits(x))
  {
    hide Scale, FloorLog2, Times;
    Scaled(Abs(x));
    Carry(FloorLog2(Abs(x)));
  }

  lemma SignedMagnitude(y: Rounded)
    requires Normalised(y)
    ensures Magnitude(y.mant, y.exp) > 0.0
  {
    hide Scale;
    MulOrder(0.0, y.mant as real, Scale(y.exp - 63));
  }

  /** Rounding down is the largest value of the format that is not above `x`; rounding up
      the smallest not below. */
  lemma DirectedIsBest(x: real, y: Rounded)
    requires x != 0.0 && Normalised(y)
    ensures Value(Round(x, Down)) <= x && (Value(y) <= x ==> Value(y) <= Value(Round(x, Down)))
    ensures Value(Round(x, Up)) >= x && (Value(y) >= x ==> Value(y) >= Value(Round(x, Up)))
  {
    var a := Abs(x);
    RoundShape(x, Down);
    RoundShape(x, Up);
    SignedMagnitude(y);
    SignedMagnitude(Round(x, Down));
    SignedMagnitude(Round(x, Up));
    GridBelow(a, FloorLog2(a) - 63, InUnits(x), TOP, y.mant, y.exp - 63);
    GridAbove(a, FloorLog2(a), InUnits(x), y.mant, y.exp);
    hide Scale, FloorLog2, Times, Magnitude, Ceiling, InUnits, Round;
  }

  /** Rounding toward zero is rounding down for positive arguments and up for negative. */
  lemma TowardZeroIsDirected(x: real)
    requires x != 0.0
    ensures Round(x, TowardZero) == Round(x, if x > 0.0 then Down else Up)
  {
  }

  /** Round to nearest: within half a unit in the last place, ties to an even significand,
      and at least as close as any other value of the format, or zero. */
  lemma NearestIsBest(x: real, y: Rounded)
    requires x != 0.0 && Normalised(y)
    ensures var r := Round(x, Nearest);
            var half := Scale(FloorLog2(Abs(x)) - 63) / 2.0;
            && Abs(Value(r) - x) <= half
            && (Abs(Value(r) - x) == half ==> r.mant % 2 == 0)
            && Abs(Value(r) - x) <= Abs(Value(y) - x)
            && Abs(Value(r) - x) <= Abs(x)
  {
    var a, e, q := Abs(x), FloorLog2(Abs(x)), InUnits(x);
    var u := Scale(e - 63);
    var m := RoundTiesEven(q);
    RoundShape(x, Nearest);
    SignedMagnitude(y);
    NearestMagnitude(a, e, q, y.mant, y.exp);
    assert m == 2 * TOP ==> Round(x, Nearest).mant == TOP;
    assert m != 2 * TOP ==> Round(x, Nearest).mant == m;
    hide Scale, FloorLog2, Times, Magnitude, RoundTiesEven, InUnits, Round;
  }

  lemma NearestMagnitude(a: real, e: int, q: real, m: int, k: int)
    requires Units(a, e, q) && TOP <= m < 2 * TOP
    ensures var n := RoundTiesEven(q);
            var gap := Abs(Magnitude(n, e) - a);
            && gap <= Scale(e - 63) / 2.0
            && (gap == Scale(e - 63) / 2.0 ==> n % 2 == 0)
            && gap <= Abs(Magnitude(m, k) - a)
            && gap <= a
  {
    hide Scale, Times;
    var n, u := RoundTiesEven(q), Scale(e - 63);
    var low, high := q.Floor as real, Ceiling(q) as real;
    GridBelow(a, e - 63, q, TOP, m, k - 63);
    GridAbove(a, e, q, m, k);
    TimesDiff(n as real, q, u);
    TimesDiff(q, n as real, u);
    TimesDiff(q, low, u);
    TimesDiff(high, q, u);
    TimesHalf(u);
    MulOrder(Abs(n as real - q), 0.5, u);
    MulOrder(Abs(n as real - q), q - low, u);
    MulOrder(Abs(n as real - q), high - q, u);
    MulOrder(q - low, q, u);
    TimesSign(n as real - q, u);
  }

  /** In every mode the error is below one unit in the last place of `x`. */
  lemma WithinOneUnit(x: real, mode: Mode)
    requires x != 0.0
    ensures Abs(Value(Round(x, mode)) - x) < Scale(FloorLog2(Abs(x)) - 63)
  {
    var a, e, q := Abs(x), FloorLog2(Abs(x)), InUnits(x);
    var n, u := Significand(q, x < 0.0, mode), Scale(e - 63);
    RoundShape(x, mode);
    assert -1.0 < n as real - q < 1.0;
    TimesDiff(n as real, q, u);
    MulOrder(n as real - q, 1.0, u);
    MulOrder(-1.0, n as real - q, u);
    assert Times(1.0, u) == u && Times(-1.0, u) == -u;
    hide Scale, FloorLog2, Times, InUnits, Round, Significand;
  }

  /** A value of the format is its own rounding, in every mode. */
  lemma FormatIsFixed(y: Rounded, mode: Mode)
    requires Normalised(y)
    ensures Value(y) != 0.0 && Value(Round(Value(y), mode)) == Value(y)
  {
    SignedMagnitude(y);
    var x := Value(y);
    DirectedIsBest(x, y);
    NearestIsBest(x, y);
    TowardZeroIsDirected(x);
    hide Round, Scale, FloorLog2, Magnitude;
  }

  /** Rounding keeps order, in every mode. */
  lemma RoundingIsMonotone(x: real, y: real, mode: Mode)
    requires x != 0.0 && y != 0.0 && x <= y
    ensures Value(Round(x, mode)) <= Value(Round(y, mode))
  {
    var r, t := Round(x, mode), Round(y, mode);
    RoundShape(x, mode);
    RoundShape(y, mode);
    SignedMagnitude(r);
    SignedMagnitude(t);
    DirectedIsBest(x, t);
    DirectedIsBest(y, r);
    NearestIsBest(x, t);
    NearestIsBest(y, r);
    TowardZeroIsDirected(x);
    TowardZeroIsDirected(y);
    hide Round, Scale, FloorLog2, Magnitude, Units, InUnits, Significand;
  }

  // -------------------------------------------------------------------- packing

  lemma MagnitudeRange(r: Rounded)
    requires Normalised(r)
    ensures Scale(r.exp) <= Magnitude(r.mant, r.exp) < Scale(r.exp + 1)
  {
    var t, u := TOP as real, Scale(r.exp - 63);
    ScaleShift(r.exp - 63, 63);
    PowerValues();
    ScaleDoubles(r.exp);
    hide Scale, Power;
    assert Scale(r.exp) == Times(t, u);
    assert Times(2.0 * t, u) == 2.0 * Times(t, u);
    MulOrder(t, r.mant as real, u);
    MulOrder(r.mant as real, 2.0 * t, u);
  }

  lemma ExponentByMagnitude(r: Rounded, k: int)
    requires Normalised(r)
    ensures r.exp >= k <==> Magnitude(r.mant, r.exp) >= Scale(k)
  {
    hide Scale;
    MagnitudeRange(r);
    if r.exp >= k {
      ScaleMonotone(k, r.exp);
    } else {
      ScaleMonotone(r.exp + 1, k);
    }
  }

  /** Exactly when the generator gives a number, an infinity, or gives up: by the size of
      the rounded magnitude, the same in every mode. A number stands for the rounded value. */
  lemma EncodeClasses(x: real, mode: Mode)
    requires x != 0.0
    ensures var p, v := Encode(x, mode), Value(Round(x, mode));
            && (p.Infinity? <==> Abs(v) >= Scale(16384))
            && (p.Unsupported? <==> Abs(v) < Scale(-16382))
            && (p.Infinity? ==> p.negative == (x < 0.0))
            && (p.Number? ==> 0 < p.field < EXP_ALL_ONES && TOP <= p.mant < 2 * TOP
                              && Signed(p.negative, Magnitude(p.mant, p.field - BIAS)) == v)
            && !p.Zero?
  {
    var r := Round(x, mode);
    RoundShape(x, mode);
    SignedMagnitude(r);
    ExponentByMagnitude(r, 16384);
    ExponentByMagnitude(r, -16382);
    hide Round, Scale, FloorLog2, Magnitude, Units, InUnits, Significand;
  }

  /** The directed modes that bring `x` nearer to zero, or leave it: toward zero itself,
      down for positive and up for negative arguments. */
  predicate Inward(x: real, mode: Mode) {
    mode == TowardZero || (mode == Down && x > 0.0) || (mode == Up && x < 0.0)
  }

  /** Rounding inward also overflows to infinity, from 2^16384 on and never before, although
      the largest finite number would be nearer to the argument. */
  lemma InwardOverflows(x: real, mode: Mode)
    requires x != 0.0 && Inward(x, mode)
    ensures Encode(x, mode).Infinity? <==> Abs(x) >= Scale(16384)
  {
    var largest := Rounded(x < 0.0, TOP, 16384);
    hide Scale, FloorLog2, Magnitude, Units, InUnits, Significand;
    EncodeClasses(x, mode);
    DirectedIsBest(x, largest);
    TowardZeroIsDirected(x);
    ExponentByMagnitude(largest, 16384);
    MagnitudeOfPower(16384);
    RoundShape(x, mode);
    SignedMagnitude(Round(x, mode));
    hide Round, Encode;
  }

  lemma MagnitudeOfPower(e: int)
    ensures Magnitude(TOP, e) == Scale(e)
  {
    ScaleShift(e - 63, 63);
    PowerValues();
    hide Scale, Power;
  }

  const P64: int := 0x1_0000_0000_0000_0000
  const P79: int := 0x8000_0000_0000_0000_0000

  /** The 80 bits of a pattern that has any. */
  function Bits(p: Pattern): int
    requires !p.Unsupported?
  {
    match p
    case Zero => 0
    case Infinity(negative) => (if negative then P79 else 0) + EXP_ALL_ONES * P64 + TOP
    case Number(negative, field, mant) => (if negative then P79 else 0) + field * P64 + mant
  }

  function Unpack(bits: int): Pattern {
    var negative, field, mant := bits / P64 >= 0x8000, bits / P64 % 0x8000, bits % P64;
    if field == 0 && mant == 0 then Zero
    else if field == EXP_ALL_ONES then Infinity(negative)
    else Number(negative, field, mant)
  }

  lemma FieldsApart(top: int, mant: int)
    requires 0 <= mant < P64
    ensures (top * P64 + mant) / P64 == top && (top * P64 + mant) % P64 == mant
  {
  }

  lemma PatternRoundTrip(p: Pattern)
    requires p.Number? ==> 0 < p.field < EXP_ALL_ONES && TOP <= p.mant < 2 * TOP
    requires !p.Unsupported?
    ensures 0 <= Bits(p) < 2 * P79 && Unpack(Bits(p)) == p
  {
    match p
    case Infinity(negative) =>
      FieldsApart((if negative then 0x8000 else 0) + EXP_ALL_ONES, TOP);
    case Number(negative, field, mant) =>
      FieldsApart((if negative then 0x8000 else 0) + field, mant);
    case Zero =>
  }

  /** The fields do not run into each other: the 80 bits give the pattern back. */
  lemma BitsRoundTrip(x: real, mode: Mode)
    ensures var p := Encode(x, mode);
            !p.Unsupported? ==> 0 <= Bits(p) < 2 * P79 && Unpack(Bits(p)) == p
  {
    if x != 0.0 {
      EncodeClasses(x, mode);
    }
    hide Encode, Round, Bits, Unpack, Magnitude;
    var p := Encode(x, mode);
    if !p.Unsupported? {
      PatternRoundTrip(p);
    }
  }
}
