/** The same conversions on machine words, with the loops that normalise, and the moves
    of whole register lists. */
module FloatMoves {
  import opened Bits
  import opened Fp80
  import opened Powers

  /** A floating-point register: sign and exponent, high and low half of the significand. */
  datatype Register = Register(e: uint16, h: uint32, l: uint32)

  const P32 := 0x1_0000_0000

  function Unpack80(w: Register): (v: Extended)
    ensures ValidExtended(v)
  {
    Extended(w.e >= 0x8000, w.e % 0x8000, w.h * P32 + w.l)
  }

  function UnpackSingle(s: uint32): (p: Ieee)
    ensures ValidIeee(Single, p)
  {
    Ieee(s >= 0x8000_0000, s / 0x80_0000 % 0x100, s % 0x80_0000)
  }

  function UnpackDouble(hi: uint32, lo: uint32): (p: Ieee)
    ensures ValidIeee(Double, p)
  {
    Ieee(hi >= 0x8000_0000, hi / 0x10_0000 % 0x800, hi % 0x10_0000 * P32 + lo)
  }

  /** The integer a word of `bits` bits stands for in two's complement. */
  function SignedOf(x: int, bits: nat): int {
    if x % (2 * Limit(bits)) >= Limit(bits) then x % (2 * Limit(bits)) - 2 * Limit(bits) else x % (2 * Limit(bits))
  }

  function FromParts(sign: int, exp: int, sig: uint64): Register
    requires 0 <= sign < 2 && 0 <= exp < 0x8000
  {
    Register(sign * 0x8000 + exp, sig / P32, sig % P32)
  }

  lemma PartsUnpack(sign: int, exp: int, sig: uint64)
    requires 0 <= sign < 2 && 0 <= exp < 0x8000
    ensures Unpack80(FromParts(sign, exp, sig)) == Extended(sign == 1, exp, sig)
  {
  }

  lemma RegisterUnpacks(sign: int, exp: int, h: uint32)
    requires 0 <= sign < 2 && 0 <= exp < 0x8000
    ensures Unpack80(Register(sign * 0x8000 + exp, h, 0)) == Extended(sign == 1, exp, h * P32)
  {
  }

  // ------------------------------------------------------------------ loads

  lemma NormalisedStep(f: Format, g: int)
    requires 0 < g < 2 * Unit(f)
    ensures g < Unit(f) ==> Normalised(f, g) == (Normalised(f, 2 * g).0, Normalised(f, 2 * g).1 + 1)
    ensures g >= Unit(f) ==> Normalised(f, g) == (g, 0)
  {
  }

  /** The bit a search from the top stands on, below which the number lies. */
  lemma BitStands(v: int, p: int)
    requires 0 <= v < 2 * p
    ensures v / p % 2 == 1 <==> v >= p
  {
    if v < p {
      assert v / p == 0;
    } else {
      assert v / p == 1;
    }
  }

  lemma TopOfField(f: Format, g: int)
    requires 0 <= g < Unit(f)
    ensures HasBit(g, Unit(f) / 2) <==> 2 * g >= Unit(f)
  {
    if f.Single? {
      BitStands(g, 0x40_0000);
    } else {
      BitStands(g, 0x8_0000_0000_0000);
    }
  }

  /** Shift a subnormal fraction until its leading one is in the top bit of the field,
      then once more out of the field. */
  method ShiftUp(f: Format, frac: int) returns (g: int, shift: nat)
    requires 0 < frac < Unit(f)
    ensures (g, shift) == Normalised(f, frac)
    ensures Unit(f) <= g < 2 * Unit(f) && shift <= FracBits(f)
  {
    hide Normalised, HasBit;
    NormalisedKeeps(f, frac, 0);
    g, shift := frac, 0;
    TopOfField(f, g);
    while !HasBit(g, Unit(f) / 2)
      invariant 0 < g < Unit(f) && (HasBit(g, Unit(f) / 2) <==> 2 * g >= Unit(f))
      invariant Normalised(f, frac) == (Normalised(f, g).0, Normalised(f, g).1 + shift)
      decreases Unit(f) - g
    {
      NormalisedStep(f, g);
      g := g * 2;
      shift := shift + 1;
      TopOfField(f, g);
    }
    NormalisedStep(f, g);
    NormalisedStep(f, 2 * g);
    g := g * 2;
    shift := shift + 1;
  }

  method SingleToFp80(s: uint32) returns (w: Register)
    ensures Unpack80(w) == Widen(Single, UnpackSingle(s))
  {
    var sign, exp, frac := s / 0x8000_0000, s / 0x80_0000 % 0x100, s % 0x80_0000;
    assert UnpackSingle(s) == Ieee(sign == 1, exp, frac);
    hide UnpackSingle, Normalised, Unpack80;
    if exp == 0 && frac == 0 {
      RegisterUnpacks(sign, 0, 0);
      return Register(sign * 0x8000, 0, 0);
    }
    if exp == 0xFF {
      if frac == 0 {
        RegisterUnpacks(sign, 0x7FFF, 0x8000_0000);
        return Register(sign * 0x8000 + 0x7FFF, 0x8000_0000, 0);
      }
      RegisterUnpacks(sign, 0x7FFF, 0x8000_0000 + SetBit(frac * 0x100, 0x4000_0000));
      return Register(sign * 0x8000 + 0x7FFF, 0x8000_0000 + SetBit(frac * 0x100, 0x4000_0000), 0);
    }
    if exp == 0 {
      var f, shift := ShiftUp(Single, frac);
      RegisterUnpacks(sign, 16383 - 126 - shift, f * 0x100);
      return Register(sign * 0x8000 + (16383 - 126 - shift), f * 0x100, 0);
    }
    RegisterUnpacks(sign, exp - 127 + 16383, 0x8000_0000 + frac * 0x100);
    return Register(sign * 0x8000 + (exp - 127 + 16383), 0x8000_0000 + frac * 0x100, 0);
  }

  method DoubleToFp80(hi: uint32, lo: uint32) returns (w: Register)
    ensures Unpack80(w) == Widen(Double, UnpackDouble(hi, lo))
  {
    var sign, exp := hi / 0x8000_0000, hi / 0x10_0000 % 0x800;
    var frac := hi % 0x10_0000 * P32 + lo;
    assert UnpackDouble(hi, lo) == Ieee(sign == 1, exp, frac);
    hide UnpackDouble, Normalised, FromParts, Unpack80;
    if exp == 0 && frac == 0 {
      RegisterUnpacks(sign, 0, 0);
      return Register(sign * 0x8000, 0, 0);
    }
    if exp == 0x7FF {
      if frac == 0 {
        RegisterUnpacks(sign, 0x7FFF, 0x8000_0000);
        return Register(sign * 0x8000 + 0x7FFF, 0x8000_0000, 0);
      }
      w := FromParts(sign, 0x7FFF, TOP + SetBit(frac * 0x800, QUIET));
      PartsUnpack(sign, 0x7FFF, TOP + SetBit(frac * 0x800, QUIET));
    } else if exp == 0 {
      var f, shift := ShiftUp(Double, frac);
      w := FromParts(sign, 16383 - 1022 - shift, f * 0x800);
      PartsUnpack(sign, 16383 - 1022 - shift, f * 0x800);
    } else {
      w := FromParts(sign, exp - 1023 + 16383, TOP + frac * 0x800);
      PartsUnpack(sign, exp - 1023 + 16383, TOP + frac * 0x800);
    }
  }

  lemma {:induction false} MsbUnique(v: nat, k: nat)
    requires Power(k) <= v < 2 * Power(k)
    ensures v > 0 && Msb(v) == k
    decreases k
  {
    if k > 0 {
      MsbUnique(v / 2, k - 1);
    }
  }

  /** The highest one is looked for from the top bit down. */
  method HighestOne(v: uint32) returns (msb: nat)
    requires v > 0
    ensures msb == Msb(v) && msb <= 31
  {
    hide Power;
    LimitIsPower(32);
    msb := 31;
    BitStands(v, Power(31));
    while msb > 0 && !HasBit(v, Power(msb))
      invariant msb <= 31 && v < 2 * Power(msb) && (HasBit(v, Power(msb)) <==> v >= Power(msb))
    {
      PowerStep(msb - 1);
      msb := msb - 1;
      BitStands(v, Power(msb));
    }
    PowerZero();
    MsbUnique(v, msb);
  }

  lemma SignedOfLong(val: uint32)
    ensures SignedOf(val, 32) == if val >= 0x8000_0000 then val - P32 else val
  {
  }

  method LongToFp80(val: uint32) returns (w: Register)
    ensures Unpack80(w) == WidenInt(SignedOf(val, 32))
  {
    SignedOfLong(val);
    hide SignedOf, Msb, Power, ShiftLeft;
    if val == 0 {
      return Register(0, 0, 0);
    }
    var sign, v := 0, val;
    if val >= 0x8000_0000 {
      sign, v := 1, P32 - val;
    }
    WidenIntShape(SignedOf(val, 32));
    var msb := HighestOne(v);
    var sig := ShiftLeft(v, 63 - msb);
    PartsUnpack(sign, 16383 + msb, sig);
    hide FromParts, Unpack80;
    w := FromParts(sign, 16383 + msb, sig);
  }

  lemma SignExtended(s: int)
    requires -0x8000 <= s < 0x8000
    ensures SignedOf(s % P32, 32) == s
  {
  }

  lemma SignedInRange(val: int, bits: nat)
    requires bits in {8, 16, 32}
    ensures -Limit(bits) <= SignedOf(val, bits) < Limit(bits)
  {
  }

  /** A word or a byte is sign-extended first. */
  method ShortToFp80(val: uint32, bits: nat) returns (w: Register)
    requires bits in {8, 16}
    ensures Unpack80(w) == WidenInt(SignedOf(val, bits))
  {
    var s := SignedOf(val, bits);
    SignedInRange(val, bits);
    SignExtended(s);
    hide WidenInt, SignedOf;
    w := LongToFp80(s % P32);
  }

  // ----------------------------------------------------------------- stores

  lemma FracOfWords(h: uint32, l: uint32)
    ensures FracOf(Single, h * P32 + l) == h / 0x100 % 0x80_0000
    ensures FracOf(Double, h * P32 + l) == (h * P32 + l) * 2 % (P32 * P32) / 0x1000
  {
    HighPart(h, l);
    LowPart(h * P32 + l);
  }

  lemma HighPart(h: uint32, l: uint32)
    ensures (h * P32 + l) / 0x100_0000_0000 == h / 0x100
  {
  }

  /** Shifting the integer bit out and the tail off, against cutting the tail first. */
  lemma LowPart(sig: nat)
    ensures sig * 2 % (P32 * P32) / 0x1000 == sig / 0x800 % 0x10_0000_0000_0000
  {
    var tail, cut := sig % 0x800, sig / 0x800;
    var low, high := cut % 0x10_0000_0000_0000, cut / 0x10_0000_0000_0000;
    assert sig * 2 == high * (P32 * P32) + (low * 0x1000 + tail * 2);
    Remainder(high, low * 0x1000 + tail * 2);
    assert (low * 0x1000 + tail * 2) / 0x1000 == low;
  }

  lemma Remainder(q: nat, r: nat)
    requires r < P32 * P32
    ensures (q * (P32 * P32) + r) % (P32 * P32) == r
  {
  }

  lemma SingleFields(sign: int, exp: int, frac: int)
    requires 0 <= sign < 2 && 0 <= exp < 0x100 && 0 <= frac < 0x80_0000
    ensures var s := sign * 0x8000_0000 + exp * 0x80_0000 + frac;
            s < P32 && UnpackSingle(s) == Ieee(sign == 1, exp, frac)
  {
  }

  lemma DoubleFields(sign: int, exp: int, high: int, low: uint32)
    requires 0 <= sign < 2 && 0 <= exp < 0x800 && 0 <= high < 0x10_0000
    ensures var hi := sign * 0x8000_0000 + exp * 0x10_0000 + high;
            hi < P32 && UnpackDouble(hi, low) == Ieee(sign == 1, exp, high * P32 + low)
  {
  }

  method StoreSingle(v: Register) returns (s: uint32)
    ensures UnpackSingle(s) == Narrow(Single, Unpack80(v))
  {
    var sign, exp, frac := v.e / 0x8000, v.e % 0x8000 - 16383 + 127, v.h / 0x100 % 0x80_0000;
    FracOfWords(v.h, v.l);
    hide FracOf;
    if v.e % 0x8000 == 0x7FFF {
      exp := 255;
    } else if v.e % 0x8000 == 0 && v.h == 0 && v.l == 0 {
      exp, frac := 0, 0;
    } else if exp <= 0 {
      exp, frac := 0, 0;
    } else if exp >= 255 {
      exp, frac := 255, 0;
    }
    assert Narrow(Single, Unpack80(v)) == Ieee(sign == 1, exp, frac);
    SingleFields(sign, exp, frac);
    hide UnpackSingle, Narrow, Unpack80;
    s := sign * 0x8000_0000 + exp * 0x80_0000 + frac;
  }

  method StoreDouble(v: Register) returns (hi: uint32, lo: uint32)
    ensures UnpackDouble(hi, lo) == Narrow(Double, Unpack80(v))
  {
    var sign, exp := v.e / 0x8000, v.e % 0x8000 - 16383 + 1023;
    var frac := (v.h * P32 + v.l) * 2 % (P32 * P32) / 0x1000;
    FracOfWords(v.h, v.l);
    hide FracOf;
    if v.e % 0x8000 == 0x7FFF {
      exp := 2047;
    } else if v.e % 0x8000 == 0 && v.h == 0 && v.l == 0 {
      exp, frac := 0, 0;
    } else if exp <= 0 {
      exp, frac := 0, 0;
    } else if exp >= 2047 {
      exp, frac := 2047, 0;
    }
    assert Narrow(Double, Unpack80(v)) == Ieee(sign == 1, exp, frac);
    DoubleFields(sign, exp, frac / P32, frac % P32);
    hide UnpackDouble, Narrow, Unpack80;
    hi, lo := sign * 0x8000_0000 + exp * 0x10_0000 + frac / P32, frac % P32;
  }

  lemma LowBitsKeep(n: int, bits: nat)
    requires bits in {8, 16, 32} && -Limit(bits) <= n < Limit(bits)
    ensures 0 <= n % (2 * Limit(bits)) < 2 * Limit(bits) <= P32 && SignedOf(n % (2 * Limit(bits)), bits) == n
  {
    var d := 2 * Limit(bits);
    assert n % d == if n < 0 then n + d else n;
    assert n % d % d == n % d;
  }

  /** What a store to an integer format puts in memory: the low `bits` bits. */
  method StoreInteger(v: Register, bits: nat) returns (x: uint32)
    requires bits in {8, 16, 32}
    ensures x < 2 * Limit(bits) && SignedOf(x, bits) == NarrowInt(Unpack80(v), bits)
  {
    var exp := v.e % 0x8000 - 16383;
    var n := 0;
    if exp >= bits - 1 {
      n := if v.e >= 0x8000 then -Limit(bits) else Limit(bits) - 1;
    } else if exp >= 0 {
      n := (v.h * P32 + v.l) / Power(63 - exp);
      if v.e >= 0x8000 {
        n := -n;
      }
    }
    assert n == NarrowInt(Unpack80(v), bits);
    NarrowIntFits(Unpack80(v), bits);
    LowBitsKeep(n, bits);
    hide NarrowInt, Unpack80, SignedOf;
    x := n % (2 * Limit(bits));
  }

  lemma QuotientBound(x: int, b: int, q: int)
    requires b > 0 && 0 <= x < b * q
    ensures 0 <= x / b < q
  {
    var d := x / b;
    assert d * b <= x;
    if d >= q {
      ProductMonotone(q, d, b);
    }
  }

  /** Whatever is in the register, the integer fits its format. */
  lemma NarrowIntFits(v: Extended, bits: nat)
    requires ValidExtended(v) && bits in {8, 16, 32}
    ensures -Limit(bits) <= NarrowInt(v, bits) < Limit(bits)
  {
    var e := v.exp - BIAS80;
    hide Power;
    if 0 <= e < bits - 1 {
      PowerValues();
      LimitIsPower(bits);
      PowerStep(63);
      PowerSum(63 - e, e + 1);
      PowerMonotone(e + 1, bits - 1);
      QuotientBound(v.sig, Power(63 - e), Power(e + 1));
    }
  }
}
