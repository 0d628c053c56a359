/** FP16 and FP32 bit patterns, and the two conversions between them.

    Magnitudes are exact integers in units of 2^-149, the smallest positive float. */
module Half {
  import opened Words

  const HALF_INFINITY := 0x7c00
  const FLOAT_INFINITY := 0x7f80_0000

  lemma SmallPowers()
    ensures Pow2(0) == 1 && Pow2(10) == 0x400 && Pow2(13) == 0x2000 && Pow2(14) == 0x4000 && Pow2(25) == 0x200_0000
  {}

  lemma {:induction false} Pow2Sum(a: nat, b: nat)
    ensures Pow2(a + b) == Pow2(a) * Pow2(b)
    decreases b
  {
    if b > 0 {
      Pow2Sum(a, b - 1);
    }
  }

  lemma {:induction false} Pow2Grows(a: nat, b: nat)
    requires a <= b
    ensures Pow2(a) <= Pow2(b)
    decreases b
  {
    if a < b {
      Pow2Grows(a, b - 1);
    }
  }

  // ---- What bit patterns mean ----

  /** Magnitude of a float without its sign bit. */
  function FloatMagnitude(bits: nat): nat
    requires bits < FLOAT_INFINITY
  {
    var e, m := bits / 0x80_0000, bits % 0x80_0000;
    if e == 0 then m else (0x80_0000 + m) * Pow2(e - 1)
  }

  /** The distance from a half to the next larger one: 2^-24 for subnormals, doubling per exponent. */
  function HalfUnit(code: nat): (u: nat)
    ensures u > 0
  {
    var e := code / 0x400;
    Pow2((if e == 0 then 0 else e - 1) + 125)
  }

  /** Magnitude of a half without its sign bit; the code of infinity counts as 2^16. */
  function HalfMagnitude(code: nat): nat {
    (if code < 0x400 then code else 0x400 + code % 0x400) * HalfUnit(code)
  }

  lemma NextHalf(code: nat)
    ensures HalfMagnitude(code + 1) == HalfMagnitude(code) + HalfUnit(code)
  {
    var e, m := code / 0x400, code % 0x400;
    if code + 1 < 0x400 {
    } else if code + 1 == 0x400 {
    } else if m + 1 < 0x400 {
      assert (code + 1) / 0x400 == e && (code + 1) % 0x400 == m + 1;
      assert (0x400 + m + 1) * HalfUnit(code) == (0x400 + m) * HalfUnit(code) + HalfUnit(code);
    } else {
      assert (code + 1) / 0x400 == e + 1 && (code + 1) % 0x400 == 0;
      assert HalfUnit(code + 1) == 2 * HalfUnit(code);
    }
  }

  /** Larger codes are larger numbers. */
  lemma {:induction false} HalvesAreOrdered(a: nat, b: nat)
    requires a < b
    ensures HalfMagnitude(a) < HalfMagnitude(b)
    decreases b
  {
    NextHalf(b - 1);
    if a < b - 1 {
      HalvesAreOrdered(a, b - 1);
    }
  }

  /** The number one, the largest finite half and the smallest of both kinds. */
  lemma KnownMagnitudes()
    ensures HalfMagnitude(0x3c00) == FloatMagnitude(0x3f80_0000) == Pow2(149)
    ensures HalfMagnitude(0x7bff) == FloatMagnitude(0x477f_e000) == 65504 * Pow2(149)
    ensures HalfMagnitude(1) * Pow2(24) == Pow2(149) && FloatMagnitude(1) == 1
  {
    hide Pow2;
    ByteOfPowers();
    Pow2Sum(139, 10);
    Pow2Sum(126, 23);
    Pow2Sum(149, 5);
    Pow2Sum(141, 8);
    Pow2Sum(125, 24);
  }

  lemma ByteOfPowers()
    ensures Pow2(0) == 1 && Pow2(5) == 32 && Pow2(8) == 256 && Pow2(10) == 0x400 && Pow2(23) == 0x80_0000
  {}

  // ---- Rounding ----

  /** `code` is the half that `x` rounds to: `x` is at least the midpoint below it and less than the
      midpoint above it. From the midpoint of the largest finite half and 2^16 on that is infinity. */
  ghost predicate RoundsTo(x: nat, code: nat) {
    && code <= HALF_INFINITY
    && (code > 0 ==> HalfMagnitude(code - 1) + HalfMagnitude(code) <= 2 * x)
    && (code < HALF_INFINITY ==> 2 * x < HalfMagnitude(code) + HalfMagnitude(code + 1))
  }

  function Distance(a: int, b: int): nat {
    if a < b then b - a else a - b
  }

  /** Round to nearest, ties away from zero (section 4.3.1 of IEEE 754-2008): no half is nearer, and
      of two nearest halves the one of larger magnitude is taken. */
  lemma RoundedIsNearest(x: nat, code: nat, other: nat)
    requires RoundsTo(x, code) && other <= HALF_INFINITY
    ensures Distance(x, HalfMagnitude(code)) <= Distance(x, HalfMagnitude(other))
    ensures Distance(x, HalfMagnitude(code)) == Distance(x, HalfMagnitude(other)) ==> other <= code
  {
    hide HalfMagnitude;
    if other < code {
      HalvesAreOrdered(code - 1, code);
      if other < code - 1 {
        HalvesAreOrdered(other, code - 1);
      }
    } else if other > code {
      HalvesAreOrdered(code, code + 1);
      if other > code + 1 {
        HalvesAreOrdered(code + 1, other);
      }
    }
  }

  /** Rounding is monotone; in particular a number rounds to one half only. */
  lemma RoundingIsMonotone(x: nat, y: nat, a: nat, b: nat)
    requires x <= y && RoundsTo(x, a) && RoundsTo(y, b)
    ensures a <= b
  {
    hide HalfMagnitude;
    if a > b {
      if b < a - 1 { HalvesAreOrdered(b, a - 1); }
      if b + 1 < a { HalvesAreOrdered(b + 1, a); }
      assert false;
    }
  }

  /** A half rounds to itself. */
  lemma HalfRoundsToItself(code: nat)
    requires code <= HALF_INFINITY
    ensures RoundsTo(HalfMagnitude(code), code)
  {
    hide HalfMagnitude;
    if code > 0 { HalvesAreOrdered(code - 1, code); }
    HalvesAreOrdered(code, code + 1);
  }

  /** Truncation to `code` and a carry of one from the midpoint on. */
  lemma TruncateAndCarry(x: nat, code: nat, carry: bool)
    requires code < HALF_INFINITY && HalfMagnitude(code) <= x < HalfMagnitude(code + 1)
    requires carry <==> HalfMagnitude(code) + HalfMagnitude(code + 1) <= 2 * x
    ensures RoundsTo(x, if carry then code + 1 else code)
  {
    hide HalfMagnitude;
    if carry {
      HalvesAreOrdered(code + 1, code + 2);
    } else if code > 0 {
      HalvesAreOrdered(code - 1, code);
    }
  }

  /** The relation of `float_to_half_bits`: same sign, magnitude rounded; infinities and NaNs give infinity. */
  ghost predicate IsRounded(bits: U32, h: U16) {
    var magnitude := bits % 0x8000_0000;
    && bits / 0x8000_0000 == h / 0x8000
    && if magnitude < FLOAT_INFINITY then RoundsTo(FloatMagnitude(magnitude), h % 0x8000)
        else h % 0x8000 == HALF_INFINITY
  }

  /** The relation of `half_bits_to_float`: same sign and value; of a NaN also the payload stays. */
  ghost predicate IsWidened(h: U16, bits: U32) {
    var code, magnitude := h % 0x8000, bits % 0x8000_0000;
    && h / 0x8000 == bits / 0x8000_0000
    && if code < HALF_INFINITY then magnitude < FLOAT_INFINITY && FloatMagnitude(magnitude) == HalfMagnitude(code)
       else magnitude == FLOAT_INFINITY + (code - HALF_INFINITY) * 0x2000
  }

  /** Narrowing undoes widening on every half that is not a NaN. */
  lemma NarrowingInvertsWidening(h: U16, bits: U32, back: U16)
    requires h % 0x8000 <= HALF_INFINITY && IsWidened(h, bits) && IsRounded(bits, back)
    ensures back == h
  {
    hide HalfMagnitude, FloatMagnitude, RoundsTo;
    var code := h % 0x8000;
    if code < HALF_INFINITY {
      var x := HalfMagnitude(code);
      HalfRoundsToItself(code);
      RoundingIsMonotone(x, x, code, back % 0x8000);
      RoundingIsMonotone(x, x, back % 0x8000, code);
    }
  }

  /** A NaN comes back as an infinity exactly because narrowing does not look at the payload. */
  lemma NarrowingLosesNaN(h: U16, bits: U32, back: U16)
    requires h % 0x8000 > HALF_INFINITY && IsWidened(h, bits) && IsRounded(bits, back)
    ensures back % 0x8000 == HALF_INFINITY && back != h
  {}

  // ---- The conversions ----

  /** Sign, exponent and mantissa fields of a float; the fields do not overlap, so `|` is `+`. */
  function FloatBits(sign: nat, exponent: nat, mantissa: nat): (bits: U32)
    requires sign < 2 && exponent < 0x100 && mantissa < 0x80_0000
    ensures bits / 0x8000_0000 == sign && bits % 0x8000_0000 == exponent * 0x80_0000 + mantissa
  {
    sign * 0x8000_0000 + exponent * 0x80_0000 + mantissa
  }

  /** A normalised half and the float with the exponent rebased by 112. */
  lemma RebasedMagnitude(exponent: nat, mantissa: nat)
    requires 0 < exponent < 0xff && mantissa < 0x400
    ensures exponent * 0x80_0000 + mantissa * 0x2000 < FLOAT_INFINITY
    ensures FloatMagnitude(exponent * 0x80_0000 + mantissa * 0x2000) == (0x400 + mantissa) * Pow2(exponent + 12)
  {
    hide Pow2, FloatMagnitude;
    ExplicitFloat(exponent, mantissa * 0x2000);
    Pow2Sum(exponent - 1, 13);
    SmallPowers();
    Refactor(mantissa, Pow2(exponent - 1));
  }

  lemma Refactor(mantissa: nat, p: nat)
    ensures (0x80_0000 + mantissa * 0x2000) * p == (0x400 + mantissa) * (p * 0x2000)
  {}

  lemma HalfFields(h: U16)
    ensures h % 0x8000 == h / 0x400 % 0x20 * 0x400 + h % 0x400
  {}

  /** The normalisation loop: shifts the mantissa up to its hidden bit. The exponent is an unsigned
      word that wraps below zero. */
  method Normalise(code: nat) returns (exponent: U32, mantissa: U32, ghost shifts: nat)
    requires 0 < code < 0x400
    ensures 0x400 <= mantissa < 0x800 && shifts <= 10 && mantissa == Scaled(code, shifts)
    ensures exponent == BelowOne(shifts)
  {
    hide Scaled, HiddenBit, BelowOne;
    FirstShift(code);
    exponent, mantissa, shifts := 1, code, 0;
    while !HiddenBit(mantissa)
      invariant 0 < mantissa < 0x800 && shifts <= 10
      invariant mantissa == Scaled(code, shifts) && exponent == BelowOne(shifts)
      decreases 0x800 - mantissa
    {
      HiddenBitIs(mantissa);
      ShiftOnce(code, shifts);
      NextBelow(shifts);
      mantissa := mantissa * 2;
      exponent := (exponent - 1) % 0x1_0000_0000;
      shifts := shifts + 1;
    }
    HiddenBitIs(mantissa);
  }

  predicate HiddenBit(mantissa: U32) {
    mantissa / 0x400 % 2 == 1
  }

  lemma HiddenBitIs(mantissa: U32)
    requires mantissa < 0x800
    ensures HiddenBit(mantissa) <==> mantissa >= 0x400
  {}

  /** The exponent 1 after so many decrements, as an unsigned word. */
  function BelowOne(shifts: nat): U32 {
    (1 - shifts) % 0x1_0000_0000
  }

  lemma NextBelow(shifts: nat)
    ensures BelowOne(shifts + 1) == (BelowOne(shifts) - 1) % 0x1_0000_0000
  {}

  function Scaled(code: nat, shifts: nat): nat {
    code * Pow2(shifts)
  }

  lemma FirstShift(code: nat)
    ensures Scaled(code, 0) == code && BelowOne(0) == 1
  {}

  /** Widening. */
  method HalfBitsToFloat(h: U16) returns (bits: U32)
    ensures IsWidened(h, bits)
  {
    hide WidenedFields;
    HalfFields(h);
    bits := WidenFields(h / 0x8000, h / 0x400 % 0x20, h % 0x400);
    AreWidened(h, bits);
  }

  /** `IsWidened` for the fields of a half. */
  ghost predicate WidenedFields(sign: nat, code: nat, bits: U32) {
    var magnitude := bits % 0x8000_0000;
    && bits / 0x8000_0000 == sign
    && if code < HALF_INFINITY then magnitude < FLOAT_INFINITY && FloatMagnitude(magnitude) == HalfMagnitude(code)
       else magnitude == FLOAT_INFINITY + (code - HALF_INFINITY) * 0x2000
  }

  lemma AreWidened(h: U16, bits: U32)
    requires WidenedFields(h / 0x8000, h % 0x8000, bits)
    ensures IsWidened(h, bits)
  {
    hide FloatMagnitude, HalfMagnitude;
  }

  /** The branches on exponent and mantissa. */
  method WidenFields(sign: nat, e: U32, m: U32) returns (bits: U32)
    requires sign < 2 && e < 0x20 && m < 0x400
    ensures WidenedFields(sign, e * 0x400 + m, bits)
  {
    hide Pow2, HalfMagnitude, FloatMagnitude, BelowOne, FloatBits;
    var exponent: U32, mantissa: U32 := e, m;
    if exponent == 0 {
      if mantissa == 0 {
        bits := FloatBits(sign, 0, 0);
        ZeroMagnitude();
      } else {
        ghost var shifts;
        exponent, mantissa, shifts := Normalise(mantissa);
        mantissa := mantissa % 0x400;
        exponent := (exponent + (127 - 15)) % 0x1_0000_0000;
        Rebased(shifts);
        bits := FloatBits(sign, exponent, mantissa * 0x2000);
        RebasedMagnitude(exponent, mantissa);
        SubnormalMagnitude(m, shifts, mantissa);
      }
    } else if exponent == 31 {
      bits := FloatBits(sign, 0xff, mantissa * 0x2000);
    } else {
      exponent := (exponent + (127 - 15)) % 0x1_0000_0000;
      bits := FloatBits(sign, exponent, mantissa * 0x2000);
      RebasedMagnitude(exponent, mantissa);
      NormalMagnitude(e, mantissa);
    }
  }

  /** One more doubling; below the hidden bit there have been fewer than ten. */
  lemma ShiftOnce(code: nat, shifts: nat)
    requires 0 < code && Scaled(code, shifts) < 0x400
    ensures Scaled(code, shifts + 1) == Scaled(code, shifts) * 2 && shifts < 10
  {
    assert Pow2(shifts + 1) == 2 * Pow2(shifts);
    hide Pow2;
    SmallPowers();
    assert code * Pow2(shifts) >= Pow2(shifts);
    if shifts >= 10 {
      Pow2Grows(10, shifts);
    }
  }

  /** Adding the bias undoes the wrap-around. */
  lemma Rebased(shifts: nat)
    requires shifts <= 10
    ensures (BelowOne(shifts) + 112) % 0x1_0000_0000 == 113 - shifts
  {}

  lemma ZeroMagnitude()
    ensures HalfMagnitude(0) == 0 == FloatMagnitude(0)
  {
    hide Pow2;
  }

  lemma NormalMagnitude(exponent: nat, mantissa: nat)
    requires 1 <= exponent <= 31 && mantissa < 0x400
    ensures HalfMagnitude(exponent * 0x400 + mantissa) == (0x400 + mantissa) * Pow2(exponent + 124)
  {
    hide Pow2;
    var code := exponent * 0x400 + mantissa;
    assert code / 0x400 == exponent && code % 0x400 == mantissa;
  }

  lemma SubnormalMagnitude(code: nat, shifts: nat, mantissa: nat)
    requires 0 < code < 0x400 && shifts <= 10 && 0x400 + mantissa == Scaled(code, shifts)
    ensures (0x400 + mantissa) * Pow2(125 - shifts) == HalfMagnitude(code)
  {
    hide Pow2, HalfMagnitude;
    Pow2Sum(125 - shifts, shifts);
    SubnormalHalf(code);
    Regrouped(code, Pow2(shifts), Pow2(125 - shifts));
  }

  lemma Regrouped(a: nat, b: nat, c: nat)
    ensures a * b * c == a * (c * b)
  {}

  /** `m >> s`. */
  function ShiftRight(m: nat, s: nat): nat {
    if s == 0 then m else ShiftRight(m, s - 1) / 2
  }

  lemma {:induction false} ShiftBounds(m: nat, s: nat)
    ensures ShiftRight(m, s) * Pow2(s) <= m < (ShiftRight(m, s) + 1) * Pow2(s)
  {
    if s > 0 {
      ShiftBounds(m, s - 1);
      var h, p := ShiftRight(m, s - 1), Pow2(s - 1);
      HalveBounds(m, h, p);
      hide Pow2, ShiftRight;
      assert Pow2(s) == 2 * p && ShiftRight(m, s) == h / 2;
    }
  }

  lemma HalveBounds(m: nat, h: nat, p: nat)
    requires h * p <= m < (h + 1) * p
    ensures h / 2 * (2 * p) <= m < (h / 2 + 1) * (2 * p)
  {
    assert h / 2 * (2 * p) == (2 * (h / 2)) * p <= h * p;
    assert (h / 2 + 1) * (2 * p) == (2 * (h / 2) + 2) * p >= (h + 1) * p;
  }

  function HalfBits(sign: nat, code: nat): (h: U16)
    requires sign < 2 && code <= HALF_INFINITY
    ensures h / 0x8000 == sign && h % 0x8000 == code
  {
    sign * 0x8000 + code
  }

  lemma FloatFields(bits: U32)
    ensures bits % 0x8000_0000 == bits / 0x80_0000 % 0x100 * 0x80_0000 + bits % 0x80_0000
    ensures bits / 0x8000_0000 < 2
  {}

  lemma SubnormalHalf(code: nat)
    requires code < 0x400
    ensures HalfUnit(code) == Pow2(125) && HalfMagnitude(code) == code * Pow2(125)
  {
    hide Pow2;
    assert code / 0x400 == 0;
  }

  lemma ExplicitFloat(e: nat, m: nat)
    requires e < 255 && m < 0x80_0000
    ensures e * 0x80_0000 + m < FLOAT_INFINITY
    ensures FloatMagnitude(e * 0x80_0000 + m) == if e == 0 then m else (0x80_0000 + m) * Pow2(e - 1)
  {
    hide Pow2;
    var bits := e * 0x80_0000 + m;
    assert bits / 0x80_0000 == e && bits % 0x80_0000 == m;
  }

  /** Narrowing. */
  method FloatToHalfBits(bits: U32) returns (h: U16)
    ensures IsRounded(bits, h)
  {
    hide RoundsTo, FloatMagnitude, Pow2, ShiftRight;
    var sign := bits / 0x8000_0000;
    var exponent := bits / 0x80_0000 % 0x100 - 127 + 15;
    var mantissa: U32 := bits % 0x80_0000;
    ghost var magnitude := bits % 0x8000_0000;
    FloatFields(bits);
    if exponent <= 0 {
      if exponent < -10 {
        TinyRounds(exponent + 112, mantissa);
        return HalfBits(sign, 0);
      }
      mantissa := mantissa + 0x80_0000;
      var shift := 14 - exponent;
      var halfMantissa := ShiftRight(mantissa, shift);
      SubnormalRounds(magnitude, exponent + 112, mantissa, shift);
      if shift > 0 && ShiftRight(mantissa, shift - 1) % 2 == 1 {
        halfMantissa := halfMantissa + 1;
      }
      return HalfBits(sign, halfMantissa);
    }
    if exponent >= 31 {
      if magnitude < FLOAT_INFINITY {
        HugeRounds(magnitude, exponent + 112, mantissa);
      }
      return HalfBits(sign, HALF_INFINITY);
    }
    var half := exponent * 0x400 + mantissa / 0x2000;
    NormalRounds(magnitude, exponent, mantissa);
    if mantissa / 0x1000 % 2 == 1 {
      half := half + 1;
    }
    return HalfBits(sign, half);
  }

  /** A bfloat16 is the upper half of a float. */
  method BFloat16ToHalfBits(value: U16) returns (h: U16)
    ensures IsRounded(value * 0x1_0000, h)
  {
    h := FloatToHalfBits(value * 0x1_0000);
  }

  lemma TinyRounds(e: nat, m: nat)
    requires e < 102 && m < 0x80_0000
    ensures RoundsTo(FloatMagnitude(e * 0x80_0000 + m), 0)
  {
    hide Pow2, HalfMagnitude, HalfUnit, FloatMagnitude;
    ExplicitFloat(e, m);
    SubnormalHalf(0);
    SubnormalHalf(1);
    var p := 100;
    Pow2Grows(if e > 0 then e - 1 else 0, p);
    Pow2Sum(p, 25);
    SmallPowers();
    if e > 0 {
      Scales(Pow2(e - 1), Pow2(p), 0x80_0000 + m);
      Scales(0x80_0000 + m, 0xff_ffff, Pow2(p));
    }
  }

  /** Dropping all but the quotient `h` by `p` and one bit more, and carrying from that bit. */
  lemma CarryFromDroppedBit(m: nat, h: nat, p: nat, unit: nat, code: nat)
    requires unit > 0 && code < HALF_INFINITY && h * p <= m < (h + 1) * p
    requires HalfUnit(code) == 2 * (p * unit) && HalfMagnitude(code) == h / 2 * (2 * (p * unit))
    ensures RoundsTo(m * unit, code + h % 2)
  {
    hide HalfMagnitude, HalfUnit, RoundsTo;
    NextHalf(code);
    var w, x := p * unit, m * unit;
    ScaleBounds(m, h, p, unit);
    assert h * w == h / 2 * (2 * w) + h % 2 * w by { assert h == h / 2 * 2 + h % 2; }
    TruncateAndCarry(x, code, h % 2 == 1);
  }

  lemma ScaleBounds(m: nat, h: nat, p: nat, unit: nat)
    requires h * p <= m < (h + 1) * p && unit > 0
    ensures h * (p * unit) <= m * unit < h * (p * unit) + p * unit
  {
    assert h * p * unit <= m * unit;
    assert h * p * unit == h * (p * unit);
    assert (h * p + p - m) * unit > 0;
  }

  lemma SubnormalRounds(bits: nat, e: nat, mantissa: nat, shift: nat)
    requires 102 <= e <= 112 && 0x80_0000 <= mantissa < 0x100_0000 && shift == 126 - e
    requires bits == e * 0x80_0000 + (mantissa - 0x80_0000)
    ensures ShiftRight(mantissa, shift) < 0x400
    ensures RoundsTo(FloatMagnitude(bits), ShiftRight(mantissa, shift) + ShiftRight(mantissa, shift - 1) % 2)
  {
    hide Pow2, ShiftRight, HalfMagnitude, HalfUnit, FloatMagnitude, RoundsTo;
    var p, unit, code := Pow2(shift - 1), Pow2(e - 1), ShiftRight(mantissa, shift);
    LastShift(mantissa, shift);
    SmallCode(mantissa, shift);
    ExplicitFloat(e, mantissa - 0x80_0000);
    SubnormalUnits(code, shift, e);
    ShiftBounds(mantissa, shift - 1);
    CarryFromDroppedBit(mantissa, ShiftRight(mantissa, shift - 1), p, unit, code);
  }

  lemma LastShift(m: nat, shift: nat)
    requires shift > 0
    ensures Pow2(shift) == 2 * Pow2(shift - 1) && ShiftRight(m, shift) == ShiftRight(m, shift - 1) / 2
  {}

  lemma SmallCode(mantissa: nat, shift: nat)
    requires mantissa < 0x100_0000 && shift >= 14
    ensures ShiftRight(mantissa, shift) < 0x400
  {
    hide Pow2, ShiftRight;
    ShiftBounds(mantissa, shift);
    Pow2Grows(14, shift);
    SmallPowers();
    SmallQuotient(mantissa, ShiftRight(mantissa, shift), Pow2(shift));
  }

  /** The unit of a subnormal half in terms of the shift and the float's exponent. */
  lemma SubnormalUnits(code: nat, shift: nat, e: nat)
    requires code < 0x400 && shift > 0 && e > 0 && shift + (e - 1) == 125
    ensures var w := 2 * (Pow2(shift - 1) * Pow2(e - 1)); HalfUnit(code) == w && HalfMagnitude(code) == code * w
  {
    LastShift(0, shift);
    hide Pow2, HalfMagnitude, HalfUnit;
    Pow2Sum(shift, e - 1);
    Regroup(Pow2(shift - 1), Pow2(e - 1));
    SubnormalHalf(code);
  }

  lemma Regroup(p: nat, unit: nat)
    ensures 2 * p * unit == 2 * (p * unit)
  {}

  lemma SmallQuotient(m: nat, q: nat, d: nat)
    requires q * d <= m < 0x100_0000 && d >= 0x4000
    ensures q < 0x400
  {
    Scales(0x400, q, d);
  }

  lemma NormalRounds(bits: nat, exponent: nat, m: nat)
    requires 1 <= exponent < 31 && m < 0x80_0000 && bits == (exponent + 112) * 0x80_0000 + m
    ensures RoundsTo(FloatMagnitude(bits), exponent * 0x400 + m / 0x2000 + m / 0x1000 % 2)
  {
    hide Pow2, RoundsTo;
    var unit, h := Pow2(exponent + 111), 0x800 + m / 0x1000;
    ExplicitFloat(exponent + 112, m);
    Pow2Sum(exponent + 111, 13);
    SmallPowers();
    NormalMagnitude(exponent, m / 0x2000);
    var code := exponent * 0x400 + m / 0x2000;
    assert code / 0x400 == exponent;
    hide HalfMagnitude;
    assert h / 2 == 0x400 + m / 0x2000;
    CarryFromDroppedBit(0x80_0000 + m, h, 0x1000, unit, code);
  }

  lemma HugeRounds(bits: nat, e: nat, m: nat)
    requires 143 <= e < 255 && m < 0x80_0000 && bits == e * 0x80_0000 + m
    ensures RoundsTo(FloatMagnitude(bits), HALF_INFINITY)
  {
    hide Pow2, FloatMagnitude, HalfMagnitude;
    var p := 142;
    ExplicitFloat(e, m);
    Pow2Grows(p, e - 1);
    Pow2Sum(p, 13);
    SmallPowers();
    HalvesAreOrdered(HALF_INFINITY - 1, HALF_INFINITY);
    Scales(Pow2(p), Pow2(e - 1), 0x80_0000 + m);
    NormalMagnitude(31, 0);
  }
}
