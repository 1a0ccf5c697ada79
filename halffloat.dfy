/** Conversion between the IEEE 754-2008 binary32 and binary16 layouts
    (section 3.6 of IEEE 754-2008), as done by the vector display's half-float
    helpers. A single is modelled by the unsigned value of its 32 bits, a half
    by the unsigned value of its 16 bits; the type punning of the C code only
    reinterpret bits. A mask `& ((1 << k) - 1)` is written `% 2^k`, a shift
    `>> k` is `/ 2^k` and `<< k` is `* 2^k`, and every `|` of the C code joins
    fields that occupy disjoint bits, so it is written as a sum. */
module HalfFloat {

  type Bits32 = x: int | 0 <= x < 0x1_0000_0000
  type Bits16 = x: int | 0 <= x < 0x1_0000

  /** -15 stored as a single-precision biased exponent field (bias 127). */
  const HalfFloatMinBiasedExpAsSingleFpExp: int := 0x3800_0000
  /** Smallest single-precision exponent field that becomes Inf or NaN as a half. */
  const HalfFloatMaxBiasedExpAsSingleFpExp: int := 0x4780_0000
  /** The all-ones single-precision exponent field, 0xFF << 23. */
  const FloatMaxBiasedExp: int := 0x7F80_0000
  /** The all-ones half-precision exponent field, 0x1F << 10. */
  const HalfFloatMaxBiasedExp: int := 0x7C00

  function Pow2(n: nat): (r: nat)
    ensures r >= 1
  {
    if n == 0 then 1 else 2 * Pow2(n - 1)
  }

  lemma Pow2Values()
    ensures Pow2(10) == 0x400 && Pow2(11) == 0x800 && Pow2(13) == 0x2000
    ensures Pow2(23) == 0x80_0000 && Pow2(24) == 0x100_0000
  {
    assert Pow2(10) == 0x400;
    assert Pow2(13) == 0x2000;
    assert Pow2(23) == 0x80_0000;
  }

  // ---------------------------------------------------------------------
  // Field views of the two layouts.

  function SingleSign(x: Bits32): int { x / 0x8000_0000 }
  function SingleExp(x: Bits32): int { x / 0x80_0000 % 0x100 }
  function SingleMantissa(x: Bits32): int { x % 0x80_0000 }
  function HalfSign(h: Bits16): int { h / 0x8000 }
  function HalfExp(h: Bits16): int { h / 0x400 % 0x20 }
  function HalfMantissa(h: Bits16): int { h % 0x400 }

  /** The single with the given sign bit, biased exponent and mantissa fields. */
  function Single(sign: int, exp: int, mantissa: int): Bits32
    requires 0 <= sign < 2 && 0 <= exp < 0x100 && 0 <= mantissa < 0x80_0000
  {
    sign * 0x8000_0000 + exp * 0x80_0000 + mantissa
  }

  /** The half with the given sign bit, biased exponent and mantissa fields. */
  function Half(sign: int, exp: int, mantissa: int): Bits16
    requires 0 <= sign < 2 && 0 <= exp < 0x20 && 0 <= mantissa < 0x400
  {
    sign * 0x8000 + exp * 0x400 + mantissa
  }

  lemma SingleFields(sign: int, exp: int, mantissa: int)
    requires 0 <= sign < 2 && 0 <= exp < 0x100 && 0 <= mantissa < 0x80_0000
    ensures SingleSign(Single(sign, exp, mantissa)) == sign
    ensures SingleExp(Single(sign, exp, mantissa)) == exp
    ensures SingleMantissa(Single(sign, exp, mantissa)) == mantissa
  {
    var x := Single(sign, exp, mantissa);
    assert x / 0x8000_0000 == sign;
    assert x / 0x80_0000 == sign * 0x100 + exp;
    assert x % 0x80_0000 == mantissa;
  }

  lemma HalfFields(sign: int, exp: int, mantissa: int)
    requires 0 <= sign < 2 && 0 <= exp < 0x20 && 0 <= mantissa < 0x400
    ensures HalfSign(Half(sign, exp, mantissa)) == sign
    ensures HalfExp(Half(sign, exp, mantissa)) == exp
    ensures HalfMantissa(Half(sign, exp, mantissa)) == mantissa
  {
    var h := Half(sign, exp, mantissa);
    assert h / 0x8000 == sign;
    assert h / 0x400 == sign * 0x20 + exp;
    assert h % 0x400 == mantissa;
  }

  lemma HalfOfFields(h: Bits16)
    ensures h == Half(HalfSign(h), HalfExp(h), HalfMantissa(h))
  {}

  predicate IsHalfNaN(h: Bits16) { HalfExp(h) == 0x1F && HalfMantissa(h) != 0 }
  predicate IsHalfInf(h: Bits16) { HalfExp(h) == 0x1F && HalfMantissa(h) == 0 }
  predicate IsHalfSubnormal(h: Bits16) { HalfExp(h) == 0 && HalfMantissa(h) != 0 }
  predicate IsSingleNaN(x: Bits32) { SingleExp(x) == 0xFF && SingleMantissa(x) != 0 }

  // ---------------------------------------------------------------------
  // Shifts by a variable count, one bit at a time.

  /** v << k */
  function Shl(v: int, k: nat): int
  {
    if k == 0 then v else 2 * Shl(v, k - 1)
  }

  /** v >> k */
  function Shr(v: nat, k: nat): nat
  {
    if k == 0 then v else Shr(v / 2, k - 1)
  }

  lemma {:induction false} ShlIsProduct(v: int, k: nat)
    ensures Shl(v, k) == v * Pow2(k)
  {
    if k > 0 {
      ShlIsProduct(v, k - 1);
      assert v * Pow2(k) == 2 * (v * Pow2(k - 1));
    }
  }

  lemma {:induction false} ShlAdd(v: int, a: nat, b: nat)
    ensures Shl(Shl(v, a), b) == Shl(v, a + b)
  {
    if b > 0 {
      ShlAdd(v, a, b - 1);
    }
  }

  lemma {:induction false} ShlMonotone(u: int, v: int, k: nat)
    requires u <= v
    ensures Shl(u, k) <= Shl(v, k)
  {
    if k > 0 {
      ShlMonotone(u, v, k - 1);
    }
  }

  lemma {:induction false} ShlPow2(a: nat, k: nat)
    ensures Shl(Pow2(a), k) == Pow2(a + k)
  {
    if k > 0 {
      ShlPow2(a, k - 1);
    }
  }

  lemma {:induction false} Pow2Monotone(a: nat, b: nat)
    requires a <= b
    ensures Pow2(a) <= Pow2(b)
    decreases b
  {
    if a < b {
      Pow2Monotone(a, b - 1);
    }
  }

  /** Shifting out k low bits leaves a value below 2^(n - k). */
  lemma {:induction false} ShrBound(v: nat, n: nat, k: nat)
    requires v < Pow2(n) && k <= n
    ensures Shr(v, k) < Pow2(n - k)
  {
    if k > 0 {
      ShrBound(v / 2, n - 1, k - 1);
    }
  }

  lemma {:induction false} ShrMonotone(u: nat, v: nat, k: nat)
    requires u <= v
    ensures Shr(u, k) <= Shr(v, k)
  {
    if k > 0 {
      ShrMonotone(u / 2, v / 2, k - 1);
    }
  }

  lemma {:induction false} ShrMore(v: nat, k: nat, j: nat)
    requires k <= j
    ensures Shr(v, j) <= Shr(v, k)
  {
    if k > 0 {
      ShrMore(v / 2, k - 1, j - 1);
    } else if j > 0 {
      ShrMonotone(v / 2, v, j - 1);
      ShrMore(v, 0, j - 1);
      ShrSplit(v, j);
    }
  }

  lemma {:induction false} ShrSplit(v: nat, j: nat)
    requires j > 0
    ensures Shr(v, j) == Shr(Shr(v, j - 1), 1)
  {
    if j > 1 {
      ShrSplit(v / 2, j - 1);
    }
  }

  /** (v << k | low) >> k == v when low has fewer than k bits. */
  lemma {:induction false} ShrShl(v: nat, low: nat, k: nat)
    requires low < Pow2(k)
    ensures Shl(v, k) >= 0 && Shr(Shl(v, k) + low, k) == v
  {
    if k > 0 {
      ShrShl(v, low / 2, k - 1);
      assert (Shl(v, k) + low) / 2 == Shl(v, k - 1) + low / 2;
    }
  }

  // ---------------------------------------------------------------------
  // float_to_hfloat

  /** A logical right shift. C leaves a count of 32 or more undefined; this
      model defines the result to be 0. */
  function ShiftRight(v: nat, count: nat): (r: nat)
    ensures count >= 32 ==> r == 0
  {
    if count >= 32 then 0 else Shr(v, count)
  }

  lemma ShiftRightSmall(v: nat, count: nat)
    requires v < 0x100_0000 && count >= 14
    ensures ShiftRight(v, count) < 0x400
  {
    if count < 32 {
      Pow2Values();
      ShrBound(v, 24, 14);
      ShrMore(v, 14, count);
    }
  }

  /** float_to_hfloat, as written: truncates the mantissa and, on the
      subnormal path, drops the single's implicit leading 1. */
  function FloatToHalf(x: Bits32): Bits16
  {
    var sign := x / 0x8000_0000;
    var mantissa := x % 0x80_0000;
    var exp := x / 0x80_0000 % 0x100 * 0x80_0000;
    if exp >= HalfFloatMaxBiasedExpAsSingleFpExp then
      var m := if mantissa != 0 && exp == FloatMaxBiasedExp then 0x7F_FFFF else 0;
      sign * 0x8000 + HalfFloatMaxBiasedExp + m / 0x2000
    else if exp <= HalfFloatMinBiasedExpAsSingleFpExp then
      var e := (HalfFloatMinBiasedExpAsSingleFpExp - exp) / 0x80_0000;
      ShiftRightSmall(mantissa, 14 + e);
      sign * 0x8000 + ShiftRight(mantissa, 14 + e)
    else
      sign * 0x8000 + (exp - HalfFloatMinBiasedExpAsSingleFpExp) / 0x2000 + mantissa / 0x2000
  }

  /** float_to_hfloat with the implicit leading 1 of a normal single put back
      before the subnormal shift; every other branch is the one of FloatToHalf. */
  function FloatToHalfCorrected(x: Bits32): Bits16
  {
    var sign := x / 0x8000_0000;
    var mantissa := x % 0x80_0000;
    var exp := x / 0x80_0000 % 0x100 * 0x80_0000;
    if exp >= HalfFloatMaxBiasedExpAsSingleFpExp then
      var m := if mantissa != 0 && exp == FloatMaxBiasedExp then 0x7F_FFFF else 0;
      sign * 0x8000 + HalfFloatMaxBiasedExp + m / 0x2000
    else if exp <= HalfFloatMinBiasedExpAsSingleFpExp then
      var e := (HalfFloatMinBiasedExpAsSingleFpExp - exp) / 0x80_0000;
      var significand := if exp == 0 then mantissa else mantissa + 0x80_0000;
      ShiftRightSmall(significand, 14 + e);
      sign * 0x8000 + ShiftRight(significand, 14 + e)
    else
      sign * 0x8000 + (exp - HalfFloatMinBiasedExpAsSingleFpExp) / 0x2000 + mantissa / 0x2000
  }

  // ---------------------------------------------------------------------
  // hfloat_to_float

  /** Position of the leading 1 of a non-zero 10-bit half mantissa. */
  function TopBit(m: int): (p: nat)
    requires 0 < m < 0x400
    ensures p <= 9 && Pow2(p) <= m < Pow2(p + 1)
  {
    if m >= 0x200 then 9
    else if m >= 0x100 then 8
    else if m >= 0x80 then 7
    else if m >= 0x40 then 6
    else if m >= 0x20 then 5
    else if m >= 0x10 then 4
    else if m >= 0x8 then 3
    else if m >= 0x4 then 2
    else if m >= 0x2 then 1
    else 0
  }

  /** m << k lies between 2^(p + k) and 2^(p + k + 1) for the leading bit p of m. */
  lemma ShlOfTopBit(m: int, k: nat)
    requires 0 < m < 0x400
    ensures Pow2(TopBit(m) + k) <= Shl(m, k) < Pow2(TopBit(m) + k + 1)
  {
    var p := TopBit(m);
    ShlMonotone(Pow2(p), m, k);
    ShlMonotone(m, Pow2(p + 1) - 1, k);
    ShlPow2(p, k);
    ShlPow2(p + 1, k);
    ShlMonotone(Pow2(p + 1) - 1, Pow2(p + 1), k);
    ShlStrict(Pow2(p + 1) - 1, k);
  }

  lemma {:induction false} ShlStrict(v: int, k: nat)
    ensures Shl(v, k) < Shl(v + 1, k)
  {
    if k > 0 {
      ShlStrict(v, k - 1);
    }
  }

  /** The subnormal half m * 2^-24 as a normal single: the leading 1 at bit p
      gives the exponent p - 24, biased to 103 + p, and the significand
      m << (23 - p), whose leading 1 at bit 23 is left implicit, gives the
      mantissa field. */
  function SubnormalAsSingle(sign: int, m: int): Bits32
    requires 0 <= sign < 2 && 0 < m < 0x400
  {
    var p := TopBit(m);
    ShlOfTopBit(m, 23 - p);
    Pow2Values();
    Single(sign, 103 + p, Shl(m, 23 - p) - 0x80_0000)
  }

  /** Reference definition of hfloat_to_float, by the class of the half:
      NaN and Inf keep an all-ones exponent (a NaN gets an all-ones mantissa),
      zero keeps only its sign, a subnormal becomes the equal normal single,
      and a normal half gets its exponent rebiased by 112 and its mantissa
      widened by 13 zero bits. */
  function HalfToSingle(h: Bits16): Bits32
  {
    var sign := HalfSign(h);
    var e := HalfExp(h);
    var m := HalfMantissa(h);
    if e == 0x1F then Single(sign, 0xFF, if m != 0 then 0x7F_FFFF else 0)
    else if e == 0 then (if m == 0 then Single(sign, 0, 0) else SubnormalAsSingle(sign, m))
    else Single(sign, e + 112, m * 0x2000)
  }

  /** While normalising, bit 10 of m << (k + 1) is clear exactly until the
      leading bit has moved up to it. */
  lemma NormaliseGuard(m: int, k: nat)
    requires 0 < m < 0x400 && k <= 9 - TopBit(m)
    ensures 0 < Shl(m, k + 1) < 0x800
    ensures (Shl(m, k + 1) / 0x400 % 2 == 0) == (k < 9 - TopBit(m))
  {
    var p := TopBit(m);
    ShlOfTopBit(m, k + 1);
    Pow2Monotone(p + k + 1, 10);
    Pow2Monotone(p + k + 2, 11);
    if k < 9 - p {
      Pow2Monotone(p + k + 2, 10);
    }
  }

  /** After 9 - p shifts the exponent field is 103 + p and the masked,
      widened mantissa is the mantissa field of SubnormalAsSingle. */
  lemma NormaliseResult(m: int, k: nat)
    requires 0 < m < 0x400 && k == 9 - TopBit(m)
    ensures HalfFloatMinBiasedExpAsSingleFpExp - k * 0x80_0000 == (103 + TopBit(m)) * 0x80_0000
    ensures Shl(m, k + 1) % 0x400 * 0x2000 == Shl(m, 23 - TopBit(m)) - 0x80_0000
  {
    NormaliseGuard(m, k);
    WidenedMantissa(Shl(m, k + 1), m, k + 1);
  }

  /** A value v = m << j with its leading bit at bit 10, masked to its low 10
      bits and widened by 13, is m << (j + 13) without its leading bit 23. */
  lemma WidenedMantissa(v: int, m: int, j: nat)
    requires 0x400 <= v < 0x800 && v == Shl(m, j)
    ensures v % 0x400 * 0x2000 == Shl(m, j + 13) - 0x80_0000
  {
    ShlIsProduct(v, 13);
    Pow2Values();
    ShlAdd(m, j, 13);
  }

  /** The subnormal branch of hfloat_to_float: shift the mantissa m up until
      its leading bit reaches bit 10, lowering the exponent by one for each
      shift, then drop that bit and widen to 23 bits. The result is the
      exponent and mantissa fields of the equal normal single, in place. */
  method NormaliseSubnormal(m: int) returns (exp: int, mantissa: int)
    requires 0 < m < 0x400
    ensures exp == (103 + TopBit(m)) * 0x80_0000
    ensures mantissa == Shl(m, 23 - TopBit(m)) - 0x80_0000 && 0 <= mantissa < 0x80_0000
  {
    mantissa := m * 2;
    exp := HalfFloatMinBiasedExpAsSingleFpExp;
    ghost var k: nat := 0;
    while mantissa / 0x400 % 2 == 0
      invariant k <= 9 - TopBit(m)
      invariant mantissa == Shl(m, k + 1)
      invariant exp == HalfFloatMinBiasedExpAsSingleFpExp - k * 0x80_0000
      decreases 9 - TopBit(m) - k
    {
      NormaliseGuard(m, k);
      mantissa := mantissa * 2;
      exp := exp - 0x80_0000;
      k := k + 1;
    }
    NormaliseGuard(m, k);
    NormaliseResult(m, k);
    mantissa := mantissa % 0x400;
    mantissa := mantissa * 0x2000;
  }

  /** hfloat_to_float. */
  method HalfToFloat(hf: Bits16) returns (f: Bits32)
    ensures f == HalfToSingle(hf)
  {
    var sign := hf / 0x8000;
    var mantissa := hf % 0x400;
    var exp := hf / 0x400 % 0x20 * 0x400;
    if exp == HalfFloatMaxBiasedExp {
      exp := FloatMaxBiasedExp;
      if mantissa != 0 {
        mantissa := 0x7F_FFFF;
      }
    } else if exp == 0 {
      if mantissa != 0 {
        exp, mantissa := NormaliseSubnormal(mantissa);
      }
    } else {
      mantissa := mantissa * 0x2000;
      exp := exp * 0x2000 + HalfFloatMinBiasedExpAsSingleFpExp;
    }
    f := sign * 0x8000_0000 + exp + mantissa;
  }

  // ---------------------------------------------------------------------
  // Properties of the two conversions.

  /** float_to_hfloat, field by field: NaN becomes the half NaN with an
      all-ones mantissa, any other single whose exponent is at least 143
      (2^16 and above) becomes Inf, a single with exponent between 113 and 142
      keeps its exponent rebiased by -112 and the top 10 bits of its mantissa,
      and a single with exponent 112 or below becomes a subnormal half whose
      mantissa is the single's mantissa field shifted right by 126 - exponent
      (without the implicit leading 1). The sign is always kept. */
  lemma FloatToHalfFields(x: Bits32)
    ensures var s, e, m := SingleSign(x), SingleExp(x), SingleMantissa(x);
      && (IsSingleNaN(x) ==> FloatToHalf(x) == Half(s, 0x1F, 0x3FF))
      && (!IsSingleNaN(x) && e >= 143 ==> FloatToHalf(x) == Half(s, 0x1F, 0))
      && (112 < e < 143 ==> FloatToHalf(x) == Half(s, e - 112, m / 0x2000))
      && (e <= 112 ==> ShiftRight(m, 126 - e) < 0x400 && FloatToHalf(x) == Half(s, 0, ShiftRight(m, 126 - e)))
  {
    var e := SingleExp(x);
    if e <= 112 {
      ShiftRightSmall(SingleMantissa(x), 126 - e);
    }
  }

  /** The corrected conversion differs from float_to_hfloat only for a single
      with exponent 1 to 112, whose implicit leading 1 it shifts in. */
  lemma FloatToHalfCorrectedFields(x: Bits32)
    ensures var s, e, m := SingleSign(x), SingleExp(x), SingleMantissa(x);
      var significand := if e == 0 then m else m + 0x80_0000;
      && (e > 112 ==> FloatToHalfCorrected(x) == FloatToHalf(x))
      && (e <= 112 ==> ShiftRight(significand, 126 - e) < 0x400
                       && FloatToHalfCorrected(x) == Half(s, 0, ShiftRight(significand, 126 - e)))
  {
    var e, m := SingleExp(x), SingleMantissa(x);
    if e <= 112 {
      ShiftRightSmall(if e == 0 then m else m + 0x80_0000, 126 - e);
    }
  }

  /** Every half that is not a NaN comes back unchanged through the corrected
      pair of conversions; a NaN comes back as the NaN with an all-ones
      mantissa and the same sign. */
  lemma RoundTripCorrected(h: Bits16)
    ensures !IsHalfNaN(h) ==> FloatToHalfCorrected(HalfToSingle(h)) == h
    ensures IsHalfNaN(h) ==> FloatToHalfCorrected(HalfToSingle(h)) == Half(HalfSign(h), 0x1F, 0x3FF)
  {
    var e, m := HalfExp(h), HalfMantissa(h);
    if e == 0x1F {
      CorrectedSpecial(h);
    } else if e == 0 && m == 0 {
      CorrectedZero(h);
    } else if e == 0 {
      HalfOfFields(h);
      SubnormalRoundTrip(HalfSign(h), m);
    } else {
      CorrectedNormal(h);
    }
  }

  lemma CorrectedSpecial(h: Bits16)
    requires HalfExp(h) == 0x1F
    ensures HalfMantissa(h) == 0 ==> FloatToHalfCorrected(HalfToSingle(h)) == h
    ensures HalfMantissa(h) != 0 ==> FloatToHalfCorrected(HalfToSingle(h)) == Half(HalfSign(h), 0x1F, 0x3FF)
  {
    HalfOfFields(h);
    SingleFields(HalfSign(h), 0xFF, if HalfMantissa(h) != 0 then 0x7F_FFFF else 0);
  }

  lemma CorrectedZero(h: Bits16)
    requires HalfExp(h) == 0 && HalfMantissa(h) == 0
    ensures FloatToHalfCorrected(HalfToSingle(h)) == h
  {
    HalfOfFields(h);
    SingleFields(HalfSign(h), 0, 0);
  }

  lemma CorrectedNormal(h: Bits16)
    requires 0 < HalfExp(h) < 0x1F
    ensures FloatToHalfCorrected(HalfToSingle(h)) == h
  {
    HalfOfFields(h);
    SingleFields(HalfSign(h), HalfExp(h) + 112, HalfMantissa(h) * 0x2000);
  }

  /** The subnormal single built from m keeps, below its implicit leading 1,
      the bits of m below its leading bit p, moved up by 23 - p. */
  lemma {:induction false} ShlSub(a: int, b: int, k: nat)
    ensures Shl(a - b, k) == Shl(a, k) - Shl(b, k)
  {
    if k > 0 {
      ShlSub(a, b, k - 1);
    }
  }

  lemma SubnormalMantissa(m: int)
    requires 0 < m < 0x400
    ensures Shl(m, 23 - TopBit(m)) - 0x80_0000 == Shl(m - Pow2(TopBit(m)), 23 - TopBit(m))
    ensures m - Pow2(TopBit(m)) >= 0
  {
    var p := TopBit(m);
    ShlSub(m, Pow2(p), 23 - p);
    ShlPow2(p, 23 - p);
    Pow2Values();
  }

  /** Shifting the single's mantissa field back down by 23 - p gives the bits
      of m below its leading bit; with the implicit 1 put back it gives m. */
  lemma SubnormalShiftBack(m: int)
    requires 0 < m < 0x400
    ensures Shl(m, 23 - TopBit(m)) >= 0x80_0000
    ensures ShiftRight(Shl(m, 23 - TopBit(m)) - 0x80_0000, 23 - TopBit(m)) == m - Pow2(TopBit(m))
    ensures ShiftRight(Shl(m, 23 - TopBit(m)), 23 - TopBit(m)) == m
  {
    var p := TopBit(m);
    ShlOfTopBit(m, 23 - p);
    Pow2Values();
    SubnormalMantissa(m);
    ShrShl(m - Pow2(p), 0, 23 - p);
    ShrShl(m, 0, 23 - p);
  }

  /** The fields of the single that a subnormal half becomes. */
  lemma SubnormalAsSingleFields(s: int, m: int)
    requires 0 <= s < 2 && 0 < m < 0x400
    ensures SingleSign(SubnormalAsSingle(s, m)) == s
    ensures SingleExp(SubnormalAsSingle(s, m)) == 103 + TopBit(m)
    ensures SingleMantissa(SubnormalAsSingle(s, m)) == Shl(m, 23 - TopBit(m)) - 0x80_0000
  {
    var p := TopBit(m);
    ShlOfTopBit(m, 23 - p);
    Pow2Values();
    SingleFields(s, 103 + p, Shl(m, 23 - p) - 0x80_0000);
  }

  lemma SubnormalRoundTrip(s: int, m: int)
    requires 0 <= s < 2 && 0 < m < 0x400
    ensures FloatToHalfCorrected(SubnormalAsSingle(s, m)) == Half(s, 0, m)
  {
    SubnormalAsSingleFields(s, m);
    FloatToHalfCorrectedFields(SubnormalAsSingle(s, m));
    SubnormalShiftBack(m);
  }

  lemma SubnormalRoundTripAsWritten(s: int, m: int)
    requires 0 <= s < 2 && 0 < m < 0x400
    ensures FloatToHalf(SubnormalAsSingle(s, m)) == Half(s, 0, m - Pow2(TopBit(m)))
  {
    SubnormalAsSingleFields(s, m);
    FloatToHalfFields(SubnormalAsSingle(s, m));
    SubnormalShiftBack(m);
  }

  /** The finding on float_to_hfloat: a subnormal half converted to a single
      and back loses the leading 1 of its mantissa; 0x0001, the smallest
      positive half, comes back as +0. */
  lemma RoundTripLosesSubnormals(h: Bits16)
    requires IsHalfSubnormal(h)
    ensures FloatToHalf(HalfToSingle(h)) == Half(HalfSign(h), 0, HalfMantissa(h) - Pow2(TopBit(HalfMantissa(h))))
    ensures FloatToHalf(HalfToSingle(h)) != h
  {
    SubnormalRoundTripAsWritten(HalfSign(h), HalfMantissa(h));
    HalfOfFields(h);
  }

  lemma SmallestSubnormalLost()
    ensures HalfToSingle(0x0001) == 0x3380_0000
    ensures FloatToHalf(HalfToSingle(0x0001)) == 0
  {
    RoundTripLosesSubnormals(0x0001);
    assert TopBit(1) == 0;
    Pow2Values();
    assert Shl(1, 23) == 0x80_0000 by { ShlPow2(0, 23); }
  }

  /** For zero, Inf and normal halves the round trip of the code as written
      returns the half unchanged, and a NaN comes back as the NaN with an
      all-ones mantissa and the same sign; only subnormals are lost. */
  lemma RoundTripAsWritten(h: Bits16)
    requires !IsHalfSubnormal(h)
    ensures !IsHalfNaN(h) ==> FloatToHalf(HalfToSingle(h)) == h
    ensures IsHalfNaN(h) ==> FloatToHalf(HalfToSingle(h)) == Half(HalfSign(h), 0x1F, 0x3FF)
  {
    var e := HalfExp(h);
    if e == 0x1F {
      AsWrittenSpecial(h);
    } else if e == 0 {
      AsWrittenZero(h);
    } else {
      AsWrittenNormal(h);
    }
  }

  lemma AsWrittenSpecial(h: Bits16)
    requires HalfExp(h) == 0x1F
    ensures HalfMantissa(h) == 0 ==> FloatToHalf(HalfToSingle(h)) == h
    ensures HalfMantissa(h) != 0 ==> FloatToHalf(HalfToSingle(h)) == Half(HalfSign(h), 0x1F, 0x3FF)
  {
    HalfOfFields(h);
    SingleFields(HalfSign(h), 0xFF, if HalfMantissa(h) != 0 then 0x7F_FFFF else 0);
  }

  lemma AsWrittenZero(h: Bits16)
    requires HalfExp(h) == 0 && HalfMantissa(h) == 0
    ensures FloatToHalf(HalfToSingle(h)) == h
  {
    HalfOfFields(h);
    SingleFields(HalfSign(h), 0, 0);
  }

  lemma AsWrittenNormal(h: Bits16)
    requires 0 < HalfExp(h) < 0x1F
    ensures FloatToHalf(HalfToSingle(h)) == h
  {
    HalfOfFields(h);
    SingleFields(HalfSign(h), HalfExp(h) + 112, HalfMantissa(h) * 0x2000);
  }

  /** A single that a normal half represents exactly (exponent 113 to 142,
      low 13 mantissa bits clear) comes back unchanged through
      float_to_hfloat and hfloat_to_float. */
  lemma RoundTripOfRepresentable(x: Bits32)
    requires 112 < SingleExp(x) < 143 && SingleMantissa(x) % 0x2000 == 0
    ensures HalfToSingle(FloatToHalf(x)) == x
  {
    var s, e, m := SingleSign(x), SingleExp(x), SingleMantissa(x);
    FloatToHalfFields(x);
    HalfFields(s, e - 112, m / 0x2000);
  }

  /** hfloat_to_float keeps the sign and maps NaN to NaN and Inf to Inf, both
      ways. */
  lemma HalfToSingleClasses(h: Bits16)
    ensures SingleSign(HalfToSingle(h)) == HalfSign(h)
    ensures IsSingleNaN(HalfToSingle(h)) <==> IsHalfNaN(h)
    ensures SingleExp(HalfToSingle(h)) == 0xFF <==> HalfExp(h) == 0x1F
  {
    var s, e, m := HalfSign(h), HalfExp(h), HalfMantissa(h);
    if e == 0x1F {
      SingleFields(s, 0xFF, if m != 0 then 0x7F_FFFF else 0);
    } else if e == 0 {
      if m == 0 {
        SingleFields(s, 0, 0);
      } else {
        SubnormalAsSingleFields(s, m);
      }
    } else {
      SingleFields(s, e + 112, m * 0x2000);
    }
  }

  // ---------------------------------------------------------------------
  // Values. A finite half is a whole number of units of 2^-24, its smallest
  // subnormal; a finite single is a whole number of units of 2^-149.

  function HalfUnits(h: Bits16): nat
  {
    if HalfExp(h) == 0 then HalfMantissa(h)
    else (0x400 + HalfMantissa(h)) * Pow2(HalfExp(h) - 1)
  }

  function SingleUnits(x: Bits32): nat
  {
    if SingleExp(x) == 0 then SingleMantissa(x)
    else (0x80_0000 + SingleMantissa(x)) * Pow2(SingleExp(x) - 1)
  }

  lemma {:induction false} Pow2Add(a: nat, b: nat)
    ensures Pow2(a) * Pow2(b) == Pow2(a + b)
  {
    ShlPow2(a, b);
    ShlIsProduct(Pow2(a), b);
  }

  lemma Associate(x: int, a: int, b: int)
    ensures x * a * b == x * (a * b)
  {}

  lemma Widen(m: int, a: int)
    ensures (0x80_0000 + m * 0x2000) * a == (0x400 + m) * (0x2000 * a)
  {}

  /** (m << j) * 2^q == m * 2^(j + q) */
  lemma ShlTimesPow2(m: int, j: nat, q: nat)
    ensures Shl(m, j) * Pow2(q) == m * Pow2(j + q)
  {
    ShlIsProduct(m, j);
    Pow2Add(j, q);
    Associate(m, Pow2(j), Pow2(q));
  }

  /** (2^23 + m * 2^13) * 2^(e + 111) == (2^10 + m) * 2^(e - 1) * 2^125 */
  lemma RebiasNormal(m: int, e: nat)
    requires e >= 1
    ensures (0x80_0000 + m * 0x2000) * Pow2(e + 111) == (0x400 + m) * Pow2(e - 1) * Pow2(125)
  {
    Pow2Values();
    Pow2Add(13, e + 111);
    Pow2Add(e - 1, 125);
    Widen(m, Pow2(e + 111));
    Associate(0x400 + m, Pow2(e - 1), Pow2(125));
  }

  lemma SubnormalExact(s: int, m: int)
    requires 0 <= s < 2 && 0 < m < 0x400
    ensures SingleUnits(SubnormalAsSingle(s, m)) == m * Pow2(125)
  {
    var p := TopBit(m);
    SubnormalAsSingleFields(s, m);
    ShlTimesPow2(m, 23 - p, 102 + p);
  }

  lemma NormalExact(s: int, e: int, m: int)
    requires 0 <= s < 2 && 0 < e < 0x1F && 0 <= m < 0x400
    ensures SingleUnits(Single(s, e + 112, m * 0x2000)) == (0x400 + m) * Pow2(e - 1) * Pow2(125)
  {
    SingleFields(s, e + 112, m * 0x2000);
    RebiasNormal(m, e);
  }

  /** hfloat_to_float is exact: the single it returns for a finite half has
      the same magnitude (2^125 units of 2^-149 are one unit of 2^-24). */
  lemma HalfToSingleExact(h: Bits16)
    requires HalfExp(h) != 0x1F
    ensures SingleUnits(HalfToSingle(h)) == HalfUnits(h) * Pow2(125)
  {
    var s, e, m := HalfSign(h), HalfExp(h), HalfMantissa(h);
    if e == 0 {
      if m == 0 {
        SingleFields(s, 0, 0);
      } else {
        SubnormalExact(s, m);
      }
    } else {
      NormalExact(s, e, m);
    }
  }
}
