/**
 The conversion of a float to an integer type by bit masks and a magic sum, and what it must be: rounded to the nearest
 integer, ties to even, saturated to the type's range, and 0 for NaN (sections 4.3.1 and 5.8 of IEEE 754-2019).
 */
module SaturatingCast {
  import opened Basics
  import opened Bits
  import opened FloatFormat

  /** What the conversion of a value to the integers from `lo` to `hi` is. */
  function Saturated(fmt: Format, value: Value, lo: int, hi: int): int
    requires fmt.Valid()
  {
    match value
    case NotANumber => 0
    case Infinite(negative) => if negative then lo else hi
    case Exact(units) => Clamp(RoundHalfEven(units, fmt.One()), lo, hi)
  }

  // ---------------------------------------------------------------- patterns as the code reads them

  function SignMask(fmt: Format): int { -fmt.Signs() }

  function MagnitudeMask(fmt: Format): int { fmt.Signs() - 1 }

  function FirstNaN(fmt: Format): int { fmt.LastExponent() * fmt.Fractions() + 1 }

  predicate IsNaN(fmt: Format, bits: int) { And(bits, MagnitudeMask(fmt)) >= FirstNaN(fmt) }

  /** The number of bits but one. */
  function SignShift(fmt: Format): nat { fmt.fraction + fmt.biasBits + 1 }

  /** All ones where `x` is negative, and no bit where it is not. */
  function NegativeMask(fmt: Format, x: int): int { Shr(x, SignShift(fmt)) }

  /** The pattern with the bits of a NaN cleared. */
  function WithoutNaN(fmt: Format, bits: int): int {
    And(bits, NegativeMask(fmt, And(bits, MagnitudeMask(fmt)) - FirstNaN(fmt)))
  }

  /** The place of a pattern on the line of numbers, infinities past all others. */
  function Order(fmt: Format, bits: int): int
    requires IsPattern(fmt, bits)
  {
    Signed(bits, Magnitude(fmt, WithoutSign(fmt, bits)))
  }

  /** The comparison of the machine: nothing is less than a NaN, nor a NaN less than anything. */
  predicate Less(fmt: Format, a: int, b: int)
    requires IsPattern(fmt, a) && IsPattern(fmt, b)
  {
    !IsNaN(fmt, a) && !IsNaN(fmt, b) && Order(fmt, a) < Order(fmt, b)
  }

  function Larger(fmt: Format, a: int, b: int): (r: int)
    requires IsPattern(fmt, a) && IsPattern(fmt, b)
    ensures IsPattern(fmt, r)
  {
    if Less(fmt, a, b) then b else a
  }

  function Smaller(fmt: Format, a: int, b: int): (r: int)
    requires IsPattern(fmt, a) && IsPattern(fmt, b)
    ensures IsPattern(fmt, r)
  {
    if Less(fmt, b, a) then b else a
  }

  lemma SignsSplit(fmt: Format)
    ensures fmt.Signs() == (fmt.LastExponent() + 1) * fmt.Fractions()
    ensures fmt.Signs() >= 2
  {
    Pow2Adds(fmt.biasBits + 1, fmt.fraction);
    assert (fmt.biasBits + 1) + fmt.fraction == fmt.fraction + fmt.biasBits + 1;
  }

  lemma MasksSign(fmt: Format, bits: int)
    requires IsPattern(fmt, bits)
    ensures And(bits, MagnitudeMask(fmt)) == WithoutSign(fmt, bits)
  {
    AndOnes(bits, SignShift(fmt));
    DividesAs(bits, fmt.Signs(), if bits < 0 then -1 else 0, WithoutSign(fmt, bits));
  }

  lemma MaskOfSign(fmt: Format, x: int)
    requires -fmt.Signs() <= x < fmt.Signs()
    ensures NegativeMask(fmt, x) == if x < 0 then -1 else 0
  {
    DividesAs(x, fmt.Signs(), if x < 0 then -1 else 0, if x < 0 then x + fmt.Signs() else x);
  }

  /** The bit test is true of the NaNs only. */
  lemma IsNaNIsExact(fmt: Format, bits: int)
    requires IsPattern(fmt, bits)
    ensures IsNaN(fmt, bits) <==> Decode(fmt, bits) == NotANumber
  {
    MasksSign(fmt, bits);
  }

  /** Clearing a NaN leaves zero, and every other pattern as it is. No difference on the way leaves the integer type. */
  lemma NaNIsCleared(fmt: Format, bits: int)
    requires fmt.Valid() && IsPattern(fmt, bits)
    ensures WithoutNaN(fmt, bits) == if Decode(fmt, bits) == NotANumber then 0 else bits
    ensures IsPattern(fmt, And(bits, MagnitudeMask(fmt)) - FirstNaN(fmt)) && IsPattern(fmt, WithoutNaN(fmt, bits))
  {
    SignsSplit(fmt);
    MasksSign(fmt, bits);
    assert (fmt.LastExponent() + 1) * fmt.Fractions() == FirstNaN(fmt) - 1 + fmt.Fractions();
    assert FirstNaN(fmt) >= 1 by { ProductGrows(0, fmt.LastExponent(), fmt.Fractions()); }
    MaskOfSign(fmt, WithoutSign(fmt, bits) - FirstNaN(fmt));
    AndZero(bits);
    AndAllOnes(bits);
  }

  // ---------------------------------------------------------------- whole numbers as patterns

  /** The digits of a whole number, moved up to fill the format. */
  lemma WholeInParts(fmt: Format, n: nat) returns (m: int, q: nat)
    requires fmt.Valid() && 1 <= n <= Pow2(fmt.fraction + 1)
    ensures fmt.Fractions() <= m < 2 * fmt.Fractions() && n * fmt.One() == m * Pow2(q)
    ensures q + 2 <= fmt.LastExponent()
  {
    hide BitLength;
    if n == Pow2(fmt.fraction + 1) {
      m, q := fmt.Fractions(), fmt.OneDigits() + 1;
      Regrouped(m, 2, fmt.One());
      return;
    }
    LengthBounds(n);
    var length := BitLength(n);
    if length > fmt.fraction + 1 {
      Pow2Grows(fmt.fraction + 1, length - 1);
    }
    var up: nat := fmt.fraction + 1 - length;
    q := fmt.OneDigits() - up;
    m := n * Pow2(up);
    Normalized(n, up, fmt.fraction, m);
    Pow2Adds(up, q);
    Regrouped(n, Pow2(up), Pow2(q));
  }

  lemma Normalized(n: nat, up: nat, fraction: nat, m: int)
    requires n >= 1 && BitLength(n) + up == fraction + 1 && m == n * Pow2(up)
    ensures Pow2(fraction) <= m < 2 * Pow2(fraction)
  {
    LengthScales(n, up);
    LengthBounds(m);
  }

  lemma Regrouped(a: int, b: int, c: int)
    ensures a * (b * c) == (a * b) * c
  {
  }

  lemma BelowInfinity(fmt: Format, m: int, q: nat, pattern: int)
    requires fmt.Fractions() <= m < 2 * fmt.Fractions() && q + 2 <= fmt.LastExponent()
    requires pattern == (q + 1) * fmt.Fractions() + (m - fmt.Fractions())
    ensures 0 < pattern < fmt.LastExponent() * fmt.Fractions() < fmt.Signs()
  {
    var f := fmt.Fractions();
    SignsSplit(fmt);
    assert (q + 1) * f == q * f + f && (q + 2) * f == q * f + 2 * f;
    assert (fmt.LastExponent() + 1) * f == fmt.LastExponent() * f + f;
    ProductGrows(q + 2, fmt.LastExponent(), f);
    ProductGrows(0, q, f);
  }

  /** A number the format can hold has a pattern, and that stands for it. */
  lemma NumberIsEncoded(fmt: Format, m: int, q: nat, units: int)
    requires fmt.Fractions() <= m < 2 * fmt.Fractions() && q + 2 <= fmt.LastExponent() && units == m * Pow2(q)
    ensures units > 0 && PatternOf(fmt, units) == (q + 1) * fmt.Fractions() + (m - fmt.Fractions())
    ensures Encode(fmt, units) == PatternOf(fmt, units) && Encode(fmt, -units) == PatternOf(fmt, units) - fmt.Signs()
    ensures StandsFor(fmt, Encode(fmt, units), units) && StandsFor(fmt, Encode(fmt, -units), -units)
  {
    hide Magnitude, PatternOf, BitLength, Pow2;
    PatternIs(fmt, m, q, units);
    var pattern := PatternOf(fmt, units);
    NormalPattern(fmt, m, q, pattern);
    BelowInfinity(fmt, m, q, pattern);
  }

  /** The pattern of a finite number. */
  ghost predicate StandsFor(fmt: Format, bits: int, units: int) {
    IsPattern(fmt, bits) && Decode(fmt, bits) == Exact(units) && Order(fmt, bits) == units
  }

  /** A whole number of the format's digits has a pattern, and that stands for it. */
  lemma WholeIsEncoded(fmt: Format, n: int)
    requires fmt.Valid() && -Pow2(fmt.fraction + 1) <= n <= Pow2(fmt.fraction + 1)
    ensures StandsFor(fmt, Encode(fmt, n * fmt.One()), n * fmt.One())
    ensures RoundToFormat(fmt, n * fmt.One()) == n * fmt.One()
  {
    hide Magnitude, PatternOf, Pow2, StandsFor, Encode, RoundToFormat;
    if n == 0 {
      ZeroIsEncoded(fmt);
    } else {
      var size: int := if n < 0 then -n else n;
      var m, q := WholeInParts(fmt, size);
      NumberIsEncoded(fmt, m, q, size * fmt.One());
      RoundOfExact(fmt, m, q, size * fmt.One());
      RoundOfNegative(fmt, size * fmt.One());
      assert n < 0 ==> n * fmt.One() == -(size * fmt.One());
    }
  }

  lemma ZeroIsEncoded(fmt: Format)
    requires fmt.Valid()
    ensures Encode(fmt, 0) == 0 && StandsFor(fmt, 0, 0) && RoundToFormat(fmt, 0) == 0
  {
  }

  /** An infinity lies past every number. */
  lemma InfinityIsPast(fmt: Format, infinity: int, bits: int)
    requires IsPattern(fmt, infinity) && Decode(fmt, infinity).Infinite?
    requires IsPattern(fmt, bits) && Decode(fmt, bits).Exact?
    ensures if infinity < 0 then Order(fmt, infinity) < Order(fmt, bits) else Order(fmt, bits) < Order(fmt, infinity)
  {
    hide Magnitude;
    var p := WithoutSign(fmt, bits);
    MagnitudeGrows(fmt, p, WithoutSign(fmt, infinity));
    MagnitudeIsPositive(fmt, p);
  }

  lemma MagnitudeIsPositive(fmt: Format, pattern: nat)
    ensures Magnitude(fmt, pattern) >= 0
  {
  }

  // ---------------------------------------------------------------- clamping

  /** The larger of the value and the lowest, then the smaller of that and the highest. */
  function Clamped(fmt: Format, bits: int, lowest: int, highest: int): (c: int)
    requires IsPattern(fmt, bits) && IsPattern(fmt, lowest) && IsPattern(fmt, highest)
    ensures IsPattern(fmt, c)
  {
    Smaller(fmt, Larger(fmt, bits, lowest), highest)
  }

  lemma LargerOrder(fmt: Format, a: int, b: int)
    requires IsPattern(fmt, a) && IsPattern(fmt, b) && !IsNaN(fmt, a) && !IsNaN(fmt, b)
    ensures Order(fmt, Larger(fmt, a, b)) == Max(Order(fmt, a), Order(fmt, b)) && !IsNaN(fmt, Larger(fmt, a, b))
    ensures Order(fmt, Smaller(fmt, a, b)) == Min(Order(fmt, a), Order(fmt, b)) && !IsNaN(fmt, Smaller(fmt, a, b))
  {
    hide Order, IsNaN;
  }

  lemma OrderOfNumber(fmt: Format, bits: int)
    requires IsPattern(fmt, bits) && Decode(fmt, bits).Exact?
    ensures StandsFor(fmt, bits, Order(fmt, bits))
  {
  }

  /** Clamping a pattern between two numbers clamps what it stands for, infinities included, and leaves a number. */
  lemma ClampOfPattern(fmt: Format, bits: int, lowest: int, highest: int, lo: int, hi: int)
    requires IsPattern(fmt, bits) && Decode(fmt, bits) != NotANumber
    requires StandsFor(fmt, lowest, lo) && StandsFor(fmt, highest, hi) && lo <= hi
    ensures StandsFor(fmt, Clamped(fmt, bits, lowest, highest), Clamp(Order(fmt, bits), lo, hi))
  {
    hide Order, Decode, IsNaN, Pow2, Larger, Smaller, Less;
    IsNaNIsExact(fmt, bits);
    IsNaNIsExact(fmt, lowest);
    IsNaNIsExact(fmt, highest);
    var raised := Larger(fmt, bits, lowest);
    LargerOrder(fmt, bits, lowest);
    LargerOrder(fmt, raised, highest);
    var c := Smaller(fmt, raised, highest);
    IsNaNIsExact(fmt, c);
    if Decode(fmt, c).Infinite? {
      InfinityIsPast(fmt, c, lowest);
      InfinityIsPast(fmt, c, highest);
      assert false;
    }
    OrderOfNumber(fmt, c);
  }

  // ---------------------------------------------------------------- the magic sum

  /** One and a half times the first power of two from which on every number is whole. */
  function Magic(fmt: Format): int
    requires fmt.fraction >= 1
  {
    3 * Pow2(fmt.fraction - 1)
  }

  function MagicBits(fmt: Format): (bits: int)
    requires fmt.Valid()
    ensures IsPattern(fmt, bits) && Decode(fmt, bits) == Exact(Magic(fmt) * fmt.One())
  {
    MagicFits(fmt);
    WholeIsEncoded(fmt, Magic(fmt));
    assert StandsFor(fmt, Encode(fmt, Magic(fmt) * fmt.One()), Magic(fmt) * fmt.One());
    Encode(fmt, Magic(fmt) * fmt.One())
  }

  lemma MagicFits(fmt: Format)
    requires fmt.Valid()
    ensures fmt.Fractions() == 2 * Pow2(fmt.fraction - 1) && Pow2(fmt.fraction + 1) == 4 * Pow2(fmt.fraction - 1)
    ensures Pow2(fmt.fraction - 1) % 2 == 0
  {
  }

  /** An integer type whose values are a quarter of the format's whole numbers or fewer. */
  predicate FitsRange(fmt: Format, lo: int, hi: int)
    requires fmt.Valid()
  {
    -Pow2(fmt.fraction - 1) <= lo <= 0 <= hi < Pow2(fmt.fraction - 1)
  }

  /** The value with a NaN cleared and clamped to the range. */
  function Bounded(fmt: Format, raw: int, lo: int, hi: int): (c: int)
    requires fmt.Valid() && IsPattern(fmt, raw) && FitsRange(fmt, lo, hi)
    ensures IsPattern(fmt, c) && Decode(fmt, c).Exact?
  {
    BoundedValue(fmt, raw, lo, hi);
    Clamped(fmt, WithoutNaN(fmt, raw), Encode(fmt, lo * fmt.One()), Encode(fmt, hi * fmt.One()))
  }

  lemma BoundedValue(fmt: Format, raw: int, lo: int, hi: int)
    requires fmt.Valid() && IsPattern(fmt, raw) && FitsRange(fmt, lo, hi)
    ensures IsPattern(fmt, WithoutNaN(fmt, raw))
    ensures IsPattern(fmt, Encode(fmt, lo * fmt.One())) && IsPattern(fmt, Encode(fmt, hi * fmt.One()))
    ensures var bits := WithoutNaN(fmt, raw);
      StandsFor(fmt, Clamped(fmt, bits, Encode(fmt, lo * fmt.One()), Encode(fmt, hi * fmt.One())),
                Clamp(Order(fmt, bits), lo * fmt.One(), hi * fmt.One()))
  {
    hide Decode, Clamped, Order, WithoutNaN, Encode, Pow2;
    MagicFits(fmt);
    NotNaN(fmt, raw);
    WholeIsEncoded(fmt, lo);
    WholeIsEncoded(fmt, hi);
    ProductGrows(lo, hi, fmt.One());
    ClampOfPattern(fmt, WithoutNaN(fmt, raw), Encode(fmt, lo * fmt.One()), Encode(fmt, hi * fmt.One()),
                   lo * fmt.One(), hi * fmt.One());
  }

  lemma NotNaN(fmt: Format, raw: int)
    requires fmt.Valid() && IsPattern(fmt, raw)
    ensures IsPattern(fmt, WithoutNaN(fmt, raw)) && Decode(fmt, WithoutNaN(fmt, raw)) != NotANumber
  {
    hide WithoutNaN, Magnitude;
    NaNIsCleared(fmt, raw);
    ZeroIsEncoded(fmt);
  }

  /** The conversion to the integers from `lo` to `hi`. */
  function CastByMagic(fmt: Format, raw: int, lo: int, hi: int): int
    requires fmt.Valid() && IsPattern(fmt, raw) && FitsRange(fmt, lo, hi)
  {
    Add(fmt, Bounded(fmt, raw, lo, hi), MagicBits(fmt)) - MagicBits(fmt)
  }

  /** A sum in the binade of the magic number is the number rounded to whole, told by its pattern. */
  lemma MagicSum(fmt: Format, units: int)
    requires fmt.Valid()
    requires -(Pow2(fmt.fraction - 1) * fmt.One()) <= units <= (Pow2(fmt.fraction - 1) - 1) * fmt.One()
    ensures Encode(fmt, RoundToFormat(fmt, units + Magic(fmt) * fmt.One())) - Encode(fmt, Magic(fmt) * fmt.One())
      == RoundHalfEven(units, fmt.One())
  {
    hide PatternOf, RoundToFormat, RoundHalfEven, Pow2;
    MagicFits(fmt);
    var quarter := Pow2(fmt.fraction - 1);
    var one := fmt.One();
    var sum := units + Magic(fmt) * one;
    var n := RoundHalfEven(units, one);
    MagicRange(units, quarter, one, sum);
    RoundIsMonotone(-quarter * one, units, one);
    RoundIsMonotone(units, (quarter - 1) * one, one);
    RoundOfWhole(-quarter, one);
    RoundOfWhole(quarter - 1, one);
    assert -quarter * one == -(quarter * one);
    BinadeOfMagic(fmt, sum);
    RoundInBinade(fmt, sum, fmt.OneDigits());
    RoundShifts(units, one, Magic(fmt));
    MagicPatterns(fmt, n);
  }

  /** Within the binade of the magic number patterns count up by one. */
  lemma MagicPatterns(fmt: Format, n: int)
    requires fmt.Valid() && fmt.Fractions() <= n + Magic(fmt) < 2 * fmt.Fractions()
    ensures Encode(fmt, (n + Magic(fmt)) * fmt.One()) - Encode(fmt, Magic(fmt) * fmt.One()) == n
  {
    hide PatternOf;
    MagicFits(fmt);
    PatternIs(fmt, n + Magic(fmt), fmt.OneDigits(), (n + Magic(fmt)) * fmt.One());
    PatternIs(fmt, Magic(fmt), fmt.OneDigits(), Magic(fmt) * fmt.One());
  }

  lemma MagicRange(units: int, quarter: int, one: int, sum: int)
    requires quarter >= 1 && one >= 1 && sum == units + (3 * quarter) * one
    requires -(quarter * one) <= units <= (quarter - 1) * one
    ensures (2 * quarter) * one <= sum < (4 * quarter) * one
  {
  }

  lemma BinadeOfMagic(fmt: Format, sum: int)
    requires fmt.Valid() && fmt.Fractions() * fmt.One() <= sum < (2 * fmt.Fractions()) * fmt.One()
    ensures Pow2(fmt.fraction + fmt.OneDigits()) <= sum < Pow2(fmt.fraction + 1 + fmt.OneDigits())
  {
    Pow2Adds(fmt.fraction, fmt.OneDigits());
    Pow2Adds(fmt.fraction + 1, fmt.OneDigits());
  }

  /**
   For every pattern, NaNs and infinities among them, the masks, the clamp and the magic sum give the value rounded to
   the nearest integer, ties to even, and saturated. The result lies in the range, so the last cast keeps it.
   */
  lemma CastIsSaturating(fmt: Format, raw: int, lo: int, hi: int)
    requires fmt.Valid() && IsPattern(fmt, raw) && FitsRange(fmt, lo, hi)
    ensures CastByMagic(fmt, raw, lo, hi) == Saturated(fmt, Decode(fmt, raw), lo, hi)
    ensures lo <= CastByMagic(fmt, raw, lo, hi) <= hi
  {
    hide Decode, Order, WithoutNaN, Encode, Pow2, RoundHalfEven, RoundToFormat, Clamped;
    var one := fmt.One();
    var bits := WithoutNaN(fmt, raw);
    MagicFits(fmt);
    BoundedValue(fmt, raw, lo, hi);
    var c := Bounded(fmt, raw, lo, hi);
    var units := Clamp(Order(fmt, bits), lo * one, hi * one);
    assert Decode(fmt, c) == Exact(units);
    ProductGrows(lo, hi, one);
    ProductGrows(-Pow2(fmt.fraction - 1), lo, one);
    ProductGrows(hi, Pow2(fmt.fraction - 1) - 1, one);
    assert (-Pow2(fmt.fraction - 1)) * one == -(Pow2(fmt.fraction - 1) * one);
    MagicSum(fmt, units);
    ClampThenRound(Order(fmt, bits), one, lo, hi);
    WholeIsEncoded(fmt, lo);
    WholeIsEncoded(fmt, hi);
    SaturatedByOrder(fmt, raw, lo, hi, hi, Encode(fmt, lo * one), Encode(fmt, hi * one));
  }

  /**
   The specification, told from the order of the pattern once a NaN is cleared. The lower limit and some whole number
   from the upper one on, `top`, have patterns in the format.
   */
  lemma SaturatedByOrder(fmt: Format, raw: int, lo: int, hi: int, top: int, loBits: int, topBits: int)
    requires fmt.Valid() && IsPattern(fmt, raw) && IsPattern(fmt, WithoutNaN(fmt, raw)) && lo <= 0 <= hi <= top
    requires StandsFor(fmt, loBits, lo * fmt.One()) && StandsFor(fmt, topBits, top * fmt.One())
    ensures Saturated(fmt, Decode(fmt, raw), lo, hi)
      == Clamp(RoundHalfEven(Order(fmt, WithoutNaN(fmt, raw)), fmt.One()), lo, hi)
  {
    hide Decode, Order, WithoutNaN, Pow2, RoundHalfEven;
    var one := fmt.One();
    NaNIsCleared(fmt, raw);
    match Decode(fmt, raw)
    case NotANumber =>
      ZeroOrder(fmt);
      RoundOfWhole(0, one);
    case Infinite(negative) =>
      SignOfInfinity(fmt, raw);
      InfinityIsPast(fmt, raw, loBits);
      InfinityIsPast(fmt, raw, topBits);
      RoundOfWhole(lo, one);
      RoundOfWhole(top, one);
      if negative {
        RoundIsMonotone(Order(fmt, raw), lo * one, one);
      } else {
        RoundIsMonotone(top * one, Order(fmt, raw), one);
      }
    case Exact(units) =>
      OrderOfNumber(fmt, raw);
  }

  lemma ZeroOrder(fmt: Format)
    requires fmt.Valid()
    ensures IsPattern(fmt, 0) && Order(fmt, 0) == 0
  {
  }

  lemma SignOfInfinity(fmt: Format, raw: int)
    requires IsPattern(fmt, raw) && Decode(fmt, raw).Infinite?
    ensures Decode(fmt, raw).negative <==> raw < 0
  {
  }

  lemma IntegerTypeFits(fmt: Format, digits: nat, lo: int, hi: int)
    requires fmt.Valid() && digits + 2 <= fmt.fraction + 1
    requires (lo == -Pow2(digits) || lo == 0) && hi == Pow2(digits) - 1
    ensures FitsRange(fmt, lo, hi)
  {
    Pow2Grows(digits, fmt.fraction - 1);
  }

  lemma FormatsAreValid()
    ensures BINARY32.Valid() && BINARY64.Valid()
  {
  }

  /**
   A float or double, of any bits, converts to every integer type of at least two digits fewer, signed or not, by rounding
   to the nearest integer, ties to even, and saturating, with 0 for a NaN. The result is in the type's range.
   */
  lemma EveryFittingTypeIsSaturating(fmt: Format, raw: int, digits: nat, lo: int, hi: int)
    requires fmt == BINARY32 || fmt == BINARY64
    requires IsPattern(fmt, raw) && digits + 2 <= fmt.fraction + 1
    requires (lo == -Pow2(digits) || lo == 0) && hi == Pow2(digits) - 1
    ensures fmt.Valid() && FitsRange(fmt, lo, hi)
    ensures CastByMagic(fmt, raw, lo, hi) == Saturated(fmt, Decode(fmt, raw), lo, hi)
    ensures lo <= CastByMagic(fmt, raw, lo, hi) <= hi
  {
    hide Pow2, Decode;
    FormatsAreValid();
    IntegerTypeFits(fmt, digits, lo, hi);
    CastIsSaturating(fmt, raw, lo, hi);
  }
}
