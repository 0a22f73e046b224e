/**
 The conversion of a 32-bit float to a 32-bit integer, whose range goes past the float's whole digits: below 2^23 a
 signed shift by 2^23 rounds, from there on every float is whole, and at 2^31 and past it seven bits are set.
 */
module FloatToInt32 {
  import opened Basics
  import opened Bits
  import opened FloatFormat
  import opened SaturatingCast

  const FLOAT := BINARY32

  const LOWEST := -2147483648
  const BELOW_MAX := 2147483520
  const PAST_MAX := 2147483648
  const HIGHEST := 2147483647
  const EXACT := 8388608

  lemma FloatIsValid()
    ensures FLOAT.Valid() && FLOAT.Fractions() == EXACT && FLOAT.LastExponent() == 255 && FLOAT.OneDigits() == 149
    ensures FLOAT.Signs() == 2147483648
  {
    SevenAndEight();
    Pow2Adds(7, 8);
    Pow2Adds(15, 8);
    Pow2Adds(23, 8);
  }

  /** The pattern of a float that is a whole number. */
  function WholeBits(n: int): int {
    FloatIsValid();
    Encode(FLOAT, n * FLOAT.One())
  }

  /** The patterns of a float are the 32-bit integers. */
  lemma PatternsAre32Bits(bits: int)
    ensures IsPattern(FLOAT, bits) <==> -0x80000000 <= bits <= 0x7FFFFFFF
  {
    hide Pow2;
    FloatIsValid();
  }

  /** The two numbers the clamp goes to, and the number past the last integer. */
  lemma LimitsAreFloats()
    ensures FLOAT.Valid()
    ensures StandsFor(FLOAT, WholeBits(LOWEST), LOWEST * FLOAT.One())
    ensures StandsFor(FLOAT, WholeBits(BELOW_MAX), BELOW_MAX * FLOAT.One())
    ensures StandsFor(FLOAT, WholeBits(PAST_MAX), PAST_MAX * FLOAT.One())
    ensures StandsFor(FLOAT, WholeBits(EXACT), EXACT * FLOAT.One())
    ensures WholeBits(EXACT) == 150 * EXACT && WholeBits(PAST_MAX) == 158 * EXACT
    ensures WholeBits(BELOW_MAX) == 158 * EXACT - 1
  {
    hide Encode, StandsFor, Pow2, PatternOf;
    FloatIsValid();
    var one := FLOAT.One();
    assert Pow2(157) == 256 * one && Pow2(156) == 128 * one by { SmallPowers(); }
    NumberIsEncoded(FLOAT, EXACT, 157, PAST_MAX * one);
    NumberIsEncoded(FLOAT, 2 * EXACT - 1, 156, BELOW_MAX * one);
    NumberIsEncoded(FLOAT, EXACT, 149, EXACT * one);
    assert LOWEST * one == -(PAST_MAX * one);
  }

  lemma SmallPowers()
    ensures FLOAT.Valid() && Pow2(157) == 256 * FLOAT.One() && Pow2(156) == 128 * FLOAT.One()
  {
    hide Pow2;
    FloatIsValid();
    Pow2Adds(7, 149);
    Pow2Adds(8, 149);
    assert Pow2(7) == 128 && Pow2(8) == 256 by { SevenAndEight(); }
  }

  lemma SevenAndEight()
    ensures Pow2(7) == 128 && Pow2(8) == 256
  {
  }

  /** The difference of two finite floats, rounded. */
  function Subtract(a: int, b: int): int
    requires IsPattern(FLOAT, a) && IsPattern(FLOAT, b) && Decode(FLOAT, a).Exact? && Decode(FLOAT, b).Exact?
  {
    Encode(FLOAT, RoundToFormat(FLOAT, Decode(FLOAT, a).units - Decode(FLOAT, b).units))
  }

  /** The cast of a float, which drops what is behind the point. */
  function Truncated(bits: int): int
    requires IsPattern(FLOAT, bits) && Decode(FLOAT, bits).Exact?
  {
    FloatIsValid();
    var units := Decode(FLOAT, bits).units;
    if units < 0 then -(-units / FLOAT.One()) else units / FLOAT.One()
  }

  /** The value with a NaN cleared, clamped to the integers' range. */
  function Clamped32(raw: int): int
    requires IsPattern(FLOAT, raw)
  {
    FloatIsValid();
    NotNaN(FLOAT, raw);
    LimitsAreFloats();
    Clamped(FLOAT, WithoutNaN(FLOAT, raw), WholeBits(LOWEST), WholeBits(BELOW_MAX))
  }

  /** 2^23 with the sign of the value where the value is smaller than that, and zero elsewhere. */
  function Shift(c: int): int {
    var below := NegativeMask(FLOAT, And(c, MagnitudeMask(FLOAT)) - WholeBits(EXACT));
    And(Or(And(c, SignMask(FLOAT)), WholeBits(EXACT)), below)
  }

  /** All ones below 2^31, told from the pattern shifted right by one so that no difference can overflow. */
  function Inside(bits: int): int {
    NegativeMask(FLOAT, Shr(bits, 1) - Shr(WholeBits(PAST_MAX), 1))
  }

  // ---------------------------------------------------------------- the steps

  lemma MagnitudeOrder(a: int, b: int)
    requires IsPattern(FLOAT, a) && IsPattern(FLOAT, b) && b >= 0
    ensures WithoutSign(FLOAT, a) < b <==> Magnitude(FLOAT, WithoutSign(FLOAT, a)) < Magnitude(FLOAT, b)
  {
    hide Magnitude;
    var p := WithoutSign(FLOAT, a);
    if p < b {
      MagnitudeGrows(FLOAT, p, b);
    } else if b < p {
      MagnitudeGrows(FLOAT, b, p);
    }
  }

  lemma ShiftIs(c: int, units: int)
    requires StandsFor(FLOAT, c, units)
    ensures FLOAT.Valid()
    ensures Shift(c) == if -(EXACT * FLOAT.One()) < units < EXACT * FLOAT.One()
      then (if c < 0 then WholeBits(-EXACT) else WholeBits(EXACT)) else 0
  {
    hide And, Magnitude, Encode, Pow2, Or;
    FloatIsValid();
    LimitsAreFloats();
    var exact := WholeBits(EXACT);
    var pattern := WithoutSign(FLOAT, c);
    MasksSign(FLOAT, c);
    MagnitudeOrder(c, exact);
    MagnitudeIsPositive(FLOAT, pattern);
    assert Magnitude(FLOAT, exact) == EXACT * FLOAT.One();
    MaskOfSign(FLOAT, pattern - exact);
    AndHigh(c, SignShift(FLOAT));
    DividesAs(c, FLOAT.Signs(), if c < 0 then -1 else 0, pattern);
    assert And(c, SignMask(FLOAT)) == (if c < 0 then -FLOAT.Signs() else 0);
    OrZero(exact);
    OrHigh(exact, SignShift(FLOAT));
    assert WholeBits(-EXACT) == exact - FLOAT.Signs() by { NegativeExact(); }
    AndAllOnes(Or(And(c, SignMask(FLOAT)), exact));
    AndZero(Or(And(c, SignMask(FLOAT)), exact));
  }

  lemma NegativeExact()
    ensures FLOAT.Valid() && WholeBits(-EXACT) == WholeBits(EXACT) - FLOAT.Signs()
    ensures StandsFor(FLOAT, WholeBits(-EXACT), -(EXACT * FLOAT.One()))
  {
    hide Encode, StandsFor, Pow2, PatternOf;
    FloatIsValid();
    NumberIsEncoded(FLOAT, EXACT, 149, EXACT * FLOAT.One());
    assert (-EXACT) * FLOAT.One() == -(EXACT * FLOAT.One());
  }

  /** A float at or past 2^23 is a whole number, and is its own rounding to the format. */
  lemma LargeIsWhole(c: int, units: int) returns (n: int)
    requires StandsFor(FLOAT, c, units) && FLOAT.Valid()
    requires units >= EXACT * FLOAT.One() || units <= -(EXACT * FLOAT.One())
    ensures units == n * FLOAT.One() && RoundToFormat(FLOAT, units) == units
    ensures StandsFor(FLOAT, Encode(FLOAT, units), units)
  {
    hide Encode, RoundToFormat, Pow2, PatternOf;
    FloatIsValid();
    LimitsAreFloats();
    var pattern := WithoutSign(FLOAT, c);
    var size := Magnitude(FLOAT, pattern);
    var exact := WholeBits(EXACT);
    MagnitudeOrder(c, exact);
    MagnitudeIsPositive(FLOAT, pattern);
    assert pattern >= exact by { assert Magnitude(FLOAT, exact) == EXACT * FLOAT.One(); }
    var k := MultipleOfStep(FLOAT, pattern, 149);
    QuotientAtLeast(pattern, 150, EXACT);
    var m := EXACT + pattern % EXACT;
    var q := Exponent(FLOAT, pattern) - 1;
    assert pattern == (q + 1) * EXACT + (m - EXACT);
    FactorBelow(q + 1, 255, EXACT);
    NumberIsEncoded(FLOAT, m, q, size);
    RoundOfExact(FLOAT, m, q, size);
    RoundOfNegative(FLOAT, size);
    n := if c < 0 then -k else k;
    assert (-k) * FLOAT.One() == -(k * FLOAT.One());
  }

  /** Adding 2^23 to a smaller number that is not negative rounds it to whole, and taking 2^23 away again is exact. */
  lemma ShiftRounds(units: int)
    requires FLOAT.Valid() && 0 <= units < EXACT * FLOAT.One()
    ensures var one := FLOAT.One(); var n := RoundHalfEven(units, one);
      && 0 <= n <= EXACT
      && RoundToFormat(FLOAT, units + EXACT * one) == (n + EXACT) * one
  {
    hide RoundToFormat, RoundHalfEven, Pow2;
    FloatIsValid();
    var one := FLOAT.One();
    RoundShifts(units, one, EXACT);
    RoundOfWhole(0, one);
    RoundOfWhole(EXACT, one);
    RoundIsMonotone(0, units, one);
    RoundIsMonotone(units, EXACT * one, one);
    Pow2Adds(23, 149);
    Pow2Adds(24, 149);
    assert Pow2(24) == 2 * EXACT by { TwentyFour(); }
    assert (2 * EXACT) * one == 2 * (EXACT * one);
    RoundInBinade(FLOAT, units + EXACT * one, 149);
  }

  lemma TwentyFour()
    ensures Pow2(24) == 2 * EXACT && Pow2(23) == EXACT
  {
    FloatIsValid();
  }

  /** The shift up and down leaves the clamped value rounded to the nearest integer, ties to even. */
  function Rounded32(c: int): int
    requires IsPattern(FLOAT, c) && Decode(FLOAT, c).Exact?
  {
    ShiftedIsNumber(c);
    Truncated(Subtract(Add(FLOAT, c, Shift(c)), Shift(c)))
  }

  lemma ShiftedIsNumber(c: int)
    requires IsPattern(FLOAT, c) && Decode(FLOAT, c).Exact?
    ensures FLOAT.Valid() && IsPattern(FLOAT, Shift(c)) && Decode(FLOAT, Shift(c)).Exact?
    ensures IsPattern(FLOAT, Add(FLOAT, c, Shift(c))) && Decode(FLOAT, Add(FLOAT, c, Shift(c))).Exact?
    ensures var r := Subtract(Add(FLOAT, c, Shift(c)), Shift(c));
      && IsPattern(FLOAT, r)
      && Decode(FLOAT, r) == Exact(RoundHalfEven(Decode(FLOAT, c).units, FLOAT.One()) * FLOAT.One())
  {
    hide Shift, Encode, RoundToFormat, RoundHalfEven, Pow2, Order, Decode, WithoutSign;
    FloatIsValid();
    OrderOfNumber(FLOAT, c);
    var units := Order(FLOAT, c);
    var one := FLOAT.One();
    ShiftIs(c, units);
    LimitsAreFloats();
    NegativeExact();
    TwentyFour();
    if -(EXACT * one) < units < EXACT * one {
      var n := RoundHalfEven(units, one);
      if c < 0 {
        SignOfUnits(c, units);
        ShiftRounds(-units);
        RoundNegates(units, one);
        RoundOfNegative(FLOAT, -units + EXACT * one);
        assert (n - EXACT) * one == -((-n + EXACT) * one);
        WholeIsEncoded(FLOAT, n - EXACT);
        WholeIsEncoded(FLOAT, n);
        assert (n - EXACT) * one + EXACT * one == n * one;
      } else {
        SignOfUnits(c, units);
        ShiftRounds(units);
        WholeIsEncoded(FLOAT, n + EXACT);
        WholeIsEncoded(FLOAT, n);
        assert (n + EXACT) * one - EXACT * one == n * one;
      }
    } else {
      var n := LargeIsWhole(c, units);
      RoundOfWhole(n, one);
      ZeroIsEncoded(FLOAT);
    }
  }

  lemma SignOfUnits(c: int, units: int)
    requires StandsFor(FLOAT, c, units)
    ensures if c < 0 then units <= 0 else units >= 0
  {
    hide Magnitude;
    MagnitudeIsPositive(FLOAT, WithoutSign(FLOAT, c));
  }

  /** The conversion. */
  function CastToInt32(raw: int): int
    requires IsPattern(FLOAT, raw)
  {
    ClampedValue(raw);
    Or(Rounded32(Clamped32(raw)), And(Not(Inside(WithoutNaN(FLOAT, raw))), HIGHEST - BELOW_MAX))
  }

  lemma ClampedValue(raw: int)
    requires IsPattern(FLOAT, raw)
    ensures FLOAT.Valid() && IsPattern(FLOAT, WithoutNaN(FLOAT, raw))
    ensures StandsFor(FLOAT, Clamped32(raw),
                      Clamp(Order(FLOAT, WithoutNaN(FLOAT, raw)), LOWEST * FLOAT.One(), BELOW_MAX * FLOAT.One()))
  {
    hide Clamped, Order, WithoutNaN, Encode, Decode, Pow2;
    FloatIsValid();
    NotNaN(FLOAT, raw);
    LimitsAreFloats();
    ProductGrows(LOWEST, BELOW_MAX, FLOAT.One());
    ClampOfPattern(FLOAT, WithoutNaN(FLOAT, raw), WholeBits(LOWEST), WholeBits(BELOW_MAX),
                   LOWEST * FLOAT.One(), BELOW_MAX * FLOAT.One());
  }

  /** The range test on the shifted pattern is exact, and no float lies between the clamp's limit and 2^31. */
  lemma InsideIs(bits: int)
    requires IsPattern(FLOAT, bits)
    ensures FLOAT.Valid()
    ensures Inside(bits) == if Order(FLOAT, bits) < PAST_MAX * FLOAT.One() then -1 else 0
    ensures Order(FLOAT, bits) < PAST_MAX * FLOAT.One() ==> Order(FLOAT, bits) <= BELOW_MAX * FLOAT.One()
  {
    hide Magnitude, Encode, Pow2;
    FloatIsValid();
    LimitsAreFloats();
    var past := WholeBits(PAST_MAX);
    var below := WholeBits(BELOW_MAX);
    var pattern := WithoutSign(FLOAT, bits);
    MagnitudeIsPositive(FLOAT, pattern);
    MagnitudeOrder(bits, past);
    assert Magnitude(FLOAT, past) == PAST_MAX * FLOAT.One() && Magnitude(FLOAT, below) == BELOW_MAX * FLOAT.One();
    if bits >= 0 && pattern < below {
      MagnitudeGrows(FLOAT, pattern, below);
    }
    assert Shr(past, 1) == 79 * EXACT && Shr(bits, 1) == bits / 2 by { HalfIsShift(past); HalfIsShift(bits); }
    MaskOfSign(FLOAT, bits / 2 - 79 * EXACT);
  }

  lemma HalfIsShift(x: int)
    ensures Shr(x, 1) == x / 2
  {
  }

  lemma HighestBits()
    ensures Or(BELOW_MAX, HIGHEST - BELOW_MAX) == HIGHEST
  {
    hide And, Or, Pow2;
    SevenAndEight();
    OrLow(16777215, 127, 7);
  }

  /**
   For every 32-bit pattern the conversion is the value rounded to the nearest integer, ties to even, saturated to the
   32-bit integers, and 0 for NaN.
   */
  lemma Int32IsSaturating(raw: int)
    requires IsPattern(FLOAT, raw)
    ensures FLOAT.Valid() && CastToInt32(raw) == Saturated(FLOAT, Decode(FLOAT, raw), LOWEST, HIGHEST)
  {
    hide Order, Decode, WithoutNaN, RoundHalfEven, Clamped32, Rounded32, Inside, Pow2, And, Or, Encode;
    FloatIsValid();
    var one := FLOAT.One();
    var bits := WithoutNaN(FLOAT, raw);
    ClampedValue(raw);
    var units := Order(FLOAT, bits);
    ClampThenRound(units, one, LOWEST, BELOW_MAX);
    RoundedIs(Clamped32(raw));
    InsideIs(bits);
    RoundOfWhole(PAST_MAX, one);
    RoundOfWhole(BELOW_MAX, one);
    NaNIsCleared(FLOAT, raw);
    LimitsAreFloats();
    SaturatedByOrder(FLOAT, raw, LOWEST, HIGHEST, PAST_MAX, WholeBits(LOWEST), WholeBits(PAST_MAX));
    if units < PAST_MAX * one {
      RoundIsMonotone(units, BELOW_MAX * one, one);
      AndZeroLeft(HIGHEST - BELOW_MAX);
      OrZero(Rounded32(Clamped32(raw)));
    } else {
      RoundIsMonotone(PAST_MAX * one, units, one);
      AndAllLeft(HIGHEST - BELOW_MAX);
      HighestBits();
    }
  }

  lemma AndZeroLeft(x: int)
    ensures And(Not(-1), x) == 0
  {
  }

  lemma AndAllLeft(x: int)
    ensures And(Not(0), x) == x
  {
  }

  lemma RoundedIs(c: int)
    requires FLOAT.Valid() && IsPattern(FLOAT, c) && Decode(FLOAT, c).Exact?
    ensures Rounded32(c) == RoundHalfEven(Decode(FLOAT, c).units, FLOAT.One())
  {
    hide Decode, Shift, Subtract, Add, RoundHalfEven, Pow2;
    ShiftedIsNumber(c);
    var n := RoundHalfEven(Decode(FLOAT, c).units, FLOAT.One());
    WholeQuotient(n, FLOAT.One());
  }

  lemma WholeQuotient(n: int, one: int)
    requires one >= 1
    ensures (n * one) / one == n && (-(n * one)) / one == -n && (n < 0 <==> n * one < 0)
  {
    DividesAs(n * one, one, n, 0);
    assert (-n) * one == -(n * one);
    DividesAs(-(n * one), one, -n, 0);
    if n >= 0 {
      ProductGrows(0, n, one);
    } else {
      ProductGrows(n, -1, one);
    }
  }

  /** No difference of patterns on the way leaves the 32-bit integers. */
  lemma NoOverflow(raw: int)
    requires IsPattern(FLOAT, raw)
    ensures IsPattern(FLOAT, And(raw, MagnitudeMask(FLOAT)) - FirstNaN(FLOAT))
    ensures IsPattern(FLOAT, Clamped32(raw))
    ensures IsPattern(FLOAT, And(Clamped32(raw), MagnitudeMask(FLOAT)) - WholeBits(EXACT))
    ensures IsPattern(FLOAT, Shr(WithoutNaN(FLOAT, raw), 1) - Shr(WholeBits(PAST_MAX), 1))
  {
    hide Clamped32, WithoutNaN, And, Encode, Pow2;
    FloatIsValid();
    NaNIsCleared(FLOAT, raw);
    ClampedValue(raw);
    MasksSign(FLOAT, Clamped32(raw));
    LimitsAreFloats();
    HalfIsShift(WithoutNaN(FLOAT, raw));
    HalfIsShift(WholeBits(PAST_MAX));
  }
}
