/**
 Binary floating point in the interchange formats of section 3.4 of IEEE 754-2019: a bit pattern as a signed integer,
 the value it stands for, and addition rounded to nearest, ties to even. Values are counted in units of the smallest
 subnormal number, so every finite one is an integer.
 */
module FloatFormat {
  import opened Basics
  import opened Bits

  /** A format of `fraction` stored digits and an exponent of `biasBits + 1` bits. */
  datatype Format = Format(fraction: nat, biasBits: nat)
  {
    /** Exponents reach far enough for every integer of `fraction + 1` digits to be a normal number. */
    ghost predicate Valid() { 2 <= fraction < Bias() }

    function Bias(): int { Pow2(biasBits) - 1 }

    /** The largest biased exponent, that of infinities and NaNs. */
    function LastExponent(): int { 2 * Bias() + 1 }

    /** The number of patterns with one exponent. */
    function Fractions(): int { Pow2(fraction) }

    /** The number of patterns without a sign. */
    function Signs(): int { Pow2(fraction + biasBits + 1) }

    /** One is two to this power of units. */
    function OneDigits(): nat
      requires Valid()
    {
      fraction + Bias() - 1
    }

    function One(): int
      requires Valid()
    {
      Pow2(OneDigits())
    }
  }

  const BINARY32 := Format(23, 7)
  const BINARY64 := Format(52, 10)

  predicate IsPattern(fmt: Format, bits: int) { -fmt.Signs() <= bits < fmt.Signs() }

  // ---------------------------------------------------------------- values of patterns

  datatype Value = NotANumber | Infinite(negative: bool) | Exact(units: int)

  /** The units of a pattern without its sign. An infinity counts as the power of two past the largest number. */
  function Magnitude(fmt: Format, pattern: nat): (units: int)
  {
    var f := fmt.Fractions();
    var exponent := Exponent(fmt, pattern);
    if exponent == 0 then pattern else (f + pattern % f) * Pow2(exponent - 1)
  }

  function Exponent(fmt: Format, pattern: nat): (exponent: nat)
    ensures exponent == pattern / fmt.Fractions()
  {
    QuotientAtLeast(pattern, 0, fmt.Fractions());
    pattern / fmt.Fractions()
  }

  /** A pattern without its sign bit. */
  function WithoutSign(fmt: Format, bits: int): (pattern: nat)
    requires IsPattern(fmt, bits)
    ensures pattern < fmt.Signs()
  {
    if bits < 0 then bits + fmt.Signs() else bits
  }

  function Signed(bits: int, units: int): int { if bits < 0 then -units else units }

  function Decode(fmt: Format, bits: int): Value
    requires IsPattern(fmt, bits)
  {
    var pattern := WithoutSign(fmt, bits);
    var infinity := fmt.LastExponent() * fmt.Fractions();
    if pattern > infinity then NotANumber
    else if pattern == infinity then Infinite(bits < 0)
    else Exact(Signed(bits, Magnitude(fmt, pattern)))
  }

  /** The pattern of a number with these units, when the format has one. */
  function PatternOf(fmt: Format, units: nat): (pattern: int)
  {
    var f := fmt.Fractions();
    if units < f then units
    else
      LengthFits(fmt, units);
      var shift := BitLength(units) - fmt.fraction - 1;
      (shift + 1) * f + (units / Pow2(shift) - f)
  }

  function Encode(fmt: Format, units: int): (bits: int)
  {
    if units < 0 then PatternOf(fmt, -units) - fmt.Signs() else PatternOf(fmt, units)
  }

  // ---------------------------------------------------------------- lengths

  function BitLength(n: nat): nat { if n == 0 then 0 else 1 + BitLength(n / 2) }

  lemma {:induction false} LengthBounds(n: nat)
    requires n >= 1
    ensures BitLength(n) >= 1 && Pow2(BitLength(n) - 1) <= n < Pow2(BitLength(n))
  {
    if n >= 2 {
      LengthBounds(n / 2);
    }
  }

  lemma {:induction false} LengthIs(n: nat, length: nat)
    requires length >= 1 && Pow2(length - 1) <= n < Pow2(length)
    ensures BitLength(n) == length
  {
    if length > 1 {
      LengthIs(n / 2, length - 1);
    }
  }

  lemma LengthFits(fmt: Format, units: nat)
    requires units >= fmt.Fractions()
    ensures BitLength(units) >= fmt.fraction + 1
    ensures units / Pow2(BitLength(units) - fmt.fraction - 1) >= fmt.Fractions()
  {
    LengthBounds(units);
    var length := BitLength(units);
    if length < fmt.fraction + 1 {
      Pow2Grows(length, fmt.fraction);
    }
    var shift := length - fmt.fraction - 1;
    Pow2Adds(fmt.fraction, shift);
    QuotientAtLeast(units, fmt.Fractions(), Pow2(shift));
  }

  lemma QuotientAtLeast(x: int, q: int, m: int)
    requires m >= 1 && x >= q * m
    ensures x / m >= q
  {
    var a := x / m;
    assert (a + 1) * m == a * m + m;
    if a < q {
      ProductGrows(a + 1, q, m);
    }
  }

  // ---------------------------------------------------------------- rounding

  /** The integer nearest to u / m, the even one of two. */
  function RoundHalfEven(u: int, m: int): int
    requires m >= 1
  {
    var q := u / m;
    var r := u % m;
    if 2 * r < m || (2 * r == m && q % 2 == 0) then q else q + 1
  }

  /** No integer is nearer, and of two equally near ones the even one is taken: this settles the result. */
  lemma RoundsToNearestEven(u: int, m: int, n: int)
    requires m >= 1
    ensures n == RoundHalfEven(u, m) <==>
      -m <= 2 * (u - n * m) <= m && (2 * (u - n * m) == m || 2 * (u - n * m) == -m ==> n % 2 == 0)
  {
    var q := u / m;
    var r := u % m;
    var off := u - n * m;
    assert u == q * m + r;
    assert (q + 1) * m == q * m + m;
    if -m <= 2 * off <= m {
      NearOnly(q, r, n, off, m);
    }
  }

  lemma NearOnly(q: int, r: int, n: int, off: int, m: int)
    requires m >= 1 && 0 <= r < m && q * m + r == n * m + off && -m <= 2 * off <= m
    ensures (n == q && off == r) || (n == q + 1 && off == r - m)
  {
    if off >= 0 {
      OneQuotient(q, r, n, off, m);
    } else {
      assert (n - 1) * m == n * m - m;
      OneQuotient(q, r, n - 1, off + m, m);
    }
  }

  lemma RoundShifts(u: int, m: int, k: int)
    requires m >= 1 && k % 2 == 0
    ensures RoundHalfEven(u + k * m, m) == RoundHalfEven(u, m) + k
  {
    var q := u / m;
    assert (q + k) * m == q * m + k * m;
    DividesAs(u + k * m, m, q + k, u % m);
  }

  lemma RoundNegates(u: int, m: int)
    requires m >= 1
    ensures RoundHalfEven(-u, m) == -RoundHalfEven(u, m)
  {
    var n := RoundHalfEven(u, m);
    RoundsToNearestEven(u, m, n);
    assert (-n) * m == -(n * m);
    RoundsToNearestEven(-u, m, -n);
  }

  lemma RoundIsMonotone(u: int, v: int, m: int)
    requires m >= 1 && u <= v
    ensures RoundHalfEven(u, m) <= RoundHalfEven(v, m)
  {
    var a := RoundHalfEven(u, m);
    var b := RoundHalfEven(v, m);
    RoundsToNearestEven(u, m, a);
    RoundsToNearestEven(v, m, b);
    assert (b + 1) * m == b * m + m;
    if a > b {
      ProductGrows(b + 1, a, m);
      SameRounding(u, v, m, a, b);
    }
  }

  lemma SameRounding(u: int, v: int, m: int, a: int, b: int)
    requires m >= 1 && u <= v && b < a && b * m + m <= a * m
    requires 2 * (u - a * m) >= -m && 2 * (v - b * m) <= m
    ensures u == v && a * m == b * m + m
  {
  }

  lemma RoundOfWhole(n: int, m: int)
    requires m >= 1
    ensures RoundHalfEven(n * m, m) == n
  {
  }

  function Clamp(x: int, lo: int, hi: int): int { Min(Max(x, lo), hi) }

  /** Clamping to whole numbers and rounding can be done in either order. */
  lemma ClampThenRound(u: int, m: int, lo: int, hi: int)
    requires m >= 1 && lo <= hi
    ensures RoundHalfEven(Clamp(u, lo * m, hi * m), m) == Clamp(RoundHalfEven(u, m), lo, hi)
  {
    ProductGrows(lo, hi, m);
    RoundOfWhole(lo, m);
    RoundOfWhole(hi, m);
    if u <= lo * m {
      RoundIsMonotone(u, lo * m, m);
    } else if u >= hi * m {
      RoundIsMonotone(hi * m, u, m);
    } else {
      RoundIsMonotone(lo * m, u, m);
      RoundIsMonotone(u, hi * m, m);
    }
  }

  // ---------------------------------------------------------------- patterns and values

  /** A normal pattern in parts, and its units. */
  lemma NormalPattern(fmt: Format, m: int, q: nat, pattern: int)
    requires fmt.Fractions() <= m < 2 * fmt.Fractions()
    requires pattern == (q + 1) * fmt.Fractions() + (m - fmt.Fractions())
    ensures pattern >= 0 && Magnitude(fmt, pattern) == m * Pow2(q)
  {
    var f := fmt.Fractions();
    ProductGrows(0, q + 1, f);
    DividesAs(pattern, f, q + 1, m - f);
  }

  /** The pattern of a number of one binade. */
  lemma PatternIs(fmt: Format, m: int, q: nat, units: int)
    requires fmt.Fractions() <= m < 2 * fmt.Fractions() && units == m * Pow2(q)
    ensures units >= fmt.Fractions() && BitLength(units) == fmt.fraction + 1 + q
    ensures PatternOf(fmt, units) == (q + 1) * fmt.Fractions() + (m - fmt.Fractions())
  {
    LengthIs(m, fmt.fraction + 1);
    LengthScales(m, q);
    LengthBounds(units);
    Pow2Grows(fmt.fraction, fmt.fraction + q);
    DividesAs(units, Pow2(q), m, 0);
  }

  lemma {:induction false} LengthScales(m: nat, q: nat)
    requires m >= 1
    ensures m * Pow2(q) >= 1 && BitLength(m * Pow2(q)) == BitLength(m) + q
  {
    if q > 0 {
      LengthScales(m, q - 1);
      TwiceScaled(m, Pow2(q - 1));
      LengthDoubles(m * Pow2(q - 1), m * Pow2(q));
    }
  }

  lemma TwiceScaled(m: int, p: int)
    ensures m * (2 * p) == 2 * (m * p)
  {
  }

  lemma LengthDoubles(n: nat, twice: int)
    requires n >= 1 && twice == 2 * n
    ensures BitLength(twice) == BitLength(n) + 1
  {
  }

  /** A larger pattern stands for a larger number. */
  lemma {:induction false} MagnitudeGrows(fmt: Format, a: nat, b: nat)
    requires a < b
    ensures Magnitude(fmt, a) < Magnitude(fmt, b)
    decreases b - a
  {
    hide Magnitude;
    NextMagnitude(fmt, b - 1);
    if a < b - 1 {
      MagnitudeGrows(fmt, a, b - 1);
    }
  }

  lemma NextMagnitude(fmt: Format, pattern: nat)
    ensures Magnitude(fmt, pattern) < Magnitude(fmt, pattern + 1)
  {
    var f := fmt.Fractions();
    var e := Exponent(fmt, pattern);
    var r := pattern % f;
    assert pattern == e * f + r;
    if r + 1 < f {
      DividesAs(pattern + 1, f, e, r + 1);
      if e > 0 {
        NextFraction(f + r, Pow2(e - 1));
      }
    } else {
      NextRow(e, f);
      DividesAs(pattern + 1, f, e + 1, 0);
      if e > 0 {
        NextBinade(f, Pow2(e - 1));
      }
    }
  }

  lemma NextRow(e: int, f: int)
    ensures (e + 1) * f == e * f + f
  {
  }

  lemma NextFraction(m: int, p: int)
    requires p >= 1
    ensures m * p < (m + 1) * p
  {
  }

  lemma NextBinade(f: int, p: int)
    requires f >= 1 && p >= 1
    ensures (f + (f - 1)) * p < (f + 0) * (2 * p)
  {
  }

  // ---------------------------------------------------------------- addition

  /** The nearest number of `fraction + 1` digits, the one with the even last digit of two. */
  function RoundToFormat(fmt: Format, units: int): int {
    var size := if units < 0 then -units else units;
    if size < 2 * fmt.Fractions() then units
    else
      LengthFits(fmt, size);
      var step := Pow2(BitLength(size) - fmt.fraction - 1);
      var rounded := RoundHalfEven(size, step) * step;
      if units < 0 then -rounded else rounded
  }

  /** The sum of two finite numbers, rounded. Sums past the largest number are not needed here. */
  function Add(fmt: Format, a: int, b: int): int
    requires IsPattern(fmt, a) && IsPattern(fmt, b) && Decode(fmt, a).Exact? && Decode(fmt, b).Exact?
  {
    Encode(fmt, RoundToFormat(fmt, Decode(fmt, a).units + Decode(fmt, b).units))
  }

  lemma RoundInBinade(fmt: Format, units: int, q: nat)
    requires Pow2(fmt.fraction + q) <= units < Pow2(fmt.fraction + 1 + q)
    ensures RoundToFormat(fmt, units) == RoundHalfEven(units, Pow2(q)) * Pow2(q)
  {
    hide RoundHalfEven;
    LengthIs(units, fmt.fraction + 1 + q);
    if q == 0 {
      RoundOfWhole(units, 1);
    } else {
      Pow2Grows(fmt.fraction + 1, fmt.fraction + q);
    }
  }

  lemma RoundOfNegative(fmt: Format, units: int)
    ensures RoundToFormat(fmt, -units) == -RoundToFormat(fmt, units)
  {
  }

  /** A number the format can hold is its own rounding. */
  lemma RoundOfExact(fmt: Format, m: int, q: nat, units: int)
    requires fmt.Fractions() <= m < 2 * fmt.Fractions() && units == m * Pow2(q)
    ensures RoundToFormat(fmt, units) == units
  {
    hide RoundHalfEven;
    LengthIs(m, fmt.fraction + 1);
    LengthScales(m, q);
    LengthBounds(units);
    RoundInBinade(fmt, units, q);
    RoundOfWhole(m, Pow2(q));
  }

  function Distance(a: int, b: int): int { if a < b then b - a else a - b }

  /** No pattern stands for a number nearer to `units` than the one it is rounded to. */
  lemma RoundIsNearest(fmt: Format, units: nat, pattern: nat)
    ensures Distance(units, RoundToFormat(fmt, units)) <= Distance(units, Magnitude(fmt, pattern))
  {
    hide Magnitude, RoundToFormat, RoundHalfEven;
    if units < 2 * fmt.Fractions() {
      SmallIsExact(fmt, units);
    } else {
      var f := fmt.Fractions();
      LengthBounds(units);
      LengthFits(fmt, units);
      var q := BitLength(units) - fmt.fraction - 1;
      RoundInBinade(fmt, units, q);
      var step := Pow2(q);
      var n := RoundHalfEven(units, step);
      RoundsToNearestEven(units, step, n);
      if pattern < (q + 1) * f {
        NormalPattern(fmt, f, q, (q + 1) * f);
        MagnitudeGrows(fmt, pattern, (q + 1) * f);
        Pow2Adds(fmt.fraction, q);
        NearestMultiple(units, step, n, f);
      } else {
        var k := MultipleOfStep(fmt, pattern, q);
        NearestMultiple(units, step, n, k);
      }
    }
  }

  lemma SmallIsExact(fmt: Format, units: int)
    requires 0 <= units < 2 * fmt.Fractions()
    ensures RoundToFormat(fmt, units) == units
  {
  }

  lemma NearestMultiple(units: int, step: int, n: int, k: int)
    requires step >= 1 && -step <= 2 * (units - n * step) <= step
    ensures Distance(units, n * step) <= Distance(units, k * step)
  {
    if k > n {
      assert (n + 1) * step == n * step + step;
      ProductGrows(n + 1, k, step);
    } else if k < n {
      assert (n - 1) * step == n * step - step;
      ProductGrows(k, n - 1, step);
    }
  }

  lemma MultipleOfStep(fmt: Format, pattern: nat, q: nat) returns (k: int)
    requires pattern >= (q + 1) * fmt.Fractions()
    ensures Magnitude(fmt, pattern) == k * Pow2(q)
  {
    var f := fmt.Fractions();
    var e := Exponent(fmt, pattern);
    QuotientAtLeast(pattern, q + 1, f);
    var more := e - 1 - q;
    Pow2Adds(more, q);
    k := (f + pattern % f) * Pow2(more);
    assert (f + pattern % f) * (Pow2(more) * Pow2(q)) == k * Pow2(q);
  }
}
