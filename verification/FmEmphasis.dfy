/**
 The FM emphasis pair over the reals: how its sections are designed, how they filter a stream, and that pre-emphasis
 and de-emphasis at one time constant leave a single-pole lowpass. The tangent and the circle's number are parameters.
 */
module FmEmphasis {
  import opened Basics

  datatype Result<T> = Ok(value: T) | BadRate | BadTau | BadCorner

  datatype Section = Section(b0: real, b1: real, p: real)

  const BYPASS := Section(1.0, 0.0, 0.0)

  // ---------------------------------------------------------------- design

  /** A prewarped corner, of a frequency as a fraction of the rate. It is positive below half the rate. */
  ghost predicate Prewarps(tangent: real -> real) {
    forall f: real :: 0.0 < f < 0.5 ==> tangent(f) > 0.0
  }

  /** The corner frequency of a time constant. */
  function CornerOf(tau: real, twoPi: real): real
    requires tau != 0.0 && twoPi > 0.0
  {
    1.0 / (twoPi * tau)
  }

  /** The single-pole lowpass with prewarped corner `k`. */
  function Lowpass(k: real): Section
    requires k > 0.0
  {
    Section(k / (1.0 + k), k / (1.0 + k), (1.0 - k) / (1.0 + k))
  }

  /** The section that takes back corner `kl` and flattens at corner `kh`. */
  function Highshelf(kl: real, kh: real): Section
    requires kl > 0.0 && kh > 0.0
  {
    Section((kh / kl) * (1.0 + kl) / (1.0 + kh), -(kh / kl) * (1.0 - kl) / (1.0 + kh), (1.0 - kh) / (1.0 + kh))
  }

  predicate InBand(frequency: real, rate: real) { 0.0 < frequency < 0.5 * rate }

  lemma InBandIsPrewarped(frequency: real, rate: real, tangent: real -> real)
    requires rate > 0.0 && InBand(frequency, rate) && Prewarps(tangent)
    ensures tangent(frequency / rate) > 0.0
  {
    var f := frequency / rate;
    Below(0.0, f, rate);
    Below(f, 0.5, rate);
  }

  lemma Below(a: real, b: real, c: real)
    requires c > 0.0 && a * c < b * c
    ensures a < b
  {
  }

  function DesignDeemphasis(rate: real, tau: real, twoPi: real, tangent: real -> real): Result<Section>
    requires twoPi > 0.0 && Prewarps(tangent)
  {
    if !(rate > 0.0) then BadRate
    else if tau == 0.0 then Ok(BYPASS)
    else if !(tau >= 0.0) then BadTau
    else
      var corner := CornerOf(tau, twoPi);
      if !InBand(corner, rate) then BadCorner
      else
        InBandIsPrewarped(corner, rate, tangent);
        Ok(Lowpass(tangent(corner / rate)))
  }

  /** Where the rise flattens: at the corner asked for if it is in band, and else close to half the rate. */
  function EffectiveTop(rate: real, highCorner: real): real {
    if InBand(highCorner, rate) then highCorner else 0.925 * 0.5 * rate
  }

  function DesignPreemphasis(rate: real, tau: real, highCorner: real, twoPi: real, tangent: real -> real): Result<Section>
    requires twoPi > 0.0 && Prewarps(tangent)
  {
    if !(rate > 0.0) then BadRate
    else if tau == 0.0 then Ok(BYPASS)
    else if !(tau >= 0.0) then BadTau
    else
      var corner, top := CornerOf(tau, twoPi), EffectiveTop(rate, highCorner);
      if !InBand(corner, rate) then BadCorner
      else if !InBand(top, rate) then BadCorner
      else
        InBandIsPrewarped(corner, rate, tangent);
        InBandIsPrewarped(top, rate, tangent);
        Ok(Highshelf(tangent(corner / rate), tangent(top / rate)))
  }

  /** The settings with which the de-emphasis can be designed: a bypass, or a corner below half the rate. */
  predicate Designable(rate: real, tau: real, twoPi: real) {
    rate > 0.0 && (tau == 0.0 || (tau > 0.0 && twoPi * tau * rate > 2.0))
  }

  /** A design is refused exactly outside these settings, by either half, and whatever the high corner. */
  lemma DesignsAccept(rate: real, tau: real, highCorner: real, twoPi: real, tangent: real -> real)
    requires twoPi > 0.0 && Prewarps(tangent)
    ensures DesignDeemphasis(rate, tau, twoPi, tangent).Ok? <==> Designable(rate, tau, twoPi)
    ensures DesignPreemphasis(rate, tau, highCorner, twoPi, tangent).Ok? <==> Designable(rate, tau, twoPi)
  {
    if rate > 0.0 && tau > 0.0 {
      CornerInBand(rate, tau, twoPi, twoPi * tau, twoPi * tau * rate);
    }
  }

  lemma CornerInBand(rate: real, tau: real, twoPi: real, turn: real, turns: real)
    requires rate > 0.0 && tau > 0.0 && twoPi > 0.0 && turn == twoPi * tau && turns == turn * rate
    ensures InBand(CornerOf(tau, twoPi), rate) <==> turns > 2.0
  {
    PositiveProduct(twoPi, tau, turn);
    var corner := 1.0 / turn;
    assert corner == CornerOf(tau, twoPi);
    var gap := 0.5 * rate - corner;
    var scaled := gap * turn;
    Reciprocal(rate, turn, corner, scaled, turns);
    if gap > 0.0 {
      PositiveProduct(gap, turn, scaled);
    } else if gap < 0.0 {
      PositiveProduct(-gap, turn, -scaled);
    }
  }

  lemma Reciprocal(rate: real, turn: real, corner: real, scaled: real, turns: real)
    requires turn > 0.0 && corner == 1.0 / turn && scaled == (0.5 * rate - corner) * turn && turns == turn * rate
    ensures corner > 0.0 && scaled == 0.5 * turns - 1.0
  {
    assert corner * turn == 1.0;
  }

  // ---------------------------------------------------------------- filtering

  datatype State = State(lastInput: real, lastOutput: real)

  const ZERO := State(0.0, 0.0)

  /** An output smaller than `tiny` becomes zero. */
  function Flush(y: real, tiny: real): real { if -tiny < y < tiny then 0.0 else y }

  function StepOf(z: Section, tiny: real, s: State, x: real): real {
    Flush(z.b0 * x + z.b1 * s.lastInput + z.p * s.lastOutput, tiny)
  }

  function Filter(z: Section, tiny: real, s: State, xs: seq<real>): (ys: seq<real>)
    ensures |ys| == |xs|
    decreases |xs|, 0
  {
    if xs == [] then []
    else
      var last := |xs| - 1;
      Filter(z, tiny, s, xs[..last]) + [StepOf(z, tiny, After(z, tiny, s, xs[..last]), xs[last])]
  }

  function After(z: Section, tiny: real, s: State, xs: seq<real>): State
    decreases |xs|, 1
  {
    if xs == [] then s else State(xs[|xs| - 1], Filter(z, tiny, s, xs)[|xs| - 1])
  }

  /** Splitting a stream into calls changes nothing: the state carries over. */
  lemma {:induction false} FilterSplits(z: Section, tiny: real, s: State, a: seq<real>, b: seq<real>)
    ensures Filter(z, tiny, s, a + b) == Filter(z, tiny, s, a) + Filter(z, tiny, After(z, tiny, s, a), b)
    ensures After(z, tiny, s, a + b) == After(z, tiny, After(z, tiny, s, a), b)
    decreases |b|
  {
    hide StepOf;
    if b == [] {
      assert a + b == a;
    } else {
      var last := |b| - 1;
      assert (a + b)[..|a + b| - 1] == a + b[..last];
      FilterSplits(z, tiny, s, a, b[..last]);
    }
  }

  /** One filter of the pair. Both run the same recursion on their own section. */
  class EmphasisFilter {
    var section: Section
    var lastInput: real
    var lastOutput: real

    ghost function Model(): State
      reads this
    {
      State(lastInput, lastOutput)
    }

    constructor (section: Section)
      ensures this.section == section && Model() == ZERO
    {
      this.section := section;
      lastInput, lastOutput := 0.0, 0.0;
    }

    method Reset()
      modifies this`lastInput, this`lastOutput
      ensures Model() == ZERO
    {
      lastInput, lastOutput := 0.0, 0.0;
    }

    /** New coefficients. The delay elements stay. */
    method Retune(section: Section)
      modifies this`section
      ensures this.section == section && Model() == old(Model())
    {
      this.section := section;
    }

    /** Filters as many samples as both spans hold. */
    method ProcessBulk(input: seq<real>, output: array<real>, tiny: real)
      modifies this`lastInput, this`lastOutput, output
      ensures var n := Min(|input|, output.Length);
        && output[..n] == Filter(section, tiny, old(Model()), input[..n])
        && output[n..] == old(output[n..])
        && Model() == After(section, tiny, old(Model()), input[..n])
    {
      hide StepOf;
      var n := Min(|input|, output.Length);
      ghost var start, was := Model(), output[..];
      var last, out := lastInput, lastOutput;
      assert input[..0] == [];
      for i := 0 to n
        modifies output
        invariant output[..i] == Filter(section, tiny, start, input[..i])
        invariant State(last, out) == After(section, tiny, start, input[..i])
        invariant output[n..] == was[n..]
      {
        assert input[..i + 1][..i] == input[..i];
        out := StepOf(section, tiny, State(last, out), input[i]);
        last := input[i];
        output[i] := out;
        assert output[..i + 1] == output[..i] + [out];
      }
      lastInput, lastOutput := last, out;
    }
  }

  // ---------------------------------------------------------------- the pair

  /** The bypass passes every sample unchanged. */
  lemma {:induction false} BypassIsIdentity(s: State, xs: seq<real>)
    ensures Filter(BYPASS, 0.0, s, xs) == xs
  {
    if xs != [] {
      BypassIsIdentity(s, xs[..|xs| - 1]);
    }
  }

  /** What the coefficients of the pair, of the lowpass and of the relation between their states have in common. */
  ghost predicate Cancel(pre: Section, de: Section, low: Section, alpha: real, beta: real) {
    && low.b1 == low.b0 && low.p == pre.p && de.b1 == de.b0
    && de.b0 * pre.b0 == low.b0 && de.b0 * pre.b1 == -(low.b0 * de.p)
    && alpha * low.b0 + beta == low.b0
    && pre.p * beta - low.b0 * de.p == alpha * low.b0
    && alpha * pre.p + alpha == pre.p - de.p
  }

  /** The pre-emphasised stream, scaled by the de-emphasis, is a fixed mix of the lowpass's output and the input. */
  ghost predicate Mixes(de: Section, alpha: real, beta: real, x: real, u: real, v: real) {
    de.b0 * u == alpha * v + beta * x
  }

  function Next(z: Section, x0: real, y0: real, x: real): real { z.b0 * x + z.b1 * x0 + z.p * y0 }

  lemma MixGoesOn(pre: Section, de: Section, low: Section, alpha: real, beta: real, x0: real, u0: real, v0: real, x: real)
    requires Cancel(pre, de, low, alpha, beta) && Mixes(de, alpha, beta, x0, u0, v0)
    ensures Mixes(de, alpha, beta, x, Next(pre, x0, u0, x), Next(low, x0, v0, x))
  {
  }

  lemma ThreeTerms(a: real, b: real, x: real, c: real, y: real, d: real, z: real)
    ensures a * (b * x + c * y + d * z) == (a * b) * x + (a * c) * y + (a * d) * z
    ensures (a * d) * z == d * (a * z)
  {
  }

  lemma Gather(a: real, b: real, x: real)
    ensures a * x + b * x == (a + b) * x
  {
  }

  lemma MixIsLowpassed(pre: Section, de: Section, low: Section, alpha: real, beta: real, x0: real, u0: real, v0: real,
                       x: real, u: real, v: real)
    requires Cancel(pre, de, low, alpha, beta)
    requires Mixes(de, alpha, beta, x0, u0, v0) && Mixes(de, alpha, beta, x, u, v) && v == Next(low, x0, v0, x)
    ensures Next(de, u0, v0, u) == v
  {
    var b, p := low.b0, pre.p;
    var a1 := alpha - 1.0;
    ThreeTerms(a1, b, x, b, x0, p, v0);
    assert a1 * b == -beta;
    assert a1 * v == -beta * x - beta * x0 + (a1 * p) * v0;
    assert a1 * v == alpha * v - v;
    assert a1 * p == alpha * p - p;
    Gather(alpha * p - p, alpha, v0);
    Gather(alpha * p - p + alpha, de.p, v0);
  }

  /** The weights of the lowpass's output and of the input in the scaled pre-emphasised stream. */
  function Alpha(kl: real, kh: real): real
    requires kl > 0.0
  {
    (kl - kh) / (1.0 + kl)
  }

  function Beta(kl: real, kh: real): real
    requires kl > 0.0
  {
    kh / (1.0 + kl)
  }

  lemma Fraction(x: real, y: real, inverse: real)
    requires y != 0.0 && y * inverse == 1.0
    ensures x / y == x * inverse
  {
  }

  /** The zero of the pre-emphasis cancels the pole of the de-emphasis. */
  lemma DesignsCancel(kl: real, kh: real)
    requires kl > 0.0 && kh > 0.0
    ensures Cancel(Highshelf(kl, kh), Lowpass(kl), Lowpass(kh), Alpha(kl, kh), Beta(kl, kh))
  {
    hide Cancel;
    var i, m, n := 1.0 / kl, 1.0 / (1.0 + kl), 1.0 / (1.0 + kh);
    LowpassByInverse(kl, m);
    LowpassByInverse(kh, n);
    HighshelfByInverse(kl, kh, i, n);
    Fraction(kl - kh, 1.0 + kl, m);
    Fraction(kh, 1.0 + kl, m);
    CoefficientsCancel(kl, kh, i, m, n, Highshelf(kl, kh), Lowpass(kl), Lowpass(kh), Alpha(kl, kh), Beta(kl, kh));
  }

  lemma LowpassByInverse(k: real, m: real)
    requires k > 0.0 && (1.0 + k) * m == 1.0
    ensures Lowpass(k) == Section(k * m, k * m, (1.0 - k) * m)
  {
  }

  lemma HighshelfByInverse(kl: real, kh: real, i: real, n: real)
    requires kl > 0.0 && kh > 0.0 && kl * i == 1.0 && (1.0 + kh) * n == 1.0
    ensures Highshelf(kl, kh) == Section(kh * i * (1.0 + kl) * n, -(kh * i) * (1.0 - kl) * n, (1.0 - kh) * n)
  {
  }

  lemma CoefficientsCancel(kl: real, kh: real, i: real, m: real, n: real, pre: Section, de: Section, low: Section,
                           alpha: real, beta: real)
    requires kl * i == 1.0 && (1.0 + kl) * m == 1.0 && (1.0 + kh) * n == 1.0
    requires pre == Section(kh * i * (1.0 + kl) * n, -(kh * i) * (1.0 - kl) * n, (1.0 - kh) * n)
    requires de == Section(kl * m, kl * m, (1.0 - kl) * m) && low == Section(kh * n, kh * n, (1.0 - kh) * n)
    requires alpha == (kl - kh) * m && beta == kh * m
    ensures Cancel(pre, de, low, alpha, beta)
  {
  }

  lemma StepIsNext(z: Section, s: State, x: real)
    ensures StepOf(z, 0.0, s, x) == Next(z, s.lastInput, s.lastOutput, x)
  {
  }

  lemma NothingMixes(de: Section, alpha: real, beta: real)
    ensures Mixes(de, alpha, beta, 0.0, 0.0, 0.0)
  {
  }

  /** From rest, the pair filters every stream as the lowpass at the high corner does, and stays in step with it. */
  lemma {:induction false} PairFollowsLowpass(pre: Section, de: Section, low: Section, alpha: real, beta: real, xs: seq<real>)
    requires Cancel(pre, de, low, alpha, beta)
    ensures Filter(de, 0.0, ZERO, Filter(pre, 0.0, ZERO, xs)) == Filter(low, 0.0, ZERO, xs)
    ensures After(pre, 0.0, ZERO, xs).lastInput == After(low, 0.0, ZERO, xs).lastInput
    ensures Mixes(de, alpha, beta, After(low, 0.0, ZERO, xs).lastInput, After(pre, 0.0, ZERO, xs).lastOutput,
                  After(low, 0.0, ZERO, xs).lastOutput)
    ensures After(de, 0.0, ZERO, Filter(pre, 0.0, ZERO, xs)) ==
      State(After(pre, 0.0, ZERO, xs).lastOutput, After(low, 0.0, ZERO, xs).lastOutput)
  {
    hide StepOf, Cancel, Mixes, Next;
    if xs == [] {
      NothingMixes(de, alpha, beta);
    } else {
      var last := |xs| - 1;
      var rest, x := xs[..last], xs[last];
      PairFollowsLowpass(pre, de, low, alpha, beta, rest);
      var p, v := After(pre, 0.0, ZERO, rest), After(low, 0.0, ZERO, rest);
      var u1, v1 := Next(pre, p.lastInput, p.lastOutput, x), Next(low, v.lastInput, v.lastOutput, x);
      StepIsNext(pre, p, x);
      StepIsNext(low, v, x);
      StepIsNext(de, State(p.lastOutput, v.lastOutput), u1);
      MixGoesOn(pre, de, low, alpha, beta, p.lastInput, p.lastOutput, v.lastOutput, x);
      MixIsLowpassed(pre, de, low, alpha, beta, p.lastInput, p.lastOutput, v.lastOutput, x, u1, v1);
      var us := Filter(pre, 0.0, ZERO, xs);
      assert us == Filter(pre, 0.0, ZERO, rest) + [u1] && us[..last] == Filter(pre, 0.0, ZERO, rest);
    }
  }

  lemma TopOfRate(rate: real, highCorner: real)
    requires rate > 0.0
    ensures InBand(EffectiveTop(rate, highCorner), rate)
    ensures EffectiveTop(rate, highCorner) / rate == if 0.0 < highCorner < rate / 2.0 then highCorner / rate else 0.4625
  {
    var top := 0.4625 * rate;
    ShareOf(top, 0.4625, rate);
    assert 0.925 * 0.5 * rate == top;
  }

  lemma ShareOf(part: real, share: real, whole: real)
    requires whole != 0.0 && part == share * whole
    ensures part / whole == share
  {
  }

  /**
   At one rate and time constant both halves can be designed or neither can. Without a time constant the pair passes the
   stream through, and otherwise it is exactly the single-pole lowpass at the high corner, or at 0.4625 of the rate where
   the high corner is not below half the rate.
   */
  lemma PairIsALowpass(rate: real, tau: real, highCorner: real, twoPi: real, tangent: real -> real, xs: seq<real>)
    requires twoPi > 0.0 && Prewarps(tangent)
    ensures var pre := DesignPreemphasis(rate, tau, highCorner, twoPi, tangent);
      var de := DesignDeemphasis(rate, tau, twoPi, tangent);
      && (pre.Ok? <==> de.Ok?)
      && (pre.Ok? ==>
            var top := tangent(if 0.0 < highCorner < rate / 2.0 then highCorner / rate else 0.4625);
            var both := Filter(de.value, 0.0, ZERO, Filter(pre.value, 0.0, ZERO, xs));
            if tau == 0.0 then both == xs
            else top > 0.0 && both == Filter(Lowpass(top), 0.0, ZERO, xs))
  {
    hide Lowpass, Highshelf, Filter, CornerOf;
    var pre := DesignPreemphasis(rate, tau, highCorner, twoPi, tangent);
    if rate > 0.0 && tau == 0.0 {
      BypassIsIdentity(ZERO, xs);
    } else if rate > 0.0 && tau >= 0.0 {
      var corner, top := CornerOf(tau, twoPi), EffectiveTop(rate, highCorner);
      TopOfRate(rate, highCorner);
      InBandIsPrewarped(top, rate, tangent);
      if InBand(corner, rate) {
        InBandIsPrewarped(corner, rate, tangent);
        var kl, kh := tangent(corner / rate), tangent(top / rate);
        DesignsCancel(kl, kh);
        PairFollowsLowpass(Highshelf(kl, kh), Lowpass(kl), Lowpass(kh), Alpha(kl, kh), Beta(kl, kh), xs);
      }
    }
  }

  // ---------------------------------------------------------------- responses

  /** The squared magnitude of the section's numerator at the angle of cosine `c`. */
  function Numerator(z: Section, c: real): real { z.b0 * z.b0 + z.b1 * z.b1 + 2.0 * (z.b0 * z.b1) * c }

  /** The squared magnitude of its denominator there. */
  function Denominator(z: Section, c: real): real { 1.0 + z.p * z.p - 2.0 * z.p * c }

  lemma HalfPasses(k: real, m: real, c: real)
    requires (1.0 + k) * m == 1.0 && c * (1.0 + k * k) == 1.0 - k * k
    ensures var z := Section(k * m, k * m, (1.0 - k) * m); 2.0 * Numerator(z, c) == Denominator(z, c)
  {
    var z, s := Section(k * m, k * m, (1.0 - k) * m), m * m;
    assert Numerator(z, c) == s * (2.0 * (k * k) * (1.0 + c));
    assert 1.0 == s * ((1.0 + k) * (1.0 + k));
    assert Denominator(z, c) == s * (2.0 * (1.0 + k * k) - 2.0 * (1.0 - k * k) * c);
  }

  /**
   A constant passes the de-emphasis unchanged, and at the corner of its time constant half of the power passes. The
   prewarped corner is the tangent of half the corner's angle, which gives the cosine `c` of that angle.
   */
  lemma DeemphasisResponse(rate: real, tau: real, twoPi: real, tangent: real -> real, corner: real, c: real)
    requires twoPi > 0.0 && Prewarps(tangent) && DesignDeemphasis(rate, tau, twoPi, tangent).Ok?
    requires tau != 0.0 && rate > 0.0 && corner * (twoPi * tau) == 1.0
    requires var k := tangent(corner / rate); c * (1.0 + k * k) == 1.0 - k * k
    ensures var z := DesignDeemphasis(rate, tau, twoPi, tangent).value;
      z.b0 + z.b1 == 1.0 - z.p && 2.0 * Numerator(z, c) == Denominator(z, c)
  {
    hide Numerator, Denominator;
    CornerIs(tau, twoPi, corner);
    var k := tangent(corner / rate);
    InBandIsPrewarped(corner, rate, tangent);
    var m := 1.0 / (1.0 + k);
    LowpassByInverse(k, m);
    HalfPasses(k, m, c);
    UnitGain(k, m);
  }

  lemma CornerIs(tau: real, twoPi: real, corner: real)
    requires tau != 0.0 && twoPi > 0.0 && corner * (twoPi * tau) == 1.0
    ensures CornerOf(tau, twoPi) == corner
  {
  }

  lemma UnitGain(k: real, m: real)
    requires (1.0 + k) * m == 1.0
    ensures k * m + k * m == 1.0 - (1.0 - k) * m
  {
  }

  /** An output is settled by the inputs up to it. */
  lemma {:induction false} FilterAt(z: Section, tiny: real, s: State, xs: seq<real>, i: nat)
    requires i < |xs|
    ensures var ys := Filter(z, tiny, s, xs);
      var before := if i == 0 then s else State(xs[i - 1], ys[i - 1]);
      ys[i] == StepOf(z, tiny, before, xs[i])
  {
    hide StepOf;
    var last := |xs| - 1;
    if i < last {
      FilterAt(z, tiny, s, xs[..last], i);
    } else if i > 0 {
      assert After(z, tiny, s, xs[..last]) == State(xs[i - 1], Filter(z, tiny, s, xs[..last])[i - 1]);
    }
  }

  /** Each output is what the section gives for the two newest inputs and the output before, and 0 where that is tiny. */
  lemma OutputsAreFlushed(z: Section, tiny: real, s: State, xs: seq<real>, i: nat, before: State, exact: real)
    requires i < |xs| && tiny > 0.0
    requires before == if i == 0 then s else State(xs[i - 1], Filter(z, tiny, s, xs)[i - 1])
    requires exact == z.b0 * xs[i] + z.b1 * before.lastInput + z.p * before.lastOutput
    ensures Filter(z, tiny, s, xs)[i] == if -tiny < exact < tiny then 0.0 else exact
  {
    hide Filter;
    FilterAt(z, tiny, s, xs, i);
  }
}
