/** The power detector, the two squelches built on it, and when they put out the same samples. */
module SquelchPower {
  import opened Basics
  import opened WeightedMean
  import opened ComplexNumbers
  import opened SquelchSpec
  import opened SquelchBlock

  // ---------------------------------------------------------------- the detector

  datatype Detector = Detector(power: real, alpha: real, threshold: real)

  function Square(x: real): (r: real)
    ensures x != 0.0 ==> r > 0.0
    ensures x == 0.0 ==> r == 0.0
  {
    var r := x * x;
    if x < 0.0 then
      PositiveProduct(0.0 - x, 0.0 - x, r);
      r
    else if x > 0.0 then
      PositiveProduct(x, x, r);
      r
    else r
  }

  function Energy(x: Complex): (e: real)
    ensures e >= 0.0
    ensures e == 0.0 <==> x == ZERO
  {
    hide Square;
    assert x == Complex(x.re, x.im);
    Square(x.re) + Square(x.im)
  }

  function Average(power: real, alpha: real, energy: real): real {
    Flushed((1.0 - alpha) * power + alpha * energy)
  }

  function Heard(d: Detector, x: Complex): Detector { d.(power := Average(d.power, d.alpha, Energy(x))) }

  predicate Open(d: Detector) { d.power >= d.threshold }

  function HeardAll(d: Detector, xs: seq<Complex>): Detector {
    if xs == [] then d else Heard(HeardAll(d, xs[..|xs| - 1]), xs[|xs| - 1])
  }

  /** The detector's answer to each sample. */
  function Decisions(d: Detector, xs: seq<Complex>): (us: seq<bool>)
    ensures |us| == |xs|
  {
    seq(|xs|, i requires 0 <= i < |xs| => Open(HeardAll(d, xs[..i + 1])))
  }

  lemma HeardNothing(d: Detector)
    ensures HeardAll(d, []) == d
  {
  }

  lemma HeardAt(d: Detector, xs: seq<Complex>, i: nat)
    requires i < |xs|
    ensures HeardAll(d, xs[..i + 1]) == Heard(HeardAll(d, xs[..i]), xs[i])
    ensures Decisions(d, xs)[i] == Open(HeardAll(d, xs[..i + 1]))
  {
    assert xs[..i + 1][..i] == xs[..i];
  }

  class PowerDetector {
    var power: real
    var alpha: real
    var threshold: real

    ghost function Model(): Detector
      reads this
    {
      Detector(power, alpha, threshold)
    }

    constructor (alpha: real, threshold: real)
      ensures Model() == Detector(0.0, alpha, threshold)
    {
      this.power, this.alpha, this.threshold := 0.0, alpha, threshold;
    }

    method Unmuted(energy: real) returns (unmuted: bool)
      modifies this`power
      ensures Model() == old(Model()).(power := Average(old(power), alpha, energy))
      ensures unmuted <==> Open(Model())
    {
      power := (1.0 - alpha) * power + alpha * energy;
      if power < MIN_NORMAL {
        power := 0.0;
      }
      unmuted := power >= threshold;
    }
  }

  /** The squared magnitude of a sample. */
  function Strength(x: Complex): (r: real)
    ensures r >= 0.0
  {
    x.re * x.re + x.im * x.im
  }

  function Strengths(xs: seq<Complex>): (levels: seq<real>)
    ensures |levels| == |xs|
  {
    seq(|xs|, i requires 0 <= i < |xs| => Strength(xs[i]))
  }

  /** The detector's power is the weighted mean of the squared magnitudes heard, less what was flushed. */
  lemma {:induction false} HearsTheMean(d: Detector, xs: seq<Complex>)
    requires 0.0 < d.alpha <= 1.0 && d.power == 0.0
    ensures var mean, power := Mean(Strengths(xs), d.alpha), HeardAll(d, xs).power;
      && HeardAll(d, xs) == d.(power := power)
      && Follows(d.alpha, mean, power) && (Unflushed(Strengths(xs), d.alpha) ==> power == mean)
  {
    hide Mean, Follows, Unflushed, Average, Strength, HalfPower;
    if xs == [] {
      MeanOfNothing(d.alpha);
      NothingFollows(d.alpha);
    } else {
      var before, x := xs[..|xs| - 1], xs[|xs| - 1];
      var power := HeardAll(d, before).power;
      var moved := power * (1.0 - d.alpha) + d.alpha * Strength(x);
      HearsTheMean(d, before);
      assert Strengths(xs) == Strengths(before) + [Strength(x)];
      AverageIs(power, d.alpha, x, moved);
      OneMoreLevel(Strengths(before), Strength(x), d.alpha, power, moved);
    }
  }

  lemma AverageIs(power: real, alpha: real, x: Complex, moved: real)
    requires moved == power * (1.0 - alpha) + alpha * Strength(x)
    ensures Average(power, alpha, Energy(x)) == if moved < MIN_NORMAL then 0.0 else moved
  {
    hide HalfPower;
    assert Energy(x) == Strength(x);
  }

  // ---------------------------------------------------------------- the two blocks

  /** What the simple squelch puts out: a sample or zero, as the detector says. */
  function SimpleOutputs(d: Detector, xs: seq<Complex>): (ys: seq<Complex>)
    ensures |ys| == |xs|
  {
    seq(|xs|, i requires 0 <= i < |xs| => if Decisions(d, xs)[i] then xs[i] else ZERO)
  }

  class SimpleSquelch {
    const detector: PowerDetector
    var unmuted: bool

    constructor (alpha: real, threshold: real)
      ensures detector.Model() == Detector(0.0, alpha, threshold) && !unmuted && fresh(detector)
    {
      detector := new PowerDetector(alpha, threshold);
      unmuted := false;
    }

    /** A call over `n` samples, as far as input and output go. */
    method ProcessBulk(input: seq<Complex>, room: nat) returns (output: seq<Complex>)
      modifies this`unmuted, detector`power
      ensures var xs := input[..Min(|input|, room)];
        && output == SimpleOutputs(old(detector.Model()), xs)
        && detector.Model() == HeardAll(old(detector.Model()), xs)
        && (unmuted <==> if xs == [] then old(unmuted) else Open(detector.Model()))
    {
      hide Average, Energy, HeardAll, Decisions;
      var n := Min(|input|, room);
      var open := unmuted;
      output := [];
      ghost var start, xs := detector.Model(), input[..n];
      assert xs[..0] == [];
      HeardNothing(start);
      for i := 0 to n
        invariant |output| == i && detector.Model() == HeardAll(start, xs[..i])
        invariant open <==> if i == 0 then old(unmuted) else Open(detector.Model())
        invariant forall k :: 0 <= k < i ==> output[k] == SimpleOutputs(start, xs)[k]
      {
        HeardAt(start, xs, i);
        open := detector.Unmuted(Energy(input[i]));
        output := output + [if open then input[i] else ZERO];
      }
      assert xs[..n] == xs;
      unmuted := open;
    }
  }

  /** Without gating every sample leaves in its own place with its own gain. */
  lemma {:induction false} UngatedIsOneToOne<T>(plays: seq<Out>, raw: seq<RawTag<T>>, first: nat, carry: seq<T>, n: nat)
    requires n <= |plays|
    ensures var outs := Gated(plays, raw, first, false, carry, n).0;
      && |outs| == n
      && forall i :: 0 <= i < n ==> outs[i].index == i && outs[i].gain == plays[i].gain
  {
    if n > 0 {
      UngatedIsOneToOne(plays, raw, first, carry, n - 1);
    }
  }

  class PowerSquelch<T(!new)> {
    const detector: PowerDetector
    const machine: SquelchGate<T>
    var unmuted: bool

    constructor (alpha: real, threshold: real)
      ensures detector.Model() == Detector(0.0, alpha, threshold)
      ensures machine.gate.Valid() && machine.gate.Model() == AtRest(0) && machine.carry == []
      ensures fresh(detector) && fresh(machine) && fresh(machine.gate)
    {
      detector := new PowerDetector(alpha, threshold);
      machine := new SquelchGate<T>();
      unmuted := false;
    }

    /** A call: the detector's answers go through the gate, which says what leaves with which gain and tags. */
    method ProcessBulk(input: seq<Complex>, room: nat, raw: seq<RawTag<T>>, first: nat, gating: bool)
      returns (outs: seq<Produced<T>>)
      requires machine.gate.Valid() && InOrder(raw)
      modifies this, detector, machine, machine.gate
      ensures machine.gate.Valid()
      ensures var xs := input[..Min(|input|, room)];
        var us, gate := Decisions(old(detector.Model()), xs), old(machine.gate.Model());
        && detector.Model() == HeardAll(old(detector.Model()), xs)
        && machine.gate.Model() == After(gate, us)
        && (outs, machine.carry) == Gated(Play(gate, us), raw, first, gating, old(machine.carry), |xs|)
        && (unmuted <==> After(gate, us).state.Attack? || After(gate, us).state.Unmuted?)
    {
      hide Average, Energy, HeardAll, Decisions, Play, Gated, After, StepOf, WellFormed;
      var n := Min(|input|, room);
      var us: seq<bool> := [];
      ghost var start, xs := detector.Model(), input[..n];
      assert xs[..0] == [];
      HeardNothing(start);
      for i := 0 to n
        modifies detector
        invariant |us| == i && detector.Model() == HeardAll(start, xs[..i])
        invariant forall k :: 0 <= k < i ==> us[k] == Decisions(start, xs)[k]
      {
        HeardAt(start, xs, i);
        var open := detector.Unmuted(Energy(input[i]));
        us := us + [open];
      }
      assert us == Decisions(start, xs);
      assert xs[..n] == xs;
      outs := machine.Run(raw, first, us, gating);
      unmuted := machine.gate.state == Attack || machine.gate.state == Unmuted;
    }
  }

  /** The sample at its gain. `raised` gives the steps of the raised cosine. */
  function Weighed(x: Complex, gain: Gain, raised: (nat, nat) -> real): Complex {
    match gain
    case Silence => ZERO
    case Full => x
    case Shape(r, length) => Times(Complex(raised(r, length), 0.0), x)
  }

  /** What the power squelch puts out from rest, with no ramp and no gating. */
  function PowerOutputs(d: Detector, xs: seq<Complex>, raised: (nat, nat) -> real): (ys: seq<Complex>)
    ensures |ys| == |xs|
  {
    seq(|xs|, i requires 0 <= i < |xs| => Weighed(xs[i], Play(AtRest(0), Decisions(d, xs))[i].gain, raised))
  }

  /** A call from rest with no ramp and no gating puts out exactly these samples, whatever tags go with them. */
  lemma CallPutsOut<T>(d: Detector, xs: seq<Complex>, raw: seq<RawTag<T>>, first: nat, carry: seq<T>,
                       raised: (nat, nat) -> real)
    ensures var outs := Gated(Play(AtRest(0), Decisions(d, xs)), raw, first, false, carry, |xs|).0;
      && |outs| == |xs|
      && forall i :: 0 <= i < |xs| ==>
        outs[i].index == i && Weighed(xs[i], outs[i].gain, raised) == PowerOutputs(d, xs, raised)[i]
  {
    hide Gated, Decisions, Play;
    UngatedIsOneToOne(Play(AtRest(0), Decisions(d, xs)), raw, first, carry, |xs|);
  }

  // ---------------------------------------------------------------- when they agree

  /** The two blocks put out the same samples exactly when every sample that the detector closes on is zero. */
  lemma OutputsAgree(d: Detector, xs: seq<Complex>, raised: (nat, nat) -> real)
    ensures PowerOutputs(d, xs, raised) == SimpleOutputs(d, xs) <==>
      forall i :: 0 <= i < |xs| && ClosesAt(Decisions(d, xs), i) ==> xs[i] == ZERO
  {
    hide Decisions, Play;
    var us := Decisions(d, xs);
    var ours, theirs := PowerOutputs(d, xs, raised), SimpleOutputs(d, xs);
    forall i | 0 <= i < |xs| ensures ours[i] == theirs[i] <==> (ClosesAt(us, i) ==> xs[i] == ZERO) {
      GainWithoutRamp(us, AtRest(0), i);
    }
    if forall i :: 0 <= i < |xs| && ClosesAt(us, i) ==> xs[i] == ZERO {
      assert ours == theirs;
    }
  }

  lemma SmallestIsSmall()
    ensures 0.0 < MIN_NORMAL < 0.01
  {
    HalfPowerFalls(7, 1022);
    assert HalfPower(7) == 1.0 / 128.0;
  }

  lemma DecisionsOfTwo(d: Detector, x: Complex, y: Complex)
    ensures HeardAll(d, [x]) == Heard(d, x) && HeardAll(d, [x, y]) == Heard(Heard(d, x), y)
    ensures Decisions(d, [x, y]) == [Open(Heard(d, x)), Open(Heard(Heard(d, x), y))]
  {
    assert [x, y][..1] == [x] && [x][..0] == [] && [x, y][..2] == [x, y];
  }

  /** Without averaging and with a quarter of full power as the threshold, the sample that closes is passed by one block. */
  lemma OutputsMayDiffer(raised: (nat, nat) -> real)
    ensures var d, xs := Detector(0.0, 1.0, 0.25), [ONE, Complex(0.1, 0.0)];
      && Decisions(d, xs) == [true, false]
      && PowerOutputs(d, xs, raised) == xs && SimpleOutputs(d, xs) == [ONE, ZERO]
  {
    var d, xs := Detector(0.0, 1.0, 0.25), [ONE, Complex(0.1, 0.0)];
    SmallestIsSmall();
    DecisionsOfTwo(d, xs[0], xs[1]);
    var us := Decisions(d, xs);
    GainWithoutRamp(us, AtRest(0), 0);
    GainWithoutRamp(us, AtRest(0), 1);
  }

  // ---------------------------------------------------------------- for which settings they agree on every stream

  /** The settings the blocks accept for the averager, and a level. */
  predicate Averages(d: Detector) { 0.0 < d.alpha <= 1.0 && d.power >= 0.0 }

  lemma AverageIsPositive(d: Detector, x: Complex)
    requires Averages(d)
    ensures Averages(Heard(d, x))
  {
    SmallestIsSmall();
  }

  lemma {:induction false} StaysPositive(d: Detector, xs: seq<Complex>)
    requires Averages(d)
    ensures Averages(HeardAll(d, xs)) && HeardAll(d, xs).threshold == d.threshold && HeardAll(d, xs).alpha == d.alpha
  {
    hide Heard, Averages;
    if xs == [] {
      HeardNothing(d);
    } else {
      StaysPositive(d, xs[..|xs| - 1]);
      AverageIsPositive(HeardAll(d, xs[..|xs| - 1]), xs[|xs| - 1]);
      HeardKeepsSettings(HeardAll(d, xs[..|xs| - 1]), xs[|xs| - 1]);
    }
  }

  lemma HeardKeepsSettings(d: Detector, x: Complex)
    ensures Heard(d, x).alpha == d.alpha && Heard(d, x).threshold == d.threshold
  {
  }

  /** A sample so loud that the detector opens on it. */
  function Loud(d: Detector): Complex
    requires Averages(d)
  {
    Complex((Larger(d.threshold, 0.0) + 1.0) / d.alpha, 0.0)
  }

  function Larger(a: real, b: real): real { if a < b then b else a }

  lemma LoudOpens(d: Detector)
    requires Averages(d)
    ensures Open(Heard(d, Loud(d)))
  {
    hide MIN_NORMAL, Square, Energy;
    SmallestIsSmall();
    var level := Larger(d.threshold, 0.0) + 1.0;
    var x := level / d.alpha;
    LoudIsAbove(d.alpha, level, x, d.alpha * Square(x));
    NotNegative(1.0 - d.alpha, d.power, (1.0 - d.alpha) * d.power);
    EnergyOnLine(x);
  }

  lemma LoudIsAbove(alpha: real, level: real, x: real, heard: real)
    requires level >= 1.0 && 0.0 < alpha <= 1.0 && x == level / alpha && heard == alpha * Square(x)
    ensures heard >= level
  {
    hide Square;
    SquareIs(x);
    assert alpha * x == level;
    if x <= 0.0 {
      NotNegative(alpha, -x, alpha * -x);
    } else {
      NotNegative(1.0 - alpha, x, (1.0 - alpha) * x);
      assert (1.0 - alpha) * x == x - level;
    }
    assert heard == level * x;
    NotNegative(level, x - 1.0, level * (x - 1.0));
  }

  lemma SquareIs(x: real)
    ensures Square(x) == x * x
  {
  }

  lemma EnergyOnLine(x: real)
    ensures Energy(Complex(x, 0.0)) == Square(x)
  {
    hide Square;
  }

  /** A sample too soft to keep the detector open, but not zero. */
  function Soft(threshold: real): Complex { Complex(if threshold >= 1.0 then 0.5 else threshold / 2.0, 0.0) }

  lemma SoftIsBelow(threshold: real)
    requires threshold > 0.0
    ensures Soft(threshold) != ZERO && Energy(Soft(threshold)) < threshold
  {
    hide Energy, Square;
    if threshold < 1.0 {
      SquareOfHalf(threshold);
      EnergyOnLine(threshold / 2.0);
    } else {
      SquareOfHalf(1.0);
      EnergyOnLine(0.5);
    }
  }

  lemma SquareOfHalf(x: real)
    requires 0.0 < x <= 1.0
    ensures Square(x / 2.0) < x && Square(0.5) == 0.25
  {
    var half := x / 2.0;
    PositiveProduct(half, 1.0 - half, half * (1.0 - half));
    assert half * (1.0 - half) == half - half * half;
  }

  /** While the detector is open, each soft sample takes at least this much from its level. */
  function Fall(d: Detector): real { d.alpha * (d.threshold - Energy(Soft(d.threshold))) }

  lemma SoftFalls(d: Detector)
    requires Averages(d) && d.threshold > 0.0
    ensures Fall(d) > 0.0
    ensures Open(d) ==> Heard(d, Soft(d.threshold)).power <= d.power - Fall(d) || !Open(Heard(d, Soft(d.threshold)))
  {
    hide Energy, Soft, Average;
    SoftIsBelow(d.threshold);
    var e := Energy(Soft(d.threshold));
    PositiveProduct(d.alpha, d.threshold - e, Fall(d));
    if Open(d) {
      AverageFalls(d.power, d.alpha, d.threshold, e);
    }
  }

  lemma AverageFalls(power: real, alpha: real, threshold: real, energy: real)
    requires alpha > 0.0 && power >= threshold
    ensures Average(power, alpha, energy) <= power - alpha * (threshold - energy) || Average(power, alpha, energy) == 0.0
  {
    hide MIN_NORMAL;
    var next := (1.0 - alpha) * power + alpha * energy;
    NotNegative(alpha, power - threshold, alpha * (power - threshold));
    assert next == power - alpha * (threshold - energy) - alpha * (power - threshold);
  }

  /** A loud sample and `n` soft ones. */
  function Trailing(d: Detector, n: nat): (xs: seq<Complex>)
    requires Averages(d)
    ensures |xs| == n + 1
  {
    [Loud(d)] + Repeat(Soft(d.threshold), n)
  }

  /** The detector after them. */
  function Fading(d: Detector, n: nat): Detector
    requires Averages(d)
  {
    if n == 0 then Heard(d, Loud(d)) else Heard(Fading(d, n - 1), Soft(d.threshold))
  }

  lemma {:induction false} TrailingFades(d: Detector, n: nat)
    requires Averages(d)
    ensures HeardAll(d, Trailing(d, n)) == Fading(d, n)
  {
    hide Heard, Averages;
    if n == 0 {
      assert Trailing(d, 0)[..0] == [];
    } else {
      TrailingFades(d, n - 1);
      assert Trailing(d, n)[..n] == Trailing(d, n - 1);
    }
  }

  lemma {:induction false} FadingIsLegal(d: Detector, n: nat)
    requires Averages(d)
    ensures Averages(Fading(d, n)) && Fading(d, n).threshold == d.threshold && Fading(d, n).alpha == d.alpha
  {
    hide Heard, Averages;
    if n == 0 {
      AverageIsPositive(d, Loud(d));
      HeardKeepsSettings(d, Loud(d));
    } else {
      FadingIsLegal(d, n - 1);
      AverageIsPositive(Fading(d, n - 1), Soft(d.threshold));
      HeardKeepsSettings(Fading(d, n - 1), Soft(d.threshold));
    }
  }

  /** An open detector loses a fall with each soft sample. */
  lemma {:induction false} OpenFades(d: Detector, n: nat)
    requires Averages(d) && d.threshold > 0.0
    requires forall k :: 0 <= k <= n ==> Open(Fading(d, k))
    ensures Fading(d, n).power <= Fading(d, 0).power - Fall(d) * (n as real)
  {
    hide Heard, Averages, Loud, Open;
    if n > 0 {
      OpenFades(d, n - 1);
      FadingIsLegal(d, n - 1);
      SoftFalls(Fading(d, n - 1));
      assert Open(Fading(d, n));
      assert Fall(d) * (n as real) == Fall(d) * ((n - 1) as real) + Fall(d);
    } else {
      assert Fall(d) * (n as real) == 0.0;
    }
  }

  /** So it closes on one of them. */
  lemma SomeSoftCloses(d: Detector)
    requires Averages(d) && d.threshold > 0.0
    ensures exists k :: k >= 1 && Open(Fading(d, k - 1)) && !Open(Fading(d, k))
  {
    hide Heard, Averages, Loud;
    LoudOpens(d);
    FadingIsLegal(d, 0);
    SoftFalls(d);
    var level, fall := Fading(d, 0).power, Fall(d);
    var n := (level / fall).Floor + 1;
    Exhausts(level, fall, n, fall * (n as real));
    if forall k :: 0 <= k <= n ==> Open(Fading(d, k)) {
      OpenFades(d, n);
      FadingIsLegal(d, n);
      assert false;
    }
    var k :| 0 <= k <= n && !Open(Fading(d, k));
    FirstClosed(d, k);
  }

  lemma Exhausts(level: real, fall: real, n: int, total: real)
    requires level >= 0.0 && fall > 0.0 && n == (level / fall).Floor + 1 && total == fall * (n as real)
    ensures n >= 1 && total >= level
  {
    var q := level / fall;
    assert q * fall == level;
    if q < 0.0 {
      PositiveProduct(-q, fall, -q * fall);
    }
    NotNegative(fall, n as real - q, fall * (n as real - q));
  }

  lemma {:induction false} FirstClosed(d: Detector, k: nat)
    requires Averages(d) && Open(Fading(d, 0)) && !Open(Fading(d, k))
    ensures exists j :: j >= 1 && Open(Fading(d, j - 1)) && !Open(Fading(d, j))
  {
    if !Open(Fading(d, k - 1)) {
      FirstClosed(d, k - 1);
    }
  }

  /** With a threshold above 0, there is a stream on which the two blocks put out different samples. */
  lemma DifferOnSomeStream(d: Detector, raised: (nat, nat) -> real)
    requires Averages(d) && d.threshold > 0.0
    ensures exists xs :: PowerOutputs(d, xs, raised) != SimpleOutputs(d, xs)
  {
    hide Heard, Averages, Loud, Open, Soft, PowerOutputs, SimpleOutputs;
    SomeSoftCloses(d);
    var k :| k >= 1 && Open(Fading(d, k - 1)) && !Open(Fading(d, k));
    var xs := Trailing(d, k);
    TrailingFades(d, k - 1);
    TrailingFades(d, k);
    assert xs[..k] == Trailing(d, k - 1) && xs[..k + 1] == xs;
    SoftIsBelow(d.threshold);
    assert ClosesAt(Decisions(d, xs), k) && xs[k] != ZERO;
    OutputsAgree(d, xs, raised);
  }

  /** The two blocks put out the same samples on every stream exactly when the threshold is not above 0: always open. */
  lemma AgreeOnEveryStream(d: Detector, raised: (nat, nat) -> real)
    requires Averages(d)
    ensures (forall xs :: PowerOutputs(d, xs, raised) == SimpleOutputs(d, xs)) <==> d.threshold <= 0.0
  {
    hide Heard, Averages, PowerOutputs, SimpleOutputs;
    if d.threshold > 0.0 {
      DifferOnSomeStream(d, raised);
    } else {
      forall xs ensures PowerOutputs(d, xs, raised) == SimpleOutputs(d, xs) {
        forall i | 0 <= i < |xs| ensures Decisions(d, xs)[i] {
          StaysPositive(d, xs[..i + 1]);
          LevelIsPositive(HeardAll(d, xs[..i + 1]));
        }
        OutputsAgree(d, xs, raised);
      }
    }
  }

  lemma LevelIsPositive(d: Detector)
    requires Averages(d)
    ensures d.power >= 0.0
  {
  }
}
