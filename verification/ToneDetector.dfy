/** The tone squelch's detector: three single-bin transforms by a two-term recursion, and a decision for every block. */
module ToneDetector {
  import opened Basics
  import opened ComplexNumbers

  // ---------------------------------------------------------------- one bin

  /** The angle of a bin, as its cosine and sine. */
  datatype Tone = Tone(c: real, s: real)

  predicate OnCircle(t: Tone) { t.c * t.c + t.s * t.s == 1.0 }

  function Next(sample: real, twoC: real, s1: real, s2: real): real { sample + twoC * s1 - s2 }

  /** `s1` and `s2` once the samples are pushed. */
  function StateOf(x: seq<real>, twoC: real): (r: (real, real)) {
    if x == [] then (0.0, 0.0)
    else
      var (s1, s2) := StateOf(x[..|x| - 1], twoC);
      (Next(x[|x| - 1], twoC, s1, s2), s1)
  }

  function NormSquared(a: Complex): real { a.re * a.re + a.im * a.im }

  /** The real and imaginary parts that the block takes the magnitude of. */
  function BinOf(s1: real, s2: real, t: Tone): Complex { Complex(t.c * s1 - s2, t.s * s1) }

  function Turn(t: Tone): Complex { Complex(t.c, t.s) }

  function TurnBack(t: Tone): Complex { Complex(t.c, -t.s) }

  function Complexes(x: seq<real>): (r: seq<Complex>)
    ensures |r| == |x|
  {
    seq(|x|, i requires 0 <= i < |x| => Complex(x[i], 0.0))
  }

  /** The samples weighted by rising powers of the tone from the last one back. */
  function Horner(x: seq<real>, t: Tone): Complex {
    if x == [] then ZERO else Plus(Times(Horner(x[..|x| - 1], t), Turn(t)), Complex(x[|x| - 1], 0.0))
  }

  /** The last step of the recursion less the one before, turned back. */
  function Carried(s1: real, s2: real, t: Tone): Complex { Complex(s1 - t.c * s2, t.s * s2) }

  /** The recursion carries the weighted sum. */
  lemma {:induction false} StateIsHorner(x: seq<real>, t: Tone)
    requires OnCircle(t)
    ensures Horner(x, t) == Carried(StateOf(x, 2.0 * t.c).0, StateOf(x, 2.0 * t.c).1, t)
  {
    hide Times, BinOf, Plus, Turn, Carried, Next;
    if x == [] {
      NothingCarried(t);
    } else {
      var last := |x| - 1;
      var before := StateOf(x[..last], 2.0 * t.c);
      StateIsHorner(x[..last], t);
      TurnsOn(before.0, before.1, t);
      NextState(before.0, before.1, x[last], t);
    }
  }

  lemma NothingCarried(t: Tone)
    ensures Carried(0.0, 0.0, t) == ZERO
  {
  }

  lemma NextState(s1: real, s2: real, a: real, t: Tone)
    ensures Plus(BinOf(s1, s2, t), Complex(a, 0.0)) == Carried(Next(a, 2.0 * t.c, s1, s2), s1, t)
  {
  }

  lemma TurnsOn(s1: real, s2: real, t: Tone)
    requires OnCircle(t)
    ensures Times(Carried(s1, s2, t), Turn(t)) == BinOf(s1, s2, t)
  {
  }

  lemma NormMultiplies(a: Complex, b: Complex)
    ensures NormSquared(Times(a, b)) == NormSquared(a) * NormSquared(b)
  {
  }

  lemma TurnKeepsNorm(a: Complex, b: Complex)
    requires NormSquared(b) == 1.0
    ensures NormSquared(Times(a, b)) == NormSquared(a)
  {
  }

  lemma NormOfOne()
    ensures NormSquared(ONE) == 1.0
  {
  }

  lemma NormOfTurns(t: Tone)
    requires OnCircle(t)
    ensures NormSquared(Turn(t)) == 1.0 && NormSquared(TurnBack(t)) == 1.0
  {
  }

  lemma {:induction false} NormOfPower(w: Complex, n: nat)
    requires NormSquared(w) == 1.0
    ensures NormSquared(Power(w, n)) == 1.0
  {
    hide NormSquared, Times;
    if n == 0 {
      NormOfOne();
    } else {
      NormOfPower(w, n - 1);
      NormMultiplies(Power(w, n - 1), w);
    }
  }

  lemma NoTransform(w: Complex)
    ensures Dft([], w, 1) == ZERO
  {
  }

  /** One sample more adds one term to the transform. */
  lemma DftOfNext(x: seq<real>, a: real, w: Complex)
    ensures Dft(Complexes(x + [a]), w, 1) == Plus(Dft(Complexes(x), w, 1), Times(Complex(a, 0.0), Power(w, |x|)))
  {
    hide Times, Plus, Power;
    var longer := Complexes(x + [a]);
    var n := |x|;
    SumsAgree((j: nat) => Term(longer, w, 1, j), (j: nat) => Term(Complexes(x), w, 1, j), n);
    assert Term(longer, w, 1, n) == Times(Complex(a, 0.0), Power(w, n));
  }

  /** The weighted sum, turned back to the first sample, is the transform at the tone's angle. */
  lemma {:induction false} HornerTurnsBack(x: seq<real>, t: Tone)
    requires OnCircle(t)
    ensures Times(Horner(x, t), Power(TurnBack(t), |x|)) == Times(Dft(Complexes(x), TurnBack(t), 1), TurnBack(t))
  {
    hide Times, Plus, Dft;
    var w := TurnBack(t);
    if x == [] {
      NoTransform(w);
      assert Complexes(x) == [];
      TimesZero(w);
      TimesZero(Power(w, 0));
    } else {
      var n := |x| - 1;
      var rest, a := x[..n], Complex(x[n], 0.0);
      var h, d, p := Horner(rest, t), Dft(Complexes(rest), w, 1), Power(w, n);
      assert x == rest + [x[n]];
      HornerTurnsBack(rest, t);
      DftOfNext(rest, x[n], w);
      TurnAndBack(t);
      TimesDistributes(Times(h, Turn(t)), a, Times(p, w));
      TimesDistributes(d, Times(a, p), w);
      TimesAssociates(a, p, w);
      Unturned(h, Turn(t), p, w);
    }
  }

  lemma TurnAndBack(t: Tone)
    requires OnCircle(t)
    ensures Times(Turn(t), TurnBack(t)) == ONE
  {
  }

  lemma Unturned(h: Complex, z: Complex, p: Complex, w: Complex)
    requires Times(z, w) == ONE
    ensures Times(Times(h, z), Times(p, w)) == Times(h, p)
  {
  }

  /** The recursion's bin has the squared magnitude of the samples' transform at the tone's angle. */
  lemma GoertzelIsTheTransform(x: seq<real>, t: Tone)
    requires OnCircle(t)
    ensures var (s1, s2) := StateOf(x, 2.0 * t.c);
      NormSquared(BinOf(s1, s2, t)) == NormSquared(Dft(Complexes(x), TurnBack(t), 1))
  {
    hide Times, NormSquared, Dft, StateOf, Horner, Power, BinOf, Carried;
    var (s1, s2) := StateOf(x, 2.0 * t.c);
    var h, d, w := Horner(x, t), Dft(Complexes(x), TurnBack(t), 1), TurnBack(t);
    StateIsHorner(x, t);
    TurnsOn(s1, s2, t);
    HornerTurnsBack(x, t);
    NormOfTurns(t);
    NormOfPower(w, |x|);
    TurnKeepsNorm(h, Turn(t));
    TurnKeepsNorm(h, Power(w, |x|));
    TurnKeepsNorm(d, w);
  }

  class Goertzel {
    var twoC: real
    var sine: real
    var s1: real
    var s2: real
    ghost var pushed: seq<real>

    ghost predicate Valid()
      reads this
    {
      (s1, s2) == StateOf(pushed, twoC)
    }

    ghost predicate TunedTo(t: Tone)
      reads this
    {
      twoC == 2.0 * t.c && sine == t.s
    }

    constructor (t: Tone)
      ensures Valid() && TunedTo(t) && pushed == []
    {
      twoC, sine, s1, s2, pushed := 2.0 * t.c, t.s, 0.0, 0.0, [];
    }

    method Reset()
      modifies this`s1, this`s2, this`pushed
      ensures Valid() && pushed == []
    {
      s1, s2, pushed := 0.0, 0.0, [];
    }

    method Push(sample: real)
      requires Valid()
      modifies this`s1, this`s2, this`pushed
      ensures Valid() && pushed == old(pushed) + [sample]
    {
      hide Next;
      var next := Next(sample, twoC, s1, s2);
      assert (pushed + [sample])[..|pushed|] == pushed;
      pushed := pushed + [sample];
      s2 := s1;
      s1 := next;
    }

    /** The squared magnitude, before the square root and the division by the length. */
    method Energy(ghost t: Tone) returns (energy: real)
      requires Valid() && TunedTo(t) && OnCircle(t)
      ensures energy == NormSquared(Dft(Complexes(pushed), TurnBack(t), 1))
    {
      hide Dft, StateOf;
      GoertzelIsTheTransform(pushed, t);
      var re := 0.5 * twoC * s1 - s2;
      var im := sine * s1;
      assert Complex(re, im) == BinOf(s1, s2, t);
      energy := re * re + im * im;
    }
  }

  // ---------------------------------------------------------------- decisions

  /** The bins below, at and above the tone, the level to reach, and the samples of a block. */
  datatype Settings = Settings(lower: Tone, center: Tone, upper: Tone, level: real, length: nat)

  predicate Fits(z: Settings) { z.length >= 1 && OnCircle(z.lower) && OnCircle(z.center) && OnCircle(z.upper) }

  /** What a block of samples holds at a tone: the squared magnitude of its transform there. */
  function EnergyAt(block: seq<real>, t: Tone): real { NormSquared(Dft(Complexes(block), TurnBack(t), 1)) }

  /** The decision on the three squared magnitudes: the center one reaches the level and exceeds both others. */
  predicate Opens(z: Settings, lower: real, center: real, upper: real) {
    && (z.level <= 0.0 || center >= (z.level * z.length as real) * (z.level * z.length as real))
    && center > lower && center > upper
  }

  predicate HearsTone(z: Settings, block: seq<real>) {
    Opens(z, EnergyAt(block, z.lower), EnergyAt(block, z.center), EnergyAt(block, z.upper))
  }

  /** Squared magnitudes compare as the magnitudes do that are divided by the length. */
  lemma SquaresCompare(a: real, b: real, level: real, length: real)
    requires a >= 0.0 && b >= 0.0 && length > 0.0
    ensures a / length > b / length <==> a * a > b * b
    ensures a / length >= level <==> level <= 0.0 || a * a >= (level * length) * (level * length)
  {
    var p, q, l := a / length, b / length, level * length;
    assert p * length == a && q * length == b;
    Larger(p, q, length);
    Larger(level, p, length);
    SquareLarger(a, b);
    if level > 0.0 {
      ProductPositive(level, length);
      SquareLarger(l, a);
    } else {
      Larger(0.0, p, length);
    }
  }

  lemma Larger(a: real, b: real, c: real)
    requires c > 0.0
    ensures a > b <==> a * c > b * c
  {
  }

  lemma ProductPositive(a: real, b: real)
    requires a > 0.0 && b > 0.0
    ensures a * b > 0.0
  {
  }

  lemma SquareLarger(a: real, b: real)
    requires a >= 0.0 && b >= 0.0
    ensures a > b <==> a * a > b * b
  {
    assert a * a - b * b == (a - b) * (a + b);
    if a > b {
      ProductPositive(a - b, a + b);
    } else if a < b {
      ProductPositive(b - a, a + b);
      assert (b - a) * (a + b) == b * b - a * a;
    }
  }

  /** `m` is the magnitude of the block's transform at the tone. */
  predicate MagnitudeAt(m: real, block: seq<real>, t: Tone) {
    m >= 0.0 && m * m == (var bin := Dft(Complexes(block), TurnBack(t), 1); bin.re * bin.re + bin.im * bin.im)
  }

  /** The center magnitude over the length reaches the level and exceeds both others. */
  predicate CenterStandsOut(level: real, length: real, a: real, b: real, c: real)
    requires length > 0.0
  {
    b / length >= level && b / length > a / length && b / length > c / length
  }

  /** A block opens the squelch exactly when the center magnitude stands out. */
  lemma OpensWhenCenterStandsOut(z: Settings, block: seq<real>, a: real, b: real, c: real)
    requires z.length >= 1
    requires MagnitudeAt(a, block, z.lower) && MagnitudeAt(b, block, z.center) && MagnitudeAt(c, block, z.upper)
    ensures HearsTone(z, block) <==> CenterStandsOut(z.level, z.length as real, a, b, c)
  {
    hide MagnitudeAt, EnergyAt;
    SquareOfMagnitude(a, block, z.lower);
    SquareOfMagnitude(b, block, z.center);
    SquareOfMagnitude(c, block, z.upper);
    SquaresCompare(b, a, z.level, z.length as real);
    SquaresCompare(b, c, z.level, z.length as real);
  }

  lemma SquareOfMagnitude(m: real, block: seq<real>, t: Tone)
    requires MagnitudeAt(m, block, t)
    ensures m >= 0.0 && m * m == EnergyAt(block, t)
  {
    hide Dft;
  }

  /** The samples since the last decision, and that decision. */
  datatype Detection = Detection(block: seq<real>, open: bool)

  function DetectOne(z: Settings, d: Detection, sample: real): (r: Detection) {
    var block := d.block + [sample];
    if |block| < z.length then Detection(block, d.open) else Detection([], HearsTone(z, block))
  }

  function DetectAll(z: Settings, d: Detection, x: seq<real>): Detection {
    if x == [] then d else DetectOne(z, DetectAll(z, d, x[..|x| - 1]), x[|x| - 1])
  }

  /** Where block `blocks` begins. */
  function BlockStart(blocks: nat, length: nat): nat { blocks * length }

  function BlocksIn(n: nat, length: nat): nat
    requires length >= 1
  {
    n / length
  }

  lemma BlockBounds(n: nat, length: nat)
    requires length >= 1
    ensures var k := BlocksIn(n, length);
      && BlockStart(k, length) <= n < BlockStart(k, length) + length
      && (k > 0 ==> BlockStart(k - 1, length) + length == BlockStart(k, length))
  {
  }

  lemma BlockOfNext(n: nat, length: nat)
    requires length >= 1
    ensures var k := BlocksIn(n, length);
      && BlocksIn(n + 1, length) == (if n + 1 == BlockStart(k, length) + length then k + 1 else k)
      && BlockStart(k + 1, length) == BlockStart(k, length) + length
  {
    var q, r := n / length, n % length;
    assert n == q * length + r;
    assert (q + 1) * length == q * length + length;
    DividesAs(n + 1, length, if r + 1 == length then q + 1 else q, if r + 1 == length then 0 else r + 1);
  }

  lemma NoBlocks(length: nat)
    requires length >= 1
    ensures BlocksIn(0, length) == 0
  {
  }

  /** The decision that stands after the samples: on the last full block of them, or the one from before them. */
  function Standing(z: Settings, x: seq<real>, before: bool): bool
    requires z.length >= 1
  {
    var k := BlocksIn(|x|, z.length);
    BlockBounds(|x|, z.length);
    if k == 0 then before else HearsTone(z, x[BlockStart(k - 1, z.length)..BlockStart(k, z.length)])
  }

  /** From an empty block on, every decision is taken on exactly the last block of samples, and holds until the next. */
  lemma {:induction false} DecisionsUseTheLastBlock(z: Settings, x: seq<real>, before: bool, start: nat)
    requires z.length >= 1 && start == BlockStart(BlocksIn(|x|, z.length), z.length)
    ensures start <= |x|
    ensures DetectAll(z, Detection([], before), x) == Detection(x[start..], Standing(z, x, before))
  {
    hide HearsTone, BlockStart, BlocksIn, Standing;
    BlockBounds(|x|, z.length);
    if x == [] {
      NoBlocks(z.length);
      StandingOnNone(z, before);
    } else {
      var last := |x| - 1;
      var rest, k := x[..last], BlocksIn(last, z.length);
      var from := BlockStart(k, z.length);
      BlockBounds(last, z.length);
      BlockOfNext(last, z.length);
      DecisionsUseTheLastBlock(z, rest, before, from);
      assert rest[from..] + [x[last]] == x[from..];
      StandingGoesOn(z, x, before, from, start);
      if start != from {
        assert x[from..] == x[from..start] && x[start..] == [];
      }
    }
  }

  lemma StandingOnNone(z: Settings, before: bool)
    requires z.length >= 1
    ensures Standing(z, [], before) == before
  {
    NoBlocks(z.length);
  }

  /** A decision stands until the next block is full. */
  lemma StandingGoesOn(z: Settings, x: seq<real>, before: bool, from: nat, start: nat)
    requires z.length >= 1 && x != []
    requires from == BlockStart(BlocksIn(|x| - 1, z.length), z.length)
    requires start == BlockStart(BlocksIn(|x|, z.length), z.length)
    ensures from <= |x| - 1 && start <= |x|
    ensures start == from ==> Standing(z, x, before) == Standing(z, x[..|x| - 1], before)
    ensures start != from ==> from < start && Standing(z, x, before) == HearsTone(z, x[from..start])
  {
    hide HearsTone, BlockStart, BlocksIn;
    var last := |x| - 1;
    var rest, k := x[..last], BlocksIn(last, z.length);
    BlockBounds(last, z.length);
    BlockBounds(|x|, z.length);
    BlockOfNext(last, z.length);
    if start == from && k > 0 {
      assert rest[BlockStart(k - 1, z.length)..from] == x[BlockStart(k - 1, z.length)..from];
    }
  }

  class CtcssDetector {
    const lower: Goertzel
    const center: Goertzel
    const upper: Goertzel
    const settings: Settings
    var filled: nat
    var open: bool

    ghost predicate Valid()
      reads this, lower, center, upper
    {
      && Fits(settings) && lower != center && center != upper && lower != upper
      && lower.Valid() && lower.TunedTo(settings.lower)
      && center.Valid() && center.TunedTo(settings.center) && center.pushed == lower.pushed
      && upper.Valid() && upper.TunedTo(settings.upper) && upper.pushed == lower.pushed
      && filled == |lower.pushed| < settings.length
    }

    ghost function Model(): Detection
      reads this, lower
    {
      Detection(lower.pushed, open)
    }

    constructor (settings: Settings)
      requires Fits(settings)
      ensures Valid() && Model() == Detection([], false) && this.settings == settings
      ensures fresh(lower) && fresh(center) && fresh(upper)
    {
      this.settings := settings;
      lower := new Goertzel(settings.lower);
      center := new Goertzel(settings.center);
      upper := new Goertzel(settings.upper);
      filled, open := 0, false;
    }

    /** One sample: the standing decision, or at the end of a block a new one. */
    method DetectorUnmuted(sample: real) returns (unmuted: bool)
      requires Valid()
      modifies this, lower, center, upper
      ensures Valid() && Model() == DetectOne(settings, old(Model()), sample)
      ensures unmuted == Model().open
    {
      hide StateOf, Dft, OnCircle;
      lower.Push(sample);
      center.Push(sample);
      upper.Push(sample);
      filled := filled + 1;
      if filled < settings.length {
        return open;
      }
      unmuted := Decide();
    }

    method Decide() returns (unmuted: bool)
      requires Fits(settings) && lower != center && center != upper && lower != upper
      requires lower.Valid() && lower.TunedTo(settings.lower)
      requires center.Valid() && center.TunedTo(settings.center) && center.pushed == lower.pushed
      requires upper.Valid() && upper.TunedTo(settings.upper) && upper.pushed == lower.pushed
      modifies this, lower, center, upper
      ensures Valid() && Model() == Detection([], unmuted)
      ensures unmuted == HearsTone(settings, old(lower.pushed))
      ensures forall a, b, c ::
        && MagnitudeAt(a, old(lower.pushed), settings.lower)
        && MagnitudeAt(b, old(lower.pushed), settings.center)
        && MagnitudeAt(c, old(lower.pushed), settings.upper)
        ==> (unmuted <==> CenterStandsOut(settings.level, settings.length as real, a, b, c))
    {
      hide StateOf, Dft, OnCircle, Opens, MagnitudeAt, CenterStandsOut;
      forall a, b, c |
        && MagnitudeAt(a, lower.pushed, settings.lower)
        && MagnitudeAt(b, lower.pushed, settings.center)
        && MagnitudeAt(c, lower.pushed, settings.upper)
        ensures HearsTone(settings, lower.pushed) <==>
          CenterStandsOut(settings.level, settings.length as real, a, b, c)
      {
        OpensWhenCenterStandsOut(settings, lower.pushed, a, b, c);
      }
      var below := lower.Energy(settings.lower);
      lower.Reset();
      var at := center.Energy(settings.center);
      center.Reset();
      var above := upper.Energy(settings.upper);
      upper.Reset();
      filled := 0;
      open := Opens(settings, below, at, above);
      unmuted := open;
    }

    method Reset()
      requires Valid()
      modifies this, lower, center, upper
      ensures Valid() && Model() == Detection([], false)
    {
      hide StateOf, OnCircle;
      lower.Reset();
      center.Reset();
      upper.Reset();
      filled, open := 0, false;
    }
  }
}
