/** How the noise blanker resolves what it is asked for into the settings it runs with, or refuses it. */
module NoiseBlankerSettings {
  import opened Basics
  import opened NoiseBlankerSpec

  /**
   The settings as they are asked for, those that a change does not name at their accepted values. `threshold` is
   already a ratio of powers.
   */
  datatype Asked = Asked(
    enabled: bool, rate: real, averaging: real, pole: real, threshold: real, lookback: nat, blank: nat,
    maxSetting: nat, replacement: string, retrigger: bool, emitTags: bool)
  {
    /** The limits declared for the settings, which are checked before. */
    predicate InLimits() { blank >= 1 && threshold >= 0.0 }
  }

  /** `decay` stands for the exponential of a negative number. */
  ghost predicate Decays(decay: real -> real) {
    forall x: real :: x > 0.0 ==> 0.0 <= decay(x) <= 1.0
  }

  function ParseRule(name: string): Option<Rule> {
    if name == "interpolate" then Some(Interpolate)
    else if name == "hold" then Some(Hold)
    else if name == "zero" then Some(Zero)
    else None
  }

  /** A time constant in samples. */
  function Samples(rate: real, averaging: real): (r: real)
    ensures rate > 0.0 && averaging > 0.0 ==> r > 0.0
  {
    rate * averaging
  }

  lemma InverseIsPositive(x: real)
    requires x > 0.0
    ensures 1.0 / x > 0.0
  {
  }

  /** The pole of the tracker, if the values give one. */
  function Coefficient(pole: real, averaging: real, rate: real, decay: real -> real): (r: Option<real>)
    requires Decays(decay)
    ensures r.Some? ==> 0.0 < r.value <= 1.0
  {
    if !(pole > 0.0) || pole > 1.0 then None
    else if averaging <= 0.0 then Some(pole)
    else if !(rate > 0.0) then None
    else
      hide Samples;
      InverseIsPositive(Samples(rate, averaging));
      var derived := 1.0 - decay(1.0 / Samples(rate, averaging));
      if derived > 0.0 then Some(derived) else None
  }

  function Ceiling(x: real): int { -((-x).Floor) }

  /** The averaging time in samples. */
  function WarmupLength(averaging: real, rate: real, pole: real): int
    requires pole > 0.0
  {
    if averaging > 0.0 then Ceiling(Samples(rate, averaging)) else Ceiling(1.0 / pole)
  }

  lemma WarmupIsPositive(averaging: real, rate: real, pole: real)
    requires 0.0 < pole <= 1.0 && (averaging > 0.0 ==> rate > 0.0)
    ensures WarmupLength(averaging, rate, pole) >= 1
  {
    hide Samples;
    InverseIsPositive(pole);
  }

  /** The settings the block runs with. */
  function Resolved(a: Asked, decay: real -> real): (r: Option<Settings>)
    requires a.InLimits() && Decays(decay)
    ensures r.Some? ==> r.value.Valid()
  {
    var rule, pole := ParseRule(a.replacement), Coefficient(a.pole, a.averaging, a.rate, decay);
    if rule.None? || pole.None? then None
    else
      WarmupIsPositive(a.averaging, a.rate, pole.value);
      Some(Settings(
        a.enabled, a.threshold, pole.value, a.lookback, a.blank, if a.maxSetting == 0 then 4 * a.blank else a.maxSetting,
        WarmupLength(a.averaging, a.rate, pole.value), rule.value, a.retrigger, a.emitTags))
  }

  /** The settings are refused exactly for a pole out of range, one that cannot be derived, or an unknown replacement. */
  lemma RefusedExactly(a: Asked, decay: real -> real)
    requires a.InLimits() && Decays(decay)
    ensures Resolved(a, decay).Some? <==>
      && a.replacement in {"interpolate", "hold", "zero"}
      && 0.0 < a.pole <= 1.0
      && (a.averaging > 0.0 ==> a.rate > 0.0 && Derivable(Samples(a.rate, a.averaging), decay))
  {
    hide WarmupLength, Samples;
    assert ParseRule(a.replacement).Some? <==> a.replacement in {"interpolate", "hold", "zero"};
    if a.averaging > 0.0 && a.rate > 0.0 {
      InverseIsPositive(Samples(a.rate, a.averaging));
    }
  }

  /** A pole for a time constant of so many samples does not round to zero. */
  predicate Derivable(samples: real, decay: real -> real) { samples > 0.0 && decay(1.0 / samples) < 1.0 }

  /** What the block writes back resolves to the same settings, and taking them again changes nothing. */
  lemma ResolvedAgain<P>(st: State<P>, a: Asked, decay: real -> real)
    requires a.InLimits() && Decays(decay) && Resolved(a, decay).Some? && st.Valid()
    ensures var s := Resolved(a, decay).value;
      && Resolved(a.(pole := s.alpha), decay) == Some(s)
      && Configure(Configure(st, s), s) == Configure(st, s)
  {
    hide Resize;
  }

  /** No cap is asked for by default, and the averaging time of the defaults is 960 samples. */
  lemma DefaultsResolve(decay: real -> real)
    requires Decays(decay) && decay(1.0 / 960.0) < 1.0
    ensures var a := Asked(false, 96000.0, 0.01, 0.001, 8.5507, 2, 7, 0, "interpolate", false, false);
      && a.InLimits() && Resolved(a, decay).Some?
      && Resolved(a, decay).value.maxWindow == 28 && Resolved(a, decay).value.warmupLength == 960
  {
    assert Samples(96000.0, 0.01) == 960.0;
  }

  /** The pole and the warm-up asked for directly: the warm-up is the first count of samples that `1 / alpha` is within. */
  lemma ResolvedPole(a: Asked, decay: real -> real)
    requires a.InLimits() && Decays(decay) && Resolved(a, decay).Some? && a.averaging <= 0.0
    ensures var s := Resolved(a, decay).value;
      && s.alpha == a.pole
      && (s.warmupLength - 1) as real < 1.0 / a.pole <= s.warmupLength as real
  {
    hide Samples;
  }

  /** The pole and the warm-up derived from a time constant: the warm-up is the first count that it is within. */
  lemma ResolvedTime(a: Asked, decay: real -> real)
    requires a.InLimits() && Decays(decay) && Resolved(a, decay).Some? && a.averaging > 0.0
    ensures a.rate * a.averaging > 0.0
    ensures var s, samples := Resolved(a, decay).value, a.rate * a.averaging;
      && s.alpha == 1.0 - decay(1.0 / samples)
      && (s.warmupLength - 1) as real < samples <= s.warmupLength as real
  {
    assert Samples(a.rate, a.averaging) == a.rate * a.averaging;
    hide Samples;
  }

  /** The other settings are taken as they are asked for, and a cap of 0 stands for four times `blank`. */
  lemma ResolvedRest(a: Asked, decay: real -> real)
    requires a.InLimits() && Decays(decay) && Resolved(a, decay).Some?
    ensures var s := Resolved(a, decay).value;
      && (s.enabled, s.retrigger, s.emitTags) == (a.enabled, a.retrigger, a.emitTags)
      && (s.threshold, s.lookback, s.blank) == (a.threshold, a.lookback, a.blank)
      && (a.maxSetting == 0 ==> s.maxWindow == 4 * a.blank) && (a.maxSetting > 0 ==> s.maxWindow == a.maxSetting)
      && (s.rule.Interpolate? <==> a.replacement == "interpolate") && (s.rule.Hold? <==> a.replacement == "hold")
      && (s.rule.Zero? <==> a.replacement == "zero")
  {
    hide Coefficient, WarmupLength;
  }

  /**
   New settings warm up again exactly where the pole moved or the blanker was just enabled. The level, the excess and an
   open window stay, a window no longer than the new `blank`, and with the delay unchanged so does the line.
   */
  lemma ConfigureKeeps<P>(st: State<P>, s: Settings)
    requires st.Valid() && s.Valid()
    ensures var r, d := Configure(st, s), st.detector;
      && r.detector.warmup ==
           (if s.alpha != st.settings.alpha || (s.enabled && !st.settings.enabled) then s.warmupLength else d.warmup)
      && (r.detector.power, r.detector.duty, r.detector.excess, r.detector.windowLength) ==
           (d.power, d.duty, d.excess, d.windowLength)
      && (s.lookback == st.settings.lookback && s.blank == st.settings.blank ==>
            r == st.(settings := s, detector := r.detector) && r.detector.remaining == d.remaining)
      && (s.lookback != st.settings.lookback || s.blank != st.settings.blank ==>
            r.detector.remaining == Min(d.remaining, s.blank))
  {
    hide DroppedRun, DroppedTags, DroppedQueue;
  }
}
