/** What the noise blanker tracks, what it takes for an impulse, and how long the window of one goes on. */
module NoiseBlankerTracker {
  import opened Basics
  import opened NoiseBlankerSpec
  import opened NoiseBlankerStream
  import opened WeightedMean

  // ---------------------------------------------------------------- what is tracked

  /** The squared magnitude of a finite sample. */
  function Strength(x: Sample): (r: real)
    requires x.Finite?
    ensures r >= 0.0
  {
    x.re * x.re + x.im * x.im
  }

  /** The samples that an enabled blanker leaves in place, by their powers. */
  function PassedLevels(s: Settings, xs: seq<Sample>): seq<real> {
    if xs == [] then []
    else
      var last := |xs| - 1;
      PassedLevels(s, xs[..last]) +
        if s.enabled && !DecisionOn(s, xs, last).marked && xs[last].Finite?
        then [Strength(xs[last])] else []
  }

  /** Every sample that an enabled blanker leaves in place has a finite power. */
  lemma PassedIsFinite(s: Settings, d: Detector, x: Sample)
    requires s.enabled && !Detect(s, d, x).marked
    ensures x.Finite?
  {
  }

  /** What one input does to the power: a passed one moves it toward its own, and anything below normal becomes 0. */
  lemma PowerMoves(s: Settings, d: Detector, x: Sample, level: real, moved: real)
    requires x.Finite? ==> level == Strength(x)
    requires moved == d.power * (1.0 - s.alpha) + s.alpha * level
    ensures Detect(s, d, x).next.power ==
      if s.enabled && !Detect(s, d, x).marked then (if moved < MIN_NORMAL then 0.0 else moved) else d.power
  {
    assert d.power + s.alpha * (level - d.power) == d.power * (1.0 - s.alpha) + s.alpha * level;
  }

  /**
   Over every stream the tracked power is the weighted mean of the samples left in place, less what was flushed: never
   above it, below it by at most the smallest normal number over alpha, and equal to it where nothing is flushed.
   */
  lemma {:induction false} TracksTheMean(s: Settings, xs: seq<Sample>)
    requires s.Valid()
    ensures var mean, power := Mean(PassedLevels(s, xs), s.alpha), DetectorAfter(s, xs).power;
      && Follows(s.alpha, mean, power)
      && (Unflushed(PassedLevels(s, xs), s.alpha) ==> power == mean)
  {
    hide Mean, Detect, HalfPower, Unflushed, Strength, PassedLevels, DetectorAfter, Follows;
    if xs == [] {
      NothingTracked(s);
      NothingFollows(s.alpha);
      MeanOfNothing(s.alpha);
    } else {
      var before := xs[..|xs| - 1];
      var levels := PassedLevels(s, before);
      TracksTheMean(s, before);
      var level, moved := PowerAfterOne(s, xs);
      if level.Some? {
        assert PassedLevels(s, xs) == levels + [level.value];
        OneMoreLevel(levels, level.value, s.alpha, DetectorAfter(s, before).power, moved);
      } else {
        assert PassedLevels(s, xs) == levels;
      }
    }
  }

  /** The newest input: its power, if it was left in place, and what it does to the tracked power. */
  lemma PowerAfterOne(s: Settings, xs: seq<Sample>) returns (level: Option<real>, moved: real)
    requires xs != []
    ensures level.Some? ==> level.value >= 0.0
    ensures PassedLevels(s, xs) == PassedLevels(s, xs[..|xs| - 1]) + if level.Some? then [level.value] else []
    ensures level.Some? ==>
      && moved == DetectorAfter(s, xs[..|xs| - 1]).power * (1.0 - s.alpha) + s.alpha * level.value
      && DetectorAfter(s, xs).power == if moved < MIN_NORMAL then 0.0 else moved
    ensures level.None? ==> DetectorAfter(s, xs).power == DetectorAfter(s, xs[..|xs| - 1]).power
  {
    hide Detect, HalfPower, Strength;
    var last := |xs| - 1;
    var d, x := DetectorAfter(s, xs[..last]), xs[last];
    var strength := if x.Finite? then Strength(x) else 0.0;
    moved := d.power * (1.0 - s.alpha) + s.alpha * strength;
    PowerMoves(s, d, x, strength, moved);
    if s.enabled && !Detect(s, d, x).marked {
      PassedIsFinite(s, d, x);
      level := Some(strength);
    } else {
      level := None;
    }
  }

  lemma NothingTracked(s: Settings)
    ensures PassedLevels(s, []) == [] && DetectorAfter(s, []).power == 0.0
  {
  }

  /** After `n` passed samples of one power the tracked power has come up to it by all but `n` factors. */
  lemma SteadyPower(s: Settings, xs: seq<Sample>, level: real)
    requires s.Valid() && PassedLevels(s, xs) == Repeat(level, |PassedLevels(s, xs)|)
    requires Unflushed(PassedLevels(s, xs), s.alpha)
    ensures DetectorAfter(s, xs).power == level * (1.0 - RealPower(1.0 - s.alpha, |PassedLevels(s, xs)|))
  {
    hide Mean, PassedLevels, Unflushed, Detect, RealPower, DetectorAfter, HalfPower, Repeat;
    TracksTheMean(s, xs);
    MeanOfEqual(level, s.alpha, |PassedLevels(s, xs)|);
  }

  /** Of each input, whether it was inside a window: 1 or 0. */
  function Duties(s: Settings, xs: seq<Sample>): seq<real> {
    if xs == [] then []
    else Duties(s, xs[..|xs| - 1]) + [if DecisionOn(s, xs, |xs| - 1).marked then 1.0 else 0.0]
  }

  /** The fraction reported is the weighted mean over the inputs, of ten times the power's time constant. */
  lemma {:induction false} ReportsTheDuty(s: Settings, xs: seq<Sample>)
    requires s.Valid()
    ensures var mean, duty := Mean(Duties(s, xs), s.alpha / 10.0), DetectorAfter(s, xs).duty;
      && Follows(s.alpha / 10.0, mean, duty)
      && (Unflushed(Duties(s, xs), s.alpha / 10.0) ==> duty == mean)
  {
    hide Mean, Detect, HalfPower, Unflushed, Follows;
    var alpha := s.alpha / 10.0;
    if xs == [] {
      MeanOfNothing(alpha);
      NothingFollows(alpha);
    } else {
      var before := xs[..|xs| - 1];
      var d := DetectorAfter(s, before);
      var level := if DecisionOn(s, xs, |xs| - 1).marked then 1.0 else 0.0;
      var moved := d.duty * (1.0 - alpha) + alpha * level;
      ReportsTheDuty(s, before);
      DutyMoves(s, d, xs[|xs| - 1], alpha, level, moved);
      OneMoreLevel(Duties(s, before), level, alpha, d.duty, moved);
    }
  }

  lemma DutyMoves(s: Settings, d: Detector, x: Sample, alpha: real, level: real, moved: real)
    requires alpha == s.alpha / 10.0 && level == (if Detect(s, d, x).marked then 1.0 else 0.0)
    requires moved == d.duty * (1.0 - alpha) + alpha * level
    ensures Detect(s, d, x).next.duty == if moved < MIN_NORMAL then 0.0 else moved
  {
    hide TrackedDuty, HalfPower, Flushed;
    DutyIs(s, d.duty, Detect(s, d, x).marked, alpha, level, moved);
  }

  lemma DutyIs(s: Settings, duty: real, marked: bool, alpha: real, level: real, moved: real)
    requires alpha == s.alpha / 10.0 && level == (if marked then 1.0 else 0.0)
    requires moved == duty * (1.0 - alpha) + alpha * level
    ensures TrackedDuty(s, duty, marked) == if moved < MIN_NORMAL then 0.0 else moved
  {
    hide MIN_NORMAL;
    assert 0.1 * s.alpha == alpha;
    if marked {
      assert 0.1 * s.alpha * (1.0 - duty) == alpha - alpha * duty;
      assert moved == duty - duty * alpha + alpha;
    } else {
      assert 0.1 * s.alpha * (0.0 - duty) == -(alpha * duty);
      assert moved == duty - duty * alpha;
    }
  }

  // ---------------------------------------------------------------- what opens a window

  /**
   An input opens a window exactly when the blanker is enabled, no window is open, and its power is not finite or, once
   warmed up, above the threshold times the tracked power.
   */
  lemma OpensExactly(s: Settings, d: Detector, x: Sample)
    ensures Detect(s, d, x).opens <==>
      s.enabled && d.remaining == 0 && (x.Finite? ==> d.warmup == 0 && Strength(x) > s.threshold * d.power)
    ensures Detect(s, d, x).marked <==> d.remaining > 0 || Detect(s, d, x).opens
  {
  }

  /** Over a stream that is, where nothing is flushed, the threshold times the mean of the samples left in place. */
  lemma OpensAboveTheMean(s: Settings, xs: seq<Sample>, i: nat)
    requires s.Valid() && s.enabled && i < |xs| && xs[i].Finite? && Unflushed(PassedLevels(s, xs[..i]), s.alpha)
    requires DetectorAfter(s, xs[..i]).warmup == 0 && DetectorAfter(s, xs[..i]).remaining == 0
    ensures DecisionOn(s, xs, i).opens <==> Strength(xs[i]) > s.threshold * Mean(PassedLevels(s, xs[..i]), s.alpha)
  {
    hide Detect, Strength, Mean;
    TracksTheMean(s, xs[..i]);
    OpensExactly(s, DetectorAfter(s, xs[..i]), xs[i]);
  }

  // ---------------------------------------------------------------- how long a window goes on

  /** A detection inside a window, which is one by the same comparison. */
  predicate Retriggers(s: Settings, d: Detector, x: Sample) {
    s.retrigger && s.enabled && d.remaining > 0 && (x.Finite? ==> d.warmup == 0 && Strength(x) > s.threshold * d.power)
  }

  /** Where a window ends after this input, counted from its first sample, the lookback included. */
  function EndsAt(d: Detector): nat { d.windowLength + d.remaining }

  /**
   A window that opens ends after `blank` samples. A detection inside one moves its end to `blank` samples from there, as
   far as the cap allows; past the cap the window is over. Nothing else moves an end.
   */
  lemma WindowEnds(s: Settings, d: Detector, x: Sample)
    requires s.Valid()
    ensures var next := Detect(s, d, x).next; var cap := s.maxWindow;
      && (Detect(s, d, x).opens ==> next.windowLength == s.lookback + 1 && EndsAt(next) == s.lookback + s.blank)
      && (d.remaining > 0 ==> next.windowLength == d.windowLength + 1)
      && (!Detect(s, d, x).marked ==> next.windowLength == 0 && next.remaining == 0)
      && (d.remaining > 0 && !Retriggers(s, d, x) ==> EndsAt(next) == EndsAt(d))
      && (Retriggers(s, d, x) && next.windowLength <= cap ==> EndsAt(next) == Min(cap, next.windowLength + s.blank - 1))
      && (Retriggers(s, d, x) && next.windowLength > cap ==> next.remaining == 0)
  {
  }

  /** Without retriggering a window is its opening input and the `blank - 1` after it, none of which opens another. */
  lemma {:induction false} WindowIsBlank(s: Settings, xs: seq<Sample>, i: nat, k: nat)
    requires s.Valid() && !s.retrigger && i + k < |xs| && k <= s.blank && DecisionOn(s, xs, i).opens
    ensures DecisionOn(s, xs, i + k).marked <==> k < s.blank || DecisionOn(s, xs, i + k).opens
    ensures 0 < k < s.blank ==> !DecisionOn(s, xs, i + k).opens
    ensures DetectorAfter(s, xs[..i + k]).remaining == (if k == 0 then 0 else s.blank - k)
  {
    hide Detect;
    OpensExactly(s, DetectorAfter(s, xs[..i + k]), xs[i + k]);
    if k > 0 {
      WindowIsBlank(s, xs, i, k - 1);
      var j := i + k - 1;
      assert xs[..j + 1][..j] == xs[..j];
      WindowEnds(s, DetectorAfter(s, xs[..j]), xs[j]);
    }
  }
}
