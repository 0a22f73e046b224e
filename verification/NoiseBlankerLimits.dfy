/** How long the noise blanker can go on replacing: what its window cap and its excess count guarantee. */
module NoiseBlankerLimits {
  import opened Basics
  import opened NoiseBlankerSpec
  import opened NoiseBlankerStream

  predicate AllFinite(xs: seq<Sample>) {
    forall i :: 0 <= i < |xs| ==> xs[i].Finite?
  }

  /** How many of the newest inputs in a row are inside a window, from a detection to the end of its window. */
  function Streak(s: Settings, xs: seq<Sample>): nat {
    if xs == [] then 0
    else
      var last := |xs| - 1;
      if DecisionOn(s, xs, last).marked then 1 + Streak(s, xs[..last]) else 0
  }

  /** The longest window the settings allow, its lookback included. */
  function WindowLimit(s: Settings): nat { Max(s.maxWindow, s.lookback + s.blank) }

  /** What holds of the detector between any two inputs. */
  predicate WithinLimits(s: Settings, d: Detector) {
    && d.remaining < s.blank
    && d.warmup <= s.warmupLength
    && d.excess < s.warmupLength
    && d.windowLength + d.remaining <= WindowLimit(s)
    && (d.remaining > 0 ==> d.windowLength > s.lookback)
  }

  lemma DetectKeepsLimits(s: Settings, d: Detector, x: Sample)
    requires s.Valid() && WithinLimits(s, d)
    ensures WithinLimits(s, Detect(s, d, x).next)
  {
  }

  /** No window, with or without retriggering, grows past its cap, and the counters stay below their lengths. */
  lemma {:induction false} WindowIsCapped(s: Settings, xs: seq<Sample>)
    requires s.Valid()
    ensures WithinLimits(s, DetectorAfter(s, xs))
  {
    hide Detect, WithinLimits;
    if xs == [] {
      assert WithinLimits(s, Restarted(s)) by { RestartIsWithinLimits(s); }
    } else {
      WindowIsCapped(s, xs[..|xs| - 1]);
      DetectKeepsLimits(s, DetectorAfter(s, xs[..|xs| - 1]), xs[|xs| - 1]);
    }
  }

  lemma RestartIsWithinLimits(s: Settings)
    requires s.Valid()
    ensures WithinLimits(s, Restarted(s))
  {
  }

  /** A streak of `length` either is covered by the excess count or has forced a warm-up that is still to run out. */
  predicate StreakCovered(s: Settings, d: Detector, length: nat) {
    || length <= d.excess
    || (d.warmup + d.excess == s.warmupLength && d.remaining + d.excess < s.blank && length <= s.warmupLength + d.excess)
  }

  lemma DetectKeepsCover(s: Settings, d: Detector, x: Sample, length: nat)
    requires s.Valid() && s.blank <= s.warmupLength && x.Finite? && WithinLimits(s, d) && StreakCovered(s, d, length)
    ensures var r := Detect(s, d, x); StreakCovered(s, r.next, if r.marked then length + 1 else 0)
  {
  }

  lemma {:induction false} StreakIsCovered(s: Settings, xs: seq<Sample>)
    requires s.Valid() && s.blank <= s.warmupLength && AllFinite(xs)
    ensures StreakCovered(s, DetectorAfter(s, xs), Streak(s, xs))
  {
    hide Detect, WithinLimits, StreakCovered;
    if xs == [] {
      assert StreakCovered(s, Restarted(s), 0) by { NothingToCover(s); }
    } else {
      var before := xs[..|xs| - 1];
      StreakIsCovered(s, before);
      WindowIsCapped(s, before);
      DetectKeepsCover(s, DetectorAfter(s, before), xs[|xs| - 1], Streak(s, before));
    }
  }

  lemma NothingToCover(s: Settings)
    ensures StreakCovered(s, Restarted(s), 0)
  {
  }

  /** Samples of finite power stay inside windows for at most one averaging time and the rest of one window. */
  lemma StreakIsBounded(s: Settings, xs: seq<Sample>)
    requires s.Valid() && s.blank <= s.warmupLength && AllFinite(xs)
    ensures Streak(s, xs) <= s.warmupLength + s.blank - 1
  {
    hide Detect;
    StreakIsCovered(s, xs);
    WindowIsCapped(s, xs);
  }

  /** With no lookback, the replaced outputs are those streaks, so a run of them is bounded alike. */
  lemma {:induction false} RunIsStreak(s: Settings, xs: seq<Sample>, m: nat)
    requires s.Valid() && s.lookback == 0 && m < |xs| + s.Delay()
    ensures RunLength(s, xs, m) == (if m < s.Delay() then 0 else Streak(s, xs[..m - s.Delay() + 1]))
  {
    hide Detect;
    if m >= s.Delay() {
      var i := m - s.Delay();
      assert xs[..i + 1][..i] == xs[..i];
      assert Marked(s, xs, m) == DecisionOn(s, xs, i).marked;
      if m > 0 {
        RunIsStreak(s, xs, m - 1);
      }
    }
  }

  lemma RunIsBounded(s: Settings, xs: seq<Sample>, m: nat)
    requires s.Valid() && s.lookback == 0 && s.blank <= s.warmupLength && AllFinite(xs) && m < |xs| + s.Delay()
    ensures RunLength(s, xs, m) <= s.warmupLength + s.blank - 1
  {
    hide Detect, Marked;
    RunIsStreak(s, xs, m);
    if m >= s.Delay() {
      StreakIsBounded(s, xs[..m - s.Delay() + 1]);
    }
  }
}
