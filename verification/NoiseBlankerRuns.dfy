/**
 How long a run of replaced outputs can get. A lookback joins windows that lie close together, so the bound on inputs
 inside windows is not one on outputs: this is the exact limit, the settings without one, and those that keep the bound.
 */
module NoiseBlankerRuns {
  import opened Basics
  import opened NoiseBlankerSpec
  import opened NoiseBlankerStream
  import opened NoiseBlankerLimits

  // ---------------------------------------------------------------- windows that a lookback joins

  /** The newest windows that form one run: how many, the run's length to the last one's end, and inputs since that. */
  datatype Cluster = Cluster(windows: nat, length: nat, gap: nat)

  const NO_CLUSTER: Cluster := Cluster(0, 0, 0)

  function Joined(s: Settings, c: Cluster, decision: Decision): Cluster {
    if decision.opens then
      if c.windows > 0 && c.gap <= s.lookback then Cluster(c.windows + 1, c.length + c.gap + 1, 0)
      else Cluster(1, s.lookback + 1, 0)
    else if decision.marked then Cluster(c.windows, c.length + 1, 0)
    else Cluster(c.windows, c.length, c.gap + 1)
  }

  function ClusterAfter(s: Settings, xs: seq<Sample>): Cluster {
    if xs == [] then NO_CLUSTER
    else Joined(s, ClusterAfter(s, xs[..|xs| - 1]), DecisionOn(s, xs, |xs| - 1))
  }

  lemma {:induction false} RunAgrees(s: Settings, xs: seq<Sample>, ys: seq<Sample>, m: nat)
    requires forall k :: 0 <= k <= m ==> Marked(s, xs, k) == Marked(s, ys, k)
    ensures RunLength(s, xs, m) == RunLength(s, ys, m)
  {
    hide Marked;
    if m > 0 {
      RunAgrees(s, xs, ys, m - 1);
    }
  }

  lemma {:induction false} RunExtends(s: Settings, xs: seq<Sample>, m: nat, end: nat)
    requires m <= end && forall k :: m < k <= end ==> Marked(s, xs, k)
    ensures RunLength(s, xs, end) == RunLength(s, xs, m) + end - m
  {
    hide Marked;
    if m < end {
      RunExtends(s, xs, m, end - 1);
    }
  }

  /** The cluster is the newest run: it ends with the last window, and nothing behind that is marked yet. */
  ghost predicate IsNewestRun(s: Settings, xs: seq<Sample>, c: Cluster) {
    var newest := |xs| + s.Delay() - 1;
    if c.windows == 0 then forall k :: 0 <= k <= newest ==> !Marked(s, xs, k)
    else
      && c.gap < |xs| && c.length > s.lookback
      && RunLength(s, xs, newest - c.gap) == c.length
      && forall k :: newest - c.gap < k <= newest ==> !Marked(s, xs, k)
  }

  /** No run so far is longer than `limit`. */
  ghost predicate RunsWithin(s: Settings, xs: seq<Sample>, limit: nat) {
    forall m: nat :: m < |xs| + s.Delay() ==> RunLength(s, xs, m) <= limit
  }

  /** An unmarked input leaves every run as it is. */
  lemma RunsAfterUnmarked(s: Settings, xs: seq<Sample>, c: Cluster, limit: nat)
    requires xs != [] && IsNewestRun(s, xs[..|xs| - 1], c) && RunsWithin(s, xs[..|xs| - 1], limit)
    requires !DecisionOn(s, xs, |xs| - 1).marked && s.Valid()
    ensures IsNewestRun(s, xs, Cluster(c.windows, c.length, c.gap + 1)) && RunsWithin(s, xs, limit)
  {
    assert !DecisionOn(s, xs, |xs| - 1).opens;
    hide Marked, DecisionOn;
    var before, p := xs[..|xs| - 1], |xs| - 1 + s.Delay();
    forall k | 0 <= k <= p
      ensures Marked(s, xs, k) == (k < p && Marked(s, before, k))
    {
      MarkAfter(s, xs, k);
    }
    forall m: nat | m < p
      ensures RunLength(s, xs, m) == RunLength(s, before, m)
    {
      RunAgrees(s, xs, before, m);
    }
    assert RunLength(s, xs, p) == 0;
  }

  /** An input inside a window makes the newest run one longer. */
  lemma RunsAfterInside(s: Settings, xs: seq<Sample>, c: Cluster, limit: nat)
    requires xs != [] && IsNewestRun(s, xs[..|xs| - 1], c) && RunsWithin(s, xs[..|xs| - 1], limit)
    requires DecisionOn(s, xs, |xs| - 1).marked && !DecisionOn(s, xs, |xs| - 1).opens
    requires s.Valid() && c.windows > 0 && c.gap == 0 && c.length + 1 <= limit
    ensures IsNewestRun(s, xs, Cluster(c.windows, c.length + 1, 0)) && RunsWithin(s, xs, limit)
  {
    hide Marked, DecisionOn;
    var before, p := xs[..|xs| - 1], |xs| - 1 + s.Delay();
    forall k | 0 <= k <= p
      ensures Marked(s, xs, k) == (k == p || Marked(s, before, k))
    {
      MarkAfter(s, xs, k);
    }
    forall m: nat | m < p
      ensures RunLength(s, xs, m) == RunLength(s, before, m)
    {
      RunAgrees(s, xs, before, m);
    }
    RunExtends(s, xs, p - 1, p);
  }

  /** A window that opens makes a run from behind `from` on: one that its lookback reaches, or a new one. */
  lemma RunsAfterOpening(s: Settings, xs: seq<Sample>, before: seq<Sample>, p: nat, from: nat, limit: nat)
    requires xs != [] && before == xs[..|xs| - 1] && p == |xs| - 1 + s.Delay()
    requires RunsWithin(s, before, limit) && DecisionOn(s, xs, |xs| - 1).opens && s.Valid()
    requires from < p && p - s.lookback <= from + 1 && RunLength(s, before, from) + p - from <= limit
    requires forall k :: 0 <= k <= from && p - s.lookback <= k ==> Marked(s, before, k)
    ensures RunLength(s, xs, p) == RunLength(s, before, from) + p - from
    ensures RunsWithin(s, xs, limit)
  {
    assert DecisionOn(s, xs, |xs| - 1).marked;
    hide Marked, DecisionOn;
    forall k | 0 <= k <= p
      ensures Marked(s, xs, k) == (k == p || Marked(s, before, k) || k >= p - s.lookback)
    {
      MarkAfter(s, xs, k);
    }
    forall m: nat | m <= from
      ensures RunLength(s, xs, m) == RunLength(s, before, m)
    {
      RunAgrees(s, xs, before, m);
    }
    forall m: nat | from < m <= p
      ensures RunLength(s, xs, m) == RunLength(s, before, from) + m - from
    {
      RunExtends(s, xs, from, m);
    }
  }

  lemma OpeningIsNewest(s: Settings, xs: seq<Sample>, c: Cluster, limit: nat)
    requires xs != [] && IsNewestRun(s, xs[..|xs| - 1], c) && RunsWithin(s, xs[..|xs| - 1], limit)
    requires DecisionOn(s, xs, |xs| - 1).opens && s.Valid()
    requires Joined(s, c, DecisionOn(s, xs, |xs| - 1)).length <= limit
    ensures IsNewestRun(s, xs, Joined(s, c, DecisionOn(s, xs, |xs| - 1))) && RunsWithin(s, xs, limit)
  {
    hide Marked, DecisionOn;
    var before, p := xs[..|xs| - 1], |xs| - 1 + s.Delay();
    if c.windows > 0 && c.gap <= s.lookback {
      RunsAfterOpening(s, xs, before, p, p - 1 - c.gap, limit);
    } else {
      var from := p - s.lookback - 1;
      assert !Marked(s, before, from);
      RunsAfterOpening(s, xs, before, p, from, limit);
    }
  }

  /** While a window is open its cluster goes on. */
  lemma {:induction false} OpenWindowIsNewest(s: Settings, xs: seq<Sample>)
    ensures var c := ClusterAfter(s, xs);
      DetectorAfter(s, xs).remaining > 0 ==> c.windows > 0 && c.gap == 0
  {
    if xs == [] {
    } else {
      OpenWindowIsNewest(s, xs[..|xs| - 1]);
    }
  }

  lemma InsideGoesOn(s: Settings, xs: seq<Sample>)
    requires xs != []
    ensures var decision, c := DecisionOn(s, xs, |xs| - 1), ClusterAfter(s, xs[..|xs| - 1]);
      && (decision.opens ==> decision.marked)
      && (decision.marked && !decision.opens ==> c.windows > 0 && c.gap == 0)
  {
    OpenWindowIsNewest(s, xs[..|xs| - 1]);
  }

  /** The clusters are the runs of replaced outputs, and their lengths limit all runs. */
  lemma {:induction false} ClustersAreRuns(s: Settings, xs: seq<Sample>, limit: nat)
    requires s.Valid() && forall n :: 0 <= n <= |xs| ==> ClusterAfter(s, xs[..n]).length <= limit
    ensures IsNewestRun(s, xs, ClusterAfter(s, xs)) && RunsWithin(s, xs, limit)
  {
    hide Marked, RunsWithin, IsNewestRun, DecisionOn;
    if xs == [] {
      NothingMarked(s, limit);
    } else {
      var before := xs[..|xs| - 1];
      var c, decision := ClusterAfter(s, before), DecisionOn(s, xs, |xs| - 1);
      assert forall n :: 0 <= n <= |before| ==> before[..n] == xs[..n];
      assert xs[..|xs|] == xs;
      ClustersAreRuns(s, before, limit);
      InsideGoesOn(s, xs);
      if decision.opens {
        OpeningIsNewest(s, xs, c, limit);
      } else if decision.marked {
        RunsAfterInside(s, xs, c, limit);
      } else {
        RunsAfterUnmarked(s, xs, c, limit);
      }
    }
  }

  lemma NothingMarked(s: Settings, limit: nat)
    requires s.Valid()
    ensures IsNewestRun(s, [], NO_CLUSTER) && RunsWithin(s, [], limit)
  {
  }

  // ---------------------------------------------------------------- the longest run

  function Multiple(count: int, x: int): int { count * x }

  lemma OneMoreOf(count: int, x: int)
    ensures Multiple(count + 1, x) == Multiple(count, x) + x
    ensures Multiple(0, x) == 0 && Multiple(1, x) == x
  {
  }

  /** Windows that end apart: a window outlasts its lookback, and no warm-up is short enough for the next to join. */
  predicate Separates(s: Settings) {
    && s.Valid() && !s.retrigger && s.lookback < s.blank <= s.warmupLength
    && (s.lookback + s.blank <= s.warmupLength || s.blank == s.warmupLength)
  }

  /** How many windows of one run the excess count allows, each but the last with a lookback's gap behind it. */
  function MostWindows(s: Settings): nat
    requires s.lookback < s.blank <= s.warmupLength
  {
    (s.warmupLength - s.lookback - 1) / (s.blank - s.lookback) + 1
  }

  /** The length of the longest run: so many windows, each with its lookback in front. */
  function RunLimit(s: Settings): nat
    requires s.lookback < s.blank <= s.warmupLength
  {
    MostWindows(s) * (s.blank + s.lookback)
  }

  /**
   The newest cluster either is counted by the excess, less what its gaps took off it, or has forced a warm-up that
   outlasts its window by more than a lookback.
   */
  predicate ClusterFits(s: Settings, d: Detector, c: Cluster) {
    var net := s.blank - s.lookback;
    && (d.remaining > 0 ==> c.windows > 0 && c.gap == 0)
    && (s.blank == s.warmupLength ==> d.excess == if d.remaining > 0 then s.blank - d.remaining else 0)
    && c.length + d.remaining <= Multiple(c.windows, s.blank + s.lookback)
    && (c.windows > 0 ==>
          && Multiple(c.windows - 1, net) + s.lookback < s.warmupLength
          && (c.gap <= s.lookback ==>
                || d.warmup + c.gap > s.lookback + d.remaining
                || (&& d.excess + c.gap + d.remaining >= Multiple(c.windows, net) + s.lookback
                    && (d.remaining == 0 ==> Multiple(c.windows, net) + s.lookback < s.warmupLength))))
  }

  lemma DetectKeepsCluster(s: Settings, d: Detector, c: Cluster, x: Sample)
    requires Separates(s) && WithinLimits(s, d) && ClusterFits(s, d, c) && x.Finite?
    ensures ClusterFits(s, Detect(s, d, x).next, Joined(s, c, Detect(s, d, x)))
  {
    assert SquaredMagnitude(x).Level?;
    hide Multiple, TrackedPower, TrackedDuty, SquaredMagnitude;
    OneMoreOf(c.windows, s.blank - s.lookback);
    OneMoreOf(c.windows - 1, s.blank - s.lookback);
    OneMoreOf(c.windows, s.blank + s.lookback);
  }

  lemma {:induction false} ClusterAlwaysFits(s: Settings, xs: seq<Sample>)
    requires Separates(s) && AllFinite(xs)
    ensures ClusterFits(s, DetectorAfter(s, xs), ClusterAfter(s, xs))
  {
    hide Detect, ClusterFits, WithinLimits;
    if xs == [] {
      NothingFits(s);
    } else {
      var before := xs[..|xs| - 1];
      ClusterAlwaysFits(s, before);
      WindowIsCapped(s, before);
      DetectKeepsCluster(s, DetectorAfter(s, before), ClusterAfter(s, before), xs[|xs| - 1]);
    }
  }

  lemma NothingFits(s: Settings)
    requires Separates(s)
    ensures ClusterFits(s, Restarted(s), NO_CLUSTER)
  {
  }

  lemma FittingIsShort(s: Settings, d: Detector, c: Cluster)
    requires Separates(s) && ClusterFits(s, d, c)
    ensures c.length <= RunLimit(s)
  {
    var net, room := s.blank - s.lookback, s.warmupLength - s.lookback - 1;
    if c.windows > 0 {
      assert room < (room / net + 1) * net;
      FactorBelow(c.windows - 1, room / net + 1, net);
    }
    ProductGrows(c.windows, MostWindows(s), s.blank + s.lookback);
  }

  /** Where windows end apart, finite samples never make a run longer than the limit. */
  lemma RunsStayWithin(s: Settings, xs: seq<Sample>, m: nat)
    requires Separates(s) && AllFinite(xs) && m < |xs| + s.Delay()
    ensures RunLength(s, xs, m) <= RunLimit(s)
  {
    hide Marked, ClusterFits;
    forall n | 0 <= n <= |xs| ensures ClusterAfter(s, xs[..n]).length <= RunLimit(s) {
      ClusterAlwaysFits(s, xs[..n]);
      FittingIsShort(s, DetectorAfter(s, xs[..n]), ClusterAfter(s, xs[..n]));
    }
    ClustersAreRuns(s, xs, RunLimit(s));
  }

  // ---------------------------------------------------------------- streams that reach it

  const LOUD: Sample := Finite(1.0, 0.0)

  function Silence(n: nat): (xs: seq<Sample>)
    ensures |xs| == n
  {
    Repeat(ZERO, n)
  }

  lemma AfterOne(s: Settings, xs: seq<Sample>, x: Sample)
    ensures var decision := Detect(s, DetectorAfter(s, xs), x);
      && DetectorAfter(s, xs + [x]) == decision.next
      && ClusterAfter(s, xs + [x]) == Joined(s, ClusterAfter(s, xs), decision)
  {
    hide Detect;
    assert (xs + [x])[..|xs|] == xs;
  }

  /** A detector that has tracked nothing but silence. */
  predicate Silent(d: Detector) { d.power == 0.0 }

  lemma SilenceIsQuiet(s: Settings, d: Detector)
    requires s.Valid() && Silent(d) && d.excess < s.warmupLength
    ensures var r := Detect(s, d, ZERO);
      && Silent(r.next) && !r.opens && r.marked == (d.remaining > 0)
      && r.next.remaining == Max(0, d.remaining - 1)
      && if d.remaining == 0 then r.next.excess == Max(0, d.excess - 1) && r.next.warmup == Max(0, d.warmup - 1)
         else if d.excess + 1 == s.warmupLength then r.next.excess == 0 && r.next.warmup == s.warmupLength
         else r.next.excess == d.excess + 1 && r.next.warmup == Max(0, d.warmup - 1)
  {
    hide TrackedPower, TrackedDuty, SquaredMagnitude, Detected;
    NothingTracked(s, d);
  }

  lemma NothingTracked(s: Settings, d: Detector)
    requires Silent(d)
    ensures SquaredMagnitude(ZERO) == Level(0.0) && TrackedPower(s, 0.0, 0.0) == 0.0
    ensures !Detected(s, d, Level(0.0))
    ensures s.enabled && d.warmup == 0 ==> Detected(s, d, Level(1.0)) && SquaredMagnitude(LOUD) == Level(1.0)
  {
    hide HalfPower;
    assert s.threshold * 0.0 == 0.0;
  }

  /** Over silence every sample's power exceeds the tracked one, so the first loud sample opens a window. */
  lemma LoudOpens(s: Settings, d: Detector)
    requires s.Valid() && s.enabled && Silent(d) && d.warmup == 0 && d.remaining == 0
    ensures var r := Detect(s, d, LOUD);
      && Silent(r.next) && r.opens && r.marked && r.next.remaining == s.blank - 1
      && r.next.excess == (if d.excess + 1 >= s.warmupLength then 0 else d.excess + 1)
      && r.next.warmup == (if d.excess + 1 >= s.warmupLength then s.warmupLength else 0)
  {
    hide TrackedPower, TrackedDuty, SquaredMagnitude, Detected;
    NothingTracked(s, d);
  }

  /** Silence inside a window: `n` inputs of it pass, and a run is that much longer. */
  lemma {:induction false} InsideWindow(s: Settings, xs: seq<Sample>, n: nat, limit: nat)
    requires s.Valid() && Silent(DetectorAfter(s, xs)) && n <= DetectorAfter(s, xs).remaining
    requires DetectorAfter(s, xs).excess <= limit && DetectorAfter(s, xs).warmup <= limit
    ensures var d, e := DetectorAfter(s, xs), DetectorAfter(s, xs + Silence(n));
      && Silent(e) && e.remaining == d.remaining - n
      && e.excess <= limit + n && e.warmup <= limit + n
      && (d.warmup == 0 && d.excess + n < s.warmupLength ==> e.warmup == 0 && e.excess == d.excess + n)
    ensures var c, k := ClusterAfter(s, xs), ClusterAfter(s, xs + Silence(n));
      k == Cluster(c.windows, c.length + n, if n > 0 then 0 else c.gap)
  {
    hide Silent, Detect, DetectorAfter, ClusterAfter;
    if n == 0 {
      assert xs + Silence(0) == xs;
    } else {
      InsideWindow(s, xs, n - 1, limit);
      assert xs + Silence(n) == xs + Silence(n - 1) + [ZERO];
      AfterOne(s, xs + Silence(n - 1), ZERO);
      WindowIsCapped(s, xs + Silence(n - 1));
      SilenceIsQuiet(s, DetectorAfter(s, xs + Silence(n - 1)));
    }
  }

  /** Silence outside any window: warm-up and excess run down. */
  lemma {:induction false} OutsideWindow(s: Settings, xs: seq<Sample>, n: nat)
    requires s.Valid() && Silent(DetectorAfter(s, xs)) && DetectorAfter(s, xs).remaining == 0
    ensures var d, e := DetectorAfter(s, xs), DetectorAfter(s, xs + Silence(n));
      && Silent(e) && e.remaining == 0
      && e.warmup == Max(0, d.warmup - n) && e.excess == Max(0, d.excess - n)
    ensures var c, k := ClusterAfter(s, xs), ClusterAfter(s, xs + Silence(n));
      k == Cluster(c.windows, c.length, c.gap + n)
  {
    hide Silent, Detect, DetectorAfter, ClusterAfter;
    if n == 0 {
      assert xs + Silence(0) == xs;
    } else {
      OutsideWindow(s, xs, n - 1);
      assert xs + Silence(n) == xs + Silence(n - 1) + [ZERO];
      AfterOne(s, xs + Silence(n - 1), ZERO);
      WindowIsCapped(s, xs + Silence(n - 1));
      SilenceIsQuiet(s, DetectorAfter(s, xs + Silence(n - 1)));
    }
  }

  /** A loud sample and the rest of its window in silence. */
  function Window(s: Settings): (xs: seq<Sample>)
    requires s.Valid()
    ensures |xs| == s.blank && AllFinite(xs)
  {
    [LOUD] + Silence(s.blank - 1)
  }

  /** A detector fit to open a window: no window is open and no warm-up runs. */
  predicate Ready(d: Detector) { Silent(d) && d.warmup == 0 && d.remaining == 0 }

  lemma AfterWindow(s: Settings, xs: seq<Sample>)
    requires s.Valid() && s.enabled && Ready(DetectorAfter(s, xs))
    ensures var d, e := DetectorAfter(s, xs), DetectorAfter(s, xs + Window(s));
      && Silent(e) && e.remaining == 0 && e.excess <= d.excess + s.blank && e.warmup <= d.excess + s.blank
      && (d.excess + s.blank < s.warmupLength ==> e.warmup == 0 && e.excess == d.excess + s.blank)
    ensures var c, k := ClusterAfter(s, xs), ClusterAfter(s, xs + Window(s));
      k == if c.windows > 0 && c.gap <= s.lookback then Cluster(c.windows + 1, c.length + c.gap + s.blank, 0)
           else Cluster(1, s.lookback + s.blank, 0)
  {
    hide Silent, Detect, DetectorAfter, ClusterAfter;
    AfterOne(s, xs, LOUD);
    LoudOpens(s, DetectorAfter(s, xs));
    InsideWindow(s, xs + [LOUD], s.blank - 1, DetectorAfter(s, xs).excess + 1);
    assert xs + Window(s) == xs + [LOUD] + Silence(s.blank - 1);
  }

  /** A warm-up in silence, then windows with `gap` silent inputs behind each. */
  function Train(s: Settings, gap: nat, count: nat): (xs: seq<Sample>)
    requires s.Valid()
    ensures AllFinite(xs)
  {
    if count == 0 then Silence(s.warmupLength) else Train(s, gap, count - 1) + Window(s) + Silence(gap)
  }

  lemma WarmUp(s: Settings)
    requires s.Valid()
    ensures var d, c := DetectorAfter(s, Silence(s.warmupLength)), ClusterAfter(s, Silence(s.warmupLength));
      Ready(d) && d.excess == 0 && c.windows == 0
  {
    OutsideWindow(s, [], s.warmupLength);
    assert [] + Silence(s.warmupLength) == Silence(s.warmupLength);
  }

  /** After `count` windows a lookback apart: they are one run, and the excess counts what each adds. */
  ghost predicate IsTrain(s: Settings, xs: seq<Sample>, count: nat) {
    var d, c := DetectorAfter(s, xs), ClusterAfter(s, xs);
    && Ready(d) && d.excess == Multiple(count, s.blank - s.lookback)
    && c.windows == count
    && (count > 0 ==> c.length == Multiple(count, s.blank + s.lookback) && c.gap == s.lookback)
  }

  lemma LongerTrain(s: Settings, xs: seq<Sample>, count: nat)
    requires s.Valid() && s.enabled && s.lookback < s.blank && IsTrain(s, xs, count)
    requires Multiple(count + 1, s.blank - s.lookback) + s.lookback < s.warmupLength
    ensures IsTrain(s, xs + Window(s) + Silence(s.lookback), count + 1)
  {
    hide Window, Multiple, DetectorAfter, ClusterAfter;
    AfterWindow(s, xs);
    OneMoreOf(count, s.blank - s.lookback);
    OneMoreOf(count, s.blank + s.lookback);
    OutsideWindow(s, xs + Window(s), s.lookback);
    MultipleIsPositive(count, s.blank - s.lookback);
  }

  lemma {:induction false} TrainGoesOn(s: Settings, count: nat)
    requires s.Valid() && s.enabled && s.lookback < s.blank <= s.warmupLength && count < MostWindows(s)
    ensures IsTrain(s, Train(s, s.lookback, count), count)
  {
    hide Window, Multiple, DetectorAfter, ClusterAfter, MostWindows;
    if count == 0 {
      WarmUp(s);
      OneMoreOf(0, s.blank - s.lookback);
    } else {
      TrainGoesOn(s, count - 1);
      WindowsFit(s, count);
      LongerTrain(s, Train(s, s.lookback, count - 1), count - 1);
    }
  }

  lemma WindowsFit(s: Settings, count: nat)
    requires s.lookback < s.blank <= s.warmupLength && count < MostWindows(s)
    ensures Multiple(count, s.blank - s.lookback) + s.lookback < s.warmupLength
  {
    var net, room := s.blank - s.lookback, s.warmupLength - s.lookback - 1;
    ProductGrows(count, room / net, net);
    assert room / net * net <= room;
  }

  lemma {:induction false} ClusterIsShort(s: Settings, xs: seq<Sample>)
    ensures ClusterAfter(s, xs).length <= Multiple(|xs|, s.lookback + 1)
  {
    hide DecisionOn, Multiple;
    OneMoreOf(|xs| - 1, s.lookback + 1);
    if xs != [] {
      ClusterIsShort(s, xs[..|xs| - 1]);
      MultipleIsPositive(|xs| - 1, s.lookback + 1);
    }
  }

  lemma MultipleIsPositive(count: nat, x: nat)
    ensures Multiple(count, x) >= 0
  {
  }

  lemma NewestRun(s: Settings, xs: seq<Sample>)
    requires s.Valid()
    ensures IsNewestRun(s, xs, ClusterAfter(s, xs))
  {
    hide Marked, ClusterAfter, IsNewestRun, Multiple;
    forall n | 0 <= n <= |xs|
      ensures ClusterAfter(s, xs[..n]).length <= Multiple(|xs|, s.lookback + 1)
    {
      ClusterIsShort(s, xs[..n]);
      MultipleGrows(n, |xs|, s.lookback + 1);
    }
    MultipleIsPositive(|xs|, s.lookback + 1);
    ClustersAreRuns(s, xs, Multiple(|xs|, s.lookback + 1));
  }

  lemma MultipleGrows(a: nat, b: nat, x: nat)
    requires a <= b
    ensures Multiple(a, x) <= Multiple(b, x)
  {
    ProductGrows(a, b, x);
  }

  /** Some finite stream makes a run of `length`. */
  ghost predicate MakesRun(s: Settings, length: nat) {
    exists xs: seq<Sample>, m: nat :: AllFinite(xs) && m < |xs| + s.Delay() && RunLength(s, xs, m) == length
  }

  /** The limit is reached: windows a lookback apart, until the excess forces the blanker to learn the level. */
  lemma LimitIsReached(s: Settings)
    requires s.Valid() && s.enabled && s.lookback < s.blank <= s.warmupLength
    ensures MakesRun(s, RunLimit(s))
  {
    hide Window, Marked, Train, ClusterAfter;
    var count := MostWindows(s) - 1;
    var xs := Train(s, s.lookback, count) + Window(s);
    TrainGoesOn(s, count);
    AfterWindow(s, Train(s, s.lookback, count));
    NewestRun(s, xs);
    OneMoreOf(count, s.blank + s.lookback);
    assert RunLength(s, xs, |xs| + s.Delay() - 1) == RunLimit(s);
  }

  /** After windows a window's length apart that all are one run: the excess has run down. */
  ghost predicate RunsOn(s: Settings, xs: seq<Sample>, count: nat) {
    var d, c := DetectorAfter(s, xs), ClusterAfter(s, xs);
    && Ready(d) && d.excess == 0
    && (if count == 0 then c.windows == 0 else c.windows > 0 && c.gap == s.blank && c.length >= count)
  }

  lemma RunsFurther(s: Settings, xs: seq<Sample>, count: nat)
    requires s.Valid() && s.enabled && s.lookback >= s.blank && RunsOn(s, xs, count)
    ensures RunsOn(s, xs + Window(s) + Silence(s.blank), count + 1)
  {
    hide Window, DetectorAfter, ClusterAfter;
    AfterWindow(s, xs);
    OutsideWindow(s, xs + Window(s), s.blank);
  }

  lemma {:induction false} TrainNeverEnds(s: Settings, count: nat)
    requires s.Valid() && s.enabled && s.lookback >= s.blank
    ensures RunsOn(s, Train(s, s.blank, count), count)
  {
    hide Window, DetectorAfter, ClusterAfter;
    if count == 0 {
      WarmUp(s);
    } else {
      TrainNeverEnds(s, count - 1);
      RunsFurther(s, Train(s, s.blank, count - 1), count - 1);
    }
  }

  /** With a lookback as long as a window there is no limit: quiet stretches let the excess run down and are marked. */
  lemma LookbackRunsAreUnbounded(s: Settings, n: nat)
    requires s.Valid() && s.enabled && s.lookback >= s.blank
    ensures exists length :: length > n && MakesRun(s, length)
  {
    hide Marked, Train, ClusterAfter;
    var xs := Train(s, s.blank, n + 1);
    var c := ClusterAfter(s, xs);
    TrainNeverEnds(s, n + 1);
    NewestRun(s, xs);
    assert RunLength(s, xs, |xs| + s.Delay() - 1 - c.gap) == c.length;
    assert MakesRun(s, c.length);
  }

  /** The bound on inputs inside windows, one averaging time and the rest of a window, as a bound on runs of outputs. */
  ghost predicate StreakBoundHolds(s: Settings) {
    forall length: nat :: MakesRun(s, length) ==> length <= s.warmupLength + s.blank - 1
  }

  /** That bound holds of runs exactly when a lookback is shorter than a window and the limit is within it. */
  lemma StreakBoundOnRuns(s: Settings)
    requires s.Valid() && s.enabled && !s.retrigger && s.blank <= s.warmupLength
    ensures StreakBoundHolds(s) <==> s.lookback < s.blank && RunLimit(s) <= s.warmupLength + s.blank - 1
  {
    hide RunLimit;
    if s.lookback >= s.blank {
      LookbackRunsAreUnbounded(s, s.warmupLength + s.blank);
    } else {
      LimitIsReached(s);
      if RunLimit(s) <= s.warmupLength + s.blank - 1 {
        ShortLimitSeparates(s);
        forall length: nat | MakesRun(s, length) ensures length <= RunLimit(s) {
          var xs: seq<Sample>, m: nat :| AllFinite(xs) && m < |xs| + s.Delay() && RunLength(s, xs, m) == length;
          RunsStayWithin(s, xs, m);
        }
      }
    }
  }

  /** Where a second window could join across a warm-up, the limit is past the bound already. */
  lemma ShortLimitSeparates(s: Settings)
    requires s.Valid() && !s.retrigger && s.lookback < s.blank <= s.warmupLength
    requires RunLimit(s) <= s.warmupLength + s.blank - 1
    ensures Separates(s)
  {
    if s.blank < s.warmupLength < s.lookback + s.blank {
      var net, room := s.blank - s.lookback, s.warmupLength - s.lookback - 1;
      assert room / net >= 1;
      ProductGrows(2, MostWindows(s), s.blank + s.lookback);
      assert false;
    }
  }

  /** At the default lengths the longest run is 1728 outputs, and the bound of 966 does not hold. */
  lemma DefaultsExceedTheBound(s: Settings)
    requires s.Valid() && s.enabled && !s.retrigger && s.lookback == 2 && s.blank == 7 && s.warmupLength == 960
    ensures MakesRun(s, 1728) && !StreakBoundHolds(s)
    ensures forall length: nat :: MakesRun(s, length) ==> length <= 1728
  {
    DefaultLimit(s);
    hide RunLimit;
    LimitIsReached(s);
    StreakBoundOnRuns(s);
    forall length: nat | MakesRun(s, length) ensures length <= 1728 {
      var xs: seq<Sample>, m: nat :| AllFinite(xs) && m < |xs| + s.Delay() && RunLength(s, xs, m) == length;
      RunsStayWithin(s, xs, m);
    }
  }

  lemma DefaultLimit(s: Settings)
    requires s.Valid() && !s.retrigger && s.lookback == 2 && s.blank == 7 && s.warmupLength == 960
    ensures RunLimit(s) == 1728 && Separates(s)
  {
  }
}
