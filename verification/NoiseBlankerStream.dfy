/**
 What the noise blanker puts out over a whole stream with fixed settings, told from the inputs alone: which outputs are
 replaced, by what, and which tags leave with them.
 */
module NoiseBlankerStream {
  import opened Basics
  import opened NoiseBlankerSpec

  datatype Played<P> = Played(state: State<P>, outputs: seq<Output<P>>)

  /** The block after the inputs `xs`, each with its tags, and what it put out. */
  function Play<P>(st: State<P>, xs: seq<Sample>, tags: seq<seq<P>>): (r: Played<P>)
    requires st.Valid() && |tags| == |xs|
    ensures r.state.Valid() && r.state.settings == st.settings
    ensures |r.outputs| == |xs| && r.state.emitted == st.emitted + |xs|
  {
    if xs == [] then Played(st, [])
    else
      var last := |xs| - 1;
      var before := Play(st, xs[..last], tags[..last]);
      var r := Step(before.state, xs[last], tags[last]);
      Played(r.next, before.outputs + [r.output])
  }

  /** A longer stream puts out the same outputs first. */
  lemma {:induction false} PlayPrefix<P>(st: State<P>, xs: seq<Sample>, tags: seq<seq<P>>, n: nat)
    requires st.Valid() && |tags| == |xs| && n <= |xs|
    ensures Play(st, xs[..n], tags[..n]).outputs == Play(st, xs, tags).outputs[..n]
    decreases |xs|
  {
    if n == |xs| {
      assert xs[..n] == xs && tags[..n] == tags;
    } else {
      var last := |xs| - 1;
      assert xs[..last][..n] == xs[..n] && tags[..last][..n] == tags[..n];
      PlayPrefix(st, xs[..last], tags[..last], n);
    }
  }

  // ---------------------------------------------------------------- the same stream seen from its inputs

  function DetectorAfter(s: Settings, xs: seq<Sample>): Detector {
    if xs == [] then Restarted(s) else Detect(s, DetectorAfter(s, xs[..|xs| - 1]), xs[|xs| - 1]).next
  }

  /** What the detector decides about input `i`. It has seen the inputs before it and no other. */
  function DecisionOn(s: Settings, xs: seq<Sample>, i: nat): Decision
    requires i < |xs|
  {
    Detect(s, DetectorAfter(s, xs[..i]), xs[i])
  }

  /** The sample that output `m` replaces or passes: the input `Delay()` earlier, and zero before the first. */
  function Entered(s: Settings, xs: seq<Sample>, m: int): Sample
    requires m < |xs| + s.Delay()
  {
    if m < s.Delay() then ZERO else xs[m - s.Delay()]
  }

  /** Whether the inputs `xs` mark output `m`: its input is inside a window or within `lookback` before one. */
  ghost predicate Marked(s: Settings, xs: seq<Sample>, m: int) {
    var i := m - s.Delay();
    || (0 <= i < |xs| && DecisionOn(s, xs, i).marked)
    || exists j :: i < j <= i + s.lookback && 0 <= j < |xs| && DecisionOn(s, xs, j).opens
  }

  /** Inputs past the lookback of output `m` leave its mark as it is. The output after it is as final. */
  lemma MarkIsFinal(s: Settings, xs: seq<Sample>, n: nat, m: int)
    requires n <= |xs| && m + 1 <= n + s.blank
    ensures Marked(s, xs[..n], m) == Marked(s, xs, m)
  {
    forall j: nat | j < n
      ensures DecisionOn(s, xs[..n], j) == DecisionOn(s, xs, j)
    {
      assert xs[..n][..j] == xs[..j];
    }
    var i := m - s.Delay();
    if Marked(s, xs, m) && !(0 <= i < |xs| && DecisionOn(s, xs, i).marked) {
      var j :| i < j <= i + s.lookback && 0 <= j < |xs| && DecisionOn(s, xs, j).opens;
      assert j < n;
      assert DecisionOn(s, xs[..n], j).opens;
    }
  }

  /** The tags that leave with output `m`: those of its input. */
  function TagsOf<P>(s: Settings, tags: seq<seq<P>>, m: nat): seq<P>
    requires m < |tags| + s.Delay()
  {
    if m < s.Delay() then [] else tags[m - s.Delay()]
  }

  lemma TagsOfPrefix<P>(s: Settings, tags: seq<seq<P>>, n: nat, m: nat)
    requires n <= |tags| && m < n + s.Delay()
    ensures TagsOf(s, tags[..n], m) == TagsOf(s, tags, m)
  {
  }

  lemma StepLine<P>(st: State<P>, x: Sample, tags: seq<P>)
    requires st.Valid()
    ensures var r := Step(st, x, tags); var decision := Detect(st.settings, st.detector, x);
      && r.next.detector == decision.next
      && r.next.samples == st.samples[1..] + [x]
      && r.next.marks == ShiftMarks(st.marks, decision.marked, decision.opens, st.settings.lookback)
  {
  }

  /** A line with the last `Delay()` inputs in it, and the marks that the inputs so far put on them. */
  ghost predicate LineHolds(s: Settings, xs: seq<Sample>, samples: seq<Sample>, marks: seq<bool>) {
    && |samples| == |marks| == s.Delay() + 1
    && forall k :: 0 <= k <= s.Delay() ==>
         samples[k] == Entered(s, xs, |xs| - 1 + k) && marks[k] == Marked(s, xs, |xs| - 1 + k)
  }

  lemma ShiftHolds(s: Settings, xs: seq<Sample>, samples: seq<Sample>, marks: seq<bool>)
    requires s.Valid() && xs != [] && LineHolds(s, xs[..|xs| - 1], samples, marks)
    ensures var last := |xs| - 1; var decision := DecisionOn(s, xs, last);
      LineHolds(s, xs, samples[1..] + [xs[last]], ShiftMarks(marks, decision.marked, decision.opens, s.lookback))
  {
    hide Marked, DecisionOn;
    var last := |xs| - 1;
    forall k | 0 <= k <= s.Delay()
      ensures var decision := DecisionOn(s, xs, last);
        ShiftMarks(marks, decision.marked, decision.opens, s.lookback)[k] == Marked(s, xs, last + k)
    {
      MarkAfter(s, xs, last + k);
      if k < s.Delay() {
        assert marks[k + 1] == Marked(s, xs[..last], last - 1 + (k + 1));
      }
    }
    forall k | 0 <= k <= s.Delay()
      ensures (samples[1..] + [xs[last]])[k] == Entered(s, xs, last + k)
    {
      if k < s.Delay() {
        assert samples[k + 1] == Entered(s, xs[..last], last - 1 + (k + 1));
      }
    }
  }

  lemma {:induction false} LineContents<P>(s: Settings, xs: seq<Sample>, tags: seq<seq<P>>)
    requires s.Valid() && |tags| == |xs|
    ensures var st := Play(Initial<P>(s), xs, tags).state;
      st.detector == DetectorAfter(s, xs) && LineHolds(s, xs, st.samples, st.marks)
  {
    hide Detect, Step, LineHolds, ShiftMarks;
    if xs == [] {
      StartHolds(s);
    } else {
      var last := |xs| - 1;
      LineContents(s, xs[..last], tags[..last]);
      var before := Play(Initial<P>(s), xs[..last], tags[..last]).state;
      StepLine(before, xs[last], tags[last]);
      ShiftHolds(s, xs, before.samples, before.marks);
    }
  }

  lemma StartHolds(s: Settings)
    ensures LineHolds(s, [], Repeat(ZERO, s.Delay() + 1), Repeat(false, s.Delay() + 1))
  {
  }

  lemma StepQueue<P>(st: State<P>, x: Sample, tags: seq<P>)
    requires st.Valid()
    ensures Step(st, x, tags).next.queue == st.queue[1..] + [AsTags(tags)]
  {
  }

  /** The tags wait with their inputs. */
  lemma {:induction false} QueueContents<P>(s: Settings, xs: seq<Sample>, tags: seq<seq<P>>, k: nat)
    requires s.Valid() && |tags| == |xs| && k < s.Delay()
    ensures Play(Initial<P>(s), xs, tags).state.queue[k] == AsTags(TagsOf(s, tags, |xs| + k))
  {
    hide Step, AsTags;
    if xs != [] {
      var last := |xs| - 1;
      var before := Play(Initial<P>(s), xs[..last], tags[..last]).state;
      StepQueue(before, xs[last], tags[last]);
      if k + 1 < s.Delay() {
        QueueContents(s, xs[..last], tags[..last], k + 1);
        TagsOfPrefix(s, tags, last, last + (k + 1));
      }
    }
  }

  /** What the newest input adds to the marks: its own, and those of the `lookback` outputs before it. */
  lemma MarkAfter(s: Settings, xs: seq<Sample>, m: int)
    requires xs != [] && m <= |xs| - 1 + s.Delay()
    ensures var last := |xs| - 1; var decision := DecisionOn(s, xs, last);
      Marked(s, xs, m) == (if m == last + s.Delay() then decision.marked
        else Marked(s, xs[..last], m) || (decision.opens && m >= last + s.Delay() - s.lookback))
  {
    hide Detect;
    var last := |xs| - 1;
    var before := xs[..last];
    var i := m - s.Delay();
    forall j: nat | j < last
      ensures DecisionOn(s, before, j) == DecisionOn(s, xs, j)
    {
      assert before[..j] == xs[..j];
    }
    if Marked(s, before, m) && !(0 <= i < last && DecisionOn(s, before, i).marked) {
      var j :| i < j <= i + s.lookback && 0 <= j < last && DecisionOn(s, before, j).opens;
      assert DecisionOn(s, xs, j).opens;
    }
    if Marked(s, xs, m) && !(0 <= i < |xs| && DecisionOn(s, xs, i).marked) {
      var j :| i < j <= i + s.lookback && 0 <= j < |xs| && DecisionOn(s, xs, j).opens;
      if j < last {
        assert DecisionOn(s, before, j).opens;
      }
    }
    if DecisionOn(s, xs, last).opens && i < last <= i + s.lookback {
      assert Marked(s, xs, m);
    }
  }

  // ---------------------------------------------------------------- runs of replaced outputs

  /** How many outputs up to `m` are replaced without a gap. */
  ghost function RunLength(s: Settings, xs: seq<Sample>, m: nat): (length: nat)
    ensures length <= m + 1
    ensures forall k :: m - length < k <= m ==> Marked(s, xs, k)
    ensures length <= m ==> !Marked(s, xs, m - length)
  {
    if !Marked(s, xs, m) then 0 else if m == 0 then 1 else 1 + RunLength(s, xs, m - 1)
  }

  /** The newest sample up to output `m` that is not replaced, and zero while there is none. */
  ghost function Anchor(s: Settings, xs: seq<Sample>, m: nat): Sample
    requires m < |xs| + s.Delay()
  {
    if !Marked(s, xs, m) then Entered(s, xs, m) else if m == 0 then ZERO else Anchor(s, xs, m - 1)
  }

  /** From `from` on, the first output still to leave that nothing marks yet when output `m` leaves. */
  ghost function VisibleEnd(s: Settings, xs: seq<Sample>, m: nat, from: nat): (end: nat)
    requires m < |xs| && m < from <= m + s.Delay() + 1
    ensures from <= end <= m + s.Delay() + 1
    decreases m + s.Delay() + 1 - from
  {
    if from <= m + s.Delay() && Marked(s, xs[..m + 1], from) then VisibleEnd(s, xs, m, from + 1) else from
  }

  /** Whether the line shows no end of the run when output `m` leaves. */
  ghost predicate EndUnseen(s: Settings, xs: seq<Sample>, m: nat)
    requires m < |xs|
  {
    VisibleEnd(s, xs, m, m + 1) == m + s.Delay() + 1
  }

  /** How many outputs of the run that covers output `m` repeat the sample before it for want of an end to draw to. */
  ghost function HeldOutputs(s: Settings, xs: seq<Sample>, m: nat): (held: nat)
    requires m < |xs|
    ensures held <= RunLength(s, xs, m)
    ensures !EndUnseen(s, xs, m) && Marked(s, xs, m) ==> held < RunLength(s, xs, m)
  {
    if !Marked(s, xs, m) then 0
    else if EndUnseen(s, xs, m) then RunLength(s, xs, m)
    else if m == 0 then 0
    else HeldOutputs(s, xs, m - 1)
  }

  /** What output `m` is, told from the inputs. */
  ghost function Expected(s: Settings, xs: seq<Sample>, m: nat): Sample
    requires m < |xs|
  {
    if !Marked(s, xs, m) then Entered(s, xs, m)
    else
      match s.rule
      case Zero => ZERO
      case Hold => Anchor(s, xs, m)
      case Interpolate =>
        if EndUnseen(s, xs, m) then Anchor(s, xs, m)
        else
          var end := VisibleEnd(s, xs, m, m + 1);
          var place := RunLength(s, xs, m) - HeldOutputs(s, xs, m);
          Interpolated(Anchor(s, xs, m), Entered(s, xs, end), place, place + end - m - 1)
  }

  /** The length of the run that output `m` closes. */
  ghost function Closes(s: Settings, xs: seq<Sample>, m: nat): Option<nat> {
    if Marked(s, xs, m) && !Marked(s, xs, m + 1) then Some(RunLength(s, xs, m)) else None
  }

  /** Everything that output `m` states is settled by the inputs up to it. */
  lemma {:induction false} OutputIsFinal(s: Settings, xs: seq<Sample>, n: nat, m: nat)
    requires s.Valid() && m < n <= |xs|
    ensures Marked(s, xs[..n], m) == Marked(s, xs, m) && Marked(s, xs[..n], m + 1) == Marked(s, xs, m + 1)
    ensures RunLength(s, xs[..n], m) == RunLength(s, xs, m)
    ensures Anchor(s, xs[..n], m) == Anchor(s, xs, m)
    ensures HeldOutputs(s, xs[..n], m) == HeldOutputs(s, xs, m)
    ensures VisibleEnd(s, xs[..n], m, m + 1) == VisibleEnd(s, xs, m, m + 1)
  {
    MarkIsFinal(s, xs, n, m);
    MarkIsFinal(s, xs, n, m + 1);
    SameView(s, xs, n, m, m + 1);
    if m > 0 {
      OutputIsFinal(s, xs, n, m - 1);
    }
  }

  lemma ExpectedIsFinal(s: Settings, xs: seq<Sample>, n: nat, m: nat)
    requires s.Valid() && m < n <= |xs|
    ensures Expected(s, xs[..n], m) == Expected(s, xs, m)
    ensures Closes(s, xs[..n], m) == Closes(s, xs, m)
  {
    hide Detect, DecisionOn, Marked, Interpolated, RunLength, HeldOutputs, VisibleEnd, Anchor;
    OutputIsFinal(s, xs, n, m);
  }

  lemma {:induction false} SameView(s: Settings, xs: seq<Sample>, n: nat, m: nat, from: nat)
    requires m < n <= |xs| && m < from <= m + s.Delay() + 1
    ensures VisibleEnd(s, xs[..n], m, from) == VisibleEnd(s, xs, m, from)
    decreases m + s.Delay() + 1 - from
  {
    assert xs[..n][..m + 1] == xs[..m + 1];
    if from <= m + s.Delay() {
      SameView(s, xs, n, m, from + 1);
    }
  }

  lemma {:induction false} EndInLine(s: Settings, xs: seq<Sample>, samples: seq<Sample>, marks: seq<bool>, k: nat)
    requires xs != [] && LineHolds(s, xs, samples, marks) && 1 <= k <= s.Delay() + 1
    ensures VisibleEnd(s, xs, |xs| - 1, |xs| - 1 + k) == |xs| - 1 + RunEnd(marks, k)
    decreases s.Delay() + 1 - k
  {
    hide Marked;
    assert xs[..|xs|] == xs;
    if k <= s.Delay() {
      EndInLine(s, xs, samples, marks, k + 1);
    }
  }

  /** The run counters after `n` outputs of a stream. They count a run only while it goes on. */
  ghost function RunAfter(s: Settings, xs: seq<Sample>, n: nat): Run
    requires n <= |xs|
  {
    if n == 0 then NO_RUN
    else if Marked(s, xs, n - 1) && Marked(s, xs, n)
    then Run(RunLength(s, xs, n - 1), HeldOutputs(s, xs, n - 1), Anchor(s, xs, n - 1))
    else Run(0, 0, Anchor(s, xs, n - 1))
  }

  /** One output of a line that holds what the inputs put there. */
  lemma EmitsExpected(s: Settings, xs: seq<Sample>, samples: seq<Sample>, marks: seq<bool>, run: Run)
    requires s.Valid() && xs != [] && LineHolds(s, xs, samples, marks)
    requires run == RunAfter(s, xs, |xs| - 1)
    ensures run.held <= run.position
    ensures var m := |xs| - 1;
      Emit(s.rule, samples, marks, run)
        == Emission(Expected(s, xs, m), Marked(s, xs, m), Closes(s, xs, m), RunAfter(s, xs, |xs|))
  {
    hide Detect, DecisionOn, Interpolated, Marked, Entered;
    var m := |xs| - 1;
    EndInLine(s, xs, samples, marks, 1);
    assert marks[0] == Marked(s, xs, m) && marks[1] == Marked(s, xs, m + 1);
  }

  lemma RunAfterPrefix(s: Settings, xs: seq<Sample>, n: nat)
    requires s.Valid() && n <= |xs|
    ensures RunAfter(s, xs[..n], n) == RunAfter(s, xs, n)
  {
    hide Detect, DecisionOn, Marked;
    if n > 0 {
      OutputIsFinal(s, xs, n, n - 1);
    }
  }

  /** The run counters say which part of a run has left, and the anchor is the newest sample that was passed. */
  lemma {:induction false} RunContents<P>(s: Settings, xs: seq<Sample>, tags: seq<seq<P>>)
    requires s.Valid() && |tags| == |xs|
    ensures Play(Initial<P>(s), xs, tags).state.run == RunAfter(s, xs, |xs|)
    decreases |xs|, 1
  {
    hide Detect, DecisionOn, Marked;
    if xs != [] {
      LastOutput(s, xs, tags);
    }
  }

  lemma {:induction false} LastOutput<P>(s: Settings, xs: seq<Sample>, tags: seq<seq<P>>)
    requires s.Valid() && |tags| == |xs| && xs != []
    ensures Play(Initial<P>(s), xs, tags).state.run == RunAfter(s, xs, |xs|)
    ensures var m := |xs| - 1;
      Play(Initial<P>(s), xs, tags).outputs[m] ==
        Output(Expected(s, xs, m), Marked(s, xs, m), AsTags(TagsOf(s, tags, m)) + MarkerOf(s.emitTags, Closes(s, xs, m)))
    decreases |xs|, 0
  {
    hide Detect, DecisionOn, Marked, Emit, Expected, RunAfter, Closes, MarkerOf, ShiftMarks, LineHolds;
    var m := |xs| - 1;
    var before := Play(Initial<P>(s), xs[..m], tags[..m]).state;
    var st := Play(Initial<P>(s), xs, tags).state;
    assert before.run == RunAfter(s, xs, m) by {
      RunContents(s, xs[..m], tags[..m]);
      RunAfterPrefix(s, xs, m);
    }
    assert before.queue[0] == AsTags(TagsOf(s, tags, m)) by {
      QueueContents(s, xs[..m], tags[..m], 0);
      TagsOfPrefix(s, tags, m, m);
    }
    LineContents(s, xs, tags);
    EmitsExpected(s, xs, st.samples, st.marks, before.run);
  }

  /**
   Output `m` of a stream from the start: the sample `Delay()` earlier, or its replacement drawn from the samples about
   its run, with that input's tags, and behind them the length of the whole run on its last output.
   */
  lemma StreamOutput<P>(s: Settings, xs: seq<Sample>, tags: seq<seq<P>>, m: nat)
    requires s.Valid() && |tags| == |xs| && m < |xs|
    ensures Play(Initial<P>(s), xs, tags).outputs[m] ==
      Output(Expected(s, xs, m), Marked(s, xs, m), AsTags(TagsOf(s, tags, m)) + MarkerOf(s.emitTags, Closes(s, xs, m)))
  {
    hide *;
    var all := Play(Initial<P>(s), xs, tags).outputs;
    assert all[m] == Play(Initial<P>(s), xs[..m + 1], tags[..m + 1]).outputs[m] by {
      PlayPrefix(Initial<P>(s), xs, tags, m + 1);
    }
    LastOutput(s, xs[..m + 1], tags[..m + 1]);
    OutputIsFinal(s, xs, m + 1, m);
    ExpectedIsFinal(s, xs, m + 1, m);
    TagsOfPrefix(s, tags, m + 1, m);
  }

  // ---------------------------------------------------------------- what the replaced outputs look like

  /** Whether `x` lies between `a` and `b`, and strictly between them when they differ. */
  predicate Inside(a: real, x: real, b: real) {
    if a < b then a < x < b else if b < a then b < x < a else x == a
  }

  lemma WeightedInside(a: real, b: real, weight: real)
    requires 0.0 < weight < 1.0
    ensures Inside(a, Toward(a, b, weight), b)
  {
    var step := (b - a) * weight;
    if a < b {
      ScaledDown(b - a, weight, step);
    } else if b < a {
      ScaledDown(a - b, weight, -step);
    }
  }

  lemma ScaledDown(x: real, weight: real, scaled: real)
    requires 0.0 < x && 0.0 < weight < 1.0 && scaled == x * weight
    ensures 0.0 < scaled < x
  {
    var rest := x * (1.0 - weight);
    assert rest == x - scaled;
    PositiveProduct(x, weight, scaled);
    PositiveProduct(x, 1.0 - weight, rest);
  }

  lemma WeightIsProper(position: nat, span: nat)
    requires 1 <= position <= span
    ensures 0.0 < position as real / (span + 1) as real < 1.0
  {
  }

  /** An interpolated output lies inside its anchor and the sample that follows the part of the run in sight. */
  lemma DrawnInside(s: Settings, xs: seq<Sample>, m: nat)
    requires m < |xs| && s.rule.Interpolate? && Marked(s, xs, m) && !EndUnseen(s, xs, m)
    requires Anchor(s, xs, m).Finite? && Entered(s, xs, VisibleEnd(s, xs, m, m + 1)).Finite?
    ensures var a := Anchor(s, xs, m); var b := Entered(s, xs, VisibleEnd(s, xs, m, m + 1)); var x := Expected(s, xs, m);
      x.Finite? && Inside(a.re, x.re, b.re) && Inside(a.im, x.im, b.im)
  {
    hide Marked, Inside, Interpolated, Anchor, Entered;
    var end := VisibleEnd(s, xs, m, m + 1);
    var place := RunLength(s, xs, m) - HeldOutputs(s, xs, m);
    InterpolatedInside(Anchor(s, xs, m), Entered(s, xs, end), place, place + end - m - 1);
  }

  lemma InterpolatedInside(a: Sample, b: Sample, position: nat, span: nat)
    requires a.Finite? && b.Finite? && 1 <= position <= span
    ensures var x := Interpolated(a, b, position, span);
      x.Finite? && Inside(a.re, x.re, b.re) && Inside(a.im, x.im, b.im)
  {
    hide Inside, Toward;
    var weight := position as real / (span + 1) as real;
    WeightIsProper(position, span);
    WeightedInside(a.re, b.re, weight);
    WeightedInside(a.im, b.im, weight);
  }

  /** The anchor of a run is the sample right before it. */
  lemma {:induction false} AnchorBeforeRun(s: Settings, xs: seq<Sample>, m: nat)
    requires m < |xs| + s.Delay() && RunLength(s, xs, m) <= m
    ensures Anchor(s, xs, m) == Entered(s, xs, m - RunLength(s, xs, m))
  {
    hide Marked, Entered;
    if RunLength(s, xs, m) == 0 {
      assert !Marked(s, xs, m);
    } else {
      AnchorBeforeRun(s, xs, m - 1);
    }
  }

  /** A run no longer than the line is in sight as a whole from its first output on, so no output of it holds. */
  lemma {:induction false} ShortRunIsDrawn(s: Settings, xs: seq<Sample>, m: nat, end: nat)
    requires s.Valid() && m < |xs| && Marked(s, xs, m) && !Marked(s, xs, end)
    requires m < end <= m + 1 - RunLength(s, xs, m) + s.Delay()
    ensures !EndUnseen(s, xs, m) && HeldOutputs(s, xs, m) == 0
  {
    hide Marked;
    SeesUnmarked(s, xs, m, m + 1, end);
    if RunLength(s, xs, m) > 1 {
      ShortRunIsDrawn(s, xs, m - 1, end);
    }
  }

  lemma {:induction false} SeesUnmarked(s: Settings, xs: seq<Sample>, m: nat, from: nat, end: nat)
    requires m < |xs| && m < from <= end <= m + s.Delay() && !Marked(s, xs, end)
    ensures VisibleEnd(s, xs, m, from) <= end
    decreases end - from
  {
    hide Detect, DecisionOn;
    if from < end {
      SeesUnmarked(s, xs, m, from + 1, end);
    } else if Marked(s, xs[..m + 1], end) {
      MarksOnlyGrow(s, xs, m + 1, end);
    }
  }

  lemma MarksOnlyGrow(s: Settings, xs: seq<Sample>, n: nat, m: int)
    requires n <= |xs| && Marked(s, xs[..n], m)
    ensures Marked(s, xs, m)
  {
    hide Detect;
    forall j: nat | j < n
      ensures DecisionOn(s, xs[..n], j) == DecisionOn(s, xs, j)
    {
      assert xs[..n][..j] == xs[..j];
    }
    var i := m - s.Delay();
    if !(0 <= i < n && DecisionOn(s, xs[..n], i).marked) {
      var j :| i < j <= i + s.lookback && 0 <= j < n && DecisionOn(s, xs[..n], j).opens;
      assert DecisionOn(s, xs, j).opens;
    }
  }

  /** The sample `k` steps along a straight line. */
  function LineAt(from: Sample, slope: Sample, k: nat): Sample
    requires from.Finite? && slope.Finite?
  {
    Finite(from.re + slope.re * k as real, from.im + slope.im * k as real)
  }

  lemma LineIsInterpolated(from: Sample, slope: Sample, position: nat, span: nat)
    requires from.Finite? && slope.Finite? && position <= span
    ensures Interpolated(LineAt(from, slope, 0), LineAt(from, slope, span + 1), position, span) ==
      LineAt(from, slope, position)
  {
  }

  /**
   A run no longer than the line that interrupts a straight line is put back on it, whatever the line shows of its end
   meanwhile: the output is the sample that was removed.
   */
  lemma StraightLineIsKept(s: Settings, xs: seq<Sample>, m: nat, end: nat, from: Sample, slope: Sample)
    requires s.Valid() && s.rule.Interpolate? && m < |xs| && Marked(s, xs, m) && !Marked(s, xs, end)
    requires from.Finite? && slope.Finite?
    requires var first := m + 1 - RunLength(s, xs, m);
      && 1 <= first && m < end <= first + s.Delay() && end < |xs| + s.Delay()
      && forall k :: first - 1 <= k <= end ==> Entered(s, xs, k) == LineAt(from, slope, k - (first - 1))
    ensures Expected(s, xs, m) == Entered(s, xs, m)
  {
    hide Marked, Entered, LineAt, Interpolated, RunLength, Anchor, VisibleEnd, HeldOutputs, EndUnseen;
    var length := RunLength(s, xs, m);
    ShortRunIsDrawn(s, xs, m, end);
    SeesUnmarked(s, xs, m, m + 1, end);
    AnchorBeforeRun(s, xs, m);
    var span := VisibleEnd(s, xs, m, m + 1) - (m + 1 - length);
    LineIsInterpolated(from, slope, length, span);
  }

  /** While the blanker is enabled a sample whose power is not finite never passes, so every output is finite. */
  lemma OutputIsFinite(s: Settings, xs: seq<Sample>, m: nat)
    requires s.Valid() && s.enabled && m < |xs|
    ensures Expected(s, xs, m).Finite?
  {
    hide Marked, Entered;
    AnchorIsFinite(s, xs, m);
    if Marked(s, xs, m) && s.rule.Interpolate? && !EndUnseen(s, xs, m) {
      var end := VisibleEnd(s, xs, m, m + 1);
      EndUnmarked(s, xs, m, m + 1);
      PassedIsFinite(s, xs[..m + 1], end);
      EnteredPrefix(s, xs, m + 1, end);
    }
  }

  lemma EnteredPrefix(s: Settings, xs: seq<Sample>, n: nat, m: int)
    requires n <= |xs| && m < n + s.Delay()
    ensures Entered(s, xs[..n], m) == Entered(s, xs, m)
  {
  }

  lemma PassedIsFinite(s: Settings, xs: seq<Sample>, m: nat)
    requires s.enabled && m < |xs| + s.Delay() && !Marked(s, xs, m)
    ensures Entered(s, xs, m).Finite?
  {
  }

  lemma {:induction false} AnchorIsFinite(s: Settings, xs: seq<Sample>, m: nat)
    requires s.enabled && m < |xs| + s.Delay()
    ensures Anchor(s, xs, m).Finite?
  {
    hide Marked, Entered;
    if !Marked(s, xs, m) {
      PassedIsFinite(s, xs, m);
    } else if m == 0 {
      assert ZERO.Finite?;
    } else {
      AnchorIsFinite(s, xs, m - 1);
    }
  }

  lemma {:induction false} EndUnmarked(s: Settings, xs: seq<Sample>, m: nat, from: nat)
    requires m < |xs| && m < from <= m + s.Delay() + 1
    ensures var end := VisibleEnd(s, xs, m, from);
      end <= m + s.Delay() ==> !Marked(s, xs[..m + 1], end)
    decreases m + s.Delay() + 1 - from
  {
    hide Marked;
    if from <= m + s.Delay() && Marked(s, xs[..m + 1], from) {
      EndUnmarked(s, xs, m, from + 1);
    }
  }
}
