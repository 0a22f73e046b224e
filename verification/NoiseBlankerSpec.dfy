/**
 The noise blanker on values: what one input does to the detector, to the delay line and to the tags that wait in it,
 and what a resize or a reset of the line does. The class in `NoiseBlankerBlock` runs the same steps on a ring.
 */
module NoiseBlankerSpec {
  import opened Basics

  /** A sample: its real and imaginary part, or a value whose power is not finite. A real stream has imaginary part 0. */
  datatype Sample = Finite(re: real, im: real) | NonFinite

  const ZERO: Sample := Finite(0.0, 0.0)

  datatype Power = Level(value: real) | Unbounded

  function SquaredMagnitude(x: Sample): Power {
    match x
    case Finite(re, im) => Level(re * re + im * im)
    case NonFinite => Unbounded
  }

  datatype Rule = Interpolate | Hold | Zero

  /** The accepted settings. `maxWindow` is the resolved cap and `warmupLength` the averaging time in samples. */
  datatype Settings = Settings(
    enabled: bool, threshold: real, alpha: real, lookback: nat, blank: nat, maxWindow: nat, warmupLength: nat,
    rule: Rule, retrigger: bool, emitTags: bool)
  {
    predicate Valid() { blank >= 1 && maxWindow >= 1 && warmupLength >= 1 && 0.0 < alpha <= 1.0 && threshold >= 0.0 }

    function Delay(): nat { lookback + blank }
  }

  // ---------------------------------------------------------------- the detector

  datatype Detector = Detector(power: real, duty: real, warmup: nat, remaining: nat, windowLength: nat, excess: nat)

  /** The detector after one input, whether that input opened a window, and whether it is inside one. */
  datatype Decision = Decision(next: Detector, opens: bool, marked: bool)

  predicate Exceeds(power: Power, limit: real) {
    power.Unbounded? || power.value > limit
  }

  predicate Detected(s: Settings, d: Detector, power: Power) {
    s.enabled && if d.warmup > 0 then power.Unbounded? else Exceeds(power, s.threshold * d.power)
  }

  /** What is left of the window after this input, given its length so far. */
  function Remaining(s: Settings, remaining: nat, detected: bool, windowLength: nat): nat {
    var open := remaining > 0;
    var left :=
      if detected && !open then s.blank
      else if detected && s.retrigger then
        Min(s.blank, if windowLength > s.maxWindow then 0 else s.maxWindow + 1 - windowLength)
      else remaining;
    if left > 0 then left - 1 else 0
  }

  function TrackedPower(s: Settings, power: real, level: real): real {
    Flushed(power + s.alpha * (level - power))
  }

  /** The slow average of the window duty, over ten tracker time constants. */
  function TrackedDuty(s: Settings, duty: real, marked: bool): real {
    Flushed(duty + 0.1 * s.alpha * ((if marked then 1.0 else 0.0) - duty))
  }

  function Detect(s: Settings, d: Detector, x: Sample): Decision {
    var power := SquaredMagnitude(x);
    var open := d.remaining > 0;
    var detected := Detected(s, d, power);
    var marked := open || detected;
    var tracked := if !marked && s.enabled then TrackedPower(s, d.power, power.value) else d.power;
    var windowLength := if !marked then 0 else if open then d.windowLength + 1 else s.lookback + 1;
    var excess := if marked then d.excess + 1 else if d.excess > 0 then d.excess - 1 else 0;
    var relearn := excess >= s.warmupLength;
    var warmup := if relearn then s.warmupLength else if d.warmup > 0 then d.warmup - 1 else 0;
    var duty := TrackedDuty(s, d.duty, marked);
    Decision(
      Detector(tracked, duty, warmup, Remaining(s, d.remaining, detected, windowLength), windowLength,
               if relearn then 0 else excess),
      detected && !open, marked)
  }

  function Restarted(s: Settings): Detector {
    Detector(0.0, 0.0, s.warmupLength, 0, 0, 0)
  }

  // ---------------------------------------------------------------- the delay line

  /** The run that is leaving: its outputs by now, those among them that held, and the sample right before it. */
  datatype Run = Run(position: nat, held: nat, anchor: Sample)

  const NO_RUN: Run := Run(0, 0, ZERO)

  /** The marks after an input enters: a window that opens also marks the `lookback` entries before it. */
  function ShiftMarks(marks: seq<bool>, marked: bool, opens: bool, lookback: nat): (r: seq<bool>)
    requires lookback < |marks|
    ensures |r| == |marks|
  {
    seq(|marks|, k requires 0 <= k < |marks| =>
      if k == |marks| - 1 then marked else marks[k + 1] || (opens && k >= |marks| - 1 - lookback))
  }

  /** The first entry from `from` on that is not marked, or the length. */
  function RunEnd(marks: seq<bool>, from: nat): (end: nat)
    requires from <= |marks|
    ensures from <= end <= |marks|
    ensures forall k :: from <= k < end ==> marks[k]
    ensures end < |marks| ==> !marks[end]
    decreases |marks| - from
  {
    if from < |marks| && marks[from] then RunEnd(marks, from + 1) else from
  }

  /** The part `weight` of the way from `a` to `b`. */
  function Toward(a: real, b: real, weight: real): real { a + (b - a) * weight }

  /** The line from `anchor` to `after`, at `position` of `span + 1` steps. */
  function Interpolated(anchor: Sample, after: Sample, position: nat, span: nat): Sample {
    if anchor.NonFinite? || after.NonFinite? then NonFinite
    else
      var weight := position as real / (span + 1) as real;
      Finite(Toward(anchor.re, after.re, weight), Toward(anchor.im, after.im, weight))
  }

  /** One output: the sample, whether it was replaced, the length its run ends with, and the run from here on. */
  datatype Emission = Emission(out: Sample, replaced: bool, ends: Option<nat>, run: Run)

  function Emit(rule: Rule, samples: seq<Sample>, marks: seq<bool>, run: Run): (e: Emission)
    requires |samples| == |marks| >= 2 && run.held <= run.position
    ensures e.run.held <= e.run.position
    ensures e.run.position > 0 ==> marks[1]
  {
    if !marks[0] then Emission(samples[0], false, None, Run(0, 0, samples[0]))
    else
      var ahead := RunEnd(marks, 1);
      var position := run.position + 1;
      if ahead == |marks| then
        Emission(if rule.Zero? then ZERO else run.anchor, true, None, Run(position, position, run.anchor))
      else
        var place := position - run.held;
        var out :=
          match rule
          case Zero => ZERO
          case Hold => run.anchor
          case Interpolate => Interpolated(run.anchor, samples[ahead], place, place + ahead - 1);
        if ahead == 1 then Emission(out, true, Some(position), Run(0, 0, run.anchor))
        else Emission(out, true, None, Run(position, run.held, run.anchor))
  }

  // ---------------------------------------------------------------- tags and the whole block

  /** A tag of the input, or the block's own `noise_blanked` with a run's length. */
  datatype Tag<P> = Forwarded(payload: P) | Blanked(length: nat)

  function AsTags<P>(payloads: seq<P>): (r: seq<Tag<P>>)
    ensures |r| == |payloads|
  {
    seq(|payloads|, k requires 0 <= k < |payloads| => Forwarded(payloads[k]))
  }

  /**
   The block between two samples. `samples[0]` left last and `samples[1..]` are still to leave; `queue[k]` holds the tags
   that leave with `samples[k + 1]`, which is output `emitted + k`.
   */
  datatype State<P> = State(
    settings: Settings, detector: Detector, samples: seq<Sample>, marks: seq<bool>, run: Run,
    queue: seq<seq<Tag<P>>>, emitted: nat)
  {
    predicate Valid() {
      && settings.Valid()
      && |samples| == |marks| == settings.Delay() + 1
      && |queue| == settings.Delay()
      && run.held <= run.position
      && (run.position > 0 ==> marks[1])
    }
  }

  datatype Output<P> = Output(sample: Sample, replaced: bool, tags: seq<Tag<P>>)

  datatype Stepped<P> = Stepped(next: State<P>, output: Output<P>)

  function Initial<P>(s: Settings): (st: State<P>)
    requires s.Valid()
    ensures st.Valid()
  {
    State(s, Restarted(s), Repeat(ZERO, s.Delay() + 1), Repeat(false, s.Delay() + 1), NO_RUN, Repeat([], s.Delay()), 0)
  }

  function MarkerOf<P>(emitTags: bool, ends: Option<nat>): seq<Tag<P>> {
    if emitTags && ends.Some? then [Blanked(ends.value)] else []
  }

  /** One input in and one output out. */
  function Step<P>(st: State<P>, x: Sample, tags: seq<P>): (r: Stepped<P>)
    requires st.Valid()
    ensures r.next.Valid() && r.next.settings == st.settings
  {
    var s := st.settings;
    var decision := Detect(s, st.detector, x);
    var samples := st.samples[1..] + [x];
    var marks := ShiftMarks(st.marks, decision.marked, decision.opens, s.lookback);
    var e := Emit(s.rule, samples, marks, st.run);
    var queue := st.queue + [AsTags(tags)];
    Stepped(
      State(s, decision.next, samples, marks, e.run, queue[1..], st.emitted + 1),
      Output(e.out, e.replaced, queue[0] + MarkerOf(s.emitTags, e.ends)))
  }

  /** A run's length after the entries 1 to `n` were dropped: 0 once it ended among them. */
  function DroppedLength(marks: seq<bool>, length: nat, n: nat): nat
    requires n < |marks|
  {
    if n == 0 then length
    else
      var before := DroppedLength(marks, length, n - 1);
      if !marks[n] then before
      else if n == |marks| - 1 || !marks[n + 1] then 0
      else before + 1
  }

  /** The tags of the entries 1 to `n`, with a marker behind each run that ends there. */
  function DroppedTags<P>(queue: seq<seq<Tag<P>>>, marks: seq<bool>, length: nat, emitTags: bool, n: nat): seq<Tag<P>>
    requires n <= |queue| == |marks| - 1
  {
    if n == 0 then []
    else
      DroppedTags(queue, marks, length, emitTags, n - 1) + queue[n - 1] +
      MarkerOf(emitTags, EndAt(marks, length, n))
  }

  /** The length of the run that ends at entry `n`, when one does. */
  function EndAt(marks: seq<bool>, length: nat, n: nat): Option<nat>
    requires 1 <= n < |marks|
  {
    if marks[n] && (n == |marks| - 1 || !marks[n + 1]) then Some(DroppedLength(marks, length, n - 1) + 1) else None
  }

  function DroppedAnchor(samples: seq<Sample>, marks: seq<bool>, anchor: Sample, n: nat): Sample
    requires n < |marks| == |samples|
  {
    if n == 0 then anchor
    else if !marks[n] then samples[n]
    else DroppedAnchor(samples, marks, anchor, n - 1)
  }

  /** The run after the entries 1 to `n` were dropped. It goes on only when every one of them belonged to it. */
  function DroppedRun(samples: seq<Sample>, marks: seq<bool>, run: Run, n: nat): Run
    requires n < |marks| == |samples|
  {
    var length := DroppedLength(marks, run.position, n);
    var goesOn := run.position > 0 && length == run.position + n;
    Run(length, if !goesOn then 0 else if run.held == run.position then length else run.held,
        DroppedAnchor(samples, marks, run.anchor, n))
  }

  /** The tags that wait once the entries 1 to `n` are gone: theirs go to the next output, ahead of its own. */
  function DroppedQueue<P>(queue: seq<seq<Tag<P>>>, moved: seq<Tag<P>>, n: nat): (r: seq<seq<Tag<P>>>)
    requires n <= |queue|
    ensures |r| == Max(1, |queue| - n)
  {
    if n < |queue| then [moved + queue[n]] + queue[n + 1..] else [moved]
  }

  /** The line for another lookback or blank: the newest entries stay. */
  function Resize<P>(st: State<P>, lookback: nat, blank: nat): (r: State<P>)
    requires st.Valid() && blank >= 1
    ensures r.Valid() && r.settings == st.settings.(lookback := lookback, blank := blank)
    ensures r.emitted == st.emitted
  {
    var delay := lookback + blank;
    var before := st.settings.Delay();
    var settings := st.settings.(lookback := lookback, blank := blank);
    var detector := st.detector.(remaining := Min(st.detector.remaining, blank));
    if delay >= before then
      var grown := delay - before;
      State(settings, detector,
            [st.samples[0]] + Repeat(ZERO, grown) + st.samples[1..],
            [st.marks[0]] + Repeat(st.run.position > 0, grown) + st.marks[1..],
            st.run, Repeat([], grown) + st.queue, st.emitted)
    else
      var dropped := before - delay;
      DropKeepsRun(st.marks, st.run.position, dropped);
      State(settings, detector,
            [st.samples[0]] + st.samples[1 + dropped..], [st.marks[0]] + st.marks[1 + dropped..],
            DroppedRun(st.samples, st.marks, st.run, dropped),
            DroppedQueue(st.queue, DroppedTags(st.queue, st.marks, st.run.position, st.settings.emitTags, dropped), dropped),
            st.emitted)
  }

  /** A length counted over dropped entries is that of a run which the next entry continues. */
  lemma {:induction false} DropKeepsRun(marks: seq<bool>, length: nat, n: nat)
    requires n < |marks|
    requires length > 0 ==> |marks| > 1 && marks[1]
    ensures DroppedLength(marks, length, n) > 0 ==> n + 1 < |marks| && marks[n + 1]
    ensures DroppedLength(marks, length, n) <= length + n
  {
    if n == 0 {
      assert DroppedLength(marks, length, 0) == length;
    } else {
      DropKeepsRun(marks, length, n - 1);
    }
  }

  /** Every entry is dropped, the line is zeros, and the tracker starts over. */
  function Reset<P>(st: State<P>): (r: State<P>)
    requires st.Valid()
    ensures r.Valid() && r.settings == st.settings
    ensures r.emitted == st.emitted
  {
    var delay := st.settings.Delay();
    var moved := DroppedTags(st.queue, st.marks, st.run.position, st.settings.emitTags, delay);
    Initial(st.settings).(queue := [moved] + Repeat([], delay - 1), emitted := st.emitted)
  }

  /** New settings. A moved pole or a blanker just enabled warms up again, and another delay resizes the line. */
  function Configure<P>(st: State<P>, settings: Settings): (r: State<P>)
    requires st.Valid() && settings.Valid()
    ensures r.Valid() && r.settings == settings
    ensures r.emitted == st.emitted
  {
    var s := st.settings;
    var restart := settings.alpha != s.alpha || (settings.enabled && !s.enabled);
    var d := if restart then st.detector.(warmup := settings.warmupLength) else st.detector;
    var taken := st.(settings := settings.(lookback := s.lookback, blank := s.blank), detector := d);
    if settings.lookback != s.lookback || settings.blank != s.blank
    then Resize(taken, settings.lookback, settings.blank)
    else taken
  }
}
