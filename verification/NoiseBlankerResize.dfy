/** What a resize or a reset of the noise blanker's line leaves behind, entry by entry. */
module NoiseBlankerResize {
  import opened Basics
  import opened NoiseBlankerSpec

  // ---------------------------------------------------------------- runs among dropped entries

  /** How many entries in a row up to `n` are marked, entry 0 not counted. */
  function RunBack(marks: seq<bool>, n: nat): (length: nat)
    requires n < |marks|
    ensures length <= n
  {
    if n == 0 || !marks[n] then 0 else RunBack(marks, n - 1) + 1
  }

  /** The length at entry `n` of the run it is in, one that was leaving with `length` outputs included. */
  function RunAt(marks: seq<bool>, length: nat, n: nat): nat
    requires n < |marks|
  {
    RunBack(marks, n) + if RunBack(marks, n) == n then length else 0
  }

  /** A run ends at entry `n`. */
  predicate EndsRun(marks: seq<bool>, n: nat) {
    1 <= n < |marks| && marks[n] && (n == |marks| - 1 || !marks[n + 1])
  }

  /** A length is carried over dropped entries exactly while its run goes on. */
  lemma {:induction false} DroppedLengthIs(marks: seq<bool>, length: nat, n: nat)
    requires n < |marks| && (length > 0 ==> |marks| > 1 && marks[1])
    ensures DroppedLength(marks, length, n) == if EndsRun(marks, n) then 0 else RunAt(marks, length, n)
  {
    if n == 0 {
      assert RunAt(marks, length, 0) == length;
    } else {
      DroppedLengthIs(marks, length, n - 1);
    }
  }

  /** A run that ends among dropped entries is stated with its whole length, and nothing else is. */
  lemma EndAtIs(marks: seq<bool>, length: nat, n: nat)
    requires 1 <= n < |marks| && (length > 0 ==> |marks| > 1 && marks[1])
    ensures EndAt(marks, length, n) == if EndsRun(marks, n) then Some(RunAt(marks, length, n)) else None
  {
    DroppedLengthIs(marks, length, n - 1);
  }

  /** What entry `k + 1` leaves behind: its tags, and the marker of the run that ends there. */
  function LeftBy<P>(queue: seq<seq<Tag<P>>>, marks: seq<bool>, length: nat, emitTags: bool, k: nat): seq<Tag<P>>
    requires k < |queue| == |marks| - 1
  {
    queue[k] + if emitTags && EndsRun(marks, k + 1) then [Blanked(RunAt(marks, length, k + 1))] else []
  }

  /** Dropped entries leave their tags and markers in their order. */
  lemma {:induction false} DroppedTagsAre<P>(queue: seq<seq<Tag<P>>>, marks: seq<bool>, length: nat, emitTags: bool, n: nat)
    requires n <= |queue| == |marks| - 1 && (length > 0 ==> |marks| > 1 && marks[1])
    ensures DroppedTags(queue, marks, length, emitTags, n) ==
      Concat(seq(n, k requires 0 <= k < n => LeftBy(queue, marks, length, emitTags, k)))
  {
    hide EndAt, EndsRun, RunAt;
    if n == 0 {
      assert DroppedTags(queue, marks, length, emitTags, 0) == [];
    } else {
      DroppedTagsAre(queue, marks, length, emitTags, n - 1);
      EndAtIs(marks, length, n);
      var parts := seq(n - 1, k requires 0 <= k < n - 1 => LeftBy(queue, marks, length, emitTags, k));
      var last := LeftBy(queue, marks, length, emitTags, n - 1);
      ConcatAppend(parts, [last]);
      ConcatOne(last);
      assert seq(n, k requires 0 <= k < n => LeftBy(queue, marks, length, emitTags, k)) == parts + [last];
    }
  }

  /** The anchor is then the newest dropped entry that was not marked, and where all were, the one before. */
  lemma {:induction false} DroppedAnchorIs(samples: seq<Sample>, marks: seq<bool>, anchor: Sample, n: nat, k: nat)
    requires k <= n < |marks| == |samples| && (forall j :: k < j <= n ==> marks[j])
    ensures k == 0 ==> DroppedAnchor(samples, marks, anchor, n) == anchor
    ensures k > 0 && !marks[k] ==> DroppedAnchor(samples, marks, anchor, n) == samples[k]
  {
    if n > k {
      DroppedAnchorIs(samples, marks, anchor, n - 1, k);
    }
  }

  /**
   The run after a drop. A run that was leaving and takes in every dropped entry goes on, and holds on if it held so far.
   Any other run has not begun to leave.
   */
  lemma DroppedRunIs(samples: seq<Sample>, marks: seq<bool>, run: Run, n: nat)
    requires 1 <= n < |marks| == |samples| && (run.position > 0 ==> marks[1]) && run.held <= run.position
    ensures var r := DroppedRun(samples, marks, run, n);
      var goesOn := run.position > 0 && RunBack(marks, n) == n && !EndsRun(marks, n);
      && r.position == (if EndsRun(marks, n) then 0 else RunAt(marks, run.position, n))
      && (goesOn ==> r.position == run.position + n && (run.held == run.position ==> r.held == r.position))
      && (goesOn && run.held < run.position ==> r.held == run.held)
      && (!goesOn ==> r.held == 0)
  {
    DroppedLengthIs(marks, run.position, n);
  }

  // ---------------------------------------------------------------- lines

  /** A longer line: zeros come in before what is still to leave, as part of the run if one is leaving, without tags. */
  lemma ResizeGrows<P>(st: State<P>, lookback: nat, blank: nat, k: nat)
    requires st.Valid() && blank >= 1 && lookback + blank >= st.settings.Delay() && k <= lookback + blank
    ensures var r, grown := Resize(st, lookback, blank), lookback + blank - st.settings.Delay();
      && (k == 0 ==> r.samples[k] == st.samples[0] && r.marks[k] == st.marks[0])
      && (1 <= k <= grown ==> r.samples[k] == ZERO && r.marks[k] == (st.run.position > 0) && r.queue[k - 1] == [])
      && (k > grown ==> r.samples[k] == st.samples[k - grown] && r.marks[k] == st.marks[k - grown])
      && (k > grown ==> r.queue[k - 1] == st.queue[k - grown - 1])
      && r.run == st.run
  {
    hide DroppedRun, DroppedTags, DroppedQueue;
  }

  /** A shorter line: the newest entries stay, and the next one takes the tags and markers of those dropped. */
  lemma ResizeShrinks<P>(st: State<P>, lookback: nat, blank: nat, k: nat)
    requires st.Valid() && blank >= 1 && lookback + blank < st.settings.Delay() && k <= lookback + blank
    ensures var r, n := Resize(st, lookback, blank), st.settings.Delay() - (lookback + blank);
      && (k == 0 ==> r.samples[k] == st.samples[0] && r.marks[k] == st.marks[0])
      && (k > 0 ==> r.samples[k] == st.samples[k + n] && r.marks[k] == st.marks[k + n])
      && (k > 1 ==> r.queue[k - 1] == st.queue[k + n - 1])
      && r.queue[0] == DroppedTags(st.queue, st.marks, st.run.position, st.settings.emitTags, n) + st.queue[n]
      && r.run == DroppedRun(st.samples, st.marks, st.run, n)
  {
    hide DroppedRun, DroppedTags;
  }

  /** A reset: zeros without marks, the tags and markers of the line on the next output, and a tracker that starts over. */
  lemma ResetClears<P>(st: State<P>, k: nat)
    requires st.Valid() && k <= st.settings.Delay()
    ensures var r, s := Reset(st), st.settings;
      && r.samples[k] == ZERO && !r.marks[k] && r.run == NO_RUN && r.emitted == st.emitted
      && (k > 1 ==> r.queue[k - 1] == [])
      && r.queue[0] == DroppedTags(st.queue, st.marks, st.run.position, s.emitTags, s.Delay())
      && (r.detector.power, r.detector.duty, r.detector.excess, r.detector.remaining) == (0.0, 0.0, 0, 0)
      && r.detector.warmup == s.warmupLength
  {
    hide DroppedTags;
  }
}
