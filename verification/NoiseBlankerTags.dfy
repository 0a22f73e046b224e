/**
 What the noise blanker keeps across any sequence of processing calls, settings changes and resets: every input tag
 once and in order, every replaced sample counted once, and the newest inputs with their tags.
 */
module NoiseBlankerTags {
  import opened Basics
  import opened NoiseBlankerSpec
  import opened NoiseBlankerStream

  datatype Op<P> = Process(xs: seq<Sample>, tags: seq<seq<P>>) | Adjust(settings: Settings) | Restart
  {
    predicate Valid() {
      match this
      case Process(xs, tags) => |xs| == |tags|
      case Adjust(settings) => settings.Valid()
      case Restart => true
    }
  }

  /** The state after the operations, the outputs so far, and the replaced inputs that were dropped before they left. */
  datatype History<P> = History(state: State<P>, outputs: seq<Output<P>>, dropped: nat)

  ghost predicate AllValid<P>(ops: seq<Op<P>>) {
    forall k :: 0 <= k < |ops| ==> ops[k].Valid()
  }

  function CountMarks(marks: seq<bool>, n: nat): nat
    requires n < |marks|
  {
    if n == 0 then 0 else CountMarks(marks, n - 1) + if marks[n] then 1 else 0
  }

  /** How many replaced entries a change to another delay drops. */
  function DroppedMarks<P>(st: State<P>, delay: nat): nat
    requires st.Valid() && delay >= 1
  {
    if delay >= st.settings.Delay() then 0 else CountMarks(st.marks, st.settings.Delay() - delay)
  }

  function Apply<P>(h: History<P>, op: Op<P>): (r: History<P>)
    requires h.state.Valid() && op.Valid()
    ensures r.state.Valid()
  {
    match op
    case Process(xs, tags) =>
      var played := Play(h.state, xs, tags);
      History(played.state, h.outputs + played.outputs, h.dropped)
    case Adjust(settings) =>
      History(Configure(h.state, settings), h.outputs, h.dropped + DroppedMarks(h.state, settings.Delay()))
    case Restart =>
      History(Reset(h.state), h.outputs, h.dropped + CountMarks(h.state.marks, h.state.settings.Delay()))
  }

  ghost function After<P>(s: Settings, ops: seq<Op<P>>): (r: History<P>)
    requires s.Valid() && AllValid(ops)
    ensures r.state.Valid()
  {
    if ops == [] then History(Initial(s), [], 0)
    else Apply(After(s, ops[..|ops| - 1]), ops[|ops| - 1])
  }

  // ---------------------------------------------------------------- tags

  function PayloadOf<P>(tag: Tag<P>): seq<P> {
    if tag.Forwarded? then [tag.payload] else []
  }

  function Payloads<P>(tags: seq<Tag<P>>): seq<P> {
    if tags == [] then [] else PayloadOf(tags[0]) + Payloads(tags[1..])
  }

  lemma {:induction false} PayloadsAppend<P>(a: seq<Tag<P>>, b: seq<Tag<P>>)
    ensures Payloads(a + b) == Payloads(a) + Payloads(b)
  {
    if a == [] {
      assert a + b == b;
    } else {
      hide PayloadOf;
      assert (a + b)[0] == a[0] && (a + b)[1..] == a[1..] + b;
      PayloadsAppend(a[1..], b);
    }
  }

  lemma {:induction false} PayloadsOfInput<P>(payloads: seq<P>)
    ensures Payloads(AsTags(payloads)) == payloads
  {
    if payloads != [] {
      assert AsTags(payloads)[1..] == AsTags(payloads[1..]);
      PayloadsOfInput(payloads[1..]);
    }
  }

  function OutputTags<P>(outputs: seq<Output<P>>): seq<Tag<P>> {
    if outputs == [] then [] else OutputTags(outputs[..|outputs| - 1]) + outputs[|outputs| - 1].tags
  }

  lemma {:induction false} OutputTagsAppend<P>(a: seq<Output<P>>, b: seq<Output<P>>)
    ensures OutputTags(a + b) == OutputTags(a) + OutputTags(b)
  {
    if b == [] {
      assert a + b == a;
    } else {
      var last := |b| - 1;
      assert (a + b)[..|a + b| - 1] == a + b[..last];
      OutputTagsAppend(a, b[..last]);
    }
  }

  /** The tags of every input, in the order they came in. */
  function Offered<P>(ops: seq<Op<P>>): seq<P> {
    if ops == [] then []
    else
      Offered(ops[..|ops| - 1]) + match ops[|ops| - 1] case Process(_, tags) => Concat(tags) case _ => []
  }

  /** What has been published of the input tags, and what still waits. */
  function Accounted<P>(outputs: seq<Output<P>>, queue: seq<seq<Tag<P>>>): seq<P> {
    Payloads(OutputTags(outputs)) + Payloads(Concat(queue))
  }

  lemma MarkerHasNoPayload<P>(emitTags: bool, ends: Option<nat>)
    ensures Payloads(MarkerOf<P>(emitTags, ends)) == []
  {
  }

  lemma StepKeepsTags<P>(st: State<P>, x: Sample, tags: seq<P>)
    requires st.Valid()
    ensures var r := Step(st, x, tags);
      Payloads(r.output.tags) + Payloads(Concat(r.next.queue)) == Payloads(Concat(st.queue)) + tags
  {
    hide Detect, Emit, ShiftMarks, MarkerOf, AsTags, Payloads;
    var queue := st.queue + [AsTags(tags)];
    var r := Step(st, x, tags);
    var marker: seq<Tag<P>> := r.output.tags[|queue[0]|..];
    assert r.output.tags == queue[0] + marker;
    assert exists ends: Option<nat> :: marker == MarkerOf<P>(st.settings.emitTags, ends);
    var ends: Option<nat> :| marker == MarkerOf<P>(st.settings.emitTags, ends);
    MarkerHasNoPayload<P>(st.settings.emitTags, ends);
    PayloadsAppend(queue[0], marker);
    ConcatAppend(st.queue, [AsTags(tags)]);
    ConcatOne(AsTags(tags));
    PayloadsOfInput(tags);
    PayloadsAppend(Concat(st.queue), AsTags(tags));
    PayloadsAppend(queue[0], Concat(queue[1..]));
  }

  lemma NothingAccounted<P>()
    ensures Concat<P>([]) == [] && Concat<Tag<P>>([]) == [] && Payloads<P>([]) == []
  {
  }

  lemma Regroup<P>(
    published: seq<P>, out: seq<P>, waiting: seq<P>, waited: seq<P>, added: seq<P>, start: seq<P>, offered: seq<P>)
    requires out + waiting == waited + added && published + waited == start + offered
    ensures (published + out) + waiting == start + (offered + added)
  {
    assert (published + out) + waiting == published + (out + waiting);
    assert published + (waited + added) == (published + waited) + added;
    assert (start + offered) + added == start + (offered + added);
  }

  lemma {:induction false} PlayKeepsTags<P>(st: State<P>, xs: seq<Sample>, tags: seq<seq<P>>)
    requires st.Valid() && |tags| == |xs|
    ensures var r := Play(st, xs, tags);
      Accounted(r.outputs, r.state.queue) == Payloads(Concat(st.queue)) + Concat(tags)
  {
    hide Payloads, Concat, Step, AsTags;
    if xs == [] {
      NothingAccounted<P>();
    } else {
      var last := |xs| - 1;
      var before := Play(st, xs[..last], tags[..last]);
      var r := Play(st, xs, tags);
      PlayKeepsTags(st, xs[..last], tags[..last]);
      StepKeepsTags(before.state, xs[last], tags[last]);
      var o := Step(before.state, xs[last], tags[last]).output;
      assert r.outputs[..last] == before.outputs;
      PayloadsAppend(OutputTags(before.outputs), o.tags);
      assert tags == tags[..last] + [tags[last]];
      ConcatAppend(tags[..last], [tags[last]]);
      ConcatOne(tags[last]);
      Regroup(Payloads(OutputTags(before.outputs)), Payloads(o.tags), Payloads(Concat(r.state.queue)),
              Payloads(Concat(before.state.queue)), tags[last], Payloads(Concat(st.queue)), Concat(tags[..last]));
    }
  }

  lemma {:induction false} DropKeepsTags<P>(
    queue: seq<seq<Tag<P>>>, marks: seq<bool>, length: nat, emitTags: bool, n: nat)
    requires n <= |queue| == |marks| - 1
    ensures Payloads(DroppedTags(queue, marks, length, emitTags, n)) == Payloads(Concat(queue[..n]))
  {
    hide Payloads, MarkerOf, EndAt, Concat;
    if n == 0 {
      assert queue[..0] == [];
      NothingAccounted<P>();
    } else {
      var before := DroppedTags(queue, marks, length, emitTags, n - 1);
      var marker := MarkerOf<P>(emitTags, EndAt(marks, length, n));
      DropKeepsTags(queue, marks, length, emitTags, n - 1);
      MarkerHasNoPayload<P>(emitTags, EndAt(marks, length, n));
      PayloadsAppend(before + queue[n - 1], marker);
      PayloadsAppend(before, queue[n - 1]);
      assert queue[..n] == queue[..n - 1] + [queue[n - 1]];
      ConcatAppend(queue[..n - 1], [queue[n - 1]]);
      ConcatOne(queue[n - 1]);
      PayloadsAppend(Concat(queue[..n - 1]), queue[n - 1]);
    }
  }

  lemma MovedToNext<P>(queue: seq<seq<Tag<P>>>, moved: seq<Tag<P>>, n: nat)
    requires n <= |queue| && Payloads(moved) == Payloads(Concat(queue[..n]))
    ensures Payloads(Concat(DroppedQueue(queue, moved, n))) == Payloads(Concat(queue))
  {
    hide Payloads, Concat;
    assert queue == queue[..n] + queue[n..];
    ConcatAppend(queue[..n], queue[n..]);
    PayloadsAppend(Concat(queue[..n]), Concat(queue[n..]));
    ConcatOne(moved);
    if n < |queue| {
      assert DroppedQueue(queue, moved, n) == [moved + queue[n]] + queue[n + 1..];
      assert queue[n..] == [queue[n]] + queue[n + 1..];
      ConcatAppend([queue[n]], queue[n + 1..]);
      ConcatAppend([moved + queue[n]], queue[n + 1..]);
      ConcatOne(queue[n]);
      ConcatOne(moved + queue[n]);
      assert (moved + queue[n]) + Concat(queue[n + 1..]) == moved + Concat(queue[n..]);
      PayloadsAppend(moved, Concat(queue[n..]));
    } else {
      assert queue[n..] == [] && queue[..n] == queue;
    }
  }

  lemma ResizeKeepsTags<P>(st: State<P>, lookback: nat, blank: nat)
    requires st.Valid() && blank >= 1
    ensures Payloads(Concat(Resize(st, lookback, blank).queue)) == Payloads(Concat(st.queue))
  {
    hide Payloads, Concat, DroppedTags, DroppedQueue, DroppedRun, DroppedLength;
    var before := st.settings.Delay();
    var delay := lookback + blank;
    if delay >= before {
      var none := Repeat<seq<Tag<P>>>([], delay - before);
      ConcatAppend(none, st.queue);
      ConcatEmpties<Tag<P>>(delay - before);
      assert [] + Concat(st.queue) == Concat(st.queue);
      assert Resize(st, lookback, blank).queue == none + st.queue;
    } else {
      var moved := DroppedTags(st.queue, st.marks, st.run.position, st.settings.emitTags, before - delay);
      DropKeepsTags(st.queue, st.marks, st.run.position, st.settings.emitTags, before - delay);
      MovedToNext(st.queue, moved, before - delay);
      assert Resize(st, lookback, blank).queue == DroppedQueue(st.queue, moved, before - delay);
    }
  }

  lemma ResetKeepsTags<P>(st: State<P>)
    requires st.Valid()
    ensures Payloads(Concat(Reset(st).queue)) == Payloads(Concat(st.queue))
  {
    hide Payloads, Concat, DroppedTags;
    var delay := st.settings.Delay();
    var moved := DroppedTags(st.queue, st.marks, st.run.position, st.settings.emitTags, delay);
    DropKeepsTags(st.queue, st.marks, st.run.position, st.settings.emitTags, delay);
    assert st.queue[..delay] == st.queue;
    ConcatAppend([moved], Repeat<seq<Tag<P>>>([], delay - 1));
    ConcatOne(moved);
    ConcatEmpties<Tag<P>>(delay - 1);
    assert moved + [] == moved;
  }

  lemma ApplyKeepsTags<P>(h: History<P>, op: Op<P>)
    requires h.state.Valid() && op.Valid()
    ensures var r := Apply(h, op);
      Accounted(r.outputs, r.state.queue)
        == Accounted(h.outputs, h.state.queue) + (if op.Process? then Concat(op.tags) else [])
  {
    hide Payloads, Concat, Play, Resize, Reset, OutputTags, DroppedMarks, CountMarks;
    match op
    case Process(xs, tags) =>
      var played := Play(h.state, xs, tags);
      PlayKeepsTags(h.state, xs, tags);
      OutputTagsAppend(h.outputs, played.outputs);
      PayloadsAppend(OutputTags(h.outputs), OutputTags(played.outputs));
      AccountedIs(played.outputs, played.state.queue);
      var published := Payloads(OutputTags(h.outputs));
      assert (published + Payloads(OutputTags(played.outputs))) + Payloads(Concat(played.state.queue))
        == published + (Payloads(OutputTags(played.outputs)) + Payloads(Concat(played.state.queue)));
    case Adjust(settings) =>
      var st := h.state;
      var taken := Configure(st, settings.(lookback := st.settings.lookback, blank := st.settings.blank));
      ResizeKeepsTags(taken, settings.lookback, settings.blank);
    case Restart =>
      ResetKeepsTags(h.state);
  }

  /** Published and waiting together are the offered tags, once each and in order. */
  lemma {:induction false} TagsAreKept<P>(s: Settings, ops: seq<Op<P>>)
    requires s.Valid() && AllValid(ops)
    ensures var h := After(s, ops); Accounted(h.outputs, h.state.queue) == Offered(ops)
  {
    hide Payloads, Concat, Apply, OutputTags;
    if ops == [] {
      NothingAccounted<P>();
      ConcatEmpties<Tag<P>>(s.Delay());
      assert OutputTags<P>([]) == [] by { NoOutputs<P>(); }
    } else {
      var last := |ops| - 1;
      TagsAreKept(s, ops[..last]);
      ApplyKeepsTags(After(s, ops[..last]), ops[last]);
    }
  }

  lemma NoOutputs<P>()
    ensures OutputTags<P>([]) == []
  {
  }

  /** What goes out at the end of the stream: the tags in the line, with a marker behind each run in it. */
  function EndOfStream<P>(st: State<P>): seq<Tag<P>>
    requires st.Valid()
  {
    DroppedTags(st.queue, st.marks, st.run.position, st.settings.emitTags, st.settings.Delay())
  }

  /** Once the stream has ended, every tag offered has been published, once and in order. */
  lemma EveryTagLeaves<P>(s: Settings, ops: seq<Op<P>>)
    requires s.Valid() && AllValid(ops)
    ensures var h := After(s, ops);
      Payloads(OutputTags(h.outputs)) + Payloads(EndOfStream(h.state)) == Offered(ops)
  {
    hide *;
    var st := After(s, ops).state;
    TagsAreKept(s, ops);
    EndKeepsTags(st);
    AccountedIs(After(s, ops).outputs, st.queue);
  }

  lemma EndKeepsTags<P>(st: State<P>)
    requires st.Valid()
    ensures Payloads(EndOfStream(st)) == Payloads(Concat(st.queue))
  {
    hide Payloads, Concat;
    DropKeepsTags(st.queue, st.marks, st.run.position, st.settings.emitTags, st.settings.Delay());
    assert st.queue[..st.settings.Delay()] == st.queue;
  }

  lemma AccountedIs<P>(outputs: seq<Output<P>>, queue: seq<seq<Tag<P>>>)
    ensures Accounted(outputs, queue) == Payloads(OutputTags(outputs)) + Payloads(Concat(queue))
  {
  }

  // ---------------------------------------------------------------- markers

  /** The sum of the lengths that the block's own tags state. */
  function Lengths<P>(tags: seq<Tag<P>>): nat {
    if tags == [] then 0 else (if tags[0].Blanked? then tags[0].length else 0) + Lengths(tags[1..])
  }

  lemma {:induction false} LengthsAppend<P>(a: seq<Tag<P>>, b: seq<Tag<P>>)
    ensures Lengths(a + b) == Lengths(a) + Lengths(b)
  {
    if a == [] {
      assert a + b == b;
    } else {
      assert (a + b)[0] == a[0] && (a + b)[1..] == a[1..] + b;
      LengthsAppend(a[1..], b);
    }
  }

  lemma {:induction false} InputStatesNoLength<P>(payloads: seq<P>)
    ensures Lengths(AsTags(payloads)) == 0
  {
    if payloads != [] {
      assert AsTags(payloads)[1..] == AsTags(payloads[1..]);
      InputStatesNoLength(payloads[1..]);
    }
  }

  lemma MarkerLength<P>(ends: Option<nat>)
    ensures Lengths(MarkerOf<P>(true, ends)) == (if ends.Some? then ends.value else 0)
  {
  }

  function Replaced<P>(outputs: seq<Output<P>>): nat {
    if outputs == [] then 0
    else Replaced(outputs[..|outputs| - 1]) + if outputs[|outputs| - 1].replaced then 1 else 0
  }

  lemma {:induction false} ReplacedAppend<P>(a: seq<Output<P>>, b: seq<Output<P>>)
    ensures Replaced(a + b) == Replaced(a) + Replaced(b)
  {
    if b == [] {
      assert a + b == a;
    } else {
      var last := |b| - 1;
      assert (a + b)[..|a + b| - 1] == a + b[..last];
      ReplacedAppend(a, b[..last]);
    }
  }

  /** Lengths stated so far, those of markers that wait, and the part of a run that has left but not ended. */
  function Stated<P>(outputs: seq<Output<P>>, st: State<P>): nat {
    Lengths(OutputTags(outputs)) + Lengths(Concat(st.queue)) + st.run.position
  }

  lemma EmitCounts(rule: Rule, samples: seq<Sample>, marks: seq<bool>, run: Run)
    requires |samples| == |marks| >= 2 && run.held <= run.position && (run.position > 0 ==> marks[0])
    ensures var e := Emit(rule, samples, marks, run);
      (if e.ends.Some? then e.ends.value else 0) + e.run.position == run.position + if e.replaced then 1 else 0
  {
  }

  lemma StepCounts<P>(st: State<P>, x: Sample, tags: seq<P>)
    requires st.Valid() && st.settings.emitTags
    ensures var r := Step(st, x, tags);
      Lengths(r.output.tags) + Lengths(Concat(r.next.queue)) + r.next.run.position
        == Lengths(Concat(st.queue)) + st.run.position + if r.output.replaced then 1 else 0
  {
    hide Detect, Emit, MarkerOf, AsTags, Lengths, Concat;
    var s := st.settings;
    var decision := Detect(s, st.detector, x);
    var marks := ShiftMarks(st.marks, decision.marked, decision.opens, s.lookback);
    var e := Emit(s.rule, st.samples[1..] + [x], marks, st.run);
    EmitCounts(s.rule, st.samples[1..] + [x], marks, st.run);
    var queue := st.queue + [AsTags(tags)];
    MarkerLength<P>(e.ends);
    LengthsAppend(queue[0], MarkerOf<P>(true, e.ends));
    InputStatesNoLength(tags);
    ConcatAppend(st.queue, [AsTags(tags)]);
    ConcatOne(AsTags(tags));
    LengthsAppend(Concat(st.queue), AsTags(tags));
    assert queue == [queue[0]] + queue[1..];
    ConcatAppend([queue[0]], queue[1..]);
    ConcatOne(queue[0]);
    LengthsAppend(queue[0], Concat(queue[1..]));
  }

  lemma {:induction false} PlayCounts<P>(st: State<P>, xs: seq<Sample>, tags: seq<seq<P>>)
    requires st.Valid() && st.settings.emitTags && |tags| == |xs|
    ensures var r := Play(st, xs, tags);
      Stated(r.outputs, r.state) == Lengths(Concat(st.queue)) + st.run.position + Replaced(r.outputs)
  {
    hide Lengths, Concat, Step;
    if xs == [] {
      NothingStated<P>();
    } else {
      var last := |xs| - 1;
      var before := Play(st, xs[..last], tags[..last]);
      var r := Play(st, xs, tags);
      PlayCounts(st, xs[..last], tags[..last]);
      StepCounts(before.state, xs[last], tags[last]);
      assert r.outputs[..last] == before.outputs;
      LengthsAppend(OutputTags(before.outputs), r.outputs[last].tags);
    }
  }

  lemma NothingStated<P>()
    ensures Lengths<P>([]) == 0 && Concat<Tag<P>>([]) == []
  {
  }

  lemma {:induction false} DropCounts<P>(queue: seq<seq<Tag<P>>>, marks: seq<bool>, length: nat, n: nat)
    requires n <= |queue| == |marks| - 1
    requires length > 0 ==> |marks| > 1 && marks[1]
    ensures Lengths(DroppedTags(queue, marks, length, true, n)) + DroppedLength(marks, length, n)
      == Lengths(Concat(queue[..n])) + length + CountMarks(marks, n)
  {
    hide Lengths, MarkerOf, Concat;
    if n == 0 {
      assert queue[..0] == [];
      NothingStated<P>();
    } else {
      var before := DroppedTags(queue, marks, length, true, n - 1);
      var marker := MarkerOf<P>(true, EndAt(marks, length, n));
      DropCounts(queue, marks, length, n - 1);
      DropKeepsRun(marks, length, n - 1);
      MarkerLength<P>(EndAt(marks, length, n));
      LengthsAppend(before + queue[n - 1], marker);
      LengthsAppend(before, queue[n - 1]);
      assert queue[..n] == queue[..n - 1] + [queue[n - 1]];
      ConcatAppend(queue[..n - 1], [queue[n - 1]]);
      ConcatOne(queue[n - 1]);
      LengthsAppend(Concat(queue[..n - 1]), queue[n - 1]);
    }
  }

  lemma MovedStatesTheSame<P>(queue: seq<seq<Tag<P>>>, moved: seq<Tag<P>>, n: nat)
    requires n <= |queue|
    ensures Lengths(Concat(DroppedQueue(queue, moved, n))) == Lengths(moved) + Lengths(Concat(queue[n..]))
  {
    hide Lengths, Concat;
    ConcatOne(moved);
    if n < |queue| {
      assert queue[n..] == [queue[n]] + queue[n + 1..];
      ConcatAppend([queue[n]], queue[n + 1..]);
      ConcatAppend([moved + queue[n]], queue[n + 1..]);
      ConcatOne(queue[n]);
      ConcatOne(moved + queue[n]);
      assert (moved + queue[n]) + Concat(queue[n + 1..]) == moved + Concat(queue[n..]);
      LengthsAppend(moved, Concat(queue[n..]));
    } else {
      assert queue[n..] == [];
      NothingStated<P>();
    }
  }

  /** Lengths stated by the waiting tags and counted by the run. */
  function Held<P>(st: State<P>): nat {
    Lengths(Concat(st.queue)) + st.run.position
  }

  lemma QueueParts<P>(queue: seq<seq<Tag<P>>>, n: nat)
    requires n <= |queue|
    ensures Lengths(Concat(queue)) == Lengths(Concat(queue[..n])) + Lengths(Concat(queue[n..]))
  {
    hide Lengths, Concat;
    assert queue == queue[..n] + queue[n..];
    ConcatAppend(queue[..n], queue[n..]);
    LengthsAppend(Concat(queue[..n]), Concat(queue[n..]));
  }

  lemma ResizeCounts<P>(st: State<P>, lookback: nat, blank: nat)
    requires st.Valid() && st.settings.emitTags && blank >= 1
    ensures Held(Resize(st, lookback, blank)) == Held(st) + DroppedMarks(st, lookback + blank)
  {
    hide Lengths, Concat, DroppedTags, DroppedQueue, DroppedLength, CountMarks;
    var before := st.settings.Delay();
    var delay := lookback + blank;
    if delay >= before {
      var none := Repeat<seq<Tag<P>>>([], delay - before);
      ConcatAppend(none, st.queue);
      ConcatEmpties<Tag<P>>(delay - before);
      assert [] + Concat(st.queue) == Concat(st.queue);
      assert Resize(st, lookback, blank).queue == none + st.queue;
    } else {
      var n := before - delay;
      var moved := DroppedTags(st.queue, st.marks, st.run.position, true, n);
      DropCounts(st.queue, st.marks, st.run.position, n);
      MovedStatesTheSame(st.queue, moved, n);
      QueueParts(st.queue, n);
      assert Resize(st, lookback, blank).queue == DroppedQueue(st.queue, moved, n);
      assert Resize(st, lookback, blank).run.position == DroppedLength(st.marks, st.run.position, n);
    }
  }

  lemma ResetCounts<P>(st: State<P>)
    requires st.Valid() && st.settings.emitTags
    ensures Held(Reset(st)) == Held(st) + CountMarks(st.marks, st.settings.Delay())
  {
    hide Lengths, Concat, DroppedTags, DroppedLength, CountMarks;
    var delay := st.settings.Delay();
    var moved := DroppedTags(st.queue, st.marks, st.run.position, true, delay);
    DropCounts(st.queue, st.marks, st.run.position, delay);
    DropKeepsRun(st.marks, st.run.position, delay);
    assert st.queue[..delay] == st.queue;
    ConcatAppend([moved], Repeat<seq<Tag<P>>>([], delay - 1));
    ConcatOne(moved);
    ConcatEmpties<Tag<P>>(delay - 1);
    assert moved + [] == moved;
  }

  /** Operations under which the block keeps publishing its markers. */
  ghost predicate Marking<P>(ops: seq<Op<P>>) {
    forall k :: 0 <= k < |ops| && ops[k].Adjust? ==> ops[k].settings.emitTags
  }

  lemma ApplyCounts<P>(h: History<P>, op: Op<P>)
    requires h.state.Valid() && op.Valid() && h.state.settings.emitTags && (op.Adjust? ==> op.settings.emitTags)
    requires Stated(h.outputs, h.state) == Replaced(h.outputs) + h.dropped
    ensures var r := Apply(h, op);
      r.state.settings.emitTags && Stated(r.outputs, r.state) == Replaced(r.outputs) + r.dropped
  {
    hide Lengths, Concat, Play, Resize, Reset, OutputTags, DroppedMarks, CountMarks, Replaced;
    match op
    case Process(xs, tags) =>
      var played := Play(h.state, xs, tags);
      PlayCounts(h.state, xs, tags);
      OutputTagsAppend(h.outputs, played.outputs);
      LengthsAppend(OutputTags(h.outputs), OutputTags(played.outputs));
      ReplacedAppend(h.outputs, played.outputs);
    case Adjust(settings) =>
      var st := h.state;
      var taken := Configure(st, settings.(lookback := st.settings.lookback, blank := st.settings.blank));
      ResizeCounts(taken, settings.lookback, settings.blank);
      DropsWhatTheLineHolds(st, taken, settings.Delay());
    case Restart =>
      ResetCounts(h.state);
  }

  lemma DropsWhatTheLineHolds<P>(a: State<P>, b: State<P>, delay: nat)
    requires a.Valid() && b.Valid() && delay >= 1 && a.marks == b.marks && a.settings.Delay() == b.settings.Delay()
    ensures DroppedMarks(a, delay) == DroppedMarks(b, delay)
    ensures delay >= a.settings.Delay() ==> DroppedMarks(a, delay) == 0
  {
  }

  /**
   Whatever is resized or reset meanwhile, the stated lengths, those that wait, and the run that has not ended add up to
   the replaced samples that have left or were dropped.
   */
  lemma {:induction false} LengthsAddUp<P>(s: Settings, ops: seq<Op<P>>)
    requires s.Valid() && s.emitTags && AllValid(ops) && Marking(ops)
    ensures var h := After(s, ops);
      h.state.settings.emitTags && Stated(h.outputs, h.state) == Replaced(h.outputs) + h.dropped
  {
    hide Lengths, Concat, Apply, OutputTags;
    if ops == [] {
      NothingStated<P>();
      ConcatEmpties<Tag<P>>(s.Delay());
      NoOutputs<P>();
    } else {
      var last := |ops| - 1;
      LengthsAddUp(s, ops[..last]);
      ApplyCounts(After(s, ops[..last]), ops[last]);
    }
  }

  /** At the end of the stream the stated lengths count every replaced sample, those still in the line included. */
  lemma EveryReplacedSampleIsStated<P>(s: Settings, ops: seq<Op<P>>)
    requires s.Valid() && s.emitTags && AllValid(ops) && Marking(ops)
    ensures var h := After(s, ops);
      Lengths(OutputTags(h.outputs)) + Lengths(EndOfStream(h.state))
        == Replaced(h.outputs) + h.dropped + CountMarks(h.state.marks, h.state.settings.Delay())
  {
    hide Lengths, Concat, After, OutputTags, DroppedTags, DroppedLength, CountMarks, Replaced;
    LengthsAddUp(s, ops);
    var st := After(s, ops).state;
    DropCounts(st.queue, st.marks, st.run.position, st.settings.Delay());
    DropKeepsRun(st.marks, st.run.position, st.settings.Delay());
    assert st.queue[..st.settings.Delay()] == st.queue;
  }

  // ---------------------------------------------------------------- the newest inputs

  /** Every input so far. */
  function Inputs<P>(ops: seq<Op<P>>): seq<Sample> {
    if ops == [] then [] else Inputs(ops[..|ops| - 1]) + if ops[|ops| - 1].Process? then ops[|ops| - 1].xs else []
  }

  /** The tags of every input so far. */
  function InputTags<P>(ops: seq<Op<P>>): seq<seq<P>> {
    if ops == [] then [] else InputTags(ops[..|ops| - 1]) + if ops[|ops| - 1].Process? then ops[|ops| - 1].tags else []
  }

  /** How many of the newest inputs the line still holds: a shorter line drops the oldest, a reset all. */
  ghost function Live<P>(s: Settings, ops: seq<Op<P>>): nat
    requires s.Valid() && AllValid(ops)
  {
    if ops == [] then 0
    else
      var before := Live(s, ops[..|ops| - 1]);
      match ops[|ops| - 1]
      case Process(xs, _) => Min(before + |xs|, After(s, ops).state.settings.Delay())
      case Adjust(settings) => Min(before, settings.Delay())
      case Restart => 0
  }

  ghost predicate EndsWith<T>(whole: seq<T>, part: seq<T>) {
    |part| <= |whole| && whole[|whole| - |part|..] == part
  }

  /** The line's newest `live` entries are the newest of `xs`, each with its tags behind any that were moved to it. */
  ghost predicate HoldsNewest<P>(st: State<P>, xs: seq<Sample>, tags: seq<seq<P>>, live: nat)
    requires st.Valid()
  {
    && |xs| == |tags| && live <= |xs| && live <= st.settings.Delay()
    && (forall k :: st.settings.Delay() - live < k <= st.settings.Delay() ==>
          st.samples[k] == xs[|xs| - 1 - (st.settings.Delay() - k)])
    && (forall k :: st.settings.Delay() - live <= k < st.settings.Delay() ==>
          EndsWith(st.queue[k], AsTags(tags[|xs| - (st.settings.Delay() - k)])))
  }

  lemma StepHoldsNewest<P>(st: State<P>, xs: seq<Sample>, tags: seq<seq<P>>, live: nat, x: Sample, ts: seq<P>)
    requires st.Valid() && HoldsNewest(st, xs, tags, live)
    ensures HoldsNewest(Step(st, x, ts).next, xs + [x], tags + [ts], Min(live + 1, st.settings.Delay()))
  {
  }

  lemma {:induction false} PlayHoldsNewest<P>(
    st: State<P>, xs: seq<Sample>, tags: seq<seq<P>>, live: nat, more: seq<Sample>, moreTags: seq<seq<P>>)
    requires st.Valid() && HoldsNewest(st, xs, tags, live) && |more| == |moreTags|
    ensures HoldsNewest(Play(st, more, moreTags).state, xs + more, tags + moreTags,
                        Min(live + |more|, st.settings.Delay()))
    decreases |more|
  {
    hide Step, HoldsNewest;
    if more == [] {
      assert xs + more == xs && tags + moreTags == tags;
      assert live <= st.settings.Delay() by { LineIsLongEnough(st, xs, tags, live); }
    } else {
      var last := |more| - 1;
      var before := Play(st, more[..last], moreTags[..last]).state;
      PlayHoldsNewest(st, xs, tags, live, more[..last], moreTags[..last]);
      StepHoldsNewest(before, xs + more[..last], tags + moreTags[..last], Min(live + last, st.settings.Delay()),
                      more[last], moreTags[last]);
      assert xs + more == (xs + more[..last]) + [more[last]];
      assert tags + moreTags == (tags + moreTags[..last]) + [moreTags[last]];
    }
  }

  lemma LineIsLongEnough<P>(st: State<P>, xs: seq<Sample>, tags: seq<seq<P>>, live: nat)
    requires st.Valid() && HoldsNewest(st, xs, tags, live)
    ensures live <= st.settings.Delay() && |xs| == |tags|
  {
  }

  lemma ResizeHoldsNewest<P>(st: State<P>, xs: seq<Sample>, tags: seq<seq<P>>, live: nat, lookback: nat, blank: nat)
    requires st.Valid() && HoldsNewest(st, xs, tags, live) && blank >= 1
    ensures HoldsNewest(Resize(st, lookback, blank), xs, tags, Min(live, lookback + blank))
  {
    hide DroppedTags, DroppedRun, AsTags;
    var r := Resize(st, lookback, blank);
    var delay := lookback + blank;
    var shift := delay - st.settings.Delay();
    forall k | delay - Min(live, delay) < k <= delay
      ensures r.samples[k] == xs[|xs| - 1 - (delay - k)]
    {
      assert r.samples[k] == st.samples[k - shift];
    }
    forall k | delay - Min(live, delay) <= k < delay
      ensures EndsWith(r.queue[k], AsTags(tags[|xs| - (delay - k)]))
    {
      assert EndsWith(st.queue[k - shift], AsTags(tags[|xs| - (delay - k)]));
      if shift >= 0 || k > 0 {
        assert r.queue[k] == st.queue[k - shift];
      }
    }
  }

  lemma ConfigureHoldsNewest<P>(st: State<P>, xs: seq<Sample>, tags: seq<seq<P>>, live: nat, settings: Settings)
    requires st.Valid() && HoldsNewest(st, xs, tags, live) && settings.Valid()
    ensures HoldsNewest(Configure(st, settings), xs, tags, Min(live, settings.Delay()))
  {
    hide Resize, HoldsNewest;
    var taken := Configure(st, settings.(lookback := st.settings.lookback, blank := st.settings.blank));
    SameLine(st, taken, xs, tags, live);
    ResizeHoldsNewest(taken, xs, tags, live, settings.lookback, settings.blank);
    LineIsLongEnough(st, xs, tags, live);
  }

  /** Through every resize and reset the line keeps the newest inputs, and their tags stay with them. */
  lemma {:induction false} NewestAreKept<P>(s: Settings, ops: seq<Op<P>>)
    requires s.Valid() && AllValid(ops)
    ensures HoldsNewest(After(s, ops).state, Inputs(ops), InputTags(ops), Live(s, ops))
  {
    hide Play, Configure, Reset, HoldsNewest, DroppedMarks, CountMarks;
    if ops == [] {
      NothingHeld(Initial<P>(s), [], []);
    } else {
      var before := ops[..|ops| - 1];
      var st := After(s, before).state;
      NewestAreKept(s, before);
      match ops[|ops| - 1]
      case Process(xs, tags) =>
        PlayHoldsNewest(st, Inputs(before), InputTags(before), Live(s, before), xs, tags);
        assert After(s, ops).state == Play(st, xs, tags).state;
      case Adjust(settings) =>
        ConfigureHoldsNewest(st, Inputs(before), InputTags(before), Live(s, before), settings);
        assert Inputs(ops) == Inputs(before) && InputTags(ops) == InputTags(before);
      case Restart =>
        LineIsLongEnough(st, Inputs(before), InputTags(before), Live(s, before));
        NothingHeld(Reset(st), Inputs(before), InputTags(before));
        assert Inputs(ops) == Inputs(before) && InputTags(ops) == InputTags(before);
    }
  }

  lemma SameLine<P>(a: State<P>, b: State<P>, xs: seq<Sample>, tags: seq<seq<P>>, live: nat)
    requires a.Valid() && b.Valid() && a.samples == b.samples && a.queue == b.queue
    requires HoldsNewest(a, xs, tags, live)
    ensures HoldsNewest(b, xs, tags, live)
  {
  }

  lemma NothingHeld<P>(st: State<P>, xs: seq<Sample>, tags: seq<seq<P>>)
    requires st.Valid() && |xs| == |tags|
    ensures HoldsNewest(st, xs, tags, 0)
  {
  }
}
