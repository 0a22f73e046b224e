/**
 The noise blanker as it runs: the delay line is a ring of slots, the waiting tags are a list with the output index of
 each, and both are updated in place. Every method is proved against `NoiseBlankerSpec`.
 */
module NoiseBlankerBlock {
  import opened Basics
  import opened NoiseBlankerSpec
  import opened NoiseBlankerStream
  import NoiseBlankerTags
  import opened NoiseBlankerSettings

  // ---------------------------------------------------------------- tags with their index

  /** A tag and the index of the output it leaves with. */
  datatype Waiting<P> = Waiting(at: nat, tag: Tag<P>)

  /** The given tags, each at output index `at`. */
  function At<P>(tags: seq<Tag<P>>, at: nat): (r: seq<Waiting<P>>)
    ensures |r| == |tags|
  {
    seq(|tags|, k requires 0 <= k < |tags| => Waiting(at, tags[k]))
  }

  /** The tags of consecutive outputs from `at` on, each with its output's index. */
  function Flatten<P>(queue: seq<seq<Tag<P>>>, at: nat): seq<Waiting<P>> {
    if queue == [] then [] else At(queue[0], at) + Flatten(queue[1..], at + 1)
  }

  lemma {:induction false} FlattenAppend<P>(a: seq<seq<Tag<P>>>, b: seq<seq<Tag<P>>>, at: nat)
    ensures Flatten(a + b, at) == Flatten(a, at) + Flatten(b, at + |a|)
  {
    if a == [] {
      assert a + b == b;
    } else {
      hide At;
      assert (a + b)[0] == a[0] && (a + b)[1..] == a[1..] + b;
      FlattenAppend(a[1..], b, at + 1);
    }
  }

  lemma FlattenOne<P>(tags: seq<Tag<P>>, at: nat)
    ensures Flatten([tags], at) == At(tags, at)
  {
  }

  lemma AtAppend<P>(a: seq<Tag<P>>, b: seq<Tag<P>>, at: nat)
    ensures At(a + b, at) == At(a, at) + At(b, at)
  {
  }

  /** Waiting tags are sorted, and each leaves within the line's length. */
  lemma {:induction false} FlattenIsSorted<P>(queue: seq<seq<Tag<P>>>, at: nat)
    ensures forall k :: 0 <= k < |Flatten(queue, at)| ==> at <= Flatten(queue, at)[k].at < at + |queue|
    ensures forall j, k :: 0 <= j < k < |Flatten(queue, at)| ==> Flatten(queue, at)[j].at <= Flatten(queue, at)[k].at
  {
    if queue != [] {
      FlattenIsSorted(queue[1..], at + 1);
      var first := At(queue[0], at);
      var rest := Flatten(queue[1..], at + 1);
      var r := Flatten(queue, at);
      assert r == first + rest;
      forall k | 0 <= k < |r|
        ensures at <= r[k].at < at + |queue|
        ensures k < |first| ==> r[k].at == at
      {
        if k >= |first| {
          assert r[k] == rest[k - |first|];
          assert at + 1 <= rest[k - |first|].at < at + 1 + |queue[1..]|;
        }
      }
      forall j, k | 0 <= j < k < |r|
        ensures r[j].at <= r[k].at
      {
        if j >= |first| {
          assert r[j] == rest[j - |first|] && r[k] == rest[k - |first|];
        }
      }
    }
  }

  /** The same tags `shift` outputs later. */
  function Later<P>(pending: seq<Waiting<P>>, shift: int): (r: seq<Waiting<P>>)
    requires forall k :: 0 <= k < |pending| ==> pending[k].at + shift >= 0
    ensures |r| == |pending|
  {
    seq(|pending|, k requires 0 <= k < |pending| => Waiting(pending[k].at + shift, pending[k].tag))
  }

  lemma LaterOf<P>(all: seq<Waiting<P>>, first: nat, sooner: nat, moved: seq<Waiting<P>>)
    requires first <= |all| && |moved| == |all| - first
    requires forall k :: first <= k < |all| ==> all[k].at >= sooner
    requires forall k :: first <= k < |all| ==> moved[k - first] == Waiting(all[k].at - sooner, all[k].tag)
    ensures moved == Later(all[first..], 0 - sooner)
  {
  }

  lemma {:induction false} FlattenLater<P>(queue: seq<seq<Tag<P>>>, at: nat, shift: int)
    requires at + shift >= 0
    ensures forall k :: 0 <= k < |Flatten(queue, at)| ==> Flatten(queue, at)[k].at + shift >= 0
    ensures Later(Flatten(queue, at), shift) == Flatten(queue, at + shift)
  {
    FlattenIsSorted(queue, at);
    if queue != [] {
      FlattenIsSorted(queue[1..], at + 1);
      FlattenLater(queue[1..], at + 1, shift);
    }
  }

  lemma {:induction false} FlattenEmpties<P>(count: nat, queue: seq<seq<Tag<P>>>, at: nat)
    ensures Flatten(Repeat([], count) + queue, at) == Flatten(queue, at + count)
  {
    var all := Repeat<seq<Tag<P>>>([], count) + queue;
    if count == 0 {
      assert all == queue;
    } else {
      assert all[0] == [] && all[1..] == Repeat([], count - 1) + queue;
      FlattenEmpties(count - 1, queue, at + 1);
    }
  }

  lemma FlattenNothing<P>(at: nat)
    ensures Flatten<P>([], at) == [] && At<P>([], at) == []
  {
  }

  lemma AtIsAt<P>(tags: seq<Tag<P>>, at: nat, k: nat)
    requires k < |tags|
    ensures At(tags, at)[k] == Waiting(at, tags[k])
  {
  }

  lemma AtMarker<P>(emitTags: bool, ends: Option<nat>, at: nat)
    ensures At(MarkerOf<P>(emitTags, ends), at)
      == (if emitTags && ends.Some? then [Waiting(at, Blanked(ends.value))] else [])
  {
  }

  lemma StartsAt(marks: seq<bool>, length: nat)
    requires marks != []
    ensures DroppedLength(marks, length, 0) == length
  {
  }

  /** The tags behind those of the first `n` outputs, moved ahead by as many. */
  lemma RestMovesUp<P>(queue: seq<seq<Tag<P>>>, at: nat, n: nat)
    requires n <= |queue|
    ensures var first := |Flatten(queue[..n], at)|; var all := Flatten(queue, at);
      && first <= |all|
      && (forall k :: first <= k < |all| ==> all[k].at >= n)
      && Later(all[first..], 0 - n) == Flatten(queue[n..], at)
  {
    hide Flatten, At, Later;
    var all := Flatten(queue, at);
    var lo := Flatten(queue[..n], at);
    var rest := Flatten(queue[n..], at + n);
    assert queue == queue[..n] + queue[n..];
    FlattenAppend(queue[..n], queue[n..], at);
    assert all[|lo|..] == rest;
    FlattenIsSorted(queue[n..], at + n);
    FlattenLater(queue[n..], at + n, 0 - n);
    forall k | |lo| <= k < |all|
      ensures all[k].at >= n
    {
      assert all[k] == rest[k - |lo|];
    }
  }

  /** Where the tags of the `n`-th output stand in the list, and that those behind them leave later. */
  lemma TagsOfOutput<P>(queue: seq<seq<Tag<P>>>, at: nat, n: nat)
    requires 1 <= n <= |queue|
    ensures |Flatten(queue[..n], at)| == |Flatten(queue[..n - 1], at)| + |queue[n - 1]|
    ensures |Flatten(queue[..n], at)| <= |Flatten(queue, at)|
    ensures Flatten(queue, at)[|Flatten(queue[..n - 1], at)|..|Flatten(queue[..n], at)|] == At(queue[n - 1], at + n - 1)
    ensures forall k :: |Flatten(queue[..n - 1], at)| <= k < |Flatten(queue[..n], at)| ==>
      Flatten(queue, at)[k].at == at + n - 1
    ensures forall k :: |Flatten(queue[..n], at)| <= k < |Flatten(queue, at)| ==> at + n <= Flatten(queue, at)[k].at
  {
    hide Flatten, At;
    var lo := Flatten(queue[..n - 1], at);
    var one := At(queue[n - 1], at + n - 1);
    var rest := Flatten(queue[n..], at + n);
    assert queue[..n] == queue[..n - 1] + [queue[n - 1]];
    FlattenAppend(queue[..n - 1], [queue[n - 1]], at);
    FlattenOne(queue[n - 1], at + n - 1);
    assert queue == queue[..n] + queue[n..];
    FlattenAppend(queue[..n], queue[n..], at);
    FlattenIsSorted(queue[n..], at + n);
    var all := Flatten(queue, at);
    assert all == (lo + one) + rest;
    forall k | |lo| <= k < |lo + one|
      ensures all[k].at == at + n - 1
    {
      assert all[k] == one[k - |lo|];
      AtIsAt(queue[n - 1], at + n - 1, k - |lo|);
    }
    forall k | |lo + one| <= k < |all|
      ensures at + n <= all[k].at
    {
      assert all[k] == rest[k - |lo + one|];
    }
  }

  /** The tags due at output `at` stand before all later ones. */
  lemma DueLeaveFirst<P>(pending: seq<Waiting<P>>, leaving: nat, due: seq<Tag<P>>, later: seq<seq<Tag<P>>>, at: nat)
    requires leaving <= |pending| && pending[leaving..] == Flatten([due] + later, at)
    ensures leaving + |due| <= |pending| && pending[leaving + |due|..] == Flatten(later, at + 1)
    ensures forall k :: leaving <= k < leaving + |due| ==> pending[k] == Waiting(at, due[k - leaving])
    ensures leaving + |due| < |pending| ==> pending[leaving + |due|].at > at
  {
    hide Flatten;
    var end := leaving + |due|;
    FlattenAppend([due], later, at);
    FlattenOne(due, at);
    FlattenIsSorted(later, at + 1);
    assert pending[leaving..][|due|..] == pending[end..] == Flatten(later, at + 1);
    assert end < |pending| ==> pending[end] == pending[end..][0];
    forall k | leaving <= k < end ensures pending[k] == Waiting(at, due[k - leaving]) {
      assert pending[k] == pending[leaving..][k - leaving];
    }
  }

  /** Dropped outputs' tags go in front of those of the first output that is left. */
  lemma MovedInFront<P>(queue: seq<seq<Tag<P>>>, moved: seq<Tag<P>>, n: nat, at: nat)
    requires n <= |queue|
    ensures Flatten(DroppedQueue(queue, moved, n), at) == At(moved, at) + Flatten(queue[n..], at)
  {
  }

  lemma NoTagsWait<P>(count: nat, at: nat)
    ensures Flatten(Repeat<seq<Tag<P>>>([], count), at) == []
  {
    assert Repeat<seq<Tag<P>>>([], count) + [] == Repeat([], count);
    FlattenEmpties<P>(count, [], at);
  }

  lemma MovedAlone<P>(queue: seq<seq<Tag<P>>>, moved: seq<Tag<P>>, at: nat)
    requires queue != []
    ensures Flatten(DroppedQueue(queue, moved, |queue|), at) == Flatten([moved] + Repeat([], |queue| - 1), at)
  {
    hide Flatten;
    FlattenAppend([moved], Repeat([], |queue| - 1), at);
    NoTagsWait<P>(|queue| - 1, at + 1);
  }

  /** A tag as the input span shows it: its offset from the first sample of the call. */
  datatype InputTag<P> = InputTag(offset: int, payload: P)

  predicate InOrder<P>(raw: seq<InputTag<P>>) {
    forall j, k :: 0 <= j < k < |raw| ==> raw[j].offset <= raw[k].offset
  }

  /** The tags before `tag` belong to samples before `i`, the others to `i` and later ones. */
  ghost predicate Reached<P>(raw: seq<InputTag<P>>, tag: nat, i: nat) {
    && tag <= |raw|
    && (forall k :: 0 <= k < tag ==> raw[k].offset < i)
    && (forall k :: tag <= k < |raw| ==> i == 0 || raw[k].offset >= i)
  }

  /** The payloads of the tags at sample `i`. */
  function TagsAt<P>(raw: seq<InputTag<P>>, i: nat): seq<P> {
    if raw == [] then []
    else
      TagsAt(raw[..|raw| - 1], i) + if raw[|raw| - 1].offset == i then [raw[|raw| - 1].payload] else []
  }

  lemma {:induction false} NoTagsAt<P>(raw: seq<InputTag<P>>, from: nat, i: nat)
    requires from <= |raw| && forall k :: from <= k < |raw| ==> raw[k].offset != i
    ensures TagsAt(raw, i) == TagsAt(raw[..from], i)
    decreases |raw|
  {
    if from == |raw| {
      assert raw[..from] == raw;
    } else {
      assert raw[..|raw| - 1][..from] == raw[..from];
      NoTagsAt(raw[..|raw| - 1], from, i);
    }
  }

  /** The payloads of each of the first `n` samples. */
  function TagLists<P>(raw: seq<InputTag<P>>, n: nat): (r: seq<seq<P>>)
    ensures |r| == n
  {
    seq(n, i requires 0 <= i < n => TagsAt(raw, i))
  }

  /** The outputs' samples. */
  function SamplesOf<P>(outputs: seq<Output<P>>): (r: seq<Sample>)
    ensures |r| == |outputs|
  {
    seq(|outputs|, k requires 0 <= k < |outputs| => outputs[k].sample)
  }

  /** The outputs' tags. */
  function TagsLeaving<P>(outputs: seq<Output<P>>): (r: seq<seq<Tag<P>>>)
    ensures |r| == |outputs|
  {
    seq(|outputs|, k requires 0 <= k < |outputs| => outputs[k].tags)
  }

  /** A call ends in `state` with these samples and these tags out, each tag with its sample's offset. */
  ghost predicate Plays<P>(played: Played<P>, state: State<P>, out: seq<Sample>, published: seq<Waiting<P>>) {
    && state == played.state
    && out == SamplesOf(played.outputs)
    && published == Flatten(TagsLeaving(played.outputs), 0)
  }

  lemma PlaysNothing<P>(st: State<P>, input: seq<Sample>, raw: seq<InputTag<P>>, n: nat)
    requires st.Valid()
    ensures Plays(Play(st, input[..0], TagLists(raw, n)[..0]), st, [], []) && Reached(raw, 0, 0)
  {
  }

  lemma PlaysTo<P>(played: Played<P>, state: State<P>, out: seq<Sample>, published: seq<Waiting<P>>)
    requires Plays(played, state, out, published)
    ensures state == played.state
  {
  }

  lemma PlaysOneMore<P>(
    st: State<P>, xs: seq<Sample>, tags: seq<seq<P>>, i: nat, out: seq<Sample>, published: seq<Waiting<P>>)
    requires st.Valid() && i < |xs| && i < |tags|
    requires Plays(Play(st, xs[..i], tags[..i]), Play(st, xs[..i], tags[..i]).state, out, published)
    ensures var r := Step(Play(st, xs[..i], tags[..i]).state, xs[i], tags[i]);
      Plays(Play(st, xs[..i + 1], tags[..i + 1]), r.next, out + [r.output.sample], published + At(r.output.tags, i))
  {
    hide *;
    var before := Play(st, xs[..i], tags[..i]);
    var r := Step(before.state, xs[i], tags[i]);
    PlayOneMore(st, xs, tags, i);
    PlaysSnoc(before, out, published, r.next, r.output);
  }

  lemma PlaysSnoc<P>(played: Played<P>, out: seq<Sample>, published: seq<Waiting<P>>, next: State<P>, o: Output<P>)
    requires Plays(played, played.state, out, published)
    ensures Plays(Played(next, played.outputs + [o]), next, out + [o.sample], published + At(o.tags, |played.outputs|))
  {
    hide Flatten, At, SamplesOf, TagsLeaving;
    OutputSplits(played.outputs, o);
    FlattenAppend(TagsLeaving(played.outputs), [o.tags], 0);
    FlattenOne(o.tags, |played.outputs|);
  }

  lemma OutputSplits<P>(outputs: seq<Output<P>>, o: Output<P>)
    ensures SamplesOf(outputs + [o]) == SamplesOf(outputs) + [o.sample]
    ensures TagsLeaving(outputs + [o]) == TagsLeaving(outputs) + [o.tags]
  {
  }

  lemma PlayOneMore<P>(st: State<P>, xs: seq<Sample>, tags: seq<seq<P>>, i: nat)
    requires st.Valid() && i < |xs| && i < |tags|
    ensures var before := Play(st, xs[..i], tags[..i]); var r := Step(before.state, xs[i], tags[i]);
      Play(st, xs[..i + 1], tags[..i + 1]) == Played(r.next, before.outputs + [r.output])
  {
    hide Step;
    assert xs[..i + 1][..i] == xs[..i] && tags[..i + 1][..i] == tags[..i];
  }

  // ---------------------------------------------------------------- the end of the stream

  function IfAt<P>(entry: Waiting<P>, at: nat): seq<Waiting<P>> {
    if entry.at == at then [entry] else []
  }

  /** The entries for output `at`, in the order they have. */
  function Bucket<P>(entries: seq<Waiting<P>>, at: nat): seq<Waiting<P>> {
    if entries == [] then [] else IfAt(entries[0], at) + Bucket(entries[1..], at)
  }

  /** A stable sort by index of entries for the `n` outputs from `from` on. */
  function StableSorted<P>(entries: seq<Waiting<P>>, from: nat, n: nat): seq<Waiting<P>> {
    if n == 0 then [] else StableSorted(entries, from, n - 1) + Bucket(entries, from + n - 1)
  }

  function TagsIn<P>(entries: seq<Waiting<P>>): (r: seq<Tag<P>>)
    ensures |r| == |entries|
  {
    seq(|entries|, k requires 0 <= k < |entries| => entries[k].tag)
  }

  lemma {:induction false} BucketAppend<P>(a: seq<Waiting<P>>, b: seq<Waiting<P>>, at: nat)
    ensures Bucket(a + b, at) == Bucket(a, at) + Bucket(b, at)
  {
    if a == [] {
      assert a + b == b;
    } else {
      hide IfAt;
      assert (a + b)[0] == a[0] && (a + b)[1..] == a[1..] + b;
      BucketAppend(a[1..], b, at);
    }
  }

  lemma {:induction false} BucketOfOne<P>(tags: seq<Tag<P>>, at: nat, other: nat)
    ensures Bucket(At(tags, at), other) == (if at == other then At(tags, at) else [])
  {
    if tags != [] {
      assert At(tags, at)[1..] == At(tags[1..], at);
      BucketOfOne(tags[1..], at, other);
    }
  }

  lemma {:induction false} BucketOfQueue<P>(queue: seq<seq<Tag<P>>>, from: nat, at: nat)
    ensures Bucket(Flatten(queue, from), at)
      == (if from <= at < from + |queue| then At(queue[at - from], at) else [])
  {
    if queue != [] {
      BucketAppend(At(queue[0], from), Flatten(queue[1..], from + 1), at);
      BucketOfOne(queue[0], from, at);
      BucketOfQueue(queue[1..], from + 1, at);
    }
  }

  /** The markers of the runs in the line, each at the output its run would end with. */
  function LineMarkers<P>(marks: seq<bool>, length: nat, emitTags: bool, n: nat): (r: seq<seq<Tag<P>>>)
    requires n < |marks|
    ensures |r| == n
  {
    seq(n, k requires 0 <= k < n => MarkerOf(emitTags, EndAt(marks, length, k + 1)))
  }

  /** Sorted by index, the waiting tags and the markers of the line are its tags with a marker behind each run. */
  lemma {:induction false} SortedIsEndOfStream<P>(
    queue: seq<seq<Tag<P>>>, marks: seq<bool>, length: nat, emitTags: bool, from: nat, n: nat)
    requires n <= |queue| == |marks| - 1
    ensures var markers := LineMarkers<P>(marks, length, emitTags, |queue|);
      TagsIn(StableSorted(Flatten(queue, from) + Flatten(markers, from), from, n))
        == DroppedTags(queue, marks, length, emitTags, n)
  {
    hide Bucket, Flatten, MarkerOf, EndAt;
    if n > 0 {
      var markers := LineMarkers<P>(marks, length, emitTags, |queue|);
      var all := Flatten(queue, from) + Flatten(markers, from);
      var at := from + n - 1;
      SortedIsEndOfStream(queue, marks, length, emitTags, from, n - 1);
      BucketAppend(Flatten(queue, from), Flatten(markers, from), at);
      BucketOfQueue(queue, from, at);
      BucketOfQueue(markers, from, at);
      AtAppend(queue[n - 1], markers[n - 1], at);
      TagsInAppend(StableSorted(all, from, n - 1), At(queue[n - 1] + markers[n - 1], at));
      TagsInAt(queue[n - 1] + markers[n - 1], at);
      assert DroppedTags(queue, marks, length, emitTags, n - 1) + (queue[n - 1] + markers[n - 1])
        == DroppedTags(queue, marks, length, emitTags, n);
    }
  }

  lemma TagsInAppend<P>(a: seq<Waiting<P>>, b: seq<Waiting<P>>)
    ensures TagsIn(a + b) == TagsIn(a) + TagsIn(b)
  {
  }

  lemma TagsInAt<P>(tags: seq<Tag<P>>, at: nat)
    ensures TagsIn(At(tags, at)) == tags
  {
  }

  // ---------------------------------------------------------------- the ring

  /** The entries of a ring, the oldest first. */
  function Unrolled<T>(slots: seq<T>, oldest: nat): (r: seq<T>)
    requires oldest < |slots|
    ensures |r| == |slots|
    ensures forall k :: 0 <= k < |r| ==> r[k] == slots[Wrapped(oldest, k, |slots|)]
  {
    slots[oldest..] + slots[..oldest]
  }

  /** The slot `ahead` places after the oldest. */
  function Wrapped(oldest: nat, ahead: nat, size: nat): (at: nat)
    requires oldest < size && ahead < size
    ensures at < size
  {
    if oldest + ahead >= size then oldest + ahead - size else oldest + ahead
  }

  lemma UnrolledTurn<T>(slots: seq<T>, oldest: nat, x: T)
    requires oldest < |slots|
    ensures Unrolled(slots[oldest := x], if oldest + 1 == |slots| then 0 else oldest + 1)
      == Unrolled(slots, oldest)[1..] + [x]
  {
  }

  lemma UnrolledUpdate<T>(slots: seq<T>, oldest: nat, ahead: nat, x: T)
    requires oldest < |slots| && ahead < |slots|
    ensures Unrolled(slots[Wrapped(oldest, ahead, |slots|) := x], oldest) == Unrolled(slots, oldest)[ahead := x]
  {
  }

  lemma UnrolledStart<T>(slots: seq<T>)
    requires slots != []
    ensures Unrolled(slots, 0) == slots && forall k :: 0 <= k < |slots| ==> Wrapped(0, k, |slots|) == k
  {
  }

  lemma UnrolledRepeat<T>(slots: seq<T>, oldest: nat, x: T)
    requires oldest < |slots| && slots == Repeat(x, |slots|)
    ensures Unrolled(slots, oldest) == slots
  {
  }

  lemma WideIsShifted(before: seq<bool>, wide: seq<bool>, mark: bool, opens: bool, lookback: nat)
    requires lookback < |before| == |wide|
    requires forall k :: 0 <= k < |wide| - 1 ==> wide[k] == (before[k + 1] || (opens && |wide| - 1 - lookback <= k))
    ensures wide[|wide| - 1 := mark] == ShiftMarks(before, mark, opens, lookback)
  {
  }

  /** A ring for another delay: the oldest entry, `grown` where it grew, and the newest entries. */
  method Relaid<T>(slots: array<T>, oldest: nat, grown: T, next: nat) returns (r: array<T>)
    requires oldest < slots.Length && next >= 1
    ensures fresh(r)
    ensures var all := Unrolled(slots[..], oldest); var kept := Min(next, |all| - 1);
      r[..] == [all[0]] + Repeat(grown, next - kept) + all[|all| - kept..]
  {
    hide Unrolled;
    ghost var all := Unrolled(slots[..], oldest);
    var delay := slots.Length - 1;
    var kept := Min(next, delay);
    r := new T[next + 1](_ => grown);
    r[0] := slots[oldest];
    var k := 1;
    while k <= kept
      invariant 1 <= k <= kept + 1
      invariant r[0] == all[0]
      invariant forall j :: 1 <= j <= next - kept ==> r[j] == grown
      invariant forall j :: next - kept < j < next - kept + k ==> r[j] == all[j - next + delay]
    {
      r[next - kept + k] := slots[Wrapped(oldest, delay - kept + k, slots.Length)];
      k := k + 1;
    }
  }

  method Fill<T>(slots: array<T>, x: T)
    modifies slots
    ensures slots[..] == Repeat(x, slots.Length)
  {
    forall k | 0 <= k < slots.Length {
      slots[k] := x;
    }
  }

  /** The resized line in terms of the number of entries it keeps. */
  lemma ResizedLine<P>(st: State<P>, lookback: nat, blank: nat)
    requires st.Valid() && blank >= 1
    ensures var r := Resize(st, lookback, blank); var next := lookback + blank; var before := st.settings.Delay();
      var kept := Min(next, before);
      && r.samples == [st.samples[0]] + Repeat(ZERO, next - kept) + st.samples[before + 1 - kept..]
      && r.marks == [st.marks[0]] + Repeat(st.run.position > 0, next - kept) + st.marks[before + 1 - kept..]
  {
  }

  lemma ResizedRest<P>(st: State<P>, lookback: nat, blank: nat)
    requires st.Valid() && blank >= 1
    ensures var r := Resize(st, lookback, blank); var next := lookback + blank; var before := st.settings.Delay();
      && r.run == (if next >= before then st.run else DroppedRun(st.samples, st.marks, st.run, before - next))
      && r.queue == (if next >= before then Repeat([], next - before) + st.queue
           else DroppedQueue(st.queue,
             DroppedTags(st.queue, st.marks, st.run.position, st.settings.emitTags, before - next), before - next))
      && r.detector == st.detector.(remaining := Min(st.detector.remaining, blank))
  {
  }

  // ---------------------------------------------------------------- the block

  class NoiseBlanker<P> {
    var settings: Settings
    var line: array<Sample>
    var marked: array<bool>
    var pendingTags: seq<Waiting<P>>
    var cursor: nat
    var oldest: nat
    var delay: nat
    var tracker: Detector
    var run: Run
    var emitted: nat
    ghost var queue: seq<seq<Tag<P>>>

    /** The line and the counters fit each other. */
    ghost predicate LineValid()
      reads `settings, `line, `marked, `delay, `cursor, `oldest, line, marked
    {
      && settings.Valid()
      && delay == settings.Delay()
      && line.Length == marked.Length == delay + 1
      && cursor < line.Length
      && oldest == (if cursor + 1 == line.Length then 0 else cursor + 1)
    }

    ghost predicate Valid()
      reads this, line, marked
    {
      && LineValid()
      && run.held <= run.position
      && |queue| == delay
      && (run.position > 0 ==> marked[Slot(1)])
      && pendingTags == Flatten(queue, emitted)
    }

    /** The place in the ring `ahead` entries behind the oldest one. */
    function Slot(ahead: nat): (at: nat)
      requires oldest < line.Length && ahead < line.Length
      reads `oldest, `line
      ensures at < line.Length
    {
      Wrapped(oldest, ahead, line.Length)
    }

    ghost function Samples(): (r: seq<Sample>)
      requires LineValid()
      reads `settings, `line, `marked, `delay, `cursor, `oldest, line, marked
      ensures |r| == delay + 1
    {
      Unrolled(line[..], oldest)
    }

    ghost function Marks(): (r: seq<bool>)
      requires LineValid()
      reads `settings, `line, `marked, `delay, `cursor, `oldest, line, marked
      ensures |r| == delay + 1
    {
      Unrolled(marked[..], oldest)
    }

    /** The block as a value. */
    ghost function Model(): (st: State<P>)
      requires Valid()
      reads this, line, marked
      ensures st.Valid()
    {
      State(settings, tracker, Samples(), Marks(), run, queue, emitted)
    }

    /** The detection on one input, and the tracker's power. */
    method Track(level: Power) returns (detected: bool)
      modifies `tracker
      ensures detected == Detected(settings, old(tracker), level)
      ensures tracker == old(tracker).(
        warmup := if old(tracker).warmup > 0 then old(tracker).warmup - 1 else 0,
        power := if old(tracker).remaining == 0 && !detected && settings.enabled
          then TrackedPower(settings, old(tracker).power, level.value) else old(tracker).power)
    {
      hide TrackedPower;
      detected := false;
      if tracker.warmup > 0 {
        tracker := tracker.(warmup := tracker.warmup - 1);
        detected := settings.enabled && level.Unbounded?;
      } else if settings.enabled {
        detected := Exceeds(level, settings.threshold * tracker.power);
      }
      if tracker.remaining == 0 && !detected && settings.enabled {
        tracker := tracker.(power := TrackedPower(settings, tracker.power, level.value));
      }
    }

    /** Puts one input into the ring in place of the oldest. Its slot keeps the mark of the sample it replaces. */
    method Advance(sample: Sample)
      requires LineValid()
      modifies this`cursor, this`oldest, line
      ensures LineValid()
      ensures Samples() == old(Samples())[1..] + [sample]
      ensures Marks() == old(Marks())[1..] + [old(Marks())[0]]
      ensures cursor == Slot(delay)
    {
      UnrolledTurn(line[..], oldest, sample);
      UnrolledTurn(marked[..], oldest, marked[oldest]);
      ghost var slots := marked[..];
      assert slots[oldest := slots[oldest]] == slots;
      cursor := if cursor + 1 == line.Length then 0 else cursor + 1;
      oldest := if cursor + 1 == line.Length then 0 else cursor + 1;
      line[cursor] := sample;
    }

    /** Marks the samples before the newest one, all still to leave. */
    method MarkBack()
      requires LineValid()
      modifies marked
      ensures LineValid()
      ensures Samples() == old(Samples())
      ensures forall k :: 0 <= k <= delay ==>
        Marks()[k] == (old(Marks())[k] || delay - settings.lookback <= k < delay)
    {
      ghost var marks := Marks();
      var back := 1;
      while back <= settings.lookback
        invariant 1 <= back <= settings.lookback + 1
        invariant |Marks()| == |marks|
        invariant forall k :: 0 <= k <= delay ==> Marks()[k] == (marks[k] || delay - back < k < delay)
      {
        var at := if cursor >= back then cursor - back else cursor + line.Length - back;
        UnrolledUpdate(marked[..], oldest, delay - back, true);
        marked[at] := true;
        back := back + 1;
      }
    }

    /** The ring's part of taking an input. A window that opens marks the samples before it too. */
    method Enter(sample: Sample, opens: bool, mark: bool)
      requires LineValid()
      modifies this`cursor, this`oldest, line, marked
      ensures LineValid()
      ensures Samples() == old(Samples())[1..] + [sample]
      ensures Marks() == ShiftMarks(old(Marks()), mark, opens, settings.lookback)
    {
      hide Unrolled, ShiftMarks;
      ghost var before := Marks();
      Advance(sample);
      if opens {
        MarkBack();
      }
      ghost var wide := Marks();
      UnrolledUpdate(marked[..], oldest, delay, mark);
      marked[cursor] := mark;
      assert Marks() == wide[delay := mark];
      WideIsShifted(before, wide, mark, opens, settings.lookback);
    }

    /** The window's length and what is left of it, the excess count and the duty. */
    method Count(detected: bool, windowOpen: bool)
      requires windowOpen == (tracker.remaining > 0)
      modifies `tracker
      ensures var was := old(tracker); var mark := windowOpen || detected;
        var counted := if mark then was.excess + 1 else if was.excess > 0 then was.excess - 1 else 0;
        var windowLength := if !mark then 0 else if windowOpen then was.windowLength + 1 else settings.lookback + 1;
        tracker == was.(
          windowLength := windowLength,
          excess := if counted >= settings.warmupLength then 0 else counted,
          warmup := if counted >= settings.warmupLength then settings.warmupLength else was.warmup,
          duty := TrackedDuty(settings, was.duty, mark),
          remaining := Remaining(settings, was.remaining, detected, windowLength))
    {
      hide TrackedDuty;
      var windowLength, remaining, excess, warmup, mark :=
        tracker.windowLength, tracker.remaining, tracker.excess, tracker.warmup, windowOpen;
      if detected && !windowOpen {
        windowLength := settings.lookback;
        remaining := settings.blank;
        mark := true;
      }
      windowLength := if mark then windowLength + 1 else 0;
      excess := if mark then excess + 1 else if excess > 0 then excess - 1 else 0;
      if excess >= settings.warmupLength {
        warmup := settings.warmupLength;
        excess := 0;
      }
      var duty := TrackedDuty(settings, tracker.duty, mark);
      if detected && windowOpen && settings.retrigger {
        var room := if windowLength > settings.maxWindow then 0 else settings.maxWindow + 1 - windowLength;
        remaining := Min(settings.blank, room);
      }
      if remaining > 0 {
        remaining := remaining - 1;
      }
      tracker := Detector(tracker.power, duty, warmup, remaining, windowLength, excess);
    }

    /** Takes one input. The decision comes first, and the power is tracked from the samples it left in place. */
    method Accept(sample: Sample)
      requires LineValid()
      modifies this`cursor, this`oldest, this`tracker, line, marked
      ensures LineValid()
      ensures tracker == Detect(settings, old(tracker), sample).next
      ensures Samples() == old(Samples())[1..] + [sample]
      ensures var decision := Detect(settings, old(tracker), sample);
        Marks() == ShiftMarks(old(Marks()), decision.marked, decision.opens, settings.lookback)
    {
      hide TrackedPower, TrackedDuty, ShiftMarks, SquaredMagnitude, Detected, Remaining;
      var windowOpen := tracker.remaining > 0;
      var detected := Track(SquaredMagnitude(sample));
      Enter(sample, detected && !windowOpen, windowOpen || detected);
      Count(detected, windowOpen);
    }

    /** The output for the oldest sample, and the length of the run it closes. */
    method Produce() returns (out: Sample, ends: Option<nat>)
      requires LineValid() && run.held <= run.position
      modifies this`run
      ensures LineValid() && Samples() == old(Samples()) && Marks() == old(Marks())
      ensures var e := Emit(settings.rule, Samples(), Marks(), old(run));
        out == e.out && ends == e.ends && run == e.run
    {
      hide Interpolated, Unrolled;
      ghost var marks := Marks();
      ghost var samples := Samples();
      ends := None;
      if !marked[Slot(0)] {
        run := Run(0, 0, line[Slot(0)]);
        out := run.anchor;
        return;
      }
      var ahead := 1;
      while ahead <= delay && marked[Slot(ahead)]
        invariant 1 <= ahead <= delay + 1
        invariant RunEnd(marks, 1) == RunEnd(marks, ahead)
      {
        ahead := ahead + 1;
      }
      run := run.(position := run.position + 1);
      if ahead > delay {
        run := run.(held := run.position);
        out := if settings.rule.Zero? then ZERO else run.anchor;
        return;
      }
      var position := run.position - run.held;
      var span := position + ahead - 1;
      if ahead == 1 {
        ends := Some(run.position);
        run := run.(position := 0, held := 0);
      }
      match settings.rule
      case Zero => out := ZERO;
      case Hold => out := run.anchor;
      case Interpolate => out := Interpolated(run.anchor, line[Slot(ahead)], position, span);
    }

    /** Moves the tags of the `ahead`-th entry to the next output. */
    method MoveTags(pending: seq<Waiting<P>>, tag: nat, ahead: nat) returns (r: seq<Waiting<P>>, next: nat)
      requires 1 <= ahead <= |queue| && pendingTags == Flatten(queue, emitted)
      requires tag == |Flatten(queue[..ahead - 1], emitted)|
      ensures r == pending + At(queue[ahead - 1], emitted)
      ensures next == |Flatten(queue[..ahead], emitted)| <= |pendingTags|
    {
      hide Flatten;
      TagsOfOutput(queue, emitted, ahead);
      ghost var own := queue[ahead - 1];
      ghost var all := pendingTags;
      ghost var hi := |Flatten(queue[..ahead], emitted)|;
      r, next := pending, tag;
      while next < |pendingTags| && pendingTags[next].at < emitted + ahead
        invariant tag <= next <= hi <= |pendingTags|
        invariant r == pending + At(own, emitted)[..next - tag]
      {
        assert all[tag..hi][next - tag] == all[next];
        r := r + [Waiting(emitted, pendingTags[next].tag)];
        next := next + 1;
      }
    }

    /** Counts entry `ahead` into the run it belongs to. A run that ends there states its length at output `at`. */
    method CloseRun(entries: seq<Waiting<P>>, length: nat, ahead: nat, at: nat)
      returns (r: seq<Waiting<P>>, next: nat)
      requires LineValid() && 1 <= ahead <= delay
      requires length == DroppedLength(Marks(), run.position, ahead - 1)
      ensures r == entries + At(MarkerOf(settings.emitTags, EndAt(Marks(), run.position, ahead)), at)
      ensures next == DroppedLength(Marks(), run.position, ahead)
    {
      hide Unrolled, Wrapped, At;
      ghost var marks := Marks();
      AtMarker<P>(settings.emitTags, EndAt(marks, run.position, ahead), at);
      r, next := entries, length;
      if marked[Slot(ahead)] {
        next := next + 1;
        if ahead == delay || !marked[Slot(ahead + 1)] {
          if settings.emitTags {
            r := r + [Waiting(at, Blanked(next))];
          }
          next := 0;
        }
      }
    }

    /** Goes over the dropped entries: their tags with a marker behind each run that ends, and the run left over. */
    method CollectDropped(dropped: nat) returns (pending: seq<Waiting<P>>, tag: nat, length: nat)
      requires Valid() && dropped <= delay
      modifies this`run
      ensures tag == |Flatten(queue[..dropped], emitted)| <= |pendingTags|
      ensures pending == At(DroppedTags(queue, Marks(), run.position, settings.emitTags, dropped), emitted)
      ensures length == DroppedLength(Marks(), run.position, dropped)
      ensures run.position == old(run).position && run.held == old(run).held
      ensures run.anchor == DroppedAnchor(Samples(), Marks(), old(run).anchor, dropped)
    {
      hide Unrolled, Flatten, At, Wrapped, MarkerOf, EndAt, DroppedLength;
      ghost var marks := Marks();
      StartsAt(marks, run.position);
      length := run.position;
      tag := 0;
      pending := [];
      var ahead := 1;
      FlattenNothing<P>(emitted);
      assert queue[..0] == [];
      while ahead <= dropped
        invariant 1 <= ahead <= dropped + 1
        invariant tag == |Flatten(queue[..ahead - 1], emitted)| <= |pendingTags|
        invariant pending == At(DroppedTags(queue, marks, run.position, settings.emitTags, ahead - 1), emitted)
        invariant length == DroppedLength(marks, run.position, ahead - 1)
        invariant run.position == old(run).position && run.held == old(run).held
        invariant run.anchor == DroppedAnchor(Samples(), marks, old(run).anchor, ahead - 1)
        modifies this`run
      {
        ghost var moved := DroppedTags(queue, marks, run.position, settings.emitTags, ahead - 1);
        pending, tag := MoveTags(pending, tag, ahead);
        AtAppend(moved, queue[ahead - 1], emitted);
        AtAppend(moved + queue[ahead - 1], MarkerOf<P>(settings.emitTags, EndAt(marks, run.position, ahead)), emitted);
        pending, length := CloseRun(pending, length, ahead, emitted);
        if !marked[Slot(ahead)] {
          run := run.(anchor := line[Slot(ahead)]);
        }
        ahead := ahead + 1;
      }
    }

    /** Takes inputs out of the line, the oldest first. What was to be published with them waits for the next output. */
    method Drop(dropped: nat)
      requires Valid() && dropped <= delay
      modifies this`run, this`pendingTags
      ensures var moved := DroppedTags(queue, old(Marks()), old(run).position, settings.emitTags, dropped);
        pendingTags == Flatten(DroppedQueue(queue, moved, dropped), emitted)
      ensures run == DroppedRun(old(Samples()), old(Marks()), old(run), dropped)
    {
      hide Unrolled, Flatten, At, Later, DroppedQueue, DroppedTags, DroppedLength, DroppedAnchor;
      ghost var tags := DroppedTags(queue, Marks(), run.position, settings.emitTags, dropped);
      var holding := run.position > 0 && run.held == run.position;
      var pending, tag, length := CollectDropped(dropped);
      ghost var moved := pending;
      ghost var first := tag;
      RestMovesUp(queue, emitted, dropped);
      MovedInFront(queue, tags, dropped, emitted);
      while tag < |pendingTags|
        invariant first <= tag <= |pendingTags|
        invariant |pending| == |moved| + tag - first && pending[..|moved|] == moved
        invariant forall k :: first <= k < tag ==>
          pending[|moved| + k - first] == Waiting(pendingTags[k].at - dropped, pendingTags[k].tag)
      {
        pending := pending + [Waiting(pendingTags[tag].at - dropped, pendingTags[tag].tag)];
        tag := tag + 1;
      }
      LaterOf(pendingTags, first, dropped, pending[|moved|..]);
      assert pending == moved + pending[|moved|..];
      var goesOn := run.position > 0 && length == run.position + dropped;
      run := run.(position := length, held := if !goesOn then 0 else if holding then length else run.held);
      pendingTags := pending;
    }

    /** The tags and the run for a line of another delay: later outputs, or the next one for what is dropped. */
    method RelayTags(lookback: nat, blank: nat)
      requires Valid() && blank >= 1
      modifies this`pendingTags, this`queue, this`run
      ensures pendingTags == Flatten(queue, emitted)
      ensures var r := Resize(old(Model()), lookback, blank); run == r.run && queue == r.queue
    {
      hide Flatten, Later, DroppedTags, DroppedQueue, DroppedRun, Unrolled, Resize, Repeat;
      ResizedRest(Model(), lookback, blank);
      var next := lookback + blank;
      if next >= delay {
        FlattenLater(queue, emitted, next - delay);
        FlattenEmpties(next - delay, queue, emitted);
        pendingTags := Later(pendingTags, next - delay);
        queue := Repeat([], next - delay) + queue;
      } else {
        ghost var moved := DroppedTags(queue, Marks(), run.position, settings.emitTags, delay - next);
        Drop(delay - next);
        queue := DroppedQueue(queue, moved, delay - next);
      }
    }

    /** The resized line and its marks, still beside the old ones. */
    method RelayLine(lookback: nat, blank: nat) returns (samples: array<Sample>, marks: array<bool>)
      requires Valid() && blank >= 1
      ensures fresh(samples) && fresh(marks)
      ensures var r := Resize(Model(), lookback, blank); samples[..] == r.samples && marks[..] == r.marks
    {
      hide Resize, Unrolled, Flatten, Repeat;
      samples := Relaid(line, oldest, ZERO, lookback + blank);
      marks := Relaid(marked, oldest, run.position > 0, lookback + blank);
      ResizedLine(Model(), lookback, blank);
    }

    /** Puts the resized line in place. */
    method Install(samples: array<Sample>, marks: array<bool>, lookback: nat, blank: nat)
      requires settings.Valid() && blank >= 1 && samples.Length == marks.Length == lookback + blank + 1
      modifies `settings, `line, `marked, `cursor, `oldest, `delay, `tracker
      ensures LineValid() && line == samples && marked == marks
      ensures Samples() == samples[..] && Marks() == marks[..] && Slot(1) == 1
      ensures settings == old(settings).(lookback := lookback, blank := blank)
      ensures tracker == old(tracker).(remaining := Min(old(tracker).remaining, blank))
    {
      hide Unrolled, Wrapped;
      UnrolledStart(samples[..]);
      UnrolledStart(marks[..]);
      line, marked := samples, marks;
      cursor, oldest, delay := lookback + blank, 0, lookback + blank;
      settings := settings.(lookback := lookback, blank := blank);
      tracker := tracker.(remaining := Min(tracker.remaining, blank));
    }

    /** Sizes the line, keeping the newest inputs, their marks and every tag. */
    method Relay(lookback: nat, blank: nat)
      requires Valid() && blank >= 1
      modifies this
      ensures Valid() && fresh(line) && fresh(marked)
      ensures Model() == Resize(old(Model()), lookback, blank)
    {
      hide Resize, Flatten, Unrolled, Wrapped, Min;
      ResizedRest(Model(), lookback, blank);
      var samples, marks := RelayLine(lookback, blank);
      RelayTags(lookback, blank);
      if !marks[1] {
        run := run.(position := 0, held := 0);
      }
      Install(samples, marks, lookback, blank);
    }

    /** Fills the line with zeros, clears its marks and restarts the tracker. */
    method RestartLine()
      requires LineValid()
      modifies this`cursor, this`oldest, this`tracker, this`run, line, marked
      ensures LineValid()
      ensures Samples() == Repeat(ZERO, delay + 1) && Marks() == Repeat(false, delay + 1)
      ensures tracker == Restarted(settings) && run == NO_RUN
    {
      hide Wrapped, Unrolled;
      Fill(line, ZERO);
      Fill(marked, false);
      cursor, oldest := 0, 1;
      UnrolledRepeat(line[..], oldest, ZERO);
      UnrolledRepeat(marked[..], oldest, false);
      tracker := Restarted(settings);
      run := NO_RUN;
    }

    constructor (s: Settings)
      requires s.Valid()
      ensures Valid() && fresh(line) && fresh(marked) && Model() == Initial(s)
    {
      settings := s;
      delay := s.Delay();
      line := new Sample[s.Delay() + 1](_ => ZERO);
      marked := new bool[s.Delay() + 1](_ => false);
      cursor, oldest := s.Delay(), 0;
      tracker := Restarted(s);
      run := NO_RUN;
      emitted := 0;
      pendingTags := [];
      queue := Repeat([], s.Delay());
      new;
      NoTagsWait<P>(delay, 0);
      assert Samples() == Repeat(ZERO, delay + 1) && Marks() == Repeat(false, delay + 1);
    }

    /** A new run of the stream: nothing waits, and outputs count from zero. */
    method Start()
      requires Valid()
      modifies this, line, marked
      ensures Valid() && Model() == Initial(settings) && settings == old(settings)
    {
      pendingTags := [];
      emitted := 0;
      RestartLine();
      queue := Repeat([], delay);
      NoTagsWait<P>(delay, 0);
    }

    /** An empty line and a new warm-up. What was to be published with the line's inputs waits for the next output. */
    method ResetLine()
      requires Valid()
      modifies this, line, marked
      ensures Valid() && Model() == Reset(old(Model()))
    {
      hide Flatten, DroppedTags, DroppedQueue, DroppedRun;
      ghost var moved := DroppedTags(queue, Marks(), run.position, settings.emitTags, delay);
      Drop(delay);
      RestartLine();
      MovedAlone(queue, moved, emitted);
      queue := [moved] + Repeat([], delay - 1);
    }

    /** Resolves what is asked for and takes it as a whole, or refuses it and stays as it is. */
    method Configured(asked: Asked, decay: real -> real) returns (accepted: bool)
      requires Valid() && asked.InLimits() && Decays(decay)
      modifies this
      ensures Valid() && (accepted <==> Resolved(asked, decay).Some?)
      ensures Model() == if accepted then Configure(old(Model()), Resolved(asked, decay).value) else old(Model())
    {
      hide WarmupLength, Flatten, Configure;
      var rule := ParseRule(asked.replacement);
      if rule.None? {
        return false;
      }
      var coefficient := Coefficient(asked.pole, asked.averaging, asked.rate, decay);
      if coefficient.None? {
        return false;
      }
      WarmupIsPositive(asked.averaging, asked.rate, coefficient.value);
      var maxWindow := if asked.maxSetting == 0 then 4 * asked.blank else asked.maxSetting;
      Take(Settings(
        asked.enabled, asked.threshold, coefficient.value, asked.lookback, asked.blank, maxWindow,
        WarmupLength(asked.averaging, asked.rate, coefficient.value), rule.value, asked.retrigger, asked.emitTags));
      return true;
    }

    /** Takes resolved settings. */
    method Take(next: Settings)
      requires Valid() && next.Valid()
      modifies this
      ensures Valid() && Model() == Configure(old(Model()), next)
    {
      hide Flatten, Resize;
      var restart := next.alpha != settings.alpha || (next.enabled && !settings.enabled);
      var lookback, blank := settings.lookback, settings.blank;
      settings := next.(lookback := lookback, blank := blank);
      if restart {
        tracker := tracker.(warmup := next.warmupLength);
      }
      if next.lookback != lookback || next.blank != blank {
        Relay(next.lookback, next.blank);
      }
    }

    /** Puts the tags of sample `i` behind the waiting ones, at the output their sample leaves with. */
    method TakeTags(raw: seq<InputTag<P>>, tag: nat, i: nat) returns (next: nat)
      requires InOrder(raw) && Reached(raw, tag, i)
      modifies `pendingTags
      ensures Reached(raw, next, i + 1)
      ensures pendingTags == old(pendingTags) + At(AsTags(TagsAt(raw, i)), emitted + i + delay)
    {
      next := tag;
      NoTagsAt(raw[..tag], 0, i);
      assert raw[..tag][..0] == [];
      while next < |raw| && raw[next].offset <= i
        invariant tag <= next <= |raw|
        invariant forall k :: 0 <= k < next ==> raw[k].offset <= i
        invariant pendingTags == old(pendingTags) + At(AsTags(TagsAt(raw[..next], i)), emitted + i + delay)
      {
        assert raw[..next + 1][..next] == raw[..next];
        if raw[next].offset >= 0 {
          pendingTags := pendingTags + [Waiting(emitted + i + delay, Forwarded(raw[next].payload))];
        }
        next := next + 1;
      }
      NoTagsAt(raw, next, i);
    }

    /** Publishes the tags that leave with output `i` of the call. */
    method PublishDue(published: seq<Waiting<P>>, leaving: nat, i: nat, ghost due: seq<Tag<P>>,
                      ghost later: seq<seq<Tag<P>>>)
      returns (r: seq<Waiting<P>>, next: nat)
      requires leaving <= |pendingTags| && pendingTags[leaving..] == Flatten([due] + later, emitted + i)
      ensures r == published + At(due, i)
      ensures next <= |pendingTags| && pendingTags[next..] == Flatten(later, emitted + i + 1)
    {
      hide Flatten, At;
      ghost var end := leaving + |due|;
      DueLeaveFirst(pendingTags, leaving, due, later, emitted + i);
      r, next := published, leaving;
      while next < |pendingTags| && pendingTags[next].at <= emitted + i
        invariant leaving <= next <= end
        invariant r == published + At(due, i)[..next - leaving]
      {
        AtIsAt(due, i, next - leaving);
        r := r + [Waiting(i, pendingTags[next].tag)];
        next := next + 1;
      }
    }

    /** The block with `done` outputs of the running call behind it. */
    ghost function ModelAt(done: nat): State<P>
      requires LineValid()
      reads this, line, marked
    {
      State(settings, tracker, Samples(), Marks(), run, queue, emitted + done)
    }

    /** The tags of sample `i` join those that wait. */
    method Arrive(raw: seq<InputTag<P>>, tag: nat, i: nat, leaving: nat) returns (next: nat)
      requires |queue| == delay
      requires InOrder(raw) && Reached(raw, tag, i)
      requires leaving <= |pendingTags| && pendingTags[leaving..] == Flatten(queue, emitted + i)
      modifies `pendingTags
      ensures Reached(raw, next, i + 1)
      ensures leaving <= |pendingTags|
      ensures pendingTags[leaving..] == Flatten(queue + [AsTags(TagsAt(raw, i))], emitted + i)
    {
      hide Flatten, At, TagsAt, Reached;
      ghost var waiting := pendingTags;
      ghost var own := AsTags(TagsAt(raw, i));
      next := TakeTags(raw, tag, i);
      FlattenAppend(queue, [own], emitted + i);
      FlattenOne(own, emitted + i + delay);
      assert pendingTags[leaving..] == waiting[leaving..] + At(own, emitted + i + delay);
    }

    /** Output `i` of a call, with the tags due and the marker of a run it closes. */
    method Leave(published: seq<Waiting<P>>, leaving: nat, i: nat, ghost all: seq<seq<Tag<P>>>)
      returns (out: Sample, r: seq<Waiting<P>>, next: nat)
      requires LineValid() && run.held <= run.position && |all| == delay + 1
      requires leaving <= |pendingTags| && pendingTags[leaving..] == Flatten(all, emitted + i)
      modifies this`run, this`queue
      ensures LineValid() && Samples() == old(Samples()) && Marks() == old(Marks())
      ensures var e := Emit(settings.rule, Samples(), Marks(), old(run));
        out == e.out && run == e.run && r == published + At(all[0] + MarkerOf(settings.emitTags, e.ends), i)
      ensures queue == all[1..]
      ensures next <= |pendingTags| && pendingTags[next..] == Flatten(queue, emitted + i + 1)
    {
      hide Flatten, At, Emit, Unrolled, MarkerOf;
      assert all == [all[0]] + all[1..];
      r, next := PublishDue(published, leaving, i, all[0], all[1..]);
      var ends;
      out, ends := Produce();
      AtAppend(all[0], MarkerOf<P>(settings.emitTags, ends), i);
      AtMarker<P>(settings.emitTags, ends, i);
      if settings.emitTags && ends.Some? {
        r := r + [Waiting(i, Blanked(ends.value))];
      }
      queue := all[1..];
    }

    /** One sample of a call: its tags wait, it enters the line, and what is due leaves. */
    method Exchange(x: Sample, raw: seq<InputTag<P>>, tag: nat, i: nat, published: seq<Waiting<P>>, leaving: nat)
      returns (out: Sample, r: seq<Waiting<P>>, nextTag: nat, nextLeaving: nat)
      requires LineValid() && ModelAt(i).Valid()
      requires InOrder(raw) && Reached(raw, tag, i)
      requires leaving <= |pendingTags| && pendingTags[leaving..] == Flatten(queue, emitted + i)
      modifies this`tracker, this`run, this`cursor, this`oldest, this`pendingTags, this`queue, line, marked
      ensures LineValid()
      ensures var step := Step(old(ModelAt(i)), x, TagsAt(raw, i));
        && ModelAt(i + 1) == step.next
        && out == step.output.sample
        && r == published + At(step.output.tags, i)
      ensures Reached(raw, nextTag, i + 1)
      ensures nextLeaving <= |pendingTags| && pendingTags[nextLeaving..] == Flatten(queue, emitted + i + 1)
    {
      hide Flatten, At, Detect, Emit, ShiftMarks, Unrolled, Wrapped, TagsAt, MarkerOf, Reached;
      ghost var all := queue + [AsTags(TagsAt(raw, i))];
      nextTag := Arrive(raw, tag, i, leaving);
      Accept(x);
      out, r, nextLeaving := Leave(published, leaving, i, all);
    }

    /** One call: as many samples as both sides hold, each with its tags, one output for each input. */
    method ProcessBulk(input: seq<Sample>, raw: seq<InputTag<P>>, output: array<Sample>)
      returns (n: nat, published: seq<Waiting<P>>)
      requires Valid() && InOrder(raw) && output != line
      modifies this, line, marked, output
      ensures Valid() && line == old(line) && marked == old(marked) && n == Min(|input|, output.Length)
      ensures Plays(Play(old(Model()), input[..n], TagLists(raw, n)), Model(), output[..n], published)
      ensures output[n..] == old(output[n..])
    {
      hide Flatten, At, Detect, Emit, ShiftMarks, Unrolled, Wrapped, TagsAt, MarkerOf, Step, Play, Plays, Reached, InOrder;
      n := Min(|input|, output.Length);
      ghost var st := Model();
      ghost var tags := TagLists(raw, n);
      var tag: nat, leaving: nat := 0, 0;
      published := [];
      PlaysNothing(st, input, raw, n);
      for i := 0 to n
        invariant line == old(line) && marked == old(marked) && emitted == old(emitted)
        invariant LineValid() && Reached(raw, tag, i)
        invariant Plays(Play(st, input[..i], tags[..i]), ModelAt(i), output[..i], published)
        invariant output[n..] == old(output[n..])
        invariant leaving <= |pendingTags| && pendingTags[leaving..] == Flatten(queue, emitted + i)
      {
        ghost var model := ModelAt(i);
        ghost var before := published;
        ghost var played := Play(st, input[..i], tags[..i]);
        assert model == played.state by { PlaysTo(played, model, output[..i], before); }
        ghost var outs := output[..i];
        var out;
        out, published, tag, leaving := Exchange(input[i], raw, tag, i, published, leaving);
        output[i] := out;
        PlaysOneMore(st, input, tags, i, outs, before);
        assert output[..i + 1] == outs + [out];
      }
      pendingTags := pendingTags[leaving..];
      emitted := emitted + n;
      assert tags[..n] == tags;
      PlaysTo(Play(st, input[..n], tags), ModelAt(0), output[..n], published);
    }

    /** The markers of the runs in the line, at the outputs they would end with. */
    method CollectMarkers() returns (r: seq<Waiting<P>>)
      requires LineValid()
      ensures r == Flatten(LineMarkers<P>(Marks(), run.position, settings.emitTags, delay), emitted)
    {
      hide Flatten, At, Unrolled, MarkerOf, EndAt, DroppedLength;
      ghost var marks := Marks();
      ghost var markers := LineMarkers<P>(marks, run.position, settings.emitTags, delay);
      r := [];
      StartsAt(marks, run.position);
      var length := run.position;
      var ahead := 1;
      assert markers[..0] == [];
      FlattenNothing<P>(emitted);
      while ahead <= delay
        invariant 1 <= ahead <= delay + 1
        invariant length == DroppedLength(marks, run.position, ahead - 1)
        invariant r == Flatten(markers[..ahead - 1], emitted)
      {
        assert markers[..ahead] == markers[..ahead - 1] + [markers[ahead - 1]];
        FlattenAppend(markers[..ahead - 1], [markers[ahead - 1]], emitted);
        FlattenOne(markers[ahead - 1], emitted + ahead - 1);
        r, length := CloseRun(r, length, ahead, emitted + ahead - 1);
        ahead := ahead + 1;
      }
      assert markers[..delay] == markers;
    }

    /**
     The end of the stream: every tag the block holds goes out in index order, and those left on the input behind. A call
     that processed samples leaves the tags to them.
     */
    method ForwardTags(raw: seq<InputTag<P>>, processed: nat, kept: P -> Option<P>) returns (leaving: seq<Tag<P>>)
      requires Valid()
      modifies `pendingTags, `queue
      ensures Valid()
      ensures if processed > 0 then leaving == [] && Model() == old(Model()) && pendingTags == old(pendingTags)
        else pendingTags == [] && leaving == NoiseBlankerTags.EndOfStream(old(Model())) + AsTags(LeftOver(raw, kept))
    {
      hide Flatten, Unrolled, DroppedTags, StableSorted, LineMarkers, LeftOver;
      if processed > 0 {
        return [];
      }
      var markers := CollectMarkers();
      SortedIsEndOfStream(queue, Marks(), run.position, settings.emitTags, emitted, delay);
      var left := CollectLeftOver(raw, kept);
      leaving := TagsIn(StableSorted(pendingTags + markers, emitted, delay)) + AsTags(left);
      pendingTags := [];
      queue := Repeat([], delay);
      NoTagsWait<P>(delay, emitted);
    }
  }

  /** What goes out of the tags left on the input: those no call has placed, each without the key that is kept back. */
  function LeftOver<P>(raw: seq<InputTag<P>>, kept: P -> Option<P>): seq<P> {
    if raw == [] then []
    else
      var last := raw[|raw| - 1];
      LeftOver(raw[..|raw| - 1], kept) +
        if last.offset >= 0 && kept(last.payload).Some? then [kept(last.payload).value] else []
  }

  method CollectLeftOver<P>(raw: seq<InputTag<P>>, kept: P -> Option<P>) returns (left: seq<P>)
    ensures left == LeftOver(raw, kept)
  {
    left := [];
    for i := 0 to |raw|
      invariant left == LeftOver(raw[..i], kept)
    {
      assert raw[..i + 1][..i] == raw[..i];
      if raw[i].offset >= 0 {
        var payload := kept(raw[i].payload);
        if payload.Some? {
          left := left + [payload.value];
        }
      }
    }
    assert raw[..|raw|] == raw;
  }
}
