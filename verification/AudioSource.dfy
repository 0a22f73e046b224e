/** The capture side of an audio source as it is stored: sixteen segment slots used in turn, and the sample ring. */
module AudioSource {
  import opened Basics
  import opened AudioCapture
  import opened AudioRuns
  import opened AudioCaptureTime

  // ---------------------------------------------------------------- segments in their slots

  /** Segment `i`, counted from the first one ever opened, sits in this slot. */
  function Slot(i: nat): (r: nat)
    ensures r < MAX_SEGMENTS
  {
    i % MAX_SEGMENTS
  }

  /** The live segments, from their slots. */
  function LiveOf(firsts: seq<nat>, times: seq<Option<int>>, retired: nat, opens: nat): (live: seq<Segment>)
    requires |firsts| == MAX_SEGMENTS && |times| == MAX_SEGMENTS && retired <= opens
    ensures |live| == opens - retired
    ensures forall i {:trigger live[i]} :: 0 <= i < |live| ==>
      live[i] == Segment(firsts[Slot(retired + i)], times[Slot(retired + i)])
  {
    seq(opens - retired, i requires 0 <= i => Segment(firsts[Slot(retired + i)], times[Slot(retired + i)]))
  }

  /** A time written to the newest segment's slot changes no other live segment. */
  lemma LiveWithTime(firsts: seq<nat>, times: seq<Option<int>>, retired: nat, opens: nat, ns: Option<int>)
    requires |firsts| == MAX_SEGMENTS && |times| == MAX_SEGMENTS && retired < opens <= retired + MAX_SEGMENTS
    ensures LiveOf(firsts, times[Slot(opens - 1) := ns], retired, opens) ==
      WithTime(LiveOf(firsts, times, retired, opens), ns)
  {
  }

  /** With fewer than sixteen live segments the next slot is free, and taking it appends a segment. */
  lemma LiveWithNext(firsts: seq<nat>, times: seq<Option<int>>, retired: nat, opens: nat, first: nat)
    requires |firsts| == MAX_SEGMENTS && |times| == MAX_SEGMENTS && retired <= opens < retired + MAX_SEGMENTS
    ensures LiveOf(firsts[Slot(opens) := first], times[Slot(opens) := None], retired, opens + 1) ==
      LiveOf(firsts, times, retired, opens) + [Segment(first, None)]
  {
  }

  lemma QueryOfNone(frameSamples: nat, frame: int, rate: real)
    requires frameSamples >= 1 && rate > 0.0
    ensures Query([], frameSamples, frame, rate) == None
  {
  }

  /** A query looks at the newest of the first `n` segments, and then at the ones before it. */
  lemma QueryFromNewest(live: seq<Segment>, n: nat, frameSamples: nat, frame: int, rate: real)
    requires 1 <= n <= |live| && frameSamples >= 1 && rate > 0.0
    ensures Query(live[..n], frameSamples, frame, rate) ==
      if FrameAt(live[n - 1].first, frameSamples) > frame then Query(live[..n - 1], frameSamples, frame, rate)
      else if live[n - 1].firstFrameNs.None? then None
      else Some(live[n - 1].firstFrameNs.value + FramesToNs(frame - FrameAt(live[n - 1].first, frameSamples), rate))
  {
    hide FramesToNs, FrameAt;
    assert live[..n][..n - 1] == live[..n - 1];
  }

  // ---------------------------------------------------------------- device memory

  /** One channel of a device buffer: where its first sample lies and how far apart its samples are. */
  datatype Area = Area(ptr: nat, step: nat)

  /** Sample `frame` of the channel. */
  function SampleAt(area: Area, frame: nat): nat { area.ptr + frame * area.step }

  /** The area after `frames` of its frames. */
  function Advanced(area: Area, frames: nat): Area { Area(SampleAt(area, frames), area.step) }

  /** The first `frames` frames of every channel lie within the memory. */
  ghost predicate Reachable<T(!new)>(memory: seq<T>, areas: seq<Area>, frames: nat) {
    forall f, c :: 0 <= f < frames && 0 <= c < |areas| ==> SampleAt(areas[c], f) < |memory|
  }

  /** Sample `frame` of every channel, channel after channel. */
  ghost function FrameOf<T(!new)>(memory: seq<T>, areas: seq<Area>, frame: nat): (r: seq<T>)
    requires Reachable(memory, areas, frame + 1)
    ensures |r| == |areas|
  {
    seq(|areas|, c requires 0 <= c < |areas| => memory[SampleAt(areas[c], frame)])
  }

  /** The first `frames` frames, one after the other. */
  ghost function Frames<T(!new)>(memory: seq<T>, areas: seq<Area>, frames: nat): (r: seq<T>)
    requires Reachable(memory, areas, frames)
    ensures |r| == frames * |areas|
  {
    if frames == 0 then [] else
      assert (frames - 1) * |areas| + |areas| == frames * |areas|;
      Frames(memory, areas, frames - 1) + FrameOf(memory, areas, frames - 1)
  }

  /** Every channel begins one sample after the one before, and a frame is as long as there are channels. */
  predicate Interleaved(areas: seq<Area>) {
    forall c :: 0 <= c < |areas| ==> areas[c].step == |areas| && areas[c].ptr == areas[0].ptr + c
  }

  /** Interleaved channels lie in memory as they are stored: one copy takes them all. */
  lemma {:induction false} InterleavedIsOneCopy<T(!new)>(memory: seq<T>, areas: seq<Area>, frames: nat)
    requires areas != [] && Interleaved(areas) && Reachable(memory, areas, frames)
    ensures areas[0].ptr + frames * |areas| <= |memory| || frames == 0
    ensures frames > 0 ==>
      Frames(memory, areas, frames) == memory[areas[0].ptr..areas[0].ptr + frames * |areas|]
  {
    if frames > 0 {
      var n, start := |areas|, areas[0].ptr;
      var last := start + (frames - 1) * n;
      assert (frames - 1) * n + n == frames * n;
      assert SampleAt(areas[n - 1], frames - 1) == last + n - 1;
      InterleavedIsOneCopy(memory, areas, frames - 1);
      assert FrameOf(memory, areas, frames - 1) == memory[last..last + n];
      assert memory[start..last] + memory[last..last + n] == memory[start..last + n];
      if frames == 1 {
        assert Frames(memory, areas, 0) == [];
      }
    }
  }

  lemma AdvanceOnce(area: Area, frames: nat)
    ensures Advanced(area, frames + 1) == Area(SampleAt(area, frames) + area.step, area.step)
  {
  }

  /** The frame of a buffer, channel by channel, and the pointers moved past it. */
  method CopyFrame<T(!new)>(memory: seq<T>, areas: array<Area>, ghost start: seq<Area>, ghost frame: nat)
    returns (samples: seq<T>)
    requires Reachable(memory, start, frame + 1) && |start| == areas.Length
    requires forall c :: 0 <= c < areas.Length ==> areas[c] == Advanced(start[c], frame)
    modifies areas
    ensures samples == FrameOf(memory, start, frame)
    ensures forall c :: 0 <= c < areas.Length ==> areas[c] == Advanced(start[c], frame + 1)
  {
    hide SampleAt;
    samples := [];
    for c := 0 to areas.Length
      invariant samples == FrameOf(memory, start, frame)[..c]
      invariant forall j :: 0 <= j < c ==> areas[j] == Advanced(start[j], frame + 1)
      invariant forall j :: c <= j < areas.Length ==> areas[j] == Advanced(start[j], frame)
    {
      assert SampleAt(start[c], frame) < |memory|;
      AdvanceOnce(start[c], frame);
      samples := samples + [memory[areas[c].ptr]];
      areas[c] := Area(areas[c].ptr + areas[c].step, areas[c].step);
    }
  }

  method AreInterleaved(areas: array<Area>) returns (r: bool)
    ensures r <==> Interleaved(areas[..])
  {
    for c := 0 to areas.Length
      invariant forall j :: 0 <= j < c ==> areas[j].step == areas.Length && areas[j].ptr == areas[0].ptr + j
    {
      if areas[c].step != areas.Length || areas[c].ptr != areas[0].ptr + c {
        assert areas[..][c] == areas[c];
        return false;
      }
    }
    return true;
  }

  lemma NotAdvanced(areas: seq<Area>)
    ensures forall c :: 0 <= c < |areas| ==> Advanced(areas[c], 0) == areas[c]
  {
  }

  /** Takes `frames` frames out of a device buffer, in one copy where the channels are interleaved. */
  method CopyFrames<T(!new)>(memory: seq<T>, areas: array<Area>, frames: nat) returns (samples: seq<T>)
    requires areas.Length > 0 && Reachable(memory, areas[..], frames)
    modifies areas
    ensures samples == Frames(memory, old(areas[..]), frames)
    ensures forall c :: 0 <= c < areas.Length ==> areas[c] == Advanced(old(areas[c]), frames)
  {
    hide SampleAt;
    ghost var start := areas[..];
    if frames == 0 {
      NotAdvanced(start);
      return [];
    }
    var interleaved := AreInterleaved(areas);
    if interleaved {
      InterleavedIsOneCopy(memory, start, frames);
      samples := memory[areas[0].ptr..areas[0].ptr + frames * areas.Length];
      for c := 0 to areas.Length
        invariant forall j :: 0 <= j < c ==> areas[j] == Advanced(start[j], frames)
        invariant forall j :: c <= j < areas.Length ==> areas[j] == start[j]
      {
        areas[c] := Advanced(areas[c], frames);
      }
    } else {
      samples := [];
      NotAdvanced(start);
      for f := 0 to frames
        invariant Reachable(memory, start, f)
        invariant samples == Frames(memory, start, f)
        invariant forall c :: 0 <= c < areas.Length ==> areas[c] == Advanced(start[c], f)
      {
        var frame := CopyFrame(memory, areas, start, f);
        samples := samples + frame;
      }
    }
  }

  // ---------------------------------------------------------------- the source

  lemma OneFrameMore(taken: nat, channels: nat)
    requires channels >= 1
    ensures (taken + 1) * channels == taken * channels + channels && (taken * channels) % channels == 0
  {
    DividesAs(taken * channels, channels, taken, 0);
  }

  /** The samples of the frames not taken, and that there are some exactly when fewer were. */
  lemma Shortfall(taken: nat, frames: nat, channels: nat, granted: nat, room: int)
    requires channels >= 1 && MostFrames(taken, frames, channels, granted, room)
    ensures taken <= frames && frames * channels - taken * channels == (frames - taken) * channels
    ensures taken * channels < frames * channels <==> taken < frames
    ensures taken * channels == 0 <==> taken == 0
  {
    if taken < frames {
      ProductGrows(taken + 1, frames, channels);
    }
    if taken > 0 {
      ProductGrows(1, taken, channels);
    }
  }

  /** With everything granted, frames are dropped only where less than one frame of room is left. */
  lemma DropsOnlyWhenFull(taken: nat, frames: nat, channels: nat, granted: nat, room: int)
    requires MostFrames(taken, frames, channels, granted, room) && granted >= frames * channels && taken < frames
    ensures room - taken * channels < channels
  {
    ProductGrows(taken + 1, frames, channels);
  }

  class AudioSource<T(!new)> {
    const channels: nat
    const capacity: nat
    const firsts: array<nat>
    const times: array<Option<int>>
    var segmentsOpened: nat
    var segmentsRetired: nat
    var frameSamples: nat
    var lossPending: bool
    var overdue: Option<nat>
    var ring: seq<T>
    var written: nat
    var droppedSamples: nat
    var silenceSamples: nat
    var silenceInRing: nat
    ghost var model: Source

    ghost predicate HasSlots()
      reads this`segmentsOpened, this`segmentsRetired
    {
      && firsts.Length == MAX_SEGMENTS && times.Length == MAX_SEGMENTS
      && segmentsRetired < segmentsOpened <= segmentsRetired + MAX_SEGMENTS
    }

    ghost function Live(): (live: seq<Segment>)
      requires HasSlots()
      reads this`segmentsOpened, this`segmentsRetired, firsts, times
      ensures live != []
    {
      LiveOf(firsts[..], times[..], segmentsRetired, segmentsOpened)
    }

    /** The fields say what the model says. */
    ghost predicate Matches()
      reads this, firsts, times
    {
      && HasSlots()
      && model.channels == channels >= 1 && model.capacity == capacity
      && model.segments == Segments(Live(), overdue)
      && model.frameSamples == frameSamples >= 1 && model.lossPending == lossPending
      && model.written == written && model.read + |ring| == written && |ring| <= capacity
      && model.counts.dropped == droppedSamples
      && model.counts.silence == silenceSamples && model.counts.silenceInRing == silenceInRing
    }

    ghost predicate Valid()
      reads this, firsts, times
    {
      Matches() && Consistent(model)
    }

    constructor (channels: nat, capacity: nat)
      requires channels >= 1
      ensures Valid() && fresh(firsts) && fresh(times)
      ensures model == Initial(channels, capacity) && ring == []
    {
      this.channels, this.capacity := channels, capacity;
      firsts := new nat[MAX_SEGMENTS](_ => 0);
      times := new Option<int>[MAX_SEGMENTS](_ => None);
      segmentsOpened, segmentsRetired, frameSamples := 1, 0, 1;
      lossPending, overdue, ring, written := false, None, [], 0;
      droppedSamples, silenceSamples, silenceInRing := 0, 0, 0;
      model := Initial(channels, capacity);
      new;
      InitialIsConsistent(channels, capacity);
      assert Live() == [Segment(0, None)];
    }

    /** States a time for the newest segment, or that it has none. */
    method SetLatestTime(ns: Option<int>)
      requires HasSlots()
      modifies times
      ensures Live() == WithTime(old(Live()), ns)
    {
      LiveWithTime(firsts[..], times[..], segmentsRetired, segmentsOpened, ns);
      times[Slot(segmentsOpened - 1)] := ns;
    }

    /** Opens the overdue segment in the next free slot, or leaves it overdue. */
    method OpenSegment(first: nat)
      requires HasSlots() && overdue == Some(first)
      modifies this`segmentsOpened, this`overdue, firsts, times
      ensures HasSlots()
      ensures Segments(Live(), overdue) == Open(old(Live()), first)
    {
      var latest := Slot(segmentsOpened - 1);
      ghost var was, had := firsts[..], times[..];
      if firsts[latest] == first {
        SetLatestTime(None);
        overdue := None;
      } else if segmentsOpened - segmentsRetired < MAX_SEGMENTS {
        var next := Slot(segmentsOpened);
        firsts[next] := first;
        times[next] := None;
        LiveWithNext(was, had, segmentsRetired, segmentsOpened, first);
        segmentsOpened := segmentsOpened + 1;
        overdue := None;
      } else {
        SetLatestTime(None);
      }
    }

    method NoteCaptureLoss()
      requires Valid()
      modifies this`lossPending, this`model
      ensures Valid() && model == NoteLoss(old(model))
    {
      hide Consistent;
      LossIsConsistent(model);
      lossPending := true;
      model := NoteLoss(model);
    }

    /** A loss noted since the last write opens a segment at the samples to come. */
    method BeginSegmentAfterLoss()
      requires Matches()
      modifies this`segmentsOpened, this`overdue, this`lossPending, this`model, firsts, times
      ensures Matches() && model == BeginSegment(old(model))
    {
      ghost var was := model;
      if lossPending {
        lossPending := false;
        overdue := Some(written);
      }
      if overdue.Some? {
        OpenSegment(overdue.value);
      }
      model := BeginSegment(was);
    }

    method RetireSegments(oldestUnread: nat)
      requires HasSlots()
      modifies this`segmentsRetired
      ensures HasSlots() && Live() == Retired(old(Live()), oldestUnread)
    {
      var retired := segmentsRetired;
      while retired + 1 < segmentsOpened && firsts[Slot(retired + 1)] <= oldestUnread
        invariant segmentsRetired <= retired < segmentsOpened
        invariant Retired(LiveOf(firsts[..], times[..], retired, segmentsOpened), oldestUnread) ==
          Retired(Live(), oldestUnread)
      {
        assert LiveOf(firsts[..], times[..], retired, segmentsOpened)[1..] ==
          LiveOf(firsts[..], times[..], retired + 1, segmentsOpened);
        retired := retired + 1;
      }
      segmentsRetired := retired;
    }

    /** States the time of the latest segment from its newest frame. */
    method RecordLatest(newestNs: int, rate: real)
      requires Matches() && rate > 0.0
      modifies this`frameSamples, this`model, times
      ensures Matches() && model == RecordIn(old(model), old(model).segments, newestNs, rate)
    {
      hide FramesToNs, FrameAt, Slot, WithTime;
      ghost var was, live := model, Live();
      var first := firsts[Slot(segmentsOpened - 1)];
      assert live[|live| - 1].first == first;
      var frames := if written < first then 0 else (written - first) / channels;
      if overdue.None? && frames != 0 {
        frameSamples := channels;
        SetLatestTime(Some(newestNs - FramesToNs(frames - 1, rate)));
      }
      model := RecordIn(was, was.segments, newestNs, rate);
    }

    /** The newest frame offered was captured at `newestNs`. */
    method RecordCaptureTime(newestNs: int, rate: real)
      requires Valid()
      modifies this`segmentsOpened, this`overdue, this`frameSamples, this`model, firsts, times
      ensures Valid() && model == Record(old(model), newestNs, rate)
    {
      hide Consistent, FramesToNs, Open, WithTime;
      ghost var was := model;
      RecordIsConsistent(was, newestNs, rate);
      if rate <= 0.0 || lossPending {
        return;
      }
      if overdue.Some? {
        OpenSegment(overdue.value);
        model := was.(segments := Caught(was));
        if overdue.Some? {
          return;
        }
      }
      RecordLatest(newestNs, rate);
    }

    /** The search for a frame's segment, newest first. */
    method CaptureTimeNs(frame: int, rate: real) returns (ns: Option<int>)
      requires Valid()
      ensures rate <= 0.0 ==> ns == None
      ensures rate > 0.0 ==> ns == Query(model.segments.live, model.frameSamples, frame, rate)
    {
      hide Consistent, FramesToNs, FrameAt, Query, Slot;
      if rate <= 0.0 {
        return None;
      }
      var index := segmentsOpened;
      ghost var live := Live();
      assert live[..|live|] == live;
      while index > segmentsRetired
        invariant segmentsRetired <= index <= segmentsOpened
        invariant Query(live[..index - segmentsRetired], frameSamples, frame, rate) ==
          Query(live, frameSamples, frame, rate)
      {
        var n := index - segmentsRetired;
        var slot := Slot(index - 1);
        assert live[n - 1] == Segment(firsts[slot], times[slot]);
        QueryFromNewest(live, n, frameSamples, frame, rate);
        var firstFrame := FrameAt(firsts[slot], frameSamples);
        if firstFrame <= frame {
          if times[slot].None? {
            return None;
          }
          return Some(times[slot].value + FramesToNs(frame - firstFrame, rate));
        }
        index := index - 1;
      }
      QueryOfNone(frameSamples, frame, rate);
      return None;
    }

    // -------------------------------------------------------------- writing

    /** How many of the offered samples the ring takes, when it grants `granted` of those asked for. */
    method Reserve(offered: nat, granted: nat) returns (published: nat)
      requires Valid()
      ensures published == Stored(model, offered, granted)
    {
      var asked := Min(offered, WholeFrames(capacity - |ring|, channels));
      published := WholeFrames(Min(asked, granted), channels);
    }

    /** Samples reach the ring, the ones not stored of `offered` are counted as dropped. */
    method Publish(samples: seq<T>, silence: bool, offered: nat)
      requires Valid() && |samples| <= offered && |samples| % channels == 0 && |ring| + |samples| <= capacity
      modifies this, firsts, times
      ensures Valid() && model == Write(old(model), silence, offered, |samples|)
      ensures ring == old(ring) + samples
      ensures droppedSamples == old(droppedSamples) + (offered - |samples|)
      ensures silenceSamples == old(silenceSamples) + if silence then |samples| else 0
      ensures silenceInRing == old(silenceInRing) + if silence then |samples| else 0
      ensures lossPending <==> |samples| < offered || (samples == [] && old(lossPending))
    {
      hide Consistent, Open;
      ghost var was := model;
      WriteIsConsistent(was, silence, offered, |samples|);
      if |samples| > 0 {
        BeginSegmentAfterLoss();
        ring := ring + samples;
        written := written + |samples|;
        if silence {
          silenceSamples := silenceSamples + |samples|;
          silenceInRing := silenceInRing + |samples|;
        }
      }
      if |samples| < offered {
        droppedSamples := droppedSamples + (offered - |samples|);
        lossPending := true;
      }
      model := Write(was, silence, offered, |samples|);
    }

    /** Frames the driver reports without data are stored as `zero` samples. */
    method WriteSilenceFrames(frames: nat, granted: nat, zero: T) returns (ghost taken: nat)
      requires Valid()
      modifies this, firsts, times
      ensures Valid() && model == Apply(old(model), Offered(true, frames, granted))
      ensures MostFrames(taken, frames, channels, granted, capacity - |old(ring)|)
      ensures ring == old(ring) + Repeat(zero, SamplesIn(taken, channels))
      ensures droppedSamples == old(droppedSamples) + (frames - taken) * channels
      ensures silenceSamples == old(silenceSamples) + SamplesIn(taken, channels)
      ensures silenceInRing == old(silenceInRing) + SamplesIn(taken, channels)
      ensures lossPending <==> taken < frames || (taken == 0 && old(lossPending))
    {
      hide Consistent, Stored, MostFrames;
      taken := StoredIsMost(model, frames, granted);
      Shortfall(taken, frames, channels, granted, capacity - |ring|);
      var published := Reserve(frames * channels, granted);
      Publish(Repeat(zero, published), true, frames * channels);
    }

    /** The frames of a device buffer are stored as far as there is room, and the channels move past what was. */
    method WriteFramesFromAreas(memory: seq<T>, areas: array<Area>, frames: nat, granted: nat) returns (taken: nat)
      requires Valid() && areas.Length == channels && Reachable(memory, areas[..], frames)
      modifies this, firsts, times, areas
      ensures Valid() && model == Apply(old(model), Offered(false, frames, granted))
      ensures MostFrames(taken, frames, channels, granted, capacity - |old(ring)|)
      ensures ring == old(ring) + Frames(memory, old(areas[..]), taken)
      ensures droppedSamples == old(droppedSamples) + (frames - taken) * channels
      ensures (silenceSamples, silenceInRing) == old((silenceSamples, silenceInRing))
      ensures lossPending <==> taken < frames || (taken == 0 && old(lossPending))
      ensures forall c :: 0 <= c < areas.Length ==> areas[c] == Advanced(old(areas[c]), taken)
    {
      hide Consistent, SampleAt, Write, Stored, MostFrames;
      ghost var most := StoredIsMost(model, frames, granted);
      Shortfall(most, frames, channels, granted, capacity - |ring|);
      var published := Reserve(frames * channels, granted);
      taken := published / channels;
      DividesAs(published, channels, most, 0);
      var samples := CopyFrames(memory, areas, taken);
      Publish(samples, false, frames * channels);
    }

    // -------------------------------------------------------------- reading

    /** The placeholders counted as leaving with `leaving` samples. */
    method TakeStoredSilence(leaving: nat) returns (taken: nat)
      modifies this`silenceInRing
      ensures taken == Min(leaving, old(silenceInRing)) && silenceInRing == old(silenceInRing) - taken
    {
      taken := Min(leaving, silenceInRing);
      silenceInRing := silenceInRing - taken;
    }

    /** The oldest whole frames leave the ring into an output of `room` samples. */
    method ReadToOutput(room: nat) returns (output: seq<T>)
      requires Valid()
      modifies this
      ensures Valid() && model == Apply(old(model), Delivers(room))
      ensures output + ring == old(ring) && |output| % channels == 0 && |output| <= room
      ensures |output| + channels > room || |output| + channels > |old(ring)|
    {
      hide Consistent, Slot, Retired;
      ghost var taken := DeliveredIsMost(model, room);
      OneFrameMore(taken, channels);
      ghost var was := model;
      StepIsConsistent(was, Delivers(room));
      RetireSegments(written - |ring|);
      var samples := Min(WholeFrames(room, channels), WholeFrames(|ring|, channels));
      output := ring[..samples];
      ring := ring[samples..];
      var _ := TakeStoredSilence(samples);
      model := Read(was, Delivered(was, room));
    }

    /** Evicts the oldest samples, and returns how many of them were not counted as lost before. */
    method DiscardOldest(samples: nat) returns (uncounted: nat)
      requires Valid() && samples % channels == 0 && samples <= |ring|
      modifies this
      ensures Valid() && model == Apply(old(model), Evicts(samples))
      ensures ring == old(ring)[samples..]
      ensures model.counts.discarded == old(model).counts.discarded + uncounted
    {
      hide Consistent, Slot, Retired;
      ghost var was := model;
      StepIsConsistent(was, Evicts(samples));
      RetireSegments(written - |ring|);
      ring := ring[samples..];
      var taken := TakeStoredSilence(samples);
      uncounted := samples - taken;
      model := Evict(was, samples);
    }
  }
}
