/** What a capture time means after any run: the frame's own loss-free stretch, and the counts that add up. */
module AudioCaptureTime {
  import opened Basics
  import opened AudioCapture
  import opened AudioRuns

  /** The source after `steps`. A step that its caller may not take is passed over. */
  ghost function Run(s: Source, steps: seq<Step>): (t: Source)
    requires Consistent(s)
    ensures Consistent(t) && t.channels == s.channels && t.capacity == s.capacity
    decreases |steps|
  {
    if steps == [] then s
    else if !Allowed(s, steps[0]) then Run(s, steps[1..])
    else
      StepIsConsistent(s, steps[0]);
      Run(Apply(s, steps[0]), steps[1..])
  }

  lemma InitialIsConsistent(channels: nat, capacity: nat)
    requires channels >= 1
    ensures Consistent(Initial(channels, capacity))
  {
  }

  // ---------------------------------------------------------------- the segment of a frame

  /** Segment `k` holds frame `frame`. */
  ghost predicate Holds(s: Source, k: nat, frame: int) {
    && k < |s.segments.live|
    && s.segments.live[k].first <= Position(frame, s.channels) < EndOf(s.segments.live, k, s.written)
  }

  /** What segment `g` states for `frame`, at the nominal rate from its first frame. */
  function Stated(g: Segment, channels: nat, frame: int, rate: real): Option<int>
    requires channels >= 1 && rate > 0.0
  {
    if g.firstFrameNs.None? then None
    else Some(g.firstFrameNs.value + FramesToNs(frame - FrameAt(g.first, channels), rate))
  }

  lemma {:induction false} SegmentOf(s: Source, frame: int, k: nat) returns (j: nat)
    requires Consistent(s) && k < |s.segments.live| && Position(frame, s.channels) < EndOf(s.segments.live, k, s.written)
    requires s.latestRead <= Position(frame, s.channels)
    ensures Holds(s, j, frame)
  {
    hide Sound, LossesAreMarked, CountsAddUp, Position;
    if s.segments.live[k].first <= Position(frame, s.channels) {
      j := k;
    } else {
      j := SegmentOf(s, frame, k - 1);
    }
  }

  lemma StartsBefore(first: nat, channels: nat, frame: int)
    requires channels >= 1 && first % channels == 0
    ensures FrameAt(first, channels) <= frame <==> first <= Position(frame, channels)
    ensures Position(FrameAt(first, channels), channels) == first
  {
  }

  /** The search from the newest segment backward stops at the segment that holds the frame. */
  lemma {:induction false} QueryFinds(live: seq<Segment>, channels: nat, frame: int, rate: real, k: nat)
    requires channels >= 1 && rate > 0.0 && WholeStarts(live, channels) && Sorted(live) && k < |live|
    requires live[k].first <= Position(frame, channels)
    requires k + 1 < |live| ==> Position(frame, channels) < live[k + 1].first
    ensures Query(live, channels, frame, rate) == Stated(live[k], channels, frame, rate)
  {
    var last := |live| - 1;
    StartsBefore(live[last].first, channels, frame);
    if k < last {
      assert live[k + 1].first <= live[last].first;
      QueryFinds(live[..last], channels, frame, rate, k);
    }
  }

  /** With no time stated anywhere, every query comes back empty, whatever the frame size. */
  lemma {:induction false} QueryWithoutTimes(live: seq<Segment>, frameSamples: nat, frame: int, rate: real)
    requires frameSamples >= 1 && rate > 0.0
    requires forall k :: 0 <= k < |live| ==> live[k].firstFrameNs.None?
    ensures Query(live, frameSamples, frame, rate) == None
  {
    if live != [] {
      QueryWithoutTimes(live[..|live| - 1], frameSamples, frame, rate);
    }
  }

  /** A frame not yet read, or in the latest read, gets exactly what its one segment states. */
  lemma EveryFrameHasItsSegment(s: Source, frame: int, rate: real) returns (k: nat)
    requires Consistent(s) && rate > 0.0 && s.latestRead <= Position(frame, s.channels) < s.written
    ensures Holds(s, k, frame)
    ensures forall j :: Holds(s, j, frame) ==> j == k
    ensures Query(s.segments.live, s.frameSamples, frame, rate) == Stated(s.segments.live[k], s.channels, frame, rate)
  {
    hide LossesAreMarked, CountsAddUp, Query, FramesToNs, LossFree, GoesBackTo, Position, FrameAt;
    var live := s.segments.live;
    k := SegmentOf(s, frame, |live| - 1);
    QueryFinds(live, s.channels, frame, rate, k);
    if s.frameSamples != s.channels {
      forall j | 0 <= j < |live| ensures live[j].firstFrameNs.None? {
        assert Sound(s, j);
      }
      QueryWithoutTimes(live, s.frameSamples, frame, rate);
    }
  }

  /** From frame `start` on, measured frame `m` and `frame` were captured without a loss between them. */
  ghost predicate SameStretch(s: Source, start: nat, m: Measurement, frame: int) {
    && m in s.measured && m.rate > 0.0
    && start <= m.frame && start <= frame
    && forall p :: p in s.losses ==>
         !(Position(start, s.channels) < p <= Max(Position(m.frame, s.channels), Position(frame, s.channels)))
  }

  /** The time of `frame`: back from the measured frame to the stretch's first one, and forward again. */
  function Extrapolated(m: Measurement, start: nat, frame: int, rate: real): int
    requires m.rate > 0.0 && rate > 0.0
  {
    m.ns - FramesToNs(m.frame - start, m.rate) + FramesToNs(frame - start, rate)
  }

  /** `frames` frames at `rate` in nanoseconds, before rounding. */
  function Duration(frames: int, rate: real): real
    requires rate > 0.0
  {
    frames as real * 1000000000.0 / rate
  }

  /** The rounded duration is within half a nanosecond of it, and no longer for fewer frames. */
  lemma DurationIsRounded(frames: int, more: int, rate: real)
    requires rate > 0.0 && frames <= more
    ensures Duration(frames, rate) - 0.5 < FramesToNs(frames, rate) as real <= Duration(frames, rate) + 0.5
    ensures FramesToNs(frames, rate) <= FramesToNs(more, rate)
  {
    DurationsAdd(frames, more - frames, rate);
    var x, y := Duration(more - frames, rate), (more - frames) as real * 1000000000.0;
    assert x * rate == y;
    if x < 0.0 {
      PositiveProduct(-x, rate, -x * rate);
    }
  }

  lemma DurationsAdd(a: int, b: int, rate: real)
    requires rate > 0.0
    ensures Duration(a + b, rate) == Duration(a, rate) + Duration(b, rate)
  {
    var x, y := a as real * 1000000000.0, b as real * 1000000000.0;
    assert (a + b) as real * 1000000000.0 == x + y;
    assert (x + y) / rate == x / rate + y / rate;
  }

  /** At one rate a stated time is less than a nanosecond off the measured time and the frames in between. */
  lemma ExtrapolatesAtTheRate(m: Measurement, start: nat, frame: int)
    requires m.rate > 0.0
    ensures var exact := m.ns as real + Duration(frame - m.frame, m.rate);
      exact - 1.0 < Extrapolated(m, start, frame, m.rate) as real < exact + 1.0
  {
    hide FramesToNs, Duration;
    DurationIsRounded(m.frame - start, m.frame - start, m.rate);
    DurationIsRounded(frame - start, frame - start, m.rate);
    DurationsAdd(m.frame - start, frame - m.frame, m.rate);
  }

  lemma StartsAreWhole(s: Source)
    requires s.channels >= 1 && SegmentsCover(s)
    ensures WholeStarts(s.segments.live, s.channels)
  {
  }

  /** A capture time is never carried across a loss. */
  lemma TimesStayInTheirStretch(s: Source, frame: int, rate: real)
    requires Consistent(s) && rate > 0.0 && s.latestRead <= Position(frame, s.channels) < s.written
    ensures var r := Query(s.segments.live, s.frameSamples, frame, rate);
      r.Some? ==> exists m, start ::
        SameStretch(s, start, m, frame) && r.value == Extrapolated(m, start, frame, rate)
  {
    hide Query, FramesToNs, LossesAreMarked, CountsAddUp, Position, FrameAt, SegmentsCover;
    StartsAreWhole(s);
    var k := EveryFrameHasItsSegment(s, frame, rate);
    var g := s.segments.live[k];
    if g.firstFrameNs.Some? {
      var end := EndOf(s.segments.live, k, s.written);
      assert Sound(s, k);
      var m :| m in s.measured && GoesBackTo(m, g.first, end, s.channels, g.firstFrameNs.value);
      var start := FrameAt(g.first, s.channels);
      StartsBefore(g.first, s.channels, frame);
      assert SameStretch(s, start, m, frame);
      assert Query(s.segments.live, s.frameSamples, frame, rate) == Some(Extrapolated(m, start, frame, rate));
    }
  }

  /** The newest frame reads back the time just recorded for it, whenever a record is taken. */
  lemma RecordedTimeReadsBack(s: Source, ns: int, rate: real)
    requires Consistent(s) && Recordable(s, rate)
    ensures var t := Record(s, ns, rate);
      && Query(t.segments.live, t.frameSamples, FrameAt(s.written, s.channels) - 1, rate) == Some(ns)
  {
    hide Query, FramesToNs, Record, CountsAddUp, Sound, LossFree, LossesAreMarked, Position, FrameAt;
    var t := Record(s, ns, rate);
    RecordIsConsistent(s, ns, rate);
    var live := t.segments.live;
    var last := live[|live| - 1];
    NewestFrame(last.first, s.written, s.channels);
    var newest := FrameAt(s.written, s.channels) - 1;
    StartsBefore(last.first, s.channels, newest);
    QueryFinds(live, s.channels, newest, rate, |live| - 1);
  }

  // ---------------------------------------------------------------- whole runs

  /** After any run from an empty ring: whole frames, one to sixteen segments, and no time carried across a loss. */
  lemma EveryRunKeepsTimes(channels: nat, capacity: nat, steps: seq<Step>, frame: int, rate: real)
    requires channels >= 1 && rate > 0.0
    ensures Consistent(Initial(channels, capacity))
    ensures var s := Run(Initial(channels, capacity), steps);
      && 1 <= |s.segments.live| <= MAX_SEGMENTS && Sorted(s.segments.live)
      && (s.latestRead <= Position(frame, s.channels) < s.written ==>
            var r := Query(s.segments.live, s.frameSamples, frame, rate);
            r.Some? ==> exists m, start ::
              SameStretch(s, start, m, frame) && r.value == Extrapolated(m, start, frame, rate))
  {
    hide Query, FramesToNs, Run;
    InitialIsConsistent(channels, capacity);
    var s := Run(Initial(channels, capacity), steps);
    if s.latestRead <= Position(frame, s.channels) < s.written {
      TimesStayInTheirStretch(s, frame, rate);
    }
  }

  /** Every sample the device offered was dropped, delivered or evicted, or is in the ring, and so is stored silence. */
  lemma EverySampleIsAccountedFor(channels: nat, capacity: nat, steps: seq<Step>)
    requires channels >= 1
    ensures Consistent(Initial(channels, capacity))
    ensures var s := Run(Initial(channels, capacity), steps);
      var inRing := s.written - s.read;
      && 0 <= inRing <= capacity && inRing % channels == 0
      && s.counts.offered ==
           s.counts.dropped + s.counts.delivered + s.counts.evictedSilence + s.counts.discarded + inRing
      && s.counts.silence == s.counts.readSilence + s.counts.evictedSilence + s.counts.silenceInRing
      && s.counts.silenceInRing <= inRing
  {
    hide Run;
    InitialIsConsistent(channels, capacity);
    var s := Run(Initial(channels, capacity), steps);
    WholeSums(s.read, s.written, channels);
  }

  /** Samples that are read or evicted. */
  datatype Departure = Departure(evicted: bool, samples: nat)

  function Departed(departures: seq<Departure>): nat {
    if departures == [] then 0 else departures[0].samples + Departed(departures[1..])
  }

  function Depart(s: Source, departures: seq<Departure>): (t: Source)
    requires s.segments.live != []
    ensures t.segments.live != []
    decreases |departures|
  {
    if departures == [] then s
    else Depart((if departures[0].evicted then Evict else Read)(s, departures[0].samples), departures[1..])
  }

  /** What leaves takes placeholders off the count, as many as there are, one for each sample. */
  lemma {:induction false} DepartCounts(s: Source, departures: seq<Departure>)
    requires s.segments.live != []
    ensures var t := Depart(s, departures);
      && t.written == s.written && t.read == s.read + Departed(departures)
      && t.counts.silenceInRing == Max(0, s.counts.silenceInRing - Departed(departures))
    decreases |departures|
  {
    hide Retired;
    if departures == [] {
      assert Depart(s, departures) == s;
    } else {
      var t := (if departures[0].evicted then Evict else Read)(s, departures[0].samples);
      DepartCounts(t, departures[1..]);
    }
  }

  /** `stored` placeholders are published, samples leave, and the placeholders are counted: is the count too high? */
  predicate CountExceeds(s: Source, stored: nat, departures: seq<Departure>)
    requires s.segments.live != []
  {
    var t := Depart(s.(written := s.written + stored), departures);
    t.counts.silenceInRing + stored > t.written - t.read
  }

  /**
   Silence is stored in two steps, the samples first and their count after. With samples leaving in between, read or
   evicted, the count exceeds what is in the ring exactly when some of the silence just stored has left.
   */
  lemma SplitCountExceeds(s: Source, stored: nat, departures: seq<Departure>)
    requires Consistent(s) && Departed(departures) <= s.written + stored - s.read
    ensures CountExceeds(s, stored, departures) <==> Departed(departures) > s.written - s.read
  {
    DepartCounts(s.(written := s.written + stored), departures);
  }

  lemma OneDeparture(d: Departure)
    ensures Departed([d]) == d.samples
  {
  }

  /** From an empty ring of one sample: silence is stored in it and leaves before it is counted. */
  lemma SplitCountMayExceed(evicted: bool)
    ensures var s := Initial(1, 1);
      && Consistent(s) && Stored(s, 1, 1) == 1 && Delivered(s.(written := 1), 1) == 1
      && CountExceeds(s, 1, [Departure(evicted, 1)])
  {
    hide Depart, CountExceeds, Consistent, Departed;
    InitialIsConsistent(1, 1);
    OneDeparture(Departure(evicted, 1));
    SplitCountExceeds(Initial(1, 1), 1, [Departure(evicted, 1)]);
  }
}
