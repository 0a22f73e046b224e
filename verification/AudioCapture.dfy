/**
 The capture side of an audio source as a protocol: writes, loss notes, capture-time records, reads and evictions in any
 order. Loss-free stretches of the ring are kept as segments, sixteen at most, and a frame's capture time is
 extrapolated within its segment. The history records where losses fell and what was measured, for the theorems only.
 */
module AudioCapture {
  import opened Basics

  const MAX_SEGMENTS: nat := 16

  /** Ring samples from `first` on that were delivered without a loss, and the capture time of the first frame. */
  datatype Segment = Segment(first: nat, firstFrameNs: Option<int>)

  function WholeFrames(samples: nat, channels: nat): (r: nat)
    requires channels >= 1
    ensures r <= samples < r + channels && r % channels == 0
  {
    ModuloOfWhole(samples, channels);
    samples - samples % channels
  }

  lemma ModuloOfWhole(samples: nat, channels: nat)
    requires channels >= 1
    ensures (samples - samples % channels) % channels == 0
  {
    DividesAs(samples - samples % channels, channels, samples / channels, 0);
  }

  /** The duration of `frames` frames in nanoseconds, rounded to the nearest one. */
  function FramesToNs(frames: int, rate: real): int
    requires rate > 0.0
  {
    (frames as real * 1000000000.0 / rate + 0.5).Floor
  }

  // ---------------------------------------------------------------- segments

  /** The frame that begins at ring sample `first`. */
  function FrameAt(first: nat, channels: nat): nat
    requires channels >= 1
  {
    first / channels
  }

  /** The ring sample that begins frame `frame`. */
  function Position(frame: int, channels: nat): int {
    frame * channels
  }

  /** Live segments and the start of a segment that found no slot. */
  datatype Segments = Segments(live: seq<Segment>, overdue: Option<nat>)

  function WithTime(live: seq<Segment>, ns: Option<int>): (r: seq<Segment>)
    requires live != []
    ensures |r| == |live|
  {
    var last := |live| - 1;
    live[last := live[last].(firstFrameNs := ns)]
  }

  /** Opens a segment at `first`, or reuses the latest one. With every slot taken the latest one loses its time. */
  function Open(live: seq<Segment>, first: nat): Segments
    requires live != []
  {
    if live[|live| - 1].first == first then Segments(WithTime(live, None), None)
    else if |live| < MAX_SEGMENTS then Segments(live + [Segment(first, None)], None)
    else Segments(WithTime(live, None), Some(first))
  }

  /** What is live once the segments that end at or before `oldestUnread` are retired. */
  function Retired(live: seq<Segment>, oldestUnread: nat): (r: seq<Segment>)
    requires live != []
    ensures r != []
  {
    if |live| > 1 && live[1].first <= oldestUnread then Retired(live[1..], oldestUnread) else live
  }

  /** The capture time of `frame`, from the newest segment that does not begin after it. */
  function Query(live: seq<Segment>, frameSamples: nat, frame: int, rate: real): Option<int>
    requires frameSamples >= 1 && rate > 0.0
  {
    if live == [] then None
    else
      var last := live[|live| - 1];
      if FrameAt(last.first, frameSamples) <= frame then
        if last.firstFrameNs.None? then None
        else Some(last.firstFrameNs.value + FramesToNs(frame - FrameAt(last.first, frameSamples), rate))
      else Query(live[..|live| - 1], frameSamples, frame, rate)
  }

  // ---------------------------------------------------------------- the protocol

  /** A capture time stated for a frame of the ring. */
  datatype Measurement = Measurement(frame: int, ns: int, rate: real)

  /**
   Samples offered by the device, dropped, stored as silence, and of that silence still in the ring. The others tell
   what left the ring: delivered samples, the silence counted as read and as evicted, and evictions not counted before.
   */
  datatype Counts = Counts(
    offered: nat, dropped: nat, silence: nat, silenceInRing: nat,
    delivered: nat, readSilence: nat, evictedSilence: nat, discarded: nat)

  /**
   The source between two steps. `losses` holds the ring positions with a loss right before them and `measured` what
   was recorded. `latestRead` is the position at which the latest read or eviction began.
   */
  datatype Source = Source(
    channels: nat, capacity: nat, written: nat, read: nat, latestRead: nat, segments: Segments, frameSamples: nat,
    lossPending: bool, counts: Counts, losses: set<nat>, measured: set<Measurement>)

  function Initial(channels: nat, capacity: nat): Source {
    Source(channels, capacity, 0, 0, 0, Segments([Segment(0, None)], None), 1, false, Counts(0, 0, 0, 0, 0, 0, 0, 0), {}, {})
  }

  function NoteLoss(s: Source): Source {
    s.(lossPending := true, losses := s.losses + {s.written})
  }

  /** Before samples are published: a pending loss opens a segment here, and an overdue one is tried again. */
  function BeginSegment(s: Source): Source
    requires s.segments.live != []
  {
    var overdue := if s.lossPending then Some(s.written) else s.segments.overdue;
    if overdue.None? then s
    else s.(lossPending := false, segments := Open(s.segments.live, overdue.value))
  }

  /** What a write stores of `offered` samples, when the ring grants `granted` of the ones asked for. */
  function Stored(s: Source, offered: nat, granted: nat): (r: nat)
    requires s.channels >= 1 && s.read <= s.written <= s.read + s.capacity
    ensures r % s.channels == 0 && r <= offered && s.written + r <= s.read + s.capacity
  {
    var asked := Min(offered, WholeFrames(s.capacity - (s.written - s.read), s.channels));
    WholeFrames(Min(asked, granted), s.channels)
  }

  function SamplesIn(frames: nat, channels: nat): nat { frames * channels }

  /** `taken` is the greatest number of whole frames that the offer, the grant and the room allow. */
  predicate MostFrames(taken: nat, frames: nat, channels: nat, granted: nat, room: int) {
    && taken <= frames && taken * channels <= granted && taken * channels <= room
    && (taken == frames || (taken + 1) * channels > granted || (taken + 1) * channels > room)
  }

  lemma NoMoreFits(samples: nat, channels: nat)
    requires channels >= 1
    ensures WholeFrames(samples, channels) == (samples / channels) * channels <= samples
    ensures (samples / channels + 1) * channels > samples
  {
  }

  lemma WholeOfFrames(frames: nat, channels: nat)
    requires channels >= 1
    ensures 0 <= frames * channels && WholeFrames(frames * channels, channels) == frames * channels
  {
    DividesAs(frames * channels, channels, frames, 0);
  }

  lemma FewerFrames(a: nat, b: nat, channels: nat)
    requires channels >= 1
    ensures Min(a * channels, b * channels) == Min(a, b) * channels
    ensures a < b <==> a * channels < b * channels
  {
    if a < b {
      ProductGrows(a + 1, b, channels);
    } else {
      ProductGrows(b, a, channels);
    }
  }

  /** A write stores the most whole frames there are. */
  lemma StoredIsMost(s: Source, frames: nat, granted: nat) returns (taken: nat)
    requires s.channels >= 1 && s.read <= s.written <= s.read + s.capacity
    ensures Stored(s, frames * s.channels, granted) == taken * s.channels
    ensures MostFrames(taken, frames, s.channels, granted, s.capacity - (s.written - s.read))
  {
    hide WholeFrames;
    var c, room := s.channels, s.capacity - (s.written - s.read);
    var fits := Min(frames, room / c);
    NoMoreFits(room, c);
    FewerFrames(frames, room / c, c);
    FewerFrames(fits, room / c + 1, c);
    FewerFrames(room / c, fits, c);
    WholeOfFrames(fits, c);
    if fits * c <= granted {
      taken := fits;
    } else {
      NoMoreFits(granted, c);
      taken := granted / c;
      FewerFrames(taken, fits, c);
    }
  }

  /** A read takes the most whole frames that are in the ring and that the output has room for. */
  lemma DeliveredIsMost(s: Source, room: nat) returns (taken: nat)
    requires s.channels >= 1 && s.read <= s.written
    ensures Delivered(s, room) == taken * s.channels
    ensures taken * s.channels <= room && taken * s.channels <= s.written - s.read
    ensures (taken + 1) * s.channels > room || (taken + 1) * s.channels > s.written - s.read
  {
    NoMoreFits(room, s.channels);
    NoMoreFits(s.written - s.read, s.channels);
    FewerFrames(room / s.channels, (s.written - s.read) / s.channels, s.channels);
    taken := Min(room / s.channels, (s.written - s.read) / s.channels);
  }

  /** `stored` of the `offered` samples reach the ring, as silence or as data. The shortfall is dropped, and a loss. */
  function Write(s: Source, silence: bool, offered: nat, stored: nat): Source
    requires s.segments.live != [] && stored <= offered
  {
    var begun := if stored == 0 then s else BeginSegment(s);
    var placeholders := if silence then stored else 0;
    var published := begun.(
      written := s.written + stored,
      counts := s.counts.(
        offered := s.counts.offered + offered,
        dropped := s.counts.dropped + (offered - stored),
        silence := s.counts.silence + placeholders,
        silenceInRing := s.counts.silenceInRing + placeholders));
    if stored < offered then NoteLoss(published) else published
  }

  /** The segments before a new record: an overdue one is tried again. */
  function Caught(s: Source): Segments
    requires s.segments.live != []
  {
    if s.segments.overdue.Some? then Open(s.segments.live, s.segments.overdue.value) else s.segments
  }

  /** The newest frame was captured at `ns`, which gives the latest of these segments its time, if it holds a frame. */
  function RecordIn(s: Source, segments: Segments, ns: int, rate: real): Source
    requires segments.live != [] && s.channels >= 1 && rate > 0.0
  {
    var last := segments.live[|segments.live| - 1];
    var frames := if s.written < last.first then 0 else (s.written - last.first) / s.channels;
    if segments.overdue.Some? || frames == 0 then s.(segments := segments)
    else
      s.(frameSamples := s.channels,
         segments := segments.(live := WithTime(segments.live, Some(ns - FramesToNs(frames - 1, rate)))),
         measured := s.measured + {Measurement(FrameAt(last.first, s.channels) + frames - 1, ns, rate)})
  }

  /** The newest frame of the ring was captured at `ns`. */
  function Record(s: Source, ns: int, rate: real): Source
    requires s.segments.live != [] && s.channels >= 1
  {
    if rate <= 0.0 || s.lossPending then s else RecordIn(s, Caught(s), ns, rate)
  }

  /** `samples` samples leave the ring, after the segments that end before them are retired. */
  function Leave(s: Source, samples: nat): Source
    requires s.segments.live != []
  {
    s.(segments := s.segments.(live := Retired(s.segments.live, s.read)), latestRead := s.read, read := s.read + samples)
  }

  /** The placeholders counted as leaving with `samples` samples: as many as there are, whatever leaves. */
  function Taken(s: Source, samples: nat): nat {
    Min(samples, s.counts.silenceInRing)
  }

  function Delivered(s: Source, room: nat): nat
    requires s.channels >= 1 && s.read <= s.written
  {
    Min(WholeFrames(room, s.channels), WholeFrames(s.written - s.read, s.channels))
  }

  function Read(s: Source, samples: nat): Source
    requires s.segments.live != []
  {
    Leave(s, samples).(counts := s.counts.(
      delivered := s.counts.delivered + samples,
      silenceInRing := s.counts.silenceInRing - Taken(s, samples),
      readSilence := s.counts.readSilence + Taken(s, samples)))
  }

  function Evict(s: Source, samples: nat): Source
    requires s.segments.live != []
  {
    Leave(s, samples).(counts := s.counts.(
      silenceInRing := s.counts.silenceInRing - Taken(s, samples),
      evictedSilence := s.counts.evictedSilence + Taken(s, samples),
      discarded := s.counts.discarded + samples - Taken(s, samples)))
  }

  /** What one thread does to the source while no other does. */
  datatype Step =
    | LossNoted
    | Offered(silence: bool, frames: nat, granted: nat)
    | Captured(ns: int, rate: real)
    | Delivers(room: nat)
    | Evicts(samples: nat)

  /** The caller evicts whole frames that are in the ring. */
  predicate Allowed(s: Source, step: Step)
    requires s.channels >= 1
  {
    step.Evicts? ==> step.samples % s.channels == 0 && s.read + step.samples <= s.written
  }

  function Apply(s: Source, step: Step): Source
    requires s.segments.live != [] && s.channels >= 1 && s.read <= s.written <= s.read + s.capacity
  {
    match step
    case LossNoted => NoteLoss(s)
    case Offered(silence, frames, granted) =>
      var offered := frames * s.channels;
      Write(s, silence, offered, Stored(s, offered, granted))
    case Captured(ns, rate) => Record(s, ns, rate)
    case Delivers(room) => Read(s, Delivered(s, room))
    case Evicts(samples) => Evict(s, samples)
  }

  // ---------------------------------------------------------------- what every step keeps

  /** Where segment `k` ends: the next one's start, or the newest sample. */
  function EndOf(live: seq<Segment>, k: nat, written: nat): nat
    requires k < |live|
  {
    if k + 1 < |live| then live[k + 1].first else written
  }

  /** No loss fell strictly between `first` and `end`. */
  ghost predicate LossFree(losses: set<nat>, first: nat, end: nat) {
    forall p :: p in losses ==> !(first < p < end)
  }

  /** `ns` is the time of the frame at `first`, extrapolated from a measurement of a frame before `end`. */
  ghost predicate GoesBackTo(m: Measurement, first: nat, end: nat, channels: nat, ns: int)
    requires channels >= 1
  {
    && m.rate > 0.0 && FrameAt(first, channels) <= m.frame && Position(m.frame, channels) < end
    && ns == m.ns - FramesToNs(m.frame - FrameAt(first, channels), m.rate)
  }

  /** A segment that states a time holds no loss, and its time goes back to a measurement of one of its frames. */
  ghost predicate Sound(s: Source, k: nat)
    requires k < |s.segments.live| && s.channels >= 1
  {
    var g := s.segments.live[k];
    var end := EndOf(s.segments.live, k, s.written);
    g.firstFrameNs.Some? ==>
      && LossFree(s.losses, g.first, end)
      && s.frameSamples == s.channels
      && exists m :: m in s.measured && GoesBackTo(m, g.first, end, s.channels, g.firstFrameNs.value)
  }

  ghost predicate Sorted(live: seq<Segment>) {
    forall j, k :: 0 <= j < k < |live| ==> live[j].first < live[k].first
  }

  ghost predicate WholeStarts(live: seq<Segment>, channels: nat)
    requires channels >= 1
  {
    forall k :: 0 <= k < |live| ==> live[k].first % channels == 0
  }

  /** The ring holds whole frames and no more than its capacity. */
  ghost predicate RingIsWhole(s: Source) {
    && s.channels >= 1 && s.frameSamples >= 1
    && s.latestRead <= s.read <= s.written <= s.read + s.capacity
    && s.written % s.channels == 0 && s.read % s.channels == 0 && s.latestRead % s.channels == 0
  }

  /** One to sixteen segments with rising starts cover everything from the latest read on. */
  ghost predicate SegmentsCover(s: Source)
    requires s.channels >= 1
  {
    var live := s.segments.live;
    && 1 <= |live| <= MAX_SEGMENTS
    && WholeStarts(live, s.channels) && Sorted(live)
    && live[0].first <= s.latestRead
    && live[|live| - 1].first <= s.written
  }

  /** Where the newest loss-free stretch begins: at the latest segment, or at the one that waits for a slot. */
  function StretchStart(segments: Segments): nat
    requires segments.live != []
  {
    if segments.overdue.Some? then segments.overdue.value else segments.live[|segments.live| - 1].first
  }

  /** Losses are marked: nothing was lost in the newest stretch, and a loss at its end is either pending or its start. */
  ghost predicate LossesAreMarked(s: Source)
    requires s.channels >= 1 && s.segments.live != []
  {
    var live := s.segments.live;
    var start := StretchStart(s.segments);
    && (forall p :: p in s.losses ==> p <= s.written && p % s.channels == 0)
    && LossFree(s.losses, start, s.written)
    && (s.written in s.losses ==> s.lossPending || start == s.written)
    && (s.segments.overdue.Some? ==>
          && live[|live| - 1].first < start < s.written && start % s.channels == 0
          && live[|live| - 1].firstFrameNs.None?)
  }

  /** Every sample offered is stored or dropped, and stored silence is in the ring, was read or was evicted. */
  ghost predicate CountsAddUp(s: Source) {
    && s.counts.offered == s.written + s.counts.dropped
    && s.counts.silence == s.counts.readSilence + s.counts.evictedSilence + s.counts.silenceInRing
    && s.counts.silenceInRing <= s.written - s.read
    && s.read == s.counts.delivered + s.counts.evictedSilence + s.counts.discarded
  }

  ghost predicate Consistent(s: Source) {
    && RingIsWhole(s)
    && SegmentsCover(s)
    && LossesAreMarked(s)
    && (forall k :: 0 <= k < |s.segments.live| ==> Sound(s, k))
    && CountsAddUp(s)
  }
}
