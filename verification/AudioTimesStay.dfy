/** What the steps of an audio source leave alone: stated times stay until their frames are read or the slots run out. */
module AudioTimesStay {
  import opened Basics
  import opened AudioCapture
  import opened AudioRuns
  import opened AudioCaptureTime

  /**
   Retiring keeps the segments from some `k` on: the first kept one is the only one kept that does not begin after the
   oldest unread sample, unless the very first already begins after it.
   */
  lemma {:induction false} RetiredExactly(live: seq<Segment>, oldestUnread: nat) returns (k: nat)
    requires live != [] && Sorted(live)
    ensures k < |live| && Retired(live, oldestUnread) == live[k..]
    ensures k > 0 ==> live[k].first <= oldestUnread
    ensures forall j :: k < j < |live| ==> live[j].first > oldestUnread
  {
    if |live| > 1 && live[1].first <= oldestUnread {
      k := RetiredExactly(live[1..], oldestUnread);
      k := k + 1;
    } else {
      k := 0;
    }
  }

  /**
   A loss opens a segment at once while a slot is free, and all others stay as they are. With none free, and where the
   latest one holds no sample yet, only the latest loses its time.
   */
  lemma OpenKeepsTheOthers(live: seq<Segment>, first: nat)
    requires live != []
    ensures var last := |live| - 1; var next := Open(live, first);
      && (live[last].first != first && |live| < MAX_SEGMENTS ==>
            next == Segments(live + [Segment(first, None)], None))
      && (live[last].first == first || |live| >= MAX_SEGMENTS ==>
            |next.live| == |live| && next.live[..last] == live[..last] &&
            next.live[last] == Segment(live[last].first, None))
      && (next.overdue == if live[last].first != first && |live| >= MAX_SEGMENTS then Some(first) else None)
  {
  }

  /** What a segment before the latest states is what every query of its frames comes back with. */
  lemma SameSegment(s: Source, t: Source, frame: int, rate: real, j: nat, k: nat)
    requires Consistent(s) && Consistent(t) && rate > 0.0 && s.channels == t.channels
    requires s.latestRead <= Position(frame, s.channels) < s.written
    requires t.latestRead <= Position(frame, s.channels) < t.written
    requires Holds(s, j, frame) && Holds(t, k, frame)
    requires Stated(s.segments.live[j], s.channels, frame, rate) == Stated(t.segments.live[k], s.channels, frame, rate)
    ensures Query(t.segments.live, t.frameSamples, frame, rate) == Query(s.segments.live, s.frameSamples, frame, rate)
  {
    hide Consistent, Query, Stated, Holds, Position;
    var j' := EveryFrameHasItsSegment(s, frame, rate);
    var k' := EveryFrameHasItsSegment(t, frame, rate);
    assert j == j' && k == k';
  }

  /** The frame is still readable after the step. */
  ghost predicate StaysReadable(s: Source, t: Source, frame: int) {
    s.latestRead <= Position(frame, s.channels) < s.written && t.latestRead <= Position(frame, s.channels)
  }

  /** The step may change what is stated for the frame: a record of its stretch, or a loss with no slot free. */
  ghost predicate Touches(s: Source, step: Step, frame: int)
    requires s.segments.live != []
  {
    || (step.Captured? && StretchStart(s.segments) <= Position(frame, s.channels))
    || (step.Offered? && |s.segments.live| == MAX_SEGMENTS &&
          s.segments.live[|s.segments.live| - 1].first <= Position(frame, s.channels))
  }

  /** Opening a segment for a loss that lies behind the frame, or in the latest segment that states no time. */
  lemma OpenKeepsTimes(s: Source, t: Source, first: nat, frame: int, rate: real)
    requires Consistent(s) && Consistent(t) && rate > 0.0 && s.channels == t.channels && StaysReadable(s, t, frame)
    requires t.written >= s.written && t.segments == Open(s.segments.live, first)
    requires first == s.written || s.segments.overdue == Some(first)
    requires |s.segments.live| == MAX_SEGMENTS ==>
      Position(frame, s.channels) < s.segments.live[|s.segments.live| - 1].first
    ensures Query(t.segments.live, t.frameSamples, frame, rate) == Query(s.segments.live, s.frameSamples, frame, rate)
  {
    hide Sound, CountsAddUp, Query, FramesToNs, LossFree, Position, FrameAt;
    var live, now := s.segments.live, t.segments.live;
    var j := EveryFrameHasItsSegment(s, frame, rate);
    OpenKeepsTheOthers(live, first);
    if first <= Position(frame, s.channels) {
      SameSegment(s, t, frame, rate, j, |live|);
    } else {
      SameSegment(s, t, frame, rate, j, j);
    }
  }

  lemma WriteKeepsTimes(s: Source, silence: bool, offered: nat, stored: nat, frame: int, rate: real)
    requires Consistent(s) && rate > 0.0 && stored <= offered && StaysReadable(s, s, frame)
    requires Consistent(Write(s, silence, offered, stored))
    requires |s.segments.live| == MAX_SEGMENTS ==>
      Position(frame, s.channels) < s.segments.live[|s.segments.live| - 1].first
    ensures var t := Write(s, silence, offered, stored);
      Query(t.segments.live, t.frameSamples, frame, rate) == Query(s.segments.live, s.frameSamples, frame, rate)
  {
    hide Sound, CountsAddUp, LossesAreMarked, LossFree, Query, Open, Position;
    var t := Write(s, silence, offered, stored);
    if t.segments != s.segments {
      var first := if s.lossPending then s.written else s.segments.overdue.value;
      OpenKeepsTimes(s, t, first, frame, rate);
    }
  }

  lemma LeaveKeepsTimes(s: Source, t: Source, frame: int, rate: real)
    requires Consistent(s) && Consistent(t) && rate > 0.0 && s.channels == t.channels && StaysReadable(s, t, frame)
    requires t.written == s.written && t.segments.live == Retired(s.segments.live, s.read) && t.frameSamples == s.frameSamples
    ensures Query(t.segments.live, t.frameSamples, frame, rate) == Query(s.segments.live, s.frameSamples, frame, rate)
  {
    hide Sound, CountsAddUp, Query, FramesToNs, LossFree, Position, FrameAt, LossesAreMarked, Retired, Stated, RingIsWhole;
    var k := EveryFrameHasItsSegment(t, frame, rate);
    var d := RetiredExactly(s.segments.live, s.read);
    SameSegment(s, t, frame, rate, d + k, k);
  }

  lemma RecordKeepsTimes(s: Source, ns: int, recorded: real, frame: int, rate: real)
    requires Consistent(s) && rate > 0.0 && StaysReadable(s, s, frame)
    requires Position(frame, s.channels) < StretchStart(s.segments)
    ensures var t := Record(s, ns, recorded);
      Query(t.segments.live, t.frameSamples, frame, rate) == Query(s.segments.live, s.frameSamples, frame, rate)
  {
    hide Sound, CountsAddUp, Query, FramesToNs, LossFree, Position, FrameAt, Open;
    var t := Record(s, ns, recorded);
    RecordIsConsistent(s, ns, recorded);
    var j := EveryFrameHasItsSegment(s, frame, rate);
    if s.segments.overdue.Some? {
      OpenKeepsTheOthers(s.segments.live, s.segments.overdue.value);
    }
    SameSegment(s, t, frame, rate, j, j);
  }

  /**
   A stated time stays: whatever one step does, a frame that is still readable reads back as it did, unless a record of
   its own stretch is taken, or it lies in the latest segment and a write finds every slot taken.
   */
  lemma StatedTimesStay(s: Source, step: Step, frame: int, rate: real)
    requires Consistent(s) && Allowed(s, step) && rate > 0.0
    requires StaysReadable(s, Apply(s, step), frame) && !Touches(s, step, frame)
    ensures var t := Apply(s, step);
      Query(t.segments.live, t.frameSamples, frame, rate) == Query(s.segments.live, s.frameSamples, frame, rate)
  {
    hide Query, Position, Open, Retired, Stored;
    StepIsConsistent(s, step);
    var t := Apply(s, step);
    match step
    case LossNoted =>
    case Offered(silence, frames, granted) =>
      WriteKeepsTimes(s, silence, frames * s.channels, Stored(s, frames * s.channels, granted), frame, rate);
    case Captured(ns, recorded) => RecordKeepsTimes(s, ns, recorded, frame, rate);
    case Delivers(room) => LeaveKeepsTimes(s, t, frame, rate);
    case Evicts(samples) => LeaveKeepsTimes(s, t, frame, rate);
  }

  /**
   The history that the guarantees speak of is what happened: a loss stands at the newest sample for every loss noted and
   every write that dropped something, a measurement for every record taken, and neither is ever forgotten.
   */
  lemma HistoryIsTrue(s: Source, step: Step)
    requires Consistent(s) && Allowed(s, step)
    ensures var t := Apply(s, step);
      && t.losses == s.losses + (if step.LossNoted? || t.counts.dropped > s.counts.dropped then {t.written} else {})
      && t.measured == s.measured +
           if step.Captured? && Recordable(s, step.rate)
           then {Measurement(FrameAt(s.written, s.channels) - 1, step.ns, step.rate)} else {}
  {
    hide Sound, CountsAddUp, LossFree, Open, Retired, FrameAt;
    match step
    case LossNoted =>
    case Offered(silence, frames, granted) =>
    case Captured(ns, rate) => RecordIsConsistent(s, ns, rate);
    case Delivers(room) =>
    case Evicts(samples) =>
  }
}
