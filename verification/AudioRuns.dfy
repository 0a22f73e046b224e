/** What the capture protocol keeps over every run, and what a capture time then means. */
module AudioRuns {
  import opened Basics
  import opened AudioCapture

  // ---------------------------------------------------------------- segments

  lemma {:induction false} RetiredIsASuffix(live: seq<Segment>, oldestUnread: nat) returns (n: nat)
    requires live != []
    ensures n < |live| && Retired(live, oldestUnread) == live[n..]
    ensures n > 0 ==> live[n].first <= oldestUnread
    ensures n + 1 < |live| ==> oldestUnread < live[n + 1].first
  {
    if |live| > 1 && live[1].first <= oldestUnread {
      var m := RetiredIsASuffix(live[1..], oldestUnread);
      n := m + 1;
      assert live[1..][m..] == live[n..];
    } else {
      n := 0;
      assert live[0..] == live;
    }
  }

  lemma WholeSums(a: nat, b: nat, m: nat)
    requires m >= 1 && a % m == 0 && b % m == 0
    ensures (a + b) % m == 0
    ensures a <= b ==> (b - a) % m == 0
  {
    var i, j := a / m, b / m;
    assert a == i * m && b == j * m;
    assert (i + j) * m == a + b && (j - i) * m == b - a;
    DividesAs(a + b, m, i + j, 0);
    DividesAs(b - a, m, j - i, 0);
  }

  // ---------------------------------------------------------------- steps

  lemma LossIsConsistent(s: Source)
    requires Consistent(s)
    ensures Consistent(NoteLoss(s))
  {
    var t := NoteLoss(s);
    forall k | 0 <= k < |t.segments.live| ensures Sound(t, k) {
      assert Sound(s, k);
    }
  }

  /** Opening a segment at the newest sample or at an overdue start keeps what the others state. */
  lemma OpenIsSound(s: Source, first: nat, t: Source)
    requires Consistent(s)
    requires first == s.written || s.segments.overdue == Some(first)
    requires t == s.(segments := Open(s.segments.live, first), lossPending := t.lossPending)
    ensures SegmentsCover(t)
    ensures forall k :: 0 <= k < |t.segments.live| ==> Sound(t, k)
    ensures StretchStart(t.segments) == first
    ensures t.segments.overdue.Some? <==>
      s.segments.live[|s.segments.live| - 1].first < first && |s.segments.live| == MAX_SEGMENTS
  {
    var live := s.segments.live;
    var now := t.segments.live;
    var last := |live| - 1;
    forall k | 0 <= k < |now| ensures Sound(t, k) {
      if k <= last {
        assert Sound(s, k);
      }
    }
  }

  /** The next sample continues the newest stretch: no loss fell in it, and one at its end begins it. */
  ghost predicate MayGrow(s: Source)
    requires s.channels >= 1 && s.segments.live != []
  {
    var live := s.segments.live;
    var start := StretchStart(s.segments);
    && (forall p :: p in s.losses ==> p <= s.written && p % s.channels == 0)
    && LossFree(s.losses, start, s.written)
    && (s.written in s.losses ==> start == s.written)
    && (s.segments.overdue.Some? ==>
          && live[|live| - 1].first < start <= s.written && start % s.channels == 0
          && live[|live| - 1].firstFrameNs.None?)
  }

  lemma BeginMayGrow(s: Source)
    requires Consistent(s)
    ensures var t := BeginSegment(s);
      && SegmentsCover(t) && MayGrow(t) && !t.lossPending
      && (forall k :: 0 <= k < |t.segments.live| ==> Sound(t, k))
      && t == s.(segments := t.segments, lossPending := false)
  {
    var first := if s.lossPending then Some(s.written) else s.segments.overdue;
    if first.Some? {
      OpenIsSound(s, first.value, BeginSegment(s));
    }
  }

  lemma GrownIsSound(s: Source, stored: nat)
    requires s.channels >= 1 && SegmentsCover(s) && MayGrow(s) && stored > 0
    requires forall k :: 0 <= k < |s.segments.live| ==> Sound(s, k)
    ensures var t := s.(written := s.written + stored);
      && SegmentsCover(t)
      && (stored % s.channels == 0 && s.written % s.channels == 0 ==> LossesAreMarked(t))
      && (forall k :: 0 <= k < |t.segments.live| ==> Sound(t, k))
  {
    var t := s.(written := s.written + stored);
    var live := s.segments.live;
    forall k | 0 <= k < |live| ensures Sound(t, k) {
      assert Sound(s, k);
      if k + 1 == |live| && live[k].firstFrameNs.Some? {
        var m :| m in s.measured && GoesBackTo(m, live[k].first, s.written, s.channels, live[k].firstFrameNs.value);
        assert GoesBackTo(m, live[k].first, t.written, s.channels, live[k].firstFrameNs.value);
      }
    }
  }

  /** Counts play no part in what segments state. */
  lemma CountsAreApart(s: Source, t: Source)
    requires s.channels >= 1 && SegmentsCover(s) && LossesAreMarked(s) && t == s.(counts := t.counts)
    requires forall k :: 0 <= k < |s.segments.live| ==> Sound(s, k)
    ensures SegmentsCover(t) && LossesAreMarked(t)
    ensures forall k :: 0 <= k < |t.segments.live| ==> Sound(t, k)
  {
    forall k | 0 <= k < |t.segments.live| ensures Sound(t, k) {
      assert Sound(s, k);
    }
  }

  lemma StoreIsConsistent(s: Source, stored: nat, t: Source)
    requires Consistent(s) && stored > 0 && stored % s.channels == 0 && s.written + stored <= s.read + s.capacity
    requires t == BeginSegment(s).(written := s.written + stored, counts := t.counts) && CountsAddUp(t)
    ensures Consistent(t)
  {
    hide Open, LossesAreMarked, Sound, MayGrow;
    WholeSums(s.written, stored, s.channels);
    BeginMayGrow(s);
    GrownIsSound(BeginSegment(s), stored);
    CountsAreApart(BeginSegment(s).(written := s.written + stored), t);
  }

  lemma WriteIsConsistent(s: Source, silence: bool, offered: nat, stored: nat)
    requires Consistent(s) && stored <= offered && stored % s.channels == 0
    requires s.written + stored <= s.read + s.capacity
    ensures Consistent(Write(s, silence, offered, stored))
  {
    hide Open, LossesAreMarked, Sound;
    var t := Write(s, silence, offered, stored);
    var kept := t.(losses := s.losses, lossPending := if stored == 0 then s.lossPending else BeginSegment(s).lossPending);
    if stored > 0 {
      StoreIsConsistent(s, stored, kept);
    } else {
      CountsAreApart(s, kept);
    }
    if stored < offered {
      LossIsConsistent(kept);
      assert t == NoteLoss(kept);
    } else {
      assert t == kept;
    }
  }

  /** A capture time is recorded exactly when no loss follows the newest frame and its stretch has a segment. */
  ghost predicate Recordable(s: Source, rate: real)
    requires s.segments.live != []
  {
    && rate > 0.0 && !s.lossPending
    && StretchStart(s.segments) < s.written
    && (s.segments.overdue.Some? ==> |s.segments.live| < MAX_SEGMENTS)
  }

  lemma NewestFrame(first: nat, written: nat, channels: nat)
    requires channels >= 1 && first % channels == 0 && written % channels == 0 && first < written
    ensures var frames := (written - first) / channels;
      && frames >= 1
      && FrameAt(first, channels) + frames == FrameAt(written, channels)
      && Position(FrameAt(written, channels) - 1, channels) == written - channels
  {
    var i, j := first / channels, written / channels;
    assert first == i * channels && written == j * channels;
    FactorBelow(i, j, channels);
    assert (j - i) * channels == written - first;
    DividesAs(written - first, channels, j - i, 0);
    assert (j - 1) * channels == written - channels;
  }

  /** The newest stretch has a segment, which states `ns` for the newest frame. */
  ghost predicate RecordedAs(s: Source, t: Source, ns: int, rate: real)
    requires s.channels >= 1 && s.segments.live != []
  {
    var live := t.segments.live;
    && live != [] && t.segments.overdue.None?
    && live[|live| - 1].first == StretchStart(s.segments)
    && t.frameSamples == s.channels && t.channels == s.channels && t.written == s.written
    && rate > 0.0
    && live[|live| - 1].firstFrameNs ==
         Some(ns - FramesToNs(FrameAt(s.written, s.channels) - 1 - FrameAt(StretchStart(s.segments), s.channels), rate))
    && t.measured == s.measured + {Measurement(FrameAt(s.written, s.channels) - 1, ns, rate)}
  }

  lemma RecordedFromCaught(s: Source, caught: Source, t: Source, ns: int, rate: real)
    requires s.channels >= 1 && s.segments.live != [] && caught.segments.live != []
    requires caught == s.(segments := caught.segments) && StretchStart(caught.segments) == StretchStart(s.segments)
    requires RecordedAs(caught, t, ns, rate)
    ensures RecordedAs(s, t, ns, rate)
  {
  }

  lemma NotRecorded(s: Source, ns: int, rate: real)
    requires s.channels >= 1 && s.segments.live != [] && (rate <= 0.0 || s.lossPending)
    ensures Record(s, ns, rate) == s
  {
  }

  lemma RecordIsConsistent(s: Source, ns: int, rate: real)
    requires Consistent(s)
    ensures var t := Record(s, ns, rate);
      && Consistent(t)
      && if Recordable(s, rate) then RecordedAs(s, t, ns, rate) else t.measured == s.measured
  {
    hide Open, FramesToNs, Sound, Caught, Record, LossFree, CountsAddUp, Sorted, WholeStarts, RecordedAs;
    if rate > 0.0 && !s.lossPending {
      var caught := s.(segments := Caught(s));
      CaughtIsConsistent(s, caught);
      RecordAfterCatchUp(s, caught, ns, rate);
      if caught.segments.overdue.None? && StretchStart(caught.segments) < s.written {
        RecordedIsSound(caught, ns, rate);
        RecordedFromCaught(s, caught, Record(s, ns, rate), ns, rate);
      }
    } else {
      NotRecorded(s, ns, rate);
    }
  }

  lemma RecordAfterCatchUp(s: Source, caught: Source, ns: int, rate: real)
    requires s.channels >= 1 && s.segments.live != []
    requires caught == s.(segments := Caught(s)) && rate > 0.0 && !s.lossPending
    ensures Record(s, ns, rate) ==
      if caught.segments.overdue.Some? || s.written <= StretchStart(caught.segments) then caught else Record(caught, ns, rate)
  {
  }

  lemma CaughtIsConsistent(s: Source, caught: Source)
    requires Consistent(s) && caught == s.(segments := Caught(s)) && !s.lossPending
    ensures Consistent(caught)
    ensures StretchStart(caught.segments) == StretchStart(s.segments)
    ensures caught.segments.overdue.Some? <==> s.segments.overdue.Some? && |s.segments.live| == MAX_SEGMENTS
  {
    hide Sound;
    if s.segments.overdue.Some? {
      OpenIsSound(s, s.segments.overdue.value, caught);
    }
  }

  /** Stating a time for the latest segment from its newest frame. */
  lemma RecordedIsSound(s: Source, ns: int, rate: real)
    requires Consistent(s) && rate > 0.0 && !s.lossPending && s.segments.overdue.None?
    requires s.segments.live[|s.segments.live| - 1].first < s.written
    ensures Consistent(Record(s, ns, rate))
    ensures RecordedAs(s, Record(s, ns, rate), ns, rate)
  {
    hide FramesToNs;
    var t := Record(s, ns, rate);
    var last := s.segments.live[|s.segments.live| - 1];
    NewestFrame(last.first, s.written, s.channels);
    var m := Measurement(FrameAt(s.written, s.channels) - 1, ns, rate);
    assert GoesBackTo(m, last.first, s.written, s.channels, ns - FramesToNs(m.frame - FrameAt(last.first, s.channels), rate));
    forall k | 0 <= k < |t.segments.live| ensures Sound(t, k) {
      assert Sound(s, k);
    }
  }

  lemma SuffixCovers(s: Source, n: nat, t: Source)
    requires s.channels >= 1 && SegmentsCover(s) && n < |s.segments.live|
    requires t.segments.live == s.segments.live[n..] && t.channels == s.channels && t.written == s.written
    requires s.segments.live[n].first <= t.latestRead
    ensures SegmentsCover(t)
  {
  }

  lemma SuffixIsSound(s: Source, n: nat, t: Source, k: nat)
    requires s.channels >= 1 && n <= |s.segments.live|
    requires t.segments.live == s.segments.live[n..] && k < |t.segments.live|
    requires t == s.(segments := t.segments, latestRead := t.latestRead, read := t.read)
    requires Sound(s, n + k)
    ensures Sound(t, k)
  {
  }

  lemma LeftIsSound(s: Source, samples: nat)
    requires Consistent(s) && samples % s.channels == 0
    ensures var t := Leave(s, samples);
      && SegmentsCover(t) && LossesAreMarked(t)
      && (forall k :: 0 <= k < |t.segments.live| ==> Sound(t, k))
  {
    hide Retired, Sound, LossFree, Sorted, WholeStarts, CountsAddUp;
    var t := Leave(s, samples);
    var n := RetiredIsASuffix(s.segments.live, s.read);
    SuffixCovers(s, n, t);
    forall k | 0 <= k < |t.segments.live| ensures Sound(t, k) {
      SuffixIsSound(s, n, t, k);
    }
  }

  lemma LeaveIsConsistent(s: Source, samples: nat, t: Source)
    requires Consistent(s) && s.read + samples <= s.written && samples % s.channels == 0
    requires t == Leave(s, samples).(counts := t.counts) && CountsAddUp(t)
    ensures Consistent(t)
  {
    hide Retired, Sound, LossesAreMarked;
    WholeSums(s.read, samples, s.channels);
    LeftIsSound(s, samples);
    CountsAreApart(Leave(s, samples), t);
  }

  lemma DeliveredIsWhole(s: Source, room: nat)
    requires s.channels >= 1 && s.read <= s.written
    ensures Delivered(s, room) % s.channels == 0 && s.read + Delivered(s, room) <= s.written
  {
  }

  /** Every step keeps the source consistent. */
  lemma StepIsConsistent(s: Source, step: Step)
    requires Consistent(s) && Allowed(s, step)
    ensures Consistent(Apply(s, step))
  {
    match step
    case LossNoted => LossIsConsistent(s);
    case Offered(silence, frames, granted) =>
      WriteIsConsistent(s, silence, frames * s.channels, Stored(s, frames * s.channels, granted));
    case Captured(ns, rate) => RecordIsConsistent(s, ns, rate);
    case Delivers(room) =>
      DeliveredIsWhole(s, room);
      LeaveIsConsistent(s, Delivered(s, room), Read(s, Delivered(s, room)));
    case Evicts(samples) => LeaveIsConsistent(s, samples, Evict(s, samples));
  }
}
