/** The power meter as it runs: eight lanes, a ring of segment powers, and records held back while they have no room. */
module PowerMeterBlock {
  import opened Basics
  import opened ComplexNumbers
  import opened PowerMeterSpec

  datatype Status = Ok | InsufficientInput | InsufficientOutput

  /** The ring after every power in turn went into the next slot. */
  function Ring(powers: seq<real>, count: nat): (slots: seq<real>)
    requires count >= 1
    ensures |slots| == count
  {
    if powers == [] then Repeat(0.0, count)
    else
      var last := |powers| - 1;
      Ring(powers[..last], count)[Turn(last, count) := powers[last]]
  }

  /** The newest values, with the next one's slot after them. */
  function Turned(newest: seq<real>, turn: nat): seq<real>
    requires turn <= |newest|
  {
    newest[|newest| - turn..] + newest[..|newest| - turn]
  }

  /** Overwriting the oldest value in place is turning the ring by one. */
  lemma TurnedOn(newest: seq<real>, x: real, turn: nat)
    requires turn < |newest|
    ensures Turned(newest, turn)[turn := x] ==
      Turned(newest[1..] + [x], if turn == |newest| - 1 then 0 else turn + 1)
  {
  }

  lemma FirstTurn(n: nat, count: nat)
    requires n < count
    ensures Turn(n, count) == n
  {
  }

  lemma NotYetTurned(powers: seq<real>)
    ensures powers[0..] == powers && Turned(powers, 0) == powers
  {
  }

  lemma NewestMove(powers: seq<real>, count: nat)
    requires 1 <= count < |powers|
    ensures var last := |powers| - 1;
      && powers[..last][last - count..] == powers[last - count..last]
      && powers[last - count..last][1..] + [powers[last]] == powers[|powers| - count..]
  {
  }

  /** The filled slots are the newest powers, turned by where the next one goes. */
  lemma {:induction false} RingHoldsTheNewest(powers: seq<real>, count: nat, turn: nat)
    requires count >= 1 && turn == Turn(|powers|, count)
    ensures |powers| < count ==> Ring(powers, count) == powers + Repeat(0.0, count - |powers|)
    ensures |powers| >= count ==> Ring(powers, count) == Turned(powers[|powers| - count..], turn)
  {
    hide Turn, Turned;
    if powers == [] {
      assert Turn(0, count) == 0;
    } else {
      var last := |powers| - 1;
      var before := Turn(last, count);
      TurnOfNext(last, count);
      RingHoldsTheNewest(powers[..last], count, before);
      if last < count {
        FirstTurn(last, count);
        NotYetTurned(powers);
      } else {
        TurnedOn(powers[last - count..last], powers[last], before);
        NewestMove(powers, count);
      }
    }
  }

  /** Summed slot by slot, the ring gives the sum of the newest powers. */
  lemma RingSum(powers: seq<real>, count: nat, filled: nat)
    requires count >= 1 && filled == Min(|powers|, count)
    ensures SumOf(Ring(powers, count)[..filled]) == SumOf(powers[|powers| - filled..])
  {
    hide SumOf;
    var turn := Turn(|powers|, count);
    RingHoldsTheNewest(powers, count, turn);
    if |powers| < count {
      assert Ring(powers, count)[..filled] == powers;
      assert powers[0..] == powers;
    } else {
      var newest := powers[|powers| - count..];
      assert Ring(powers, count)[..filled] == Turned(newest, turn);
      RotationKeepsSum(newest, count - turn);
    }
  }

  /** The published reading: the mean of the newest segments' powers, and 0 before any closed. */
  ghost function Reading(closed: seq<seq<Complex>>, count: nat, length: nat): real
    requires count >= 1 && length >= 1 && AllOfLength(closed, length)
  {
    var filled := Min(|closed|, count);
    if filled == 0 then 0.0 else WindowPower(closed[|closed| - filled..], length)
  }

  /** The lanes of a segment that goes on with `k` samples of the input. */
  function Taken(segment: seq<Complex>, input: seq<Complex>, at: nat, k: nat): (r: seq<seq<Complex>>)
    requires at + k <= |input|
    ensures |r| == LANES
  {
    Lanes(segment + input[at..at + k])
  }

  function LaneFor(offset: nat): (lane: nat)
    ensures lane < LANES
  {
    offset % LANES
  }

  lemma LanesFollow(offset: nat, k: nat)
    requires LaneFor(offset) == 0 && k < LANES
    ensures LaneFor(offset + k) == k && LaneFor(offset + LANES) == 0
  {
  }

  lemma NothingTaken(segment: seq<Complex>, input: seq<Complex>, at: nat)
    requires at <= |input|
    ensures Taken(segment, input, at, 0) == Lanes(segment)
  {
    assert segment + input[at..at + 0] == segment;
  }

  lemma OneMore(segment: seq<Complex>, input: seq<Complex>, at: nat, k: nat, phase: nat)
    requires at + k < |input| && phase == LaneFor(|segment|)
    ensures Taken(segment, input, at, k + 1) ==
      WithSample(Taken(segment, input, at, k), LaneFor(phase + k), input[at + k])
  {
    hide Lanes;
    assert LaneFor(|segment| + k) == LaneFor(phase + k);
    assert segment + input[at..at + k + 1] == segment + input[at..at + k] + [input[at + k]];
    NextSampleGoesToItsLane(segment + input[at..at + k], input[at + k]);
  }

  /** Adds a run of samples to the lanes: singly up to a lane boundary, eight at a time, and singly again. */
  method TakeRun(lanes: seq<seq<Complex>>, input: seq<Complex>, at: nat, run: nat, phase: nat, ghost segment: seq<Complex>)
    returns (r: seq<seq<Complex>>)
    requires lanes == Lanes(segment) && phase == LaneFor(|segment|) && at + run <= |input|
    ensures r == Taken(segment, input, at, run)
  {
    hide Lanes, Taken, WithSample, LaneFor;
    r := lanes;
    var k := 0;
    NothingTaken(segment, input, at);
    while k < run && LaneFor(phase + k) != 0
      invariant 0 <= k <= run
      invariant r == Taken(segment, input, at, k)
    {
      OneMore(segment, input, at, k, phase);
      r := WithSample(r, LaneFor(phase + k), input[at + k]);
      k := k + 1;
    }
    while k + LANES <= run
      invariant 0 <= k <= run
      invariant k < run ==> LaneFor(phase + k) == 0
      invariant r == Taken(segment, input, at, k)
    {
      for lane := 0 to LANES
        invariant r == Taken(segment, input, at, k + lane)
      {
        LanesFollow(phase + k, lane);
        OneMore(segment, input, at, k + lane, phase);
        r := WithSample(r, lane, input[at + k + lane]);
      }
      LanesFollow(phase + k, 0);
      k := k + LANES;
    }
    while k < run
      invariant 0 <= k <= run
      invariant r == Taken(segment, input, at, k)
    {
      OneMore(segment, input, at, k, phase);
      r := WithSample(r, LaneFor(phase + k), input[at + k]);
      k := k + 1;
    }
  }

  lemma RingOfNext(closed: seq<seq<Complex>>, segment: seq<Complex>, count: nat, length: nat)
    requires count >= 1 && length >= 1 && AllOfLength(closed, length) && |segment| == length
    ensures AllOfLength(closed + [segment], length)
    ensures Ring(Powers(closed + [segment], length), count) ==
      Ring(Powers(closed, length), count)[Turn(|closed|, count) := SegmentPower(segment)]
  {
    hide SegmentPower;
    assert Powers(closed + [segment], length)[..|closed|] == Powers(closed, length);
  }

  lemma ReadingOfSlots(closed: seq<seq<Complex>>, count: nat, length: nat, filled: nat)
    requires count >= 1 && length >= 1 && AllOfLength(closed, length) && closed != []
    requires filled == Min(|closed|, count)
    ensures SumOf(Ring(Powers(closed, length), count)[..filled]) / filled as real == Reading(closed, count, length)
  {
    hide SegmentPower, SumOf, Ring;
    var newest := closed[|closed| - filled..];
    assert Powers(closed, length)[|closed| - filled..] == Powers(newest, length);
    RingSum(Powers(closed, length), count, filled);
  }

  /** The next segment builds a record of its window's power exactly when it is the window's last one. */
  lemma BuiltOfNext(closed: seq<seq<Complex>>, segment: seq<Complex>, count: nat, length: nat, start: nat)
    requires count >= 1 && length >= 1 && AllOfLength(closed, length) && |segment| == length
    ensures AllOfLength(closed + [segment], length)
    ensures Built(closed + [segment], count, length, start) == Built(closed, count, length, start) +
        if Turn(|closed|, count) != count - 1 then []
        else [Record(Reading(closed + [segment], count, length), count,
                     start + Offset(|closed| - Turn(|closed|, count), length))]
  {
    hide WindowPower;
    var now := closed + [segment];
    assert now[..|now| - 1] == closed;
    TurnOfNext(|closed|, count);
    if Turn(|now|, count) == 0 {
      LastWindowFits(|now|, count);
    }
  }

  lemma PowerOfLanes(segment: seq<Complex>, total: real)
    requires segment != [] && total == LanesEnergy(Lanes(segment))
    ensures total / |segment| as real == SegmentPower(segment)
  {
  }

  lemma SumOfNone()
    ensures SumOf([]) == 0.0
  {
  }

  lemma SumOfOneMore(values: seq<real>, n: nat)
    requires n < |values|
    ensures SumOf(values[..n + 1]) == SumOf(values[..n]) + values[n]
  {
    assert values[..n + 1][..n] == values[..n];
  }

  lemma NothingYet(count: nat, length: nat)
    requires count >= 1 && length >= 1
    ensures Ring(Powers([], length), count) == Repeat(0.0, count)
    ensures Lanes([]) == Repeat([], LANES) && Reading([], count, length) == 0.0
  {
  }

  class PowerMeter {
    var segments: array<real>
    var segmentSamples: nat
    var lanes: seq<seq<Complex>>
    var index: nat
    var completed: nat
    var sinceRecord: nat
    var streamAt: nat
    var windowStartAt: nat
    var pending: seq<Record>
    var flushed: bool
    var power: real
    var filled: nat
    ghost var closed: seq<seq<Complex>>
    ghost var current: seq<Complex>
    ghost var start: nat

    /** The samples since the window was last rebuilt or reset. */
    ghost function History(): seq<Complex>
      reads this`closed, this`current
    {
      Concat(closed) + current
    }

    /** The records built since then, published or not. */
    ghost function Records(): seq<Record>
      requires segments.Length >= 1 && segmentSamples >= 1 && AllOfLength(closed, segmentSamples)
      reads this`closed, this`segments, this`segmentSamples, this`start
    {
      Built(closed, segments.Length, segmentSamples, start)
    }

    /** The window's shape: its size in samples fits 64 bits. */
    ghost predicate HasShape()
      reads this`segments, this`segmentSamples, this`closed
    {
      && segments.Length >= 1 && segmentSamples >= 1 && Offset(segments.Length, segmentSamples) <= U64_MAX
      && AllOfLength(closed, segmentSamples)
    }

    /** Lanes, ring and reading are those of the segments closed and of the one that fills. */
    ghost predicate Measures()
      reads this`segments, this`segmentSamples, this`closed, this`current, this`index, this`lanes, this`completed,
        this`filled, this`power, segments
    {
      && HasShape()
      && index == |current| <= segmentSamples && lanes == Lanes(current) && completed == |closed|
      && segments[..] == Ring(Powers(closed, segmentSamples), segments.Length)
      && filled == Min(completed, segments.Length)
      && power == Reading(closed, segments.Length, segmentSamples)
    }

    /** The fields say where the meter stands, with the current segment full at most. */
    ghost predicate Filling()
      reads this`segments, this`segmentSamples, this`closed, this`current, this`index, this`lanes, this`completed,
        this`filled, this`power, this`start, this`sinceRecord, this`streamAt, this`windowStartAt, segments
    {
      && Measures()
      && Tallied(segments.Length, segmentSamples, start, completed, sinceRecord, index, streamAt, windowStartAt)
    }

    ghost predicate Valid()
      reads this`segments, this`segmentSamples, this`closed, this`current, this`index, this`lanes, this`completed,
        this`filled, this`power, this`start, this`sinceRecord, this`streamAt, this`windowStartAt, segments
    {
      HasShape() && Filling() && index < segmentSamples
    }

    lemma MeasuresParts()
      requires Measures()
      ensures HasShape() && index == |current| <= segmentSamples && lanes == Lanes(current)
      ensures completed == |closed| && filled == Min(completed, segments.Length)
      ensures power == Reading(closed, segments.Length, segmentSamples)
    {
    }

    lemma RecordIsBehind()
      requires Valid()
      ensures sinceRecord <= |closed|
    {
    }

    constructor (count: nat, length: nat)
      requires count >= 1 && length >= 1 && Offset(count, length) <= U64_MAX
      ensures Valid() && History() == [] && start == 0 && pending == [] && fresh(segments)
      ensures segments.Length == count && segmentSamples == length
    {
      segments := new real[count](_ => 0.0);
      segmentSamples := length;
      lanes := Lanes([]);
      index, completed, sinceRecord, streamAt, windowStartAt := 0, 0, 0, 0, 0;
      pending, flushed, power, filled := [], false, 0.0, 0;
      closed, current, start := [], [], 0;
      new;
      TallyOfNone(count, length, 0);
      assert segments[..] == Repeat(0.0, count);
    }

    /** Sums up the lanes of a full segment in their order. */
    method SumLanes() returns (total: real)
      requires |lanes| == LANES
      ensures total == LanesEnergy(lanes)
    {
      total := 0.0;
      for lane := 0 to LANES
        invariant total == LanesEnergy(lanes[..lane])
      {
        assert lanes[..lane + 1][..lane] == lanes[..lane];
        total := total + TotalEnergy(lanes[lane]);
      }
      assert lanes[..LANES] == lanes;
    }

    /** The mean of the first `n` slots, added up in slot order. */
    method MeanOfSlots(n: nat) returns (mean: real)
      requires 1 <= n <= segments.Length
      ensures mean == SumOf(segments[..n]) / n as real
    {
      mean := 0.0;
      for slot := 0 to n
        invariant mean == SumOf(segments[..slot])
      {
        assert segments[..slot + 1][..slot] == segments[..slot];
        mean := mean + segments[slot];
      }
      mean := mean / n as real;
    }

    /** A full segment's power goes into the ring, and the reading follows. */
    method FoldSegment()
      requires Measures() && index == segmentSamples
      modifies this`lanes, this`index, this`completed, this`filled, this`power, this`closed, this`current, segments
      ensures Measures() && index == 0
      ensures closed == old(closed) + [old(current)] && current == []
    {
      hide Ring, Reading, Powers, SegmentPower, Lanes, LanesEnergy, Offset, Turn;
      ghost var segment := current;
      RingOfNext(closed, segment, segments.Length, segmentSamples);
      var total := SumLanes();
      lanes := Repeat([], LANES);
      index := 0;
      PowerOfLanes(segment, total);
      segments[Turn(completed, segments.Length)] := total / segmentSamples as real;
      completed := completed + 1;
      closed, current := closed + [segment], [];
      filled := Min(completed, segments.Length);
      power := MeanOfSlots(filled);
      ReadingOfSlots(closed, segments.Length, segmentSamples, filled);
      NothingYet(segments.Length, segmentSamples);
    }

    /** A full segment goes into the ring, and every window's last one builds a record. */
    method CloseSegment(wantRecords: bool)
      requires Filling() && index == segmentSamples
      modifies this`lanes, this`index, this`completed, this`filled, this`power, this`closed, this`current, segments,
        this`sinceRecord, this`pending, this`windowStartAt
      ensures Valid()
      ensures closed == old(closed) + [old(current)] && current == []
      ensures pending == old(pending) + if wantRecords then Records()[|old(Records())|..] else []
    {
      hide Built, Reading, Offset, Turn, Tallied, Measures;
      MeasuresParts();
      ghost var was, segment := closed, current;
      BuiltOfNext(was, segment, segments.Length, segmentSamples, start);
      TallyOfNext(segments.Length, segmentSamples, start, completed, sinceRecord, streamAt, windowStartAt);
      TalliedParts(segments.Length, segmentSamples, start, completed, sinceRecord, index, streamAt, windowStartAt);
      FoldSegment();
      MeasuresParts();
      sinceRecord := sinceRecord + 1;
      if sinceRecord >= segments.Length {
        sinceRecord := 0;
        if wantRecords {
          pending := pending + [Record(power, filled, windowStartAt)];
        }
        windowStartAt := streamAt;
      }
    }

    /** Adds a run of samples to the segment that fills. */
    method Extend(input: seq<Complex>, at: nat, run: nat)
      requires Filling() && at + run <= |input| && index + run <= segmentSamples
      modifies this`lanes, this`index, this`current, this`streamAt
      ensures Filling() && current == old(current) + input[at..at + run]
    {
      hide Reading, Offset, Turn, Lanes, Ring, Powers;
      lanes := TakeRun(lanes, input, at, run, LaneFor(index), current);
      current := current + input[at..at + run];
      index := index + run;
      streamAt := streamAt + run;
    }

    /** Takes input up to the end of the segment, and closes the segment when it is full. */
    method TakeSome(input: seq<Complex>, at: nat, wantRecords: bool) returns (next: nat)
      requires Valid() && at < |input|
      modifies this`lanes, this`index, this`completed, this`filled, this`power, this`closed, this`current, segments,
        this`sinceRecord, this`pending, this`windowStartAt, this`streamAt
      ensures Valid() && at < next <= |input|
      ensures old(closed) <= closed && History() == old(History()) + input[at..next]
      ensures old(Records()) <= Records()
      ensures pending == old(pending) + if wantRecords then Records()[|old(Records())|..] else []
    {
      hide Built, Reading, Offset, Turn, Lanes, Concat, Ring, Powers, Measures, Tallied;
      MeasuresParts();
      var run := Min(|input| - at, segmentSamples - index);
      next := at + run;
      ghost var was, before := closed, current;
      Extend(input, at, run);
      MeasuresParts();
      assert Concat(was) + before + input[at..next] == Concat(was) + current;
      if index == segmentSamples {
        ConcatAppend(was, [current]);
        ConcatOne(current);
        ghost var full := current;
        CloseSegment(wantRecords);
        BuiltGrows(was, [full], segments.Length, segmentSamples, start);
        assert Concat(closed) + [] == Concat(was) + full;
      } else {
        assert Records()[|Records()|..] == [];
      }
    }

    /** Folds the whole input into the window. */
    method Accumulate(input: seq<Complex>, wantRecords: bool)
      requires Valid()
      modifies this`lanes, this`index, this`completed, this`filled, this`power, this`closed, this`current, segments,
        this`sinceRecord, this`pending, this`windowStartAt, this`streamAt
      ensures Valid()
      ensures History() == old(History()) + input
      ensures old(Records()) <= Records()
      ensures pending == old(pending) + if wantRecords then Records()[|old(Records())|..] else []
    {
      hide Filling, Concat, Built, Offset;
      var at := 0;
      ghost var had, held, seen := Records(), pending, History();
      assert seen == seen + input[..0];
      while at < |input|
        invariant at <= |input| && Valid()
        invariant History() == seen + input[..at]
        invariant had <= Records()
        invariant pending == held + if wantRecords then Records()[|had|..] else []
      {
        ghost var mid, from := Records(), at;
        at := TakeSome(input, at, wantRecords);
        assert input[..from] + input[from..at] == input[..at];
        assert Records()[|had|..] == mid[|had|..] + Records()[|mid|..];
      }
      assert input[..|input|] == input;
    }

    ghost function WindowSamples(): nat
      requires HasShape()
      reads this`segments, this`segmentSamples, this`closed
      ensures 1 <= WindowSamples() <= U64_MAX
    {
      AtLeast(segments.Length, segmentSamples);
      Offset(segments.Length, segmentSamples)
    }

    lemma StreamWindows()
      requires Valid()
      ensures |Records()| == |History()| / WindowSamples()
      ensures |History()| % WindowSamples() == Offset(sinceRecord, segmentSamples) + index
    {
      hide Built, Reading, Ring, Concat;
      OneRecordAWindow(closed, segments.Length, segmentSamples, start);
      ConcatLength(closed, segmentSamples);
      WindowsOfSegments(completed, index, segments.Length, segmentSamples);
    }

    /** Record `k` since the last reset is the mean over the `k`-th window of the stream, and says where that begins. */
    lemma RecordsAreWindowMeans(k: nat)
      requires Valid() && k < |Records()|
      ensures 0 <= k * WindowSamples() < (k + 1) * WindowSamples() <= |History()|
      ensures Records()[k] == Record(
        Mean(History()[k * WindowSamples()..(k + 1) * WindowSamples()]), segments.Length, start + k * WindowSamples())
    {
      hide Built, Mean, Concat, Filling;
      RecordIsTheMeanOfItsWindow(closed, current, segments.Length, segmentSamples, start, k);
    }

    /** How many samples may be taken before a record has nowhere to go, as a `sizeMax`-bounded size. */
    method RoomFor(size: nat, connected: bool, made: nat, sizeMax: nat) returns (room: nat)
      requires Valid() && sizeMax <= U64_MAX
      ensures !connected ==> room == sizeMax
      ensures connected ==>
        room == Min(sizeMax, Room(|History()|, WindowSamples(), Max(0, size - made - |pending|)))
    {
      hide Filling, Offset, History;
      if !connected {
        return sizeMax;
      }
      StreamWindows();
      var free := if size > made + |pending| then size - made - |pending| else 0;
      var window := Offset(segments.Length, segmentSamples);
      var into := Offset(sinceRecord, segmentSamples) + index;
      var untilClose := if window > into then window - into else 0;
      assert untilClose == window - |History()| % window;
      if free == 0 {
        return Min(sizeMax, if untilClose > 0 then untilClose - 1 else 0);
      }
      var windows := free - 1;
      if windows > (U64_MAX - untilClose) / window {
        FactorTooLarge(windows, U64_MAX - untilClose, window);
        return sizeMax;
      }
      room := Min(sizeMax, untilClose + windows * window);
    }

    /** Moves what was built into the output from `at` on. */
    method Drain(size: nat, connected: bool, at: nat) returns (out: seq<Record>)
      modifies this`pending
      ensures out + pending == old(pending) && (out == [] ==> pending == old(pending))
      ensures |out| == if connected && at < size then Min(old(|pending|), size - at) else 0
    {
      if pending == [] || !connected || at >= size {
        return [];
      }
      var made := Min(|pending|, size - at);
      out := pending[..made];
      pending := pending[made..];
    }

    /**
     One call: what was built goes out, as much input as its records have room for is taken, and they go out too. Records
     leave in the order they were built, and none is left behind that was not there before.
     */
    method ProcessBulk(input: seq<Complex>, size: nat, connected: bool, sizeMax: nat)
      returns (out: seq<Record>, taken: nat, status: Status)
      requires Valid() && sizeMax <= U64_MAX && |input| <= sizeMax
      modifies this, segments
      ensures Valid() && segments == old(segments) && segmentSamples == old(segmentSamples) && start == old(start)
      ensures taken <= |input| && History() == old(History()) + input[..taken]
      ensures taken == if !connected then |input| else
        Min(|input|, Room(old(|History()|), WindowSamples(), Max(0, size - old(|pending|))))
      ensures old(Records()) <= Records() && |out| <= size
      ensures connected ==> out + pending == old(pending) + Records()[|old(Records())|..]
      ensures connected ==> |pending| == Max(0, old(|pending|) - size)
      ensures !connected ==> out == [] && pending == old(pending)
      ensures status ==
        if taken > 0 || out != [] then Ok else if input == [] then InsufficientInput else InsufficientOutput
    {
      hide Filling, Built, Offset, Room, History;
      ghost var seen, had, held := History(), Records(), pending;
      StreamWindows();
      out := Drain(size, connected, 0);
      ghost var first, rest := out, pending;
      var room := RoomFor(size, connected, |out|, sizeMax);
      taken := Min(|input|, room);
      Accumulate(input[..taken], connected);
      StreamWindows();
      RoomClosesAtMost(|seen|, WindowSamples(), Max(0, size - |held|), taken);
      var more := Drain(size, connected, |out|);
      JoinPieces(first, rest, more, pending, Records()[|had|..]);
      out := out + more;
      status := if taken > 0 || out != [] then Ok else if input == [] then InsufficientInput else InsufficientOutput;
    }

    /** The power of the segments closed since the last record, added up from the oldest on. */
    method TailPower() returns (mean: real)
      requires Valid() && sinceRecord > 0
      ensures sinceRecord <= |closed|
      ensures mean == WindowPower(closed[|closed| - sinceRecord..], segmentSamples)
    {
      hide Ring, Built, Reading, Turn, Lanes, Offset, SegmentPower, SumOf;
      ghost var since, slots := sinceRecord, segments[..];
      var total, back := 0.0, sinceRecord;
      SumOfNone();
      assert slots[..0] == [];
      while back > 0
        invariant 0 <= back <= since == sinceRecord
        invariant total == SumOf(slots[..since - back])
      {
        SlotOf(completed, back, segments.Length);
        SumOfOneMore(slots, since - back);
        total := total + segments[Turn(completed - back, segments.Length)];
        back := back - 1;
      }
      TailOfRing(closed, segments.Length, segmentSamples, since);
      mean := total / sinceRecord as real;
    }

    /** The record of the segments closed since the last one. */
    ghost function TailRecord(): Record
      requires HasShape() && 1 <= sinceRecord <= |closed|
      reads this`segments, this`segmentSamples, this`closed, this`sinceRecord, this`windowStartAt
    {
      Record(WindowPower(closed[|closed| - sinceRecord..], segmentSamples), sinceRecord, windowStartAt)
    }

    lemma TailRecordIs()
      requires HasShape() && 1 <= sinceRecord <= |closed|
      ensures TailRecord() ==
        Record(WindowPower(closed[|closed| - sinceRecord..], segmentSamples), sinceRecord, windowStartAt)
    {
    }

    /** At the end of the stream everything is taken, and a last record states the segments closed since the last one. */
    method ProcessEpilogue(input: seq<Complex>, size: nat, connected: bool) returns (out: seq<Record>)
      requires Valid()
      modifies this, segments
      ensures Valid() && segments == old(segments) && segmentSamples == old(segmentSamples) && start == old(start)
      ensures History() == old(History()) + input && sinceRecord <= |closed| && old(Records()) <= Records()
      ensures |out| <= size
      ensures flushed == (old(flushed) ||
        (connected && sinceRecord > 0 && old(|pending|) + |Records()| - |old(Records())| < size))
      ensures out + pending == old(pending) + (if connected then Records()[|old(Records())|..] else []) +
        if flushed && !old(flushed) then [TailRecord()] else []
    {
      hide Filling, Built, Offset, History, TailRecord, WindowPower;
      RecordIsBehind();
      ghost var had, held := Records(), pending;
      Accumulate(input, connected);
      RecordIsBehind();
      ghost var all := pending;
      out := Drain(size, connected, 0);
      if !flushed && connected && sinceRecord > 0 && |out| < size {
        var mean := TailPower();
        TailRecordIs();
        out := out + [Record(mean, sinceRecord, windowStartAt)];
        flushed := true;
      }
    }

    /** A new window from here on. The stream index goes on, and records already built stay. */
    method Reset()
      requires HasShape()
      modifies this`lanes, this`index, this`completed, this`sinceRecord, this`windowStartAt, this`power, this`filled,
        this`closed, this`current, this`start, segments
      ensures Valid() && History() == [] && start == streamAt
    {
      hide Tallied, Offset, Turn, Ring, Powers, Lanes, Reading;
      NothingYet(segments.Length, segmentSamples);
      lanes := Repeat([], LANES);
      ZeroSlots();
      index, completed, sinceRecord, windowStartAt := 0, 0, 0, streamAt;
      power, filled := 0.0, 0;
      closed, current, start := [], [], streamAt;
      TallyOfNone(segments.Length, segmentSamples, start);
    }

    method ZeroSlots()
      modifies segments
      ensures segments[..] == Repeat(0.0, segments.Length)
    {
      for slot := 0 to segments.Length
        invariant forall j :: 0 <= j < slot ==> segments[j] == 0.0
      {
        segments[slot] := 0.0;
      }
    }

    method Start()
      requires HasShape()
      modifies this, segments
      ensures Valid() && History() == [] && start == 0 && pending == [] && !flushed
      ensures segments == old(segments) && segmentSamples == old(segmentSamples)
    {
      streamAt := 0;
      flushed := false;
      pending := [];
      Reset();
    }
  }

  lemma SlotOf(completed: nat, back: nat, count: nat)
    requires count >= 1 && 1 <= back <= Turn(completed, count)
    ensures back <= completed && Turn(completed - back, count) == Turn(completed, count) - back
  {
    DividesAs(completed - back, count, completed / count, completed % count - back);
  }

  /** The segments of the window now filling sit in the first slots, in order. */
  lemma TailOfRing(closed: seq<seq<Complex>>, count: nat, length: nat, since: nat)
    requires count >= 1 && length >= 1 && AllOfLength(closed, length) && since == Turn(|closed|, count) && since > 0
    ensures Ring(Powers(closed, length), count)[..since] == Powers(closed[|closed| - since..], length)
  {
    hide SegmentPower, Ring, Turn;
    var powers := Powers(closed, length);
    RingHoldsTheNewest(powers, count, since);
    assert powers[|closed| - since..] == Powers(closed[|closed| - since..], length);
    if |closed| < count {
      FirstTurn(|closed|, count);
    }
  }

  /** However a stream was split into calls, the same samples leave a meter in the same state. */
  lemma SplitDoesNotMatter(a: PowerMeter, b: PowerMeter)
    requires a.Valid() && b.Valid() && a.History() == b.History() && a.start == b.start
    requires a.segmentSamples == b.segmentSamples && a.segments.Length == b.segments.Length
    ensures a.lanes == b.lanes && a.index == b.index && a.segments[..] == b.segments[..]
    ensures a.completed == b.completed && a.sinceRecord == b.sinceRecord
    ensures a.streamAt == b.streamAt && a.windowStartAt == b.windowStartAt
    ensures a.power == b.power && a.filled == b.filled && a.Records() == b.Records()
  {
    hide Concat, Ring, Powers, Lanes, Reading, Built, Offset, Turn;
    OneSplit(a.closed, a.current, b.closed, b.current, a.segmentSamples);
  }

  lemma JoinPieces<T>(first: seq<T>, rest: seq<T>, more: seq<T>, left: seq<T>, built: seq<T>)
    ensures more + left == rest + built ==> (first + more) + left == first + rest + built
    ensures more == [] ==> first + more == first
  {
    assert (first + more) + left == first + (more + left);
    assert first + (rest + built) == first + rest + built;
  }

  lemma FactorTooLarge(a: nat, limit: nat, m: nat)
    requires m >= 1 && a > limit / m
    ensures a * m > limit
  {
    ProductGrows(limit / m + 1, a, m);
    assert (limit / m + 1) * m == limit / m * m + m;
  }
}
