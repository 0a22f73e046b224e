/**
 What the power meter computes: a segment's power from its eight lanes, a window's power from its segments, and the
 records one after the other. Sums run in the order the block adds in, so that they depend on the input alone.
 */
module PowerMeterSpec {
  import opened Basics
  import opened ComplexNumbers

  const LANES: nat := 8

  /** The squared magnitude of a sample. A real sample has no imaginary part. */
  function Energy(x: Complex): real { x.re * x.re + x.im * x.im }

  /** A sample times its conjugate is its energy. */
  lemma EnergyIsTheSquare(x: Complex)
    ensures Times(x, Complex(x.re, -x.im)) == Complex(Energy(x), 0.0)
  {
  }

  function TotalEnergy(samples: seq<Complex>): real {
    if samples == [] then 0.0 else TotalEnergy(samples[..|samples| - 1]) + Energy(samples[|samples| - 1])
  }

  function SumOf(values: seq<real>): real {
    if values == [] then 0.0 else SumOf(values[..|values| - 1]) + values[|values| - 1]
  }

  lemma {:induction false} TotalEnergyAdds(a: seq<Complex>, b: seq<Complex>)
    ensures TotalEnergy(a + b) == TotalEnergy(a) + TotalEnergy(b)
  {
    if b == [] {
      assert a + b == a;
    } else {
      assert (a + b)[..|a + b| - 1] == a + b[..|b| - 1];
      TotalEnergyAdds(a, b[..|b| - 1]);
    }
  }

  lemma {:induction false} SumAdds(a: seq<real>, b: seq<real>)
    ensures SumOf(a + b) == SumOf(a) + SumOf(b)
  {
    if b == [] {
      assert a + b == a;
    } else {
      assert (a + b)[..|a + b| - 1] == a + b[..|b| - 1];
      SumAdds(a, b[..|b| - 1]);
    }
  }

  // ---------------------------------------------------------------- lanes

  /** The samples of a segment at the offsets that leave remainder `lane`, in order. */
  function Lane(samples: seq<Complex>, lane: nat): seq<Complex> {
    if samples == [] then []
    else
      var last := |samples| - 1;
      if last % LANES == lane then Lane(samples[..last], lane) + [samples[last]] else Lane(samples[..last], lane)
  }

  function Lanes(samples: seq<Complex>): (lanes: seq<seq<Complex>>)
    ensures |lanes| == LANES
  {
    seq(LANES, lane requires 0 <= lane => Lane(samples, lane))
  }

  /** Lane `lane` holds every eighth sample from offset `lane` on, and nothing else. */
  lemma {:induction false} LaneIsEveryEighth(samples: seq<Complex>, lane: nat)
    requires lane < LANES
    ensures |Lane(samples, lane)| == (|samples| + LANES - 1 - lane) / LANES
    ensures forall i {:trigger Lane(samples, lane)[i]} :: 0 <= i < |Lane(samples, lane)| ==>
      i * LANES + lane < |samples| && Lane(samples, lane)[i] == samples[i * LANES + lane]
  {
    if samples != [] {
      var last := |samples| - 1;
      var before := Lane(samples[..last], lane);
      LaneIsEveryEighth(samples[..last], lane);
      if last % LANES == lane {
        assert |before| == last / LANES && last == last / LANES * LANES + lane;
        assert Lane(samples, lane) == before + [samples[last]];
      } else {
        assert Lane(samples, lane) == before;
      }
    }
  }

  function WithSample(lanes: seq<seq<Complex>>, lane: nat, x: Complex): (r: seq<seq<Complex>>)
    requires lane < |lanes|
    ensures |r| == |lanes|
  {
    lanes[lane := lanes[lane] + [x]]
  }

  lemma NextSampleGoesToItsLane(samples: seq<Complex>, x: Complex)
    ensures Lanes(samples + [x]) == WithSample(Lanes(samples), |samples| % LANES, x)
  {
  }

  /** The energy of the lanes, lane after lane. */
  function LanesEnergy(lanes: seq<seq<Complex>>): real {
    if lanes == [] then 0.0 else LanesEnergy(lanes[..|lanes| - 1]) + TotalEnergy(lanes[|lanes| - 1])
  }

  lemma {:induction false} LanesEnergyGrows(lanes: seq<seq<Complex>>, lane: nat, x: Complex)
    requires lane < |lanes|
    ensures LanesEnergy(WithSample(lanes, lane, x)) == LanesEnergy(lanes) + Energy(x)
  {
    var last := |lanes| - 1;
    var more := WithSample(lanes, lane, x);
    if lane == last {
      assert more[..last] == lanes[..last];
      TotalEnergyAdds(lanes[last], [x]);
      assert TotalEnergy([x]) == Energy(x) by { assert [x][..0] == []; }
    } else {
      assert more[..last] == WithSample(lanes[..last], lane, x);
      LanesEnergyGrows(lanes[..last], lane, x);
    }
  }

  lemma {:induction false} LanesHoldAllEnergy(samples: seq<Complex>)
    ensures LanesEnergy(Lanes(samples)) == TotalEnergy(samples)
  {
    if samples == [] {
      EmptyLanes(LANES);
      assert Lanes([]) == Repeat([], LANES);
    } else {
      var rest, x := samples[..|samples| - 1], samples[|samples| - 1];
      assert rest + [x] == samples;
      LanesHoldAllEnergy(rest);
      NextSampleGoesToItsLane(rest, x);
      LanesEnergyGrows(Lanes(rest), |rest| % LANES, x);
    }
  }

  lemma {:induction false} EmptyLanes(n: nat)
    ensures LanesEnergy(Repeat([], n)) == 0.0
  {
    if n > 0 {
      assert Repeat<seq<Complex>>([], n)[..n - 1] == Repeat([], n - 1);
      EmptyLanes(n - 1);
    }
  }

  // ---------------------------------------------------------------- segments and windows

  /** The power of a segment: its lanes' energy over its length. */
  function SegmentPower(segment: seq<Complex>): real
    requires segment != []
  {
    LanesEnergy(Lanes(segment)) / |segment| as real
  }

  /** The mean squared magnitude. */
  function Mean(samples: seq<Complex>): real
    requires samples != []
  {
    TotalEnergy(samples) / |samples| as real
  }

  /** Segments of the given length. */
  ghost predicate AllOfLength(segments: seq<seq<Complex>>, length: nat) {
    forall i :: 0 <= i < |segments| ==> |segments[i]| == length
  }

  function Powers(segments: seq<seq<Complex>>, length: nat): (r: seq<real>)
    requires length >= 1 && AllOfLength(segments, length)
    ensures |r| == |segments|
  {
    seq(|segments|, i requires 0 <= i < |segments| => SegmentPower(segments[i]))
  }

  /** The mean of the segments' powers. */
  function WindowPower(segments: seq<seq<Complex>>, length: nat): real
    requires length >= 1 && AllOfLength(segments, length) && segments != []
  {
    SumOf(Powers(segments, length)) / |segments| as real
  }

  lemma {:induction false} ConcatLength(segments: seq<seq<Complex>>, length: nat)
    requires AllOfLength(segments, length)
    ensures |Concat(segments)| == |segments| * length
  {
    if segments != [] {
      ConcatLength(segments[1..], length);
      assert |segments| * length == length + (|segments| - 1) * length;
    }
  }

  lemma NoPower(length: nat)
    requires length >= 1
    ensures Scaled(SumOf(Powers([], length)), length as real) == 0.0 && TotalEnergy(Concat([])) == 0.0
  {
  }

  lemma {:induction false} PowersAddUp(segments: seq<seq<Complex>>, length: nat)
    requires length >= 1 && AllOfLength(segments, length)
    ensures Scaled(SumOf(Powers(segments, length)), length as real) == TotalEnergy(Concat(segments))
  {
    hide Scaled, SegmentPower, TotalEnergy, LanesEnergy, Lanes, Concat, SumOf, Powers;
    if segments == [] {
      NoPower(length);
    } else {
      var last := |segments| - 1;
      var rest, final := segments[..last], segments[last];
      assert segments == rest + [final];
      PowersAddUp(rest, length);
      ConcatAppend(rest, [final]);
      ConcatOne(final);
      TotalEnergyAdds(Concat(rest), final);
      LanesHoldAllEnergy(final);
      PowerTimesLength(final);
      SumOfNext(rest, final, length);
      Distributes(SumOf(Powers(rest, length)), SegmentPower(final), length as real);
    }
  }

  function Scaled(a: real, c: real): real { a * c }

  lemma PowerTimesLength(segment: seq<Complex>)
    requires segment != []
    ensures Scaled(SegmentPower(segment), |segment| as real) == LanesEnergy(Lanes(segment))
  {
  }

  lemma SumOfNext(rest: seq<seq<Complex>>, final: seq<Complex>, length: nat)
    requires length >= 1 && AllOfLength(rest, length) && |final| == length
    ensures SumOf(Powers(rest + [final], length)) == SumOf(Powers(rest, length)) + SegmentPower(final)
  {
    assert Powers(rest + [final], length)[..|rest|] == Powers(rest, length);
  }

  lemma Distributes(a: real, b: real, c: real)
    ensures Scaled(a + b, c) == Scaled(a, c) + Scaled(b, c)
  {
  }

  /** A window's power is the mean squared magnitude of all its samples. */
  lemma WindowPowerIsTheMean(segments: seq<seq<Complex>>, length: nat)
    requires length >= 1 && AllOfLength(segments, length) && segments != []
    ensures Concat(segments) != []
    ensures WindowPower(segments, length) == Mean(Concat(segments))
  {
    hide Scaled, TotalEnergy, Concat, Powers, SumOf;
    ConcatLength(segments, length);
    PowersAddUp(segments, length);
    AtLeast(|segments|, length);
    QuotientOfProduct(SumOf(Powers(segments, length)), |segments|, length);
  }

  lemma QuotientOfProduct(sum: real, count: nat, length: nat)
    requires count >= 1 && length >= 1 && count * length >= 1
    ensures sum / count as real == Scaled(sum, length as real) / (count * length) as real
  {
  }

  // ---------------------------------------------------------------- records

  /** A record: a window's power, the segments it covers, and the stream index of its first sample. */
  datatype Record = Record(power: real, filled: nat, sampleStart: int)

  /** The stream offset of segment `segments`. */
  function Offset(segments: int, length: nat): int { segments * length }

  /** How many of `n` segments belong to the window now filling. */
  function Turn(n: nat, count: nat): (r: nat)
    requires count >= 1
    ensures r < count && r <= n
  {
    n % count
  }

  lemma TurnOfNext(n: nat, count: nat)
    requires count >= 1
    ensures Turn(n + 1, count) == if Turn(n, count) == count - 1 then 0 else Turn(n, count) + 1
  {
    QuotientOfNext(n, count);
  }

  lemma OffsetOfNext(segments: int, length: nat)
    ensures Offset(segments + 1, length) == Offset(segments, length) + length
  {
  }

  /** Where the meter stands: `index` samples into a segment, after `completed` segments from stream index `start` on. */
  ghost predicate Tallied(count: nat, length: nat, start: int, completed: nat, sinceRecord: nat, index: nat,
                          streamAt: int, windowStartAt: int)
    requires count >= 1
  {
    && sinceRecord == Turn(completed, count)
    && streamAt == start + Offset(completed, length) + index
    && windowStartAt == start + Offset(completed - sinceRecord, length)
  }

  lemma TalliedParts(count: nat, length: nat, start: int, completed: nat, sinceRecord: nat, index: nat, streamAt: int,
                     windowStartAt: int)
    requires count >= 1 && Tallied(count, length, start, completed, sinceRecord, index, streamAt, windowStartAt)
    ensures sinceRecord == Turn(completed, count) && windowStartAt == start + Offset(completed - sinceRecord, length)
  {
  }

  lemma TallyOfNone(count: nat, length: nat, start: int)
    requires count >= 1
    ensures Tallied(count, length, start, 0, 0, 0, start, start)
  {
  }

  lemma TallyOfNext(count: nat, length: nat, start: int, completed: nat, sinceRecord: nat, streamAt: int,
                    windowStartAt: int)
    requires count >= 1 && Tallied(count, length, start, completed, sinceRecord, length, streamAt, windowStartAt)
    ensures if sinceRecord + 1 >= count
      then Tallied(count, length, start, completed + 1, 0, 0, streamAt, streamAt)
      else Tallied(count, length, start, completed + 1, sinceRecord + 1, 0, streamAt, windowStartAt)
  {
    OffsetOfNext(completed, length);
    TurnOfNext(completed, count);
  }

  /** The records built while `closed` segments close, when the stream stood at `start` before the first of them. */
  function Built(closed: seq<seq<Complex>>, count: nat, length: nat, start: nat): (r: seq<Record>)
    requires count >= 1 && length >= 1 && AllOfLength(closed, length)
  {
    if closed == [] then []
    else
      var last := |closed| - 1;
      var before := Built(closed[..last], count, length, start);
      if Turn(|closed|, count) == 0 then
        LastWindowFits(|closed|, count);
        var first := |closed| - count;
        before + [Record(WindowPower(closed[first..], length), count, start + Offset(first, length))]
      else before
  }

  lemma LastWindowFits(n: nat, count: nat)
    requires count >= 1 && n >= 1 && Turn(n, count) == 0
    ensures count <= n
  {
  }

  lemma {:induction false} BuiltGrows(closed: seq<seq<Complex>>, more: seq<seq<Complex>>, count: nat, length: nat, start: nat)
    requires count >= 1 && length >= 1 && AllOfLength(closed + more, length)
    ensures AllOfLength(closed, length)
    ensures Built(closed, count, length, start) <= Built(closed + more, count, length, start)
  {
    assert forall i :: 0 <= i < |closed| ==> closed[i] == (closed + more)[i];
    if more == [] {
      assert closed + more == closed;
    } else {
      var last := |more| - 1;
      assert (closed + more)[..|closed + more| - 1] == closed + more[..last];
      BuiltGrows(closed, more[..last], count, length, start);
    }
  }

  lemma QuotientOfNext(n: nat, m: nat)
    requires m >= 1
    ensures (n + 1) / m == if (n + 1) % m == 0 then n / m + 1 else n / m
    ensures (n + 1) % m == if n % m == m - 1 then 0 else n % m + 1
  {
    var q, r := n / m, n % m;
    assert n == q * m + r;
    if r == m - 1 {
      assert n + 1 == (q + 1) * m;
      DividesAs(n + 1, m, q + 1, 0);
    } else {
      DividesAs(n + 1, m, q, r + 1);
    }
  }

  lemma {:induction false} OneRecordAWindow(closed: seq<seq<Complex>>, count: nat, length: nat, start: nat)
    requires count >= 1 && length >= 1 && AllOfLength(closed, length)
    ensures |Built(closed, count, length, start)| == |closed| / count
  {
    if closed == [] {
      DividesAs(0, count, 0, 0);
    } else {
      OneRecordAWindow(closed[..|closed| - 1], count, length, start);
      QuotientOfNext(|closed| - 1, count);
    }
  }

  /** Record `k` covers segments `k * count` to `(k + 1) * count`. */
  lemma {:induction false} RecordCoversItsSegments(closed: seq<seq<Complex>>, count: nat, length: nat, start: nat, k: nat,
                                                   first: nat)
    requires count >= 1 && length >= 1 && AllOfLength(closed, length)
    requires first == k * count && first + count <= |closed|
    ensures k < |Built(closed, count, length, start)|
    ensures Built(closed, count, length, start)[k] ==
      Record(WindowPower(closed[first..first + count], length), count, start + Offset(first, length))
  {
    var last := |closed| - 1;
    if first + count < |closed| {
      assert closed[..last][first..first + count] == closed[first..first + count];
      RecordCoversItsSegments(closed[..last], count, length, start, k, first);
    } else {
      DividesAs(|closed|, count, k + 1, 0);
      DividesAs(last, count, k, count - 1);
      OneRecordAWindow(closed[..last], count, length, start);
      assert closed[first..] == closed[first..first + count];
    }
  }

  lemma {:induction false} SegmentsOfStream(closed: seq<seq<Complex>>, rest: seq<Complex>, length: nat, i: nat, j: nat)
    requires AllOfLength(closed, length) && i <= j <= |closed|
    ensures 0 <= i * length <= j * length <= |Concat(closed) + rest|
    ensures (Concat(closed) + rest)[i * length..j * length] == Concat(closed[i..j])
  {
    hide Concat;
    var a, b, c := closed[..i], closed[i..j], closed[j..];
    assert closed == a + b + c;
    ConcatAppend(a + b, c);
    ConcatAppend(a, b);
    ConcatLength(a, length);
    ConcatLength(b, length);
    assert i * length + (j - i) * length == j * length;
    assert Concat(closed) + rest == Concat(a) + Concat(b) + (Concat(c) + rest);
    MiddleOf(Concat(a), Concat(b), Concat(c) + rest);
  }

  lemma MiddleOf<T>(a: seq<T>, b: seq<T>, c: seq<T>)
    ensures (a + b + c)[|a|..|a| + |b|] == b
  {
  }

  /**
   With windows of W samples, record `k` covers stream samples k W to (k + 1) W. It states where they begin, and its
   power is the mean of their squared magnitudes.
   */
  lemma RecordIsTheMeanOfItsWindow(closed: seq<seq<Complex>>, rest: seq<Complex>, count: nat, length: nat, start: nat,
                                   k: nat)
    requires count >= 1 && length >= 1 && AllOfLength(closed, length)
    requires k < |Built(closed, count, length, start)|
    ensures 0 <= k * (count * length) < (k + 1) * (count * length) <= |Concat(closed) + rest|
    ensures Built(closed, count, length, start)[k] == Record(
      Mean((Concat(closed) + rest)[k * (count * length)..(k + 1) * (count * length)]),
      count, start + k * (count * length))
  {
    hide Mean, WindowPower, Built;
    var first := k * count;
    OneRecordAWindow(closed, count, length, start);
    WindowFits(|closed|, count, k);
    RecordCoversItsSegments(closed, count, length, start, k, first);
    SegmentsOfStream(closed, rest, length, first, first + count);
    WindowPowerIsTheMean(closed[first..first + count], length);
    WindowBounds(k, count, length);
  }

  lemma WindowFits(n: nat, count: nat, k: nat)
    requires count >= 1 && k < n / count
    ensures k * count + count <= n
  {
    ProductGrows(k + 1, n / count, count);
    assert (k + 1) * count == k * count + count;
  }

  lemma WindowBounds(k: nat, count: nat, length: nat)
    requires count >= 1 && length >= 1
    ensures k * count * length == k * (count * length)
    ensures (k * count + count) * length == (k + 1) * (count * length)
    ensures k * (count * length) < (k + 1) * (count * length)
  {
  }

  /** The stream's windows and its closed segments' windows are the same ones. */
  lemma WindowsOfSegments(completed: nat, index: nat, count: nat, length: nat)
    requires count >= 1 && length >= 1 && index < length
    ensures count * length >= 1
    ensures (completed * length + index) / (count * length) == completed / count
    ensures (completed * length + index) % (count * length) == completed % count * length + index
  {
    var k, since := completed / count, completed % count;
    var w := count * length;
    AtLeast(count, length);
    assert completed == k * count + since;
    assert completed * length == k * count * length + since * length;
    WindowBounds(k, count, length);
    ProductGrows(since + 1, count, length);
    assert (since + 1) * length == since * length + length;
    DividesAs(completed * length + index, w, k, since * length + index);
  }

  // ---------------------------------------------------------------- room

  const U64_MAX: nat := 0xFFFF_FFFF_FFFF_FFFF

  /** How many samples may follow `total` others until `free` more windows of `window` samples have closed. */
  function Room(total: nat, window: nat, free: nat): nat
    requires window >= 1
  {
    var untilClose := window - total % window;
    if free == 0 then untilClose - 1 else untilClose + (free - 1) * window
  }

  /** Within the room no more than `free` windows close. One sample past a room of none closes one. */
  lemma RoomClosesAtMost(total: nat, window: nat, free: nat, taken: nat)
    requires window >= 1
    ensures taken <= Room(total, window, free) ==> (total + taken) / window - total / window <= free
    ensures taken == Room(total, window, free) ==> (total + taken) / window - total / window == free
    ensures free == 0 && taken > Room(total, window, free) ==> (total + taken) / window - total / window > 0
  {
    var k, into := total / window, total % window;
    var room := Room(total, window, free);
    assert total == k * window + into;
    assert (k + free) * window == k * window + free * window;
    assert (free - 1) * window == free * window - window;
    if free > 0 {
      DividesAs(total + room, window, k + free, 0);
    } else {
      assert (k + 1) * window == k * window + window;
      DividesAs(total + room, window, k, window - 1);
      DividesAs(total + room + 1, window, k + 1, 0);
    }
    if taken <= room {
      QuotientGrows(total + taken, total + room, window);
    } else {
      QuotientGrows(total + room + 1, total + taken, window);
    }
  }

  lemma QuotientGrows(a: nat, b: nat, m: nat)
    requires a <= b && m >= 1
    ensures a / m <= b / m
  {
    assert (b / m + 1) * m == b / m * m + m;
    FactorBelow(a / m, b / m + 1, m);
  }

  /** What a window that keeps turning holds, slot by slot. */
  lemma {:induction false} RotationKeepsSum(values: seq<real>, turn: nat)
    requires turn <= |values|
    ensures SumOf(values[turn..] + values[..turn]) == SumOf(values)
  {
    SumAdds(values[turn..], values[..turn]);
    SumAdds(values[..turn], values[turn..]);
    assert values[..turn] + values[turn..] == values;
  }

  // ---------------------------------------------------------------- the stream alone decides

  /** A stream splits into full segments and a rest in one way only. */
  lemma {:induction false} OneSplit(a: seq<seq<Complex>>, r: seq<Complex>, b: seq<seq<Complex>>, t: seq<Complex>, length: nat)
    requires AllOfLength(a, length) && AllOfLength(b, length) && |r| < length && |t| < length
    requires Concat(a) + r == Concat(b) + t
    ensures a == b && r == t
  {
    ConcatLength(a, length);
    ConcatLength(b, length);
    OneQuotient(|a|, |r|, |b|, |t|, length);
    if a == [] {
      assert Concat(a) + r == r && Concat(b) + t == t;
    } else {
      var stream := Concat(a) + r;
      assert stream == a[0] + (Concat(a[1..]) + r);
      assert stream == b[0] + (Concat(b[1..]) + t);
      assert stream[..length] == a[0] && stream[..length] == b[0];
      assert stream[length..] == Concat(a[1..]) + r && stream[length..] == Concat(b[1..]) + t;
      OneSplit(a[1..], r, b[1..], t, length);
    }
  }

  /** The segments from `first` on are the last full ones of the stream, and their power is its mean there. */
  lemma TailIsTheMean(closed: seq<seq<Complex>>, rest: seq<Complex>, length: nat, first: nat)
    requires length >= 1 && AllOfLength(closed, length) && first < |closed|
    ensures 0 <= first * length < |closed| * length <= |Concat(closed) + rest|
    ensures WindowPower(closed[first..], length) == Mean((Concat(closed) + rest)[first * length..|closed| * length])
  {
    hide Mean, WindowPower, Concat;
    SegmentsOfStream(closed, rest, length, first, |closed|);
    assert closed[first..|closed|] == closed[first..];
    WindowPowerIsTheMean(closed[first..], length);
    var n := |closed|;
    ProductGrows(first + 1, n, length);
    assert first * length + length <= n * length;
    assert n * length <= |Concat(closed) + rest|;
  }
}
