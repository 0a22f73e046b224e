/** The bit-stuffed, flag-delimited stream of section 5.2 of RFC 1662, and why its flags can be trusted. */
module BitStuffing {
  import opened Basics

  // ---------------------------------------------------------------- stuffing

  /** The bits with a zero after every run of `k` ones, when `ones` of a run came before. */
  function Stuffed(bits: seq<bool>, k: nat, ones: nat): seq<bool> {
    if bits == [] then []
    else if !bits[0] then [false] + Stuffed(bits[1..], k, 0)
    else if ones + 1 == k then [true, false] + Stuffed(bits[1..], k, 0)
    else [true] + Stuffed(bits[1..], k, ones + 1)
  }

  method Stuff(bits: seq<bool>, k: nat) returns (coded: seq<bool>)
    requires k >= 1
    ensures coded == Stuffed(bits, k, 0)
  {
    coded := [];
    var ones := 0;
    assert bits[0..] == bits;
    for i := 0 to |bits|
      invariant 0 <= ones < k
      invariant coded + Stuffed(bits[i..], k, ones) == Stuffed(bits, k, 0)
    {
      ghost var before := coded;
      assert bits[i..][1..] == bits[i + 1..];
      coded := coded + [bits[i]];
      if bits[i] {
        ones := ones + 1;
        if ones == k {
          coded := coded + [false];
          ones := 0;
        }
      } else {
        ones := 0;
      }
      Reassociate(before, coded[|before|..], Stuffed(bits[i + 1..], k, ones));
    }
  }

  lemma Reassociate<T>(a: seq<T>, b: seq<T>, c: seq<T>)
    ensures (a + b) + c == a + (b + c)
  {
  }

  /** The bits without the stuffed zeros, or nothing when a run of `k` ones is not followed by one. */
  function Unstuffed(coded: seq<bool>, k: nat, ones: nat): Option<seq<bool>> {
    if coded == [] then Some([])
    else if !coded[0] then Prefixed([false], Unstuffed(coded[1..], k, 0))
    else if ones + 1 < k then Prefixed([true], Unstuffed(coded[1..], k, ones + 1))
    else if |coded| == 1 || coded[1] then None
    else Prefixed([true], Unstuffed(coded[2..], k, 0))
  }

  function Prefixed(start: seq<bool>, rest: Option<seq<bool>>): Option<seq<bool>> {
    if rest.None? then None else Some(start + rest.value)
  }

  /** Unstuffing takes stuffing back. */
  lemma {:induction false} UnstuffTakesBack(bits: seq<bool>, k: nat, ones: nat)
    requires ones < k
    ensures Unstuffed(Stuffed(bits, k, ones), k, ones) == Some(bits)
  {
    if bits != [] {
      var rest := bits[1..];
      assert [bits[0]] + rest == bits;
      if bits[0] && ones + 1 == k {
        UnstuffTakesBack(rest, k, 0);
        assert Stuffed(bits, k, ones)[2..] == Stuffed(rest, k, 0);
      } else {
        var next := if bits[0] then ones + 1 else 0;
        UnstuffTakesBack(rest, k, next);
        assert Stuffed(bits, k, ones)[1..] == Stuffed(rest, k, next);
      }
    }
  }

  lemma StuffingIsInjective(a: seq<bool>, b: seq<bool>, k: nat)
    requires k >= 1 && Stuffed(a, k, 0) == Stuffed(b, k, 0)
    ensures a == b
  {
    UnstuffTakesBack(a, k, 0);
    UnstuffTakesBack(b, k, 0);
  }

  /** How often `k` goes into `n`. */
  function Times(n: nat, k: nat): nat
    requires k >= 1
  {
    n / k
  }

  lemma TimesGrows(n: nat, more: nat, k: nat)
    requires n <= more && k >= 1
    ensures Times(n, k) <= Times(more, k)
    ensures Times(n + k, k) == Times(n, k) + 1
  {
    var q := n / k;
    assert n == q * k + n % k && more == more / k * k + more % k;
    assert (more / k + 1) * k == more / k * k + k && (q + 1) * k == q * k + k;
    FactorBelow(q, more / k + 1, k);
    DividesAs(n + k, k, q + 1, n % k);
  }

  /** At most one zero is stuffed for every `k` bits. */
  lemma {:induction false} StuffedLength(bits: seq<bool>, k: nat, ones: nat)
    requires ones < k
    ensures |bits| <= |Stuffed(bits, k, ones)| <= |bits| + Times(|bits| + ones, k)
  {
    hide Times;
    if bits != [] {
      var rest, n := bits[1..], |bits| + ones;
      if bits[0] && ones + 1 == k {
        StuffedLength(rest, k, 0);
        TimesGrows(|rest|, |rest|, k);
      } else {
        var next := if bits[0] then ones + 1 else 0;
        StuffedLength(rest, k, next);
        TimesGrows(|rest| + next, n, k);
      }
    }
  }

  // ---------------------------------------------------------------- runs of ones

  /** No run of ones is longer than `k`, when `ones` of a run came before. */
  predicate RunsAtMost(s: seq<bool>, k: nat, ones: nat) {
    s != [] ==> if s[0] then ones + 1 <= k && RunsAtMost(s[1..], k, ones + 1) else RunsAtMost(s[1..], k, 0)
  }

  /** Nothing is stuffed exactly where no `k` ones stand in a row. */
  lemma {:induction false} StuffedOnlyAfterRuns(bits: seq<bool>, k: nat, ones: nat)
    requires ones < k
    ensures Stuffed(bits, k, ones) == bits <==> RunsAtMost(bits, k - 1, ones)
  {
    if bits == [] {
      assert Stuffed(bits, k, ones) == bits;
    } else {
      var rest := bits[1..];
      if bits[0] && ones + 1 == k {
        StuffedLength(rest, k, 0);
      } else {
        var next := if bits[0] then ones + 1 else 0;
        StuffedOnlyAfterRuns(rest, k, next);
        assert Stuffed(bits, k, ones)[1..] == Stuffed(rest, k, next) && [bits[0]] + rest == bits;
      }
    }
  }

  lemma {:induction false} StuffedRuns(bits: seq<bool>, k: nat, ones: nat)
    requires ones < k
    ensures RunsAtMost(Stuffed(bits, k, ones), k, ones)
  {
    if bits != [] {
      var rest, coded := bits[1..], Stuffed(bits, k, ones);
      if bits[0] && ones + 1 == k {
        StuffedRuns(rest, k, 0);
        assert coded[1..][1..] == Stuffed(rest, k, 0);
      } else {
        var next := if bits[0] then ones + 1 else 0;
        StuffedRuns(rest, k, next);
        assert coded[1..] == Stuffed(rest, k, next);
      }
    }
  }

  lemma {:induction false} OnesFitTheRun(s: seq<bool>, k: nat, ones: nat, n: nat)
    requires RunsAtMost(s, k, ones) && n <= |s| && forall i :: 0 <= i < n ==> s[i]
    ensures n > 0 ==> ones + n <= k
  {
    if n > 0 {
      OnesFitTheRun(s[1..], k, ones + 1, n - 1);
    }
  }

  /** Among any `k + 1` bits in a row there is a zero. */
  lemma {:induction false} EveryStretchHasAZero(s: seq<bool>, k: nat, ones: nat, j: nat)
    requires RunsAtMost(s, k, ones) && j + k + 1 <= |s|
    ensures exists i :: j <= i < j + k + 1 && !s[i]
  {
    if j == 0 {
      if forall i :: 0 <= i < k + 1 ==> s[i] {
        OnesFitTheRun(s, k, ones, k + 1);
        assert false;
      }
    } else {
      EveryStretchHasAZero(s[1..], k, if s[0] then ones + 1 else 0, j - 1);
      var i :| j - 1 <= i < j + k && !s[1..][i];
      assert !s[i + 1];
    }
  }

  // ---------------------------------------------------------------- frames

  const FLAG: seq<bool> := [false, true, true, true, true, true, true, false]
  const RUN: nat := 5

  /** A flag, and then each payload stuffed with a flag behind it. */
  function Wire(payloads: seq<seq<bool>>): (w: seq<bool>)
    ensures |w| >= |FLAG|
  {
    if payloads == [] then FLAG
    else Wire(payloads[..|payloads| - 1]) + Stuffed(payloads[|payloads| - 1], RUN, 0) + FLAG
  }

  predicate FlagAt(w: seq<bool>, i: nat) { i + |FLAG| <= |w| && w[i..i + |FLAG|] == FLAG }

  lemma FlagFits(w: seq<bool>, i: nat)
    requires FlagAt(w, i)
    ensures i + |FLAG| <= |w|
  {
  }

  lemma FlagBits(w: seq<bool>, i: nat)
    requires FlagAt(w, i)
    ensures !w[i] && !w[i + 7] && w[i + 1] && w[i + 2] && w[i + 3] && w[i + 4] && w[i + 5] && w[i + 6]
  {
  }

  /** Six ones in a row lie nowhere in a stuffed payload. */
  lemma NoSixOnes(coded: seq<bool>, j: nat)
    requires RunsAtMost(coded, RUN, 0) && j + 6 <= |coded|
    ensures !(coded[j] && coded[j + 1] && coded[j + 2] && coded[j + 3] && coded[j + 4] && coded[j + 5])
  {
    EveryStretchHasAZero(coded, RUN, 0, j);
  }

  /** Six ones between two zeros: a zero at `start - 1` or at `end` is none of them. */
  lemma OnesBetween(w: seq<bool>, i: nat, start: nat, end: nat)
    requires i + 8 <= |w| && 1 <= start <= end < |w| && i < end && start < i + 8
    requires !w[start - 1] && !w[end]
    requires w[i + 1] && w[i + 2] && w[i + 3] && w[i + 4] && w[i + 5] && w[i + 6]
    ensures start <= i + 1 && i + 7 <= end
  {
  }

  lemma FrameBits(w: seq<bool>, before: seq<bool>, coded: seq<bool>)
    requires w == before + coded + FLAG && before != []
    ensures |w| == |before| + |coded| + 8
    ensures w[|before| - 1] == before[|before| - 1] && !w[|before| + |coded|]
    ensures forall j {:trigger coded[j]} :: 0 <= j < |coded| ==> w[|before| + j] == coded[j]
  {
  }

  /** After a flag, a stuffed payload and a flag add exactly the one flag. */
  lemma NoFlagWithinAFrame(w: seq<bool>, before: seq<bool>, coded: seq<bool>, i: nat)
    requires w == before + coded + FLAG && |before| >= |FLAG| && !before[|before| - 1] && RunsAtMost(coded, RUN, 0)
    requires FlagAt(w, i)
    ensures i == |before| + |coded| || FlagAt(before, i)
  {
    hide RunsAtMost, FlagAt;
    assert |FLAG| == 8;
    hide FLAG;
    if i + |FLAG| <= |before| {
      SameWindow(before, coded + FLAG, i);
      Reassociate(before, coded, FLAG);
    } else if i < |before| + |coded| {
      NoFlagOverlaps(w, before, coded, i);
    } else {
      FlagFits(w, i);
    }
  }

  lemma SameWindow(before: seq<bool>, rest: seq<bool>, i: nat)
    requires i + |FLAG| <= |before|
    ensures FlagAt(before, i) <==> FlagAt(before + rest, i)
  {
  }

  lemma NoFlagOverlaps(w: seq<bool>, before: seq<bool>, coded: seq<bool>, i: nat)
    requires w == before + coded + FLAG && before != [] && !before[|before| - 1] && RunsAtMost(coded, RUN, 0)
    requires |before| < i + 8 && i < |before| + |coded|
    ensures !FlagAt(w, i)
  {
    hide RunsAtMost, FlagAt;
    FrameBits(w, before, coded);
    if FlagAt(w, i) {
      FlagFits(w, i);
      FlagBits(w, i);
      OnesBetween(w, i, |before|, |before| + |coded|);
      NoSixOnes(coded, i + 1 - |before|);
    }
  }

  /** Where delimiter `n` begins: the opening flag is number 0, and number `n` closes payload `n - 1`. */
  function Delimiter(payloads: seq<seq<bool>>, n: nat): nat
    requires n <= |payloads|
  {
    |Wire(payloads[..n])| - |FLAG|
  }

  lemma WireOfNext(payloads: seq<seq<bool>>, before: seq<bool>, coded: seq<bool>)
    requires payloads != [] && before == Wire(payloads[..|payloads| - 1])
    requires coded == Stuffed(payloads[|payloads| - 1], RUN, 0)
    ensures Wire(payloads) == before + coded + FLAG
    ensures !before[|before| - 1] && RunsAtMost(coded, RUN, 0)
  {
    hide Stuffed, RunsAtMost;
    StuffedRuns(payloads[|payloads| - 1], RUN, 0);
    EndsWithZero(payloads[..|payloads| - 1]);
  }

  lemma EndsWithZero(payloads: seq<seq<bool>>)
    ensures !Wire(payloads)[|Wire(payloads)| - 1]
  {
  }

  /** What stands between two delimiters unstuffs to the payload between them. */
  lemma {:induction false} FrameReadsBack(payloads: seq<seq<bool>>, n: nat)
    requires n < |payloads|
    ensures Delimiter(payloads, n) + |FLAG| <= Delimiter(payloads, n + 1) <= |Wire(payloads)|
    ensures Unstuffed(Wire(payloads)[Delimiter(payloads, n) + |FLAG|..Delimiter(payloads, n + 1)], RUN, 0) == Some(payloads[n])
  {
    hide Stuffed, Unstuffed, RunsAtMost;
    var rest := payloads[..|payloads| - 1];
    var before, coded := Wire(rest), Stuffed(payloads[|payloads| - 1], RUN, 0);
    WireOfNext(payloads, before, coded);
    assert rest[..n] == payloads[..n];
    if n == |payloads| - 1 {
      assert payloads[..n] == rest && payloads[..n + 1] == payloads;
      assert Wire(payloads)[|before|..|before| + |coded|] == coded;
      UnstuffTakesBack(payloads[n], RUN, 0);
    } else {
      assert rest[..n + 1] == payloads[..n + 1];
      FrameReadsBack(rest, n);
      var from, to := Delimiter(payloads, n) + |FLAG|, Delimiter(payloads, n + 1);
      assert Wire(payloads)[from..to] == Wire(rest)[from..to];
    }
  }

  /** Some delimiter begins at `i`. */
  ghost predicate DelimiterAt(payloads: seq<seq<bool>>, i: nat) {
    exists n :: 0 <= n <= |payloads| && Delimiter(payloads, n) == i
  }

  lemma DelimitersOfNext(payloads: seq<seq<bool>>, i: nat)
    requires payloads != []
    ensures DelimiterAt(payloads, i) <==>
      DelimiterAt(payloads[..|payloads| - 1], i) || i == |Wire(payloads)| - |FLAG|
  {
    hide Wire;
    var m, rest := |payloads|, payloads[..|payloads| - 1];
    assert payloads[..m] == payloads;
    assert Delimiter(payloads, m) == |Wire(payloads)| - |FLAG|;
    forall n | 0 <= n < m ensures Delimiter(rest, n) == Delimiter(payloads, n) {
      assert rest[..n] == payloads[..n];
    }
    if DelimiterAt(rest, i) {
      var n :| 0 <= n <= |rest| && Delimiter(rest, n) == i;
      assert Delimiter(payloads, n) == i;
    }
  }

  /** The flag pattern stands at the delimiters and nowhere else, whatever the payloads are. */
  lemma {:induction false} FlagsAreDelimiters(payloads: seq<seq<bool>>, i: nat)
    ensures FlagAt(Wire(payloads), i) <==> DelimiterAt(payloads, i)
  {
    hide Stuffed, RunsAtMost, DelimiterAt, Delimiter;
    if payloads == [] {
      OneDelimiter(i);
    } else {
      var rest := payloads[..|payloads| - 1];
      var w, before, coded := Wire(payloads), Wire(rest), Stuffed(payloads[|payloads| - 1], RUN, 0);
      WireOfNext(payloads, before, coded);
      FlagsAreDelimiters(rest, i);
      DelimitersOfNext(payloads, i);
      if FlagAt(w, i) {
        NoFlagWithinAFrame(w, before, coded, i);
      }
      FlagsStay(w, before, coded, i);
    }
  }

  lemma OneDelimiter(i: nat)
    ensures FlagAt(FLAG, i) <==> DelimiterAt([], i)
  {
    assert Wire([]) == FLAG;
    assert Delimiter([], 0) == 0;
    assert FLAG[0..|FLAG|] == FLAG;
    if DelimiterAt([], i) {
      var n :| 0 <= n <= 0 && Delimiter([], n) == i;
    }
  }

  lemma FlagsStay(w: seq<bool>, before: seq<bool>, coded: seq<bool>, i: nat)
    requires w == before + coded + FLAG
    ensures FlagAt(before, i) || i == |before| + |coded| ==> FlagAt(w, i)
  {
  }

  /** The payloads can be told from the wire: two streams of frames never share one. */
  lemma {:induction false} WireIsInjective(a: seq<seq<bool>>, b: seq<seq<bool>>)
    requires Wire(a) == Wire(b)
    ensures a == b
    decreases |a| + |b|
  {
    hide Stuffed, RunsAtMost, DelimiterAt, FlagAt;
    if a == [] || b == [] {
      FramesAreLong(a);
      FramesAreLong(b);
    } else {
      var p, q := a[..|a| - 1], b[..|b| - 1];
      LastFlagsAgree(a, b);
      LastFlagsAgree(b, a);
      var v, w := Wire(p), Wire(q);
      var s, t := Stuffed(a[|a| - 1], RUN, 0), Stuffed(b[|b| - 1], RUN, 0);
      assert v + s + FLAG == w + t + FLAG;
      SamePieces(v, s, w, t);
      WireIsInjective(p, q);
      StuffingIsInjective(a[|a| - 1], b[|b| - 1], RUN);
      assert a == p + [a[|a| - 1]] && b == q + [b[|b| - 1]];
    }
  }

  lemma SamePieces(v: seq<bool>, s: seq<bool>, w: seq<bool>, t: seq<bool>)
    requires v + s + FLAG == w + t + FLAG && |v| == |w|
    ensures v == w && s == t
  {
    var x := v + s + FLAG;
    assert v == x[..|v|] && w == x[..|v|];
    assert s == x[|v|..|x| - |FLAG|] && t == x[|v|..|x| - |FLAG|];
  }

  lemma FramesAreLong(payloads: seq<seq<bool>>)
    ensures |Wire(payloads)| == |FLAG| <==> payloads == []
  {
  }

  /** The last flag but one of one stream lies no later than that of the other: it would be a flag in between. */
  lemma LastFlagsAgree(a: seq<seq<bool>>, b: seq<seq<bool>>)
    requires Wire(a) == Wire(b) && a != [] && b != []
    ensures |Wire(a[..|a| - 1])| <= |Wire(b[..|b| - 1])|
  {
    hide Stuffed, RunsAtMost, FlagAt, Wire;
    var p, q := a[..|a| - 1], b[..|b| - 1];
    var i := |Wire(p)| - |FLAG|;
    assert Delimiter(a, |a| - 1) == i;
    assert DelimiterAt(a, i);
    FlagsAreDelimiters(a, i);
    FlagsAreDelimiters(b, i);
    DelimitersOfNext(b, i);
    FrameFits(a);
    if DelimiterAt(q, i) {
      FlagsAreDelimiters(q, i);
      FlagFits(Wire(q), i);
    }
  }

  lemma FrameFits(payloads: seq<seq<bool>>)
    requires payloads != []
    ensures |Wire(payloads[..|payloads| - 1])| + |FLAG| <= |Wire(payloads)|
  {
  }

  // ---------------------------------------------------------------- one call's worth

  function Frames(payload: nat -> seq<bool>, n: nat): (r: seq<seq<bool>>)
    ensures |r| == n
  {
    seq(n, i requires 0 <= i < n => payload(i))
  }

  /** Frames until the wire is long enough, cut to the length asked for. */
  method StuffedStream(payload: nat -> seq<bool>, items: nat) returns (cut: seq<bool>, ghost frames: nat)
    ensures |cut| == items
    ensures cut <= Wire(Frames(payload, frames))
    ensures frames > 0 ==> |Wire(Frames(payload, frames - 1))| < items
  {
    hide Stuffed;
    var wire := FLAG;
    var n := 0;
    frames := 0;
    assert Frames(payload, 0) == [];
    while |wire| < items
      invariant n == frames && wire == Wire(Frames(payload, n))
      invariant n > 0 ==> |Wire(Frames(payload, n - 1))| < items
      decreases items - |wire|
    {
      assert Frames(payload, n + 1)[..n] == Frames(payload, n);
      var coded := Stuff(payload(n), RUN);
      wire := wire + coded;
      wire := wire + FLAG;
      n := n + 1;
      frames := frames + 1;
    }
    cut := wire[..items];
  }

  /** Cutting the wire keeps every flag that still fits and makes no other. */
  lemma CutKeepsFlags(payloads: seq<seq<bool>>, items: nat, i: nat)
    requires items <= |Wire(payloads)|
    ensures FlagAt(Wire(payloads)[..items], i) <==> DelimiterAt(payloads, i) && i + |FLAG| <= items
  {
    var w := Wire(payloads);
    hide DelimiterAt, Wire;
    FlagsAreDelimiters(payloads, i);
    if i + |FLAG| <= items {
      assert w[..items][i..i + |FLAG|] == w[i..i + |FLAG|];
    }
  }
}
