/**
 The ramp machine of the squelches, sample by sample, and what it amounts to over a whole stream: silence and bursts,
 each with a rise, a stretch at full amplitude and the mirrored fall.
 */
module SquelchSpec {
  import opened Basics

  datatype GateState = Muted | Attack | Unmuted | Decay

  /** Silence, step `r` of a raised cosine over `length` samples, or full amplitude. */
  datatype Gain = Silence | Shape(r: nat, length: nat) | Full

  datatype Gate = Gate(ramp: nat, counter: nat, state: GateState, closing: bool)

  /** What one sample comes out as, and the burst tags on it. */
  datatype Out = Out(gain: Gain, produce: bool, start: bool, end: bool)

  const QUIET := Out(Silence, false, false, false)

  /** What holds between samples: an attack has a step left to go, and so has a decay. */
  predicate WellFormed(g: Gate) {
    && (g.state.Attack? ==> 1 <= g.counter < g.ramp)
    && (g.state.Decay? ==> 1 <= g.counter <= g.ramp)
    && (g.closing ==> g.state.Muted?)
  }

  /** What every ramp change leaves, well-formed or not: a decay counts from 1 or more. */
  predicate CanStep(g: Gate) { g.state.Decay? ==> 1 <= g.counter }

  /** The machine's answer to one decision of the detector. */
  function StepOf(g: Gate, unmute: bool): (r: (Gate, Out))
    requires CanStep(g)
    ensures CanStep(r.0) && r.0.ramp == g.ramp && (WellFormed(g) ==> WellFormed(r.0))
  {
    if g.closing then (g.(closing := false), Out(Silence, true, false, true))
    else
      match g.state
      case Muted =>
        if !unmute then (g, QUIET)
        else if g.ramp > 0 then AttackStep(g.(state := Attack, counter := 0))
        else (g.(state := Unmuted, counter := 0), Out(Full, true, true, false))
      case Attack => AttackStep(g)
      case Unmuted =>
        if unmute then (g, Out(Full, true, false, false))
        else if g.ramp == 0 then (g.(state := Muted), Out(Full, true, false, true))
        else (g.(state := Decay, counter := g.ramp), Out(Full, true, false, false))
      case Decay =>
        var left := g.counter - 1;
        (g.(counter := left, state := if left == 0 then Muted else Decay),
         Out(Shape(g.counter, g.ramp), true, false, left == 0))
  }

  function AttackStep(g: Gate): (r: (Gate, Out)) {
    var counter := g.counter + 1;
    (g.(counter := counter, state := if counter == g.ramp then Unmuted else Attack),
     Out(Shape(counter, g.ramp), true, counter == 1, false))
  }

  function Play(g: Gate, us: seq<bool>): (outs: seq<Out>)
    requires CanStep(g)
    ensures |outs| == |us|
    decreases |us|
  {
    if us == [] then [] else var (next, out) := StepOf(g, us[0]); [out] + Play(next, us[1..])
  }

  function After(g: Gate, us: seq<bool>): (r: Gate)
    requires CanStep(g)
    ensures CanStep(r) && r.ramp == g.ramp && (WellFormed(g) ==> WellFormed(r))
    decreases |us|
  {
    if us == [] then g else After(StepOf(g, us[0]).0, us[1..])
  }

  function AtRest(ramp: nat): Gate { Gate(ramp, 0, Muted, false) }

  // ---------------------------------------------------------------- bursts

  /** A burst that rises over `ramp` samples, holds `full` at full amplitude and falls as it rose. */
  function Burst(ramp: nat, full: nat): (outs: seq<Out>)
    ensures |outs| == 2 * ramp + full
  {
    seq(2 * ramp + full, i requires 0 <= i < 2 * ramp + full =>
      Out(if i < ramp then Shape(i + 1, ramp) else if i < ramp + full then Full else Shape(2 * ramp + full - i, ramp),
          true, i == 0, i == 2 * ramp + full - 1))
  }

  /** The first sample from `from` on that the detector mutes, or the first one past the end. */
  function Closing(us: seq<bool>, from: nat): (k: nat)
    ensures from <= k
    ensures forall i :: from <= i < k && i < |us| ==> us[i]
    ensures k < |us| ==> !us[k]
    ensures from <= |us| ==> k <= |us|
    decreases |us| - from
  {
    if from < |us| && us[from] then Closing(us, from + 1) else from
  }

  /** The whole stream, from rest: silence until the detector opens, then a burst that the detector may only prolong. */
  function Render(us: seq<bool>, ramp: nat): seq<Out>
    decreases |us|
  {
    if us == [] then []
    else if !us[0] then [QUIET] + Render(us[1..], ramp)
    else
      var burst := Burst(ramp, Closing(us, ramp) + 1 - ramp);
      if |us| <= |burst| then burst[..|us|] else burst + Render(us[|burst|..], ramp)
  }

  /** A burst has one start tag, on its first sample, and one end tag, on its last. Its gains read the same backward. */
  lemma BurstIsClosed(ramp: nat, full: nat)
    requires full >= 1 && 2 * ramp + full >= 2
    ensures var b := Burst(ramp, full);
      && |b| >= 2 * ramp + 1
      && (forall i :: 0 <= i < |b| ==> b[i].produce && (b[i].start <==> i == 0) && (b[i].end <==> i == |b| - 1))
      && (forall i :: 0 <= i < |b| ==> b[i].gain == b[|b| - 1 - i].gain)
      && (forall i :: ramp <= i < ramp + full ==> b[i].gain == Full)
  {
  }

  // ---------------------------------------------------------------- the machine plays bursts

  /** The machine once `i` samples of a burst are out. */
  function StateAt(ramp: nat, full: nat, i: nat): Gate
    requires i <= 2 * ramp + full
  {
    if i == 0 || i == 2 * ramp + full then AtRest(ramp)
    else if i < ramp then Gate(ramp, i, Attack, false)
    else if i < ramp + full then Gate(ramp, ramp, Unmuted, false)
    else Gate(ramp, 2 * ramp + full - i, Decay, false)
  }

  lemma BurstStep(ramp: nat, full: nat, i: nat, unmute: bool)
    requires full >= 1 && i < 2 * ramp + full && 2 * ramp + full >= 2
    requires i == 0 ==> unmute
    requires ramp <= i < ramp + full ==> (unmute <==> i + 1 < ramp + full)
    ensures WellFormed(StateAt(ramp, full, i))
    ensures StepOf(StateAt(ramp, full, i), unmute) == (StateAt(ramp, full, i + 1), Burst(ramp, full)[i])
  {
  }

  /** The detector opens the burst and closes it on its last full sample, if the stream goes on that far. */
  predicate Opens(us: seq<bool>, ramp: nat, full: nat) {
    && us != [] && us[0] && full >= 1 && 2 * ramp + full >= 2
    && forall i :: ramp <= i < ramp + full && i < |us| ==> (us[i] <==> i + 1 < ramp + full)
  }

  /** What is still to come once `i` samples of the burst are out: its rest, cut where the stream ends, and what follows. */
  function Remaining(us: seq<bool>, ramp: nat, full: nat, i: nat): seq<Out>
    requires i <= Min(|us|, 2 * ramp + full)
  {
    var burst := Burst(ramp, full);
    if |us| <= |burst| then burst[i..|us|] else burst[i..] + Play(AtRest(ramp), us[|burst|..])
  }

  lemma RemainingOne(us: seq<bool>, ramp: nat, full: nat, i: nat)
    requires i < |us| && i < 2 * ramp + full
    ensures Remaining(us, ramp, full, i) == [Burst(ramp, full)[i]] + Remaining(us, ramp, full, i + 1)
  {
    hide Play, Burst;
    var b := Burst(ramp, full);
    if |us| > |b| {
      var rest := Play(AtRest(ramp), us[|b|..]);
      assert b[i..] + rest == [b[i]] + (b[i + 1..] + rest);
    } else {
      assert b[i..|us|] == [b[i]] + b[i + 1..|us|];
    }
  }

  lemma RemainingNone(us: seq<bool>, ramp: nat, full: nat, i: nat)
    requires i == Min(|us|, 2 * ramp + full)
    ensures Remaining(us, ramp, full, i) == if i == |us| then [] else Play(AtRest(ramp), us[i..])
  {
  }

  lemma StatesOfBurst(ramp: nat, full: nat, i: nat)
    requires i <= 2 * ramp + full
    ensures WellFormed(StateAt(ramp, full, i)) && StateAt(ramp, full, 2 * ramp + full) == AtRest(ramp)
  {
  }

  lemma PlayNothing(g: Gate)
    requires CanStep(g)
    ensures Play(g, []) == [] && After(g, []) == g
  {
  }

  lemma {:induction false} PlayBurst(us: seq<bool>, ramp: nat, full: nat, i: nat)
    requires Opens(us, ramp, full) && i <= Min(|us|, 2 * ramp + full)
    ensures WellFormed(StateAt(ramp, full, i))
    ensures Play(StateAt(ramp, full, i), us[i..]) == Remaining(us, ramp, full, i)
    decreases |us| - i
  {
    hide Burst, Render, StateAt, StepOf, Opens, Play, Remaining;
    StatesOfBurst(ramp, full, i);
    if i == Min(|us|, 2 * ramp + full) {
      RemainingNone(us, ramp, full, i);
      assert i == |us| ==> us[i..] == [];
      PlayNothing(StateAt(ramp, full, i));
    } else {
      OpensAt(us, ramp, full, i);
      BurstStep(ramp, full, i, us[i]);
      PlayBurst(us, ramp, full, i + 1);
      PlayOne(StateAt(ramp, full, i), us, i);
      RemainingOne(us, ramp, full, i);
    }
  }

  lemma OpensAt(us: seq<bool>, ramp: nat, full: nat, i: nat)
    requires Opens(us, ramp, full) && i < |us|
    ensures full >= 1 && 2 * ramp + full >= 2 && (i == 0 ==> us[i])
    ensures ramp <= i < ramp + full ==> (us[i] <==> i + 1 < ramp + full)
  {
  }

  lemma PlayOne(g: Gate, us: seq<bool>, i: nat)
    requires WellFormed(g) && i < |us|
    ensures Play(g, us[i..]) == [StepOf(g, us[i]).1] + Play(StepOf(g, us[i]).0, us[i + 1..])
  {
  }

  /** From rest the machine renders silence and bursts, for every sequence of decisions. */
  lemma {:induction false} PlayIsRender(us: seq<bool>, ramp: nat)
    ensures Play(AtRest(ramp), us) == Render(us, ramp)
    decreases |us|
  {
    hide Burst;
    if us != [] {
      if us[0] {
        var full := Closing(us, ramp) + 1 - ramp;
        PlayBurst(us, ramp, full, 0);
        assert us[0..] == us;
        if |us| > 2 * ramp + full {
          PlayIsRender(us[2 * ramp + full..], ramp);
        }
      } else {
        PlayIsRender(us[1..], ramp);
      }
    }
  }

  // ---------------------------------------------------------------- without a ramp

  /** With no ramp a sample passes at full amplitude exactly when the detector is open on it or was on the one before. */
  lemma {:induction false} GainWithoutRamp(us: seq<bool>, g: Gate, i: nat)
    requires WellFormed(g) && g.ramp == 0 && !g.closing && i < |us|
    ensures Play(g, us)[i].gain == Full <==> us[i] || (if i == 0 then g.state.Unmuted? else us[i - 1])
    ensures Play(g, us)[i].gain == Full || Play(g, us)[i].gain == Silence
  {
    if i > 0 {
      GainWithoutRamp(us[1..], StepOf(g, us[0]).0, i - 1);
    }
  }

  /** The detector closes on sample `i`. */
  predicate ClosesAt(us: seq<bool>, i: nat) { 0 < i < |us| && us[i - 1] && !us[i] }

  // ---------------------------------------------------------------- a ramp that changes

  /** The step of a ramp of `length` closest to step `counter` of one of `previous`, from 1 to `length`. */
  function Rescaled(counter: nat, previous: nat, length: nat): nat
    requires previous >= 1 && length >= 1
  {
    Max(1, Min((2 * counter * length + previous) / (2 * previous), length))
  }

  /** How far step `n` of a ramp of `length` is from step `counter` of one of `previous`, in parts of both lengths. */
  function Apart(n: nat, length: nat, counter: nat, previous: nat): nat {
    var gap := n * previous - counter * length;
    if gap < 0 then -gap else gap
  }

  /**
   No step of the new ramp is nearer to the old step, and of two as near the later one is taken. It is within half a step
   of the new ramp, or the first step where the old one is less than half a step in.
   */
  lemma RescaledIsNearest(counter: nat, previous: nat, length: nat, n: nat)
    requires 1 <= counter <= previous && 1 <= n <= length
    ensures var r := Rescaled(counter, previous, length);
      && 1 <= r <= length
      && Apart(r, length, counter, previous) <= Apart(n, length, counter, previous)
      && (Apart(r, length, counter, previous) == Apart(n, length, counter, previous) ==> n <= r)
      && (2 * Apart(r, length, counter, previous) <= previous || (r == 1 && 2 * (counter * length) < previous))
  {
    hide Rescaled;
    var place, r := counter * length, Rescaled(counter, previous, length);
    var q := RescaledQuotient(counter, previous, length, place);
    StepsApart(n, r, previous);
    StepsApart(r, n, previous);
    StepsApart(1, n, previous);
    NearestOf(place, previous, q * previous, r * previous, n * previous, q, r, n);
  }

  lemma RescaledQuotient(counter: nat, previous: nat, length: nat, place: nat) returns (q: nat)
    requires 1 <= counter <= previous && 1 <= length && place == counter * length
    ensures Rescaled(counter, previous, length) == Max(1, q) <= length
    ensures 2 * (q * previous) <= 2 * place + previous < 2 * (q * previous) + 2 * previous
  {
    q := (2 * place + previous) / (2 * previous);
    SameQuotient(counter, previous, length);
    NearestMultiple(place, previous, q);
    ProductGrows(counter, previous, length);
    AtMost(q, length, place, previous);
  }

  lemma SameQuotient(counter: nat, previous: nat, length: nat)
    requires previous >= 1
    ensures (2 * counter * length + previous) / (2 * previous) == (2 * (counter * length) + previous) / (2 * previous)
  {
    assert 2 * counter * length == 2 * (counter * length);
  }

  lemma StepsApart(a: nat, b: nat, previous: nat)
    ensures a < b ==> a * previous + previous <= b * previous
  {
    if a < b {
      ProductGrows(a + 1, b, previous);
    }
  }

  lemma NearestOf(place: nat, previous: nat, down: nat, at: nat, other: nat, q: nat, r: nat, n: nat)
    requires previous >= 1 && 2 * down <= 2 * place + previous < 2 * down + 2 * previous && r == Max(1, q) && n >= 1
    requires if q >= 1 then at == down else at == previous && down == 0
    requires (n < r ==> other + previous <= at) && (r < n ==> at + previous <= other) && (n == r ==> at == other)
    requires other >= previous
    ensures var near := if at < place then place - at else at - place;
      var far := if other < place then place - other else other - place;
      near <= far && (near == far ==> n <= r) && (2 * near <= previous || (r == 1 && 2 * place < previous))
  {
  }

  lemma NearestMultiple(place: nat, previous: nat, q: nat)
    requires previous >= 1 && q == (2 * place + previous) / (2 * previous)
    ensures 2 * (q * previous) <= 2 * place + previous < 2 * (q * previous) + 2 * previous
  {
    var bottom := 2 * previous;
    assert q * bottom == 2 * (q * previous);
    assert 2 * place + previous == q * bottom + (2 * place + previous) % bottom;
  }

  lemma AtMost(q: nat, length: nat, place: nat, previous: nat)
    requires 2 * (q * previous) <= 2 * place + previous && place <= previous * length && previous >= 1
    ensures q <= length
  {
    StepsApart(length, q, previous);
    assert length * previous == previous * length;
  }

  function SetRamp(g: Gate, length: nat): (r: Gate)
    requires WellFormed(g)
    ensures CanStep(r) && r.ramp == length
  {
    if !g.state.Attack? && !g.state.Decay? then g.(ramp := length)
    else if length == 0 then Gate(0, 0, if g.state.Attack? then Unmuted else Muted, g.state.Decay?)
    else g.(ramp := length, counter := Rescaled(g.counter, g.ramp, length))
  }

  /** The entry of the envelope that a step reads, if it reads one. The envelope has the entries 0 to `ramp`. */
  function EnvelopeIndex(g: Gate, unmute: bool): Option<nat> {
    if g.closing then None
    else
      match g.state
      case Muted => if unmute && g.ramp > 0 then Some(1) else None
      case Attack => Some(g.counter + 1)
      case Unmuted => None
      case Decay => Some(g.counter)
  }

  /** The gain of a step is the entry it reads. */
  lemma GainIsTheEntryRead(g: Gate, unmute: bool)
    requires CanStep(g)
    ensures var gain := StepOf(g, unmute).1.gain;
      if EnvelopeIndex(g, unmute).Some? then gain == Shape(EnvelopeIndex(g, unmute).value, g.ramp) else !gain.Shape?
  {
  }

  predicate ReadsBeyond(g: Gate, unmute: bool) {
    EnvelopeIndex(g, unmute).Some? && EnvelopeIndex(g, unmute).value > g.ramp
  }

  /** Some step on the decisions `us` reads past the envelope. */
  ghost predicate PlayReadsBeyond(g: Gate, us: seq<bool>)
    requires CanStep(g)
  {
    exists i :: 0 <= i < |us| && ReadsBeyond(After(g, us[..i]), us[i])
  }

  lemma StaysInside(g: Gate, us: seq<bool>)
    requires WellFormed(g)
    ensures !PlayReadsBeyond(g, us)
  {
    hide After;
    forall i | 0 <= i < |us| ensures !ReadsBeyond(After(g, us[..i]), us[i]) {
      assert WellFormed(After(g, us[..i]));
    }
  }

  /** The new ramp leaves an attack under way no step to go. */
  predicate LeavesNoStep(g: Gate, length: nat)
    requires WellFormed(g)
  {
    g.state.Attack? && length > 0 && !(length >= 2 && g.ramp < 2 * length * (g.ramp - g.counter))
  }

  lemma RescaledBelow(counter: nat, previous: nat, length: nat)
    requires 1 <= counter < previous && length >= 1
    ensures Rescaled(counter, previous, length) < length <==> length >= 2 && previous < 2 * length * (previous - counter)
  {
    var top, bottom := 2 * counter * length + previous, 2 * previous;
    TopAndBottom(counter, previous, length);
    QuotientBelow(top, bottom, length);
  }

  lemma TopAndBottom(counter: int, previous: int, length: int)
    ensures length * (2 * previous) - (2 * counter * length + previous) == 2 * length * (previous - counter) - previous
  {
  }

  lemma QuotientBelow(top: nat, bottom: nat, length: nat)
    requires bottom >= 1
    ensures top / bottom < length <==> top < length * bottom
  {
    if top / bottom < length {
      ProductGrows(top / bottom + 1, length, bottom);
    } else {
      ProductGrows(length, top / bottom, bottom);
    }
  }

  /**
   After a ramp change some step reads past the envelope, whatever the detector decides, exactly when the change leaves
   an attack under way no step to go. It is then the next step, and the entry right behind the envelope.
   */
  lemma RampChangeReadsBeyond(g: Gate, length: nat, us: seq<bool>)
    requires WellFormed(g) && us != []
    ensures PlayReadsBeyond(SetRamp(g, length), us) <==> LeavesNoStep(g, length)
    ensures LeavesNoStep(g, length) ==> EnvelopeIndex(SetRamp(g, length), us[0]) == Some(length + 1)
  {
    hide Rescaled;
    var next := SetRamp(g, length);
    if (g.state.Attack? || g.state.Decay?) && length > 0 {
      RescaledWithin(g.counter, g.ramp, length);
    }
    if g.state.Attack? && length > 0 {
      RescaledBelow(g.counter, g.ramp, length);
    }
    assert WellFormed(next) <==> !LeavesNoStep(g, length);
    if LeavesNoStep(g, length) {
      assert us[..0] == [];
      PlayNothing(next);
      assert ReadsBeyond(After(next, us[..0]), us[0]);
    } else {
      StaysInside(next, us);
    }
  }

  lemma RescaledWithin(counter: nat, previous: nat, length: nat)
    requires previous >= 1 && length >= 1
    ensures 1 <= Rescaled(counter, previous, length) <= length
  {
  }

  /** Three of four attack steps done, a new ramp of two: the next step reads entry 3 of an envelope that ends at 2. */
  lemma RampChangeMayOvershoot(unmute: bool)
    ensures var g := After(AtRest(4), [true, true, true]);
      && g == Gate(4, 3, Attack, false) && LeavesNoStep(g, 2)
      && SetRamp(g, 2).ramp == 2 && EnvelopeIndex(SetRamp(g, 2), unmute) == Some(3)
  {
  }

  datatype Event = Sample(unmute: bool) | Ramp(length: nat)

  /** The events up to a ramp change that leaves an attack without a step: what follows that is undefined. */
  function Trace(g: Gate, events: seq<Event>): seq<Out>
    requires WellFormed(g)
    decreases |events|
  {
    if events == [] then []
    else
      match events[0]
      case Sample(unmute) => var (next, out) := StepOf(g, unmute); [out] + Trace(next, events[1..])
      case Ramp(length) =>
        if WellFormed(SetRamp(g, length)) then Trace(SetRamp(g, length), events[1..]) else []
  }

  /** A burst has begun and not ended. */
  predicate InBurst(g: Gate) { !g.state.Muted? || g.closing }

  /** Tags alternate, a start first outside a burst. Samples are produced exactly from a start to its end. */
  predicate Alternates(outs: seq<Out>, inside: bool) {
    outs != [] ==>
      var out := outs[0];
      && (out.start ==> !inside)
      && (out.produce <==> inside || out.start)
      && (out.end ==> out.produce)
      && Alternates(outs[1..], out.produce && !out.end)
  }

  /** However samples and ramp changes are mixed, start and end tags alternate around what is produced. */
  lemma {:induction false} BurstTagsAlternate(g: Gate, events: seq<Event>)
    requires WellFormed(g)
    ensures Alternates(Trace(g, events), InBurst(g))
    decreases |events|
  {
    if events != [] {
      match events[0]
      case Sample(unmute) =>
        var (next, out) := StepOf(g, unmute);
        BurstTagsAlternate(next, events[1..]);
        assert ([out] + Trace(next, events[1..]))[1..] == Trace(next, events[1..]);
      case Ramp(length) =>
        if WellFormed(SetRamp(g, length)) {
          BurstTagsAlternate(SetRamp(g, length), events[1..]);
        }
    }
  }

  /** A ramp of zero ends a rise at once at full amplitude, and a fall with one silent sample that ends the burst. */
  lemma ZeroRampCutsShort(g: Gate, unmute: bool)
    requires WellFormed(g)
    ensures g.state.Attack? ==> Trace(g, [Ramp(0), Sample(unmute)]) == [Out(Full, true, false, !unmute)]
    ensures g.state.Decay? ==> Trace(g, [Ramp(0), Sample(unmute)]) == [Out(Silence, true, false, true)]
  {
    var events := [Ramp(0), Sample(unmute)];
    assert events[1..] == [Sample(unmute)];
    if g.state.Attack? || g.state.Decay? {
      TraceOfOne(SetRamp(g, 0), unmute);
    }
  }

  lemma TraceOfOne(g: Gate, unmute: bool)
    requires WellFormed(g)
    ensures Trace(g, [Sample(unmute)]) == [StepOf(g, unmute).1]
  {
    hide StepOf;
    assert [Sample(unmute)][1..] == [];
  }

  // ---------------------------------------------------------------- what a burst carries

  predicate CarriesSignal(gain: Gain) { gain.Full? || (gain.Shape? && gain.r >= 1) }

  /** The machine after the events, if no ramp change among them overshoots. */
  function AfterEvents(g: Gate, events: seq<Event>): (r: Option<Gate>)
    requires WellFormed(g)
    ensures r.Some? ==> WellFormed(r.value)
    decreases |events|
  {
    if events == [] then Some(g)
    else
      match events[0]
      case Sample(unmute) => AfterEvents(StepOf(g, unmute).0, events[1..])
      case Ramp(length) =>
        if WellFormed(SetRamp(g, length)) then AfterEvents(SetRamp(g, length), events[1..]) else None
  }

  /** Event `k` is a ramp of zero that meets a decay. */
  predicate CutsDecay(g: Gate, events: seq<Event>, k: nat)
    requires WellFormed(g) && k < |events|
  {
    && events[k] == Ramp(0)
    && AfterEvents(g, events[..k]).Some? && AfterEvents(g, events[..k]).value.state.Decay?
  }

  /** A sample stands at `from` or later. */
  ghost predicate SampleFrom(events: seq<Event>, from: nat) {
    exists k :: from <= k < |events| && events[k].Sample?
  }

  ghost predicate EveryProducedCarries(outs: seq<Out>) {
    forall i :: 0 <= i < |outs| && outs[i].produce ==> CarriesSignal(outs[i].gain)
  }

  /** No decay is cut to zero before a sample, and none was before the events. */
  ghost predicate NoDecayIsCut(g: Gate, events: seq<Event>)
    requires WellFormed(g)
  {
    (g.closing ==> !SampleFrom(events, 0)) && NoCutAmong(g, events)
  }

  ghost predicate NoCutAmong(g: Gate, events: seq<Event>)
    requires WellFormed(g)
  {
    forall k :: 0 <= k < |events| && CutsDecay(g, events, k) ==> !SampleFrom(events, k + 1)
  }

  /** One event: where it leaves the machine, and what the later ones are to it. */
  lemma CutsAfterFirst(g: Gate, events: seq<Event>, k: nat)
    requires WellFormed(g) && k + 1 < |events|
    ensures CutsDecay(g, events, k + 1) <==>
      AfterEvents(g, events[..1]).Some? && CutsDecay(AfterEvents(g, events[..1]).value, events[1..], k)
  {
    hide SetRamp, StepOf;
    assert events[..k + 1][1..] == events[1..][..k] && events[..1][1..] == [];
    assert events[..k + 1][0] == events[0];
  }

  lemma SampleFromLater(events: seq<Event>, from: nat)
    requires events != []
    ensures SampleFrom(events, from + 1) <==> SampleFrom(events[1..], from)
    ensures SampleFrom(events, 0) <==> events[0].Sample? || SampleFrom(events, 1)
  {
    if SampleFrom(events, from + 1) {
      var k :| from + 1 <= k < |events| && events[k].Sample?;
      assert events[1..][k - 1].Sample?;
    }
    if SampleFrom(events[1..], from) {
      var k :| from <= k < |events[1..]| && events[1..][k].Sample?;
      assert events[k + 1].Sample?;
    }
  }

  /** A cut among the events is the first of them or one among the rest. */
  lemma NoCutAfterFirst(g: Gate, events: seq<Event>)
    requires WellFormed(g) && events != []
    ensures NoCutAmong(g, events) <==>
      && (CutsDecay(g, events, 0) ==> !SampleFrom(events[1..], 0))
      && (AfterEvents(g, events[..1]).Some? ==> NoCutAmong(AfterEvents(g, events[..1]).value, events[1..]))
  {
    hide CutsDecay, AfterEvents, SampleFrom;
    var first := AfterEvents(g, events[..1]);
    SampleFromLater(events, 0);
    if NoCutAmong(g, events) && first.Some? {
      forall k | 0 <= k < |events| - 1 && CutsDecay(first.value, events[1..], k) ensures !SampleFrom(events[1..], k + 1) {
        SampleFromLater(events, k + 1);
        CutsAfterFirst(g, events, k);
      }
    }
    if (CutsDecay(g, events, 0) ==> !SampleFrom(events[1..], 0)) && (first.Some? ==> NoCutAmong(first.value, events[1..])) {
      forall k | 0 <= k < |events| && CutsDecay(g, events, k) ensures !SampleFrom(events, k + 1) {
        if k > 0 {
          SampleFromLater(events, k);
          CutsAfterFirst(g, events, k - 1);
        }
      }
    }
  }

  lemma FirstProduced(out: Out, outs: seq<Out>)
    ensures EveryProducedCarries([out] + outs) <==> (out.produce ==> CarriesSignal(out.gain)) && EveryProducedCarries(outs)
  {
    var all := [out] + outs;
    if EveryProducedCarries(all) {
      assert all[0] == out;
      forall i | 0 <= i < |outs| && outs[i].produce ensures CarriesSignal(outs[i].gain) {
        assert all[i + 1] == outs[i];
      }
    }
  }

  /**
   However samples and ramp changes are mixed, every produced sample carries signal exactly when no ramp of zero that a
   sample follows meets a decay, and none did before.
   */
  lemma {:induction false} SignalUnlessDecayIsCut(g: Gate, events: seq<Event>)
    requires WellFormed(g)
    ensures EveryProducedCarries(Trace(g, events)) <==> NoDecayIsCut(g, events)
    decreases |events|
  {
    if events == [] {
      assert Trace(g, events) == [];
    } else {
      NoCutAfterFirst(g, events);
      SampleFromLater(events, 0);
      assert events[..1][1..] == [];
      match events[0]
      case Sample(unmute) =>
        var (next, out) := StepOf(g, unmute);
        SignalUnlessDecayIsCut(next, events[1..]);
        FirstProduced(out, Trace(next, events[1..]));
      case Ramp(length) =>
        if WellFormed(SetRamp(g, length)) {
          SignalUnlessDecayIsCut(SetRamp(g, length), events[1..]);
        }
    }
  }

  /** A ramp of zero meets a decay of one before its only step: the sample that ends the burst is silent. */
  lemma CutDecayEndsInSilence()
    ensures var events := [Sample(true), Sample(false), Ramp(0), Sample(false)];
      && CutsDecay(AtRest(1), events, 2)
      && Trace(AtRest(1), events)[2..] == [Out(Silence, true, false, true)]
  {
  }
}
