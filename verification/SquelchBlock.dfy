/** The squelch's gate as it runs, and how it gates a stream and carries its tags. */
module SquelchBlock {
  import opened Basics
  import opened SquelchSpec

  // ---------------------------------------------------------------- the ramp machine

  class GateMachine {
    var envelope: seq<Gain>
    var ramp: nat
    var counter: nat
    var state: GateState
    var starting: bool
    var closing: bool

    ghost function Model(): Gate
      reads this
    {
      Gate(ramp, counter, state, closing)
    }

    /** The envelope has one step more than the ramp, and its last one is full amplitude without a ramp. */
    ghost predicate HasEnvelope()
      reads this
    {
      && |envelope| == ramp + 1
      && forall r :: 0 <= r <= ramp ==> envelope[r] == if ramp == 0 then Full else Shape(r, ramp)
    }

    ghost predicate Valid()
      reads this
    {
      HasEnvelope() && WellFormed(Model()) && !starting
    }

    constructor ()
      ensures Valid() && Model() == AtRest(0)
    {
      envelope := [Full];
      ramp, counter, state, starting, closing := 0, 0, Muted, false, false;
    }

    method Reset()
      requires HasEnvelope()
      modifies this
      ensures Valid() && Model() == AtRest(old(ramp))
    {
      state, counter, starting, closing := Muted, 0, false, false;
    }

    method TakeStart() returns (was: bool)
      modifies this`starting
      ensures was == old(starting) && !starting
    {
      was := starting;
      starting := false;
    }

    /** A new ramp length. A ramp in progress goes on from its rescaled step, and without a ramp it is cut short. */
    method SetRamp(length: nat)
      requires Valid()
      modifies this
      ensures HasEnvelope() && !starting && Model() == SquelchSpec.SetRamp(old(Model()), length)
    {
      var previous := ramp;
      ramp := length;
      envelope := [];
      for r := 0 to length + 1
        invariant |envelope| == r && ramp == length && !starting
        invariant state == old(state) && counter == old(counter) && closing == old(closing)
        invariant forall j :: 0 <= j < r ==> envelope[j] == if length == 0 then Full else Shape(j, length)
      {
        envelope := envelope + [if length == 0 then Full else Shape(r, length)];
      }
      if state != Attack && state != Decay {
        return;
      }
      if length == 0 {
        closing := state == Decay;
        state := if state == Attack then Unmuted else Muted;
        counter := 0;
        return;
      }
      var rescaled := (2 * counter * length + previous) / (2 * previous);
      counter := Max(1, Min(rescaled, length));
    }

    /** One sample: its gain, whether it is produced, and whether it ends a burst. A start is noted in `starting`. */
    method Step(unmute: bool) returns (gain: Gain, produce: bool, endOfBurst: bool)
      requires Valid()
      modifies this
      ensures HasEnvelope() && WellFormed(Model()) && ramp == old(ramp)
      ensures (Model(), Out(gain, produce, starting, endOfBurst)) == StepOf(old(Model()), unmute)
    {
      if closing {
        closing := false;
        return Silence, true, true;
      }
      if state == Muted {
        if !unmute {
          return Silence, false, false;
        }
        state := if ramp > 0 then Attack else Unmuted;
        counter := 0;
        starting := ramp == 0;
      }
      match state {
        case Attack =>
          counter := counter + 1;
          starting := starting || counter == 1;
          gain := envelope[counter];
          if counter == ramp {
            state := Unmuted;
          }
          produce, endOfBurst := true, false;
        case Unmuted =>
          gain, produce, endOfBurst := Full, true, false;
          if !unmute {
            if ramp == 0 {
              state := Muted;
              endOfBurst := true;
            } else {
              state := Decay;
              counter := ramp;
            }
          }
        case Decay =>
          gain := envelope[counter];
          counter := counter - 1;
          produce, endOfBurst := true, counter == 0;
          if counter == 0 {
            state := Muted;
          }
      }
    }
  }

  // ---------------------------------------------------------------- gating and tags

  /** A tag with the stream index of its sample. */
  datatype RawTag<T> = RawTag(index: nat, tag: T)

  /** An output sample: the input it comes from, its gain, the tags forwarded to it and its burst tags. */
  datatype Produced<T> = Produced(index: nat, gain: Gain, forwarded: seq<T>, start: bool, end: bool)

  ghost predicate InOrder<T(!new)>(raw: seq<RawTag<T>>) {
    forall j, k :: 0 <= j < k < |raw| ==> raw[j].index <= raw[k].index
  }

  /** The tags of the samples from `from` up to `to`. */
  function TagsWithin<T>(raw: seq<RawTag<T>>, from: nat, to: nat): seq<T> {
    if raw == [] then []
    else
      var last := |raw| - 1;
      TagsWithin(raw[..last], from, to) + if from <= raw[last].index < to then [raw[last].tag] else []
  }

  lemma {:induction false} NoTagsWithin<T>(raw: seq<RawTag<T>>, from: nat, to: nat)
    requires forall k :: 0 <= k < |raw| ==> !(from <= raw[k].index < to)
    ensures TagsWithin(raw, from, to) == []
  {
    if raw != [] {
      NoTagsWithin(raw[..|raw| - 1], from, to);
    }
  }

  lemma NoTags<T>(from: nat, to: nat)
    ensures TagsWithin<T>([], from, to) == []
  {
  }

  /** Tags in order split where their samples do. */
  lemma {:induction false} TagsSplit<T(!new)>(raw: seq<RawTag<T>>, from: nat, mid: nat, to: nat)
    requires InOrder(raw) && from <= mid <= to
    ensures TagsWithin(raw, from, mid) + TagsWithin(raw, mid, to) == TagsWithin(raw, from, to)
  {
    hide TagsWithin;
    if raw == [] {
      NoTags<T>(from, mid);
      NoTags<T>(mid, to);
      NoTags<T>(from, to);
    } else {
      var rest, x := raw[..|raw| - 1], raw[|raw| - 1];
      TagsLast(raw, from, mid);
      TagsLast(raw, mid, to);
      TagsLast(raw, from, to);
      TagsSplit(rest, from, mid, to);
      if from <= x.index < mid {
        NoTagsWithin(rest, mid, to);
        assert TagsWithin(raw, from, mid) + [] == TagsWithin(rest, from, mid) + [] + [x.tag];
      } else if mid <= x.index < to {
        Regroup(TagsWithin(rest, from, mid), TagsWithin(rest, mid, to), [], TagsWithin(rest, from, to), [x.tag]);
      }
    }
  }

  lemma TagsLast<T>(raw: seq<RawTag<T>>, from: nat, to: nat)
    requires raw != []
    ensures TagsWithin(raw, from, to) == TagsWithin(raw[..|raw| - 1], from, to) +
      if from <= raw[|raw| - 1].index < to then [raw[|raw| - 1].tag] else []
  {
  }

  function Forwarded<T>(outs: seq<Produced<T>>): seq<T> {
    if outs == [] then [] else Forwarded(outs[..|outs| - 1]) + outs[|outs| - 1].forwarded
  }

  lemma TagsOne<T>(raw: seq<RawTag<T>>, n: nat, from: nat, to: nat)
    requires n < |raw|
    ensures TagsWithin(raw[..n + 1], from, to) ==
      TagsWithin(raw[..n], from, to) + if from <= raw[n].index < to then [raw[n].tag] else []
  {
    assert raw[..n + 1][..n] == raw[..n];
  }

  /** Whether sample `i` is produced: always, unless the gate drops muted samples. */
  predicate Kept(plays: seq<Out>, gating: bool, i: nat)
    requires i < |plays|
  {
    plays[i].produce || !gating
  }

  /**
   The first `n` samples of a call, and the tags still held after them: a tag goes with its own sample, and with the next
   one produced when its own is not.
   */
  function Gated<T>(plays: seq<Out>, raw: seq<RawTag<T>>, first: nat, gating: bool, carry: seq<T>, n: nat)
    : (r: (seq<Produced<T>>, seq<T>))
    requires n <= |plays|
  {
    if n == 0 then ([], carry)
    else
      var (outs, held) := Gated(plays, raw, first, gating, carry, n - 1);
      var waiting := held + TagsWithin(raw, first + n - 1, first + n);
      if Kept(plays, gating, n - 1) then
        (outs + [Produced(n - 1, plays[n - 1].gain, waiting, plays[n - 1].start, plays[n - 1].end)], [])
      else (outs, waiting)
  }

  /** No tag is lost, doubled or reordered: what was held and what came in either left or is held. */
  lemma {:induction false} TagsAreConserved<T(!new)>(plays: seq<Out>, raw: seq<RawTag<T>>, first: nat, gating: bool,
                                                     carry: seq<T>, n: nat)
    requires n <= |plays| && InOrder(raw)
    ensures var (outs, held) := Gated(plays, raw, first, gating, carry, n);
      Forwarded(outs) + held == carry + TagsWithin(raw, first, first + n)
  {
    hide TagsWithin, InOrder, Forwarded, Gated;
    if n == 0 {
      NoTagsWithin(raw, first, first);
      NothingGated(plays, raw, first, gating, carry);
    } else {
      var (before, held) := Gated(plays, raw, first, gating, carry, n - 1);
      var (outs, now) := Gated(plays, raw, first, gating, carry, n);
      var came, next := TagsWithin(raw, first, first + n - 1), TagsWithin(raw, first + n - 1, first + n);
      TagsAreConserved(plays, raw, first, gating, carry, n - 1);
      TagsSplit(raw, first, first + n - 1, first + n);
      Regroup(Forwarded(before), held, carry, came, next);
      OneMoreSample(plays, raw, first, gating, carry, n);
      assert Forwarded(before) + (held + next) == carry + TagsWithin(raw, first, first + n);
    }
  }

  lemma NothingGated<T>(plays: seq<Out>, raw: seq<RawTag<T>>, first: nat, gating: bool, carry: seq<T>)
    ensures Gated(plays, raw, first, gating, carry, 0) == ([], carry) && Forwarded<T>([]) == []
  {
  }

  lemma GatedNext<T>(plays: seq<Out>, raw: seq<RawTag<T>>, first: nat, gating: bool, carry: seq<T>, n: nat,
                     outs: seq<Produced<T>>, waiting: seq<T>)
    requires n < |plays| && outs == Gated(plays, raw, first, gating, carry, n).0
    requires waiting == Gated(plays, raw, first, gating, carry, n).1 + TagsWithin(raw, first + n, first + n + 1)
    ensures Gated(plays, raw, first, gating, carry, n + 1) ==
      if Kept(plays, gating, n)
      then (outs + [Produced(n, plays[n].gain, waiting, plays[n].start, plays[n].end)], []) else (outs, waiting)
  {
  }

  lemma OneMoreSample<T>(plays: seq<Out>, raw: seq<RawTag<T>>, first: nat, gating: bool, carry: seq<T>, n: nat)
    requires 1 <= n <= |plays|
    ensures var (before, held) := Gated(plays, raw, first, gating, carry, n - 1);
      var (outs, now) := Gated(plays, raw, first, gating, carry, n);
      Forwarded(outs) + now == Forwarded(before) + (held + TagsWithin(raw, first + n - 1, first + n))
  {
  }

  lemma Regroup<T>(left: seq<T>, held: seq<T>, carry: seq<T>, came: seq<T>, more: seq<T>)
    requires left + held == carry + came
    ensures left + (held + more) == carry + (came + more)
  {
    assert left + (held + more) == (left + held) + more;
    assert carry + (came + more) == (carry + came) + more;
  }

  /** One past the sample of output `j - 1`, or the start of the call. */
  function SinceOutput<T>(outs: seq<Produced<T>>, j: nat): nat
    requires j <= |outs|
  {
    if j == 0 then 0 else outs[j - 1].index + 1
  }

  /** What is said of output `j`: it is a kept sample, none kept lies before it since the last, and it takes their tags. */
  ghost predicate TakesItsTags<T(!new)>(outs: seq<Produced<T>>, plays: seq<Out>, raw: seq<RawTag<T>>, first: nat,
                                        gating: bool, carry: seq<T>, j: nat)
    requires j < |outs|
  {
    var o := outs[j];
    && SinceOutput(outs, j) <= o.index < |plays| && Kept(plays, gating, o.index)
    && (o.gain, o.start, o.end) == (plays[o.index].gain, plays[o.index].start, plays[o.index].end)
    && (forall i :: SinceOutput(outs, j) <= i < o.index ==> !Kept(plays, gating, i))
    && o.forwarded == (if j == 0 then carry else []) + TagsWithin(raw, first + SinceOutput(outs, j), first + o.index + 1)
  }

  /** The outputs are the kept samples in order, each with the tags since the one before. */
  lemma {:induction false} TagsMoveToTheNextOutput<T(!new)>(plays: seq<Out>, raw: seq<RawTag<T>>, first: nat,
                                                            gating: bool, carry: seq<T>, n: nat)
    requires n <= |plays| && InOrder(raw)
    ensures var (outs, held) := Gated(plays, raw, first, gating, carry, n);
      && (forall j :: 0 <= j < |outs| ==> TakesItsTags(outs, plays, raw, first, gating, carry, j))
      && SinceOutput(outs, |outs|) <= n
      && (forall i :: SinceOutput(outs, |outs|) <= i < n ==> !Kept(plays, gating, i))
      && held == (if outs == [] then carry else []) + TagsWithin(raw, first + SinceOutput(outs, |outs|), first + n)
  {
    hide TagsWithin, Kept, InOrder;
    if n == 0 {
      NoTagsWithin(raw, first, first);
    } else {
      TagsMoveToTheNextOutput(plays, raw, first, gating, carry, n - 1);
      var (before, held) := Gated(plays, raw, first, gating, carry, n - 1);
      var (outs, now) := Gated(plays, raw, first, gating, carry, n);
      TagsSplit(raw, first + SinceOutput(before, |before|), first + n - 1, first + n);
      NoTagsWithin(raw, first + n, first + n);
      forall j | 0 <= j < |before| ensures TakesItsTags(outs, plays, raw, first, gating, carry, j) {
        assert TakesItsTags(before, plays, raw, first, gating, carry, j);
        assert SinceOutput(outs, j) == SinceOutput(before, j) && outs[j] == before[j];
      }
    }
  }

  class SquelchGate<T(!new)> {
    const gate: GateMachine
    var carry: seq<T>

    constructor ()
      ensures gate.Valid() && gate.Model() == AtRest(0) && carry == [] && fresh(gate)
    {
      gate := new GateMachine();
      carry := [];
    }

    method Reset()
      requires gate.HasEnvelope()
      modifies this, gate
      ensures gate.Valid() && gate.Model() == AtRest(old(gate.ramp)) && carry == []
    {
      gate.Reset();
      carry := [];
    }

    /** Takes the tags up to sample `index` of the call into the carry. Tags of earlier samples are passed over. */
    method Collect(raw: seq<RawTag<T>>, first: nat, index: nat, cursor: nat) returns (next: nat)
      requires InOrder(raw) && cursor <= |raw|
      requires forall k :: 0 <= k < cursor ==> raw[k].index < first + index
      requires forall k :: cursor <= k < |raw| && index > 0 ==> first + index <= raw[k].index
      modifies this`carry
      ensures carry == old(carry) + TagsWithin(raw, first + index, first + index + 1)
      ensures next <= |raw|
      ensures forall k :: 0 <= k < next ==> raw[k].index < first + index + 1
      ensures forall k :: next <= k < |raw| ==> first + index + 1 <= raw[k].index
    {
      hide TagsWithin;
      ghost var from, to := first + index, first + index + 1;
      next := cursor;
      NoTagsWithin(raw[..cursor], from, to);
      while next < |raw| && raw[next].index <= first + index
        invariant cursor <= next <= |raw|
        invariant forall k :: 0 <= k < next ==> raw[k].index < to
        invariant carry == old(carry) + TagsWithin(raw[..next], from, to)
      {
        TagsOne(raw, next, from, to);
        if raw[next].index >= first {
          carry := carry + [raw[next].tag];
        }
        next := next + 1;
      }
      TagsOfPrefix(raw, next, from, to);
    }

    /** Gates one sample. If it is produced, the tags held and its burst tags go with it. */
    method GateOne(outs: seq<Produced<T>>, i: nat, unmute: bool, gating: bool) returns (r: seq<Produced<T>>)
      requires gate.Valid()
      modifies this`carry, gate
      ensures gate.Valid() && gate.Model() == StepOf(old(gate.Model()), unmute).0
      ensures var out := StepOf(old(gate.Model()), unmute).1;
        if out.produce || !gating
        then r == outs + [Produced(i, out.gain, old(carry), out.start, out.end)] && carry == []
        else r == outs && carry == old(carry)
    {
      var gain, produce, endOfBurst := gate.Step(unmute);
      r := outs;
      if produce || !gating {
        var starts := gate.TakeStart();
        r := outs + [Produced(i, gain, carry, starts, endOfBurst)];
        carry := [];
      }
    }

    /** Gates the samples that the detector answered with `us`, and publishes tags with what is produced. */
    method Run(raw: seq<RawTag<T>>, first: nat, us: seq<bool>, gating: bool) returns (outs: seq<Produced<T>>)
      requires gate.Valid() && InOrder(raw)
      modifies this, gate
      ensures gate.Valid() && gate.Model() == After(old(gate.Model()), us)
      ensures (outs, carry) == Gated(Play(old(gate.Model()), us), raw, first, gating, old(carry), |us|)
    {
      hide TagsWithin, Play, After, StepOf, InOrder, Gated;
      outs := [];
      var cursor: nat := 0;
      ghost var start, had := gate.Model(), carry;
      ghost var plays := Play(start, us);
      assert us[..0] == [];
      PlayNothing(start);
      NothingGated(plays, raw, first, gating, had);
      for i := 0 to |us|
        invariant gate.Valid() && gate.Model() == After(start, us[..i])
        invariant cursor <= |raw|
        invariant forall k :: 0 <= k < cursor ==> raw[k].index < first + i
        invariant forall k :: cursor <= k < |raw| && i > 0 ==> first + i <= raw[k].index
        invariant (outs, carry) == Gated(plays, raw, first, gating, had, i)
      {
        PlayAt(start, us, i);
        cursor := Collect(raw, first, i, cursor);
        GatedNext(plays, raw, first, gating, had, i, outs, carry);
        outs := GateOne(outs, i, us[i], gating);
      }
      assert us[..|us|] == us;
    }
  }

  lemma {:induction false} TagsOfPrefix<T(!new)>(raw: seq<RawTag<T>>, n: nat, from: nat, to: nat)
    requires n <= |raw| && forall k :: n <= k < |raw| ==> to <= raw[k].index
    ensures TagsWithin(raw, from, to) == TagsWithin(raw[..n], from, to)
    decreases |raw|
  {
    if n == |raw| {
      assert raw[..n] == raw;
    } else {
      assert raw[..|raw| - 1][..n] == raw[..n];
      TagsOfPrefix(raw[..|raw| - 1], n, from, to);
    }
  }

  /** What the machine does with sample `i` depends on where the samples before left it. */
  lemma {:induction false} PlayAt(g: Gate, us: seq<bool>, i: nat)
    requires WellFormed(g) && i < |us|
    ensures Play(g, us)[i] == StepOf(After(g, us[..i]), us[i]).1
    ensures After(g, us[..i + 1]) == StepOf(After(g, us[..i]), us[i]).0
    decreases |us|
  {
    hide StepOf;
    if i > 0 {
      PlayAt(StepOf(g, us[0]).0, us[1..], i - 1);
      assert us[..i][1..] == us[1..][..i - 1] && us[..i + 1][1..] == us[1..][..i];
    } else {
      assert us[..1][1..] == [];
    }
  }
}
