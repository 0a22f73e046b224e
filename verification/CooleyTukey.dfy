/**
 The recursive radix-2 transform in place: the even and the odd samples are transformed on their own, and their bins are
 combined in pairs. For every power-of-two length it leaves the discrete Fourier transform of the samples.
 */
module CooleyTukey {
  import opened Bits
  import opened ComplexNumbers

  const MINUS_ONE := Complex(-1.0, 0.0)

  /** A root whose half turn is minus one, as `cos(2 pi / n) + i sin(2 pi / n)` is at length `n`. */
  predicate PrimitiveRoot(w: Complex, n: nat) {
    Power(w, n) == ONE && (n >= 2 ==> Power(w, n / 2) == MINUS_ONE)
  }

  function Even(x: seq<Complex>): (r: seq<Complex>)
    ensures |r| == |x| / 2
  {
    seq(|x| / 2, i requires 0 <= i < |x| / 2 => x[2 * i])
  }

  function Odd(x: seq<Complex>): (r: seq<Complex>)
    ensures |r| == |x| / 2
  {
    seq(|x| / 2, i requires 0 <= i < |x| / 2 => x[2 * i + 1])
  }

  // ---------------------------------------------------------------- the split, as algebra

  lemma {:induction false} SumAlternates(f: nat -> Complex, h: nat)
    ensures Sum(f, 2 * h) == Plus(Sum((m: nat) => f(2 * m), h), Sum((m: nat) => f(2 * m + 1), h))
  {
    hide Plus;
    if h == 0 {
      PlusZero(ZERO);
    } else {
      var even := (m: nat) => f(2 * m);
      var odd := (m: nat) => f(2 * m + 1);
      SumAlternates(f, h - 1);
      assert Sum(f, 2 * h - 1) == Plus(Sum(f, 2 * (h - 1)), even(h - 1));
      assert Sum(f, 2 * h) == Plus(Sum(f, 2 * h - 1), odd(h - 1));
      Interchange(Sum(even, h - 1), Sum(odd, h - 1), even(h - 1), odd(h - 1));
    }
  }

  lemma PlusZero(a: Complex)
    ensures Plus(ZERO, a) == a
  {
  }

  lemma Interchange(a: Complex, b: Complex, c: Complex, d: Complex)
    ensures Plus(Plus(Plus(a, b), c), d) == Plus(Plus(a, c), Plus(b, d))
  {
  }

  lemma RootOfEven(w: Complex, m: nat, k: nat)
    ensures Root(w, 2 * m, k) == Root(Power(w, 2), m, k)
  {
    hide Times, Power;
    PowerMultiplies(w, 2, m * k);
    assert 2 * m * k == 2 * (m * k);
  }

  lemma RootOfOdd(w: Complex, m: nat, k: nat)
    ensures Root(w, 2 * m + 1, k) == Times(Root(Power(w, 2), m, k), Power(w, k))
  {
    hide Times, Power;
    PowerMultiplies(w, 2, m * k);
    OddExponent(m, k);
    PowerAdds(w, 2 * (m * k), k);
  }

  lemma OddExponent(m: nat, k: nat)
    ensures (2 * m + 1) * k == 2 * (m * k) + k
  {
  }

  /** Every bin is the even samples' bin and the odd samples' bin turned by one step. */
  lemma BinSplits(x: seq<Complex>, w: Complex, k: nat)
    requires |x| % 2 == 0
    ensures Dft(x, w, k) == Plus(Dft(Even(x), Power(w, 2), k), Times(Dft(Odd(x), Power(w, 2), k), Power(w, k)))
  {
    hide Times, Root, Term, Power, Plus;
    var h := |x| / 2;
    var root := Power(w, 2);
    var f := (j: nat) => Term(x, w, k, j);
    var even := (m: nat) => Term(Even(x), root, k, m);
    var odd := (m: nat) => Term(Odd(x), root, k, m);
    SumAlternates(f, h);
    forall m: nat | m < h
      ensures f(2 * m) == even(m) && f(2 * m + 1) == Times(odd(m), Power(w, k))
    {
      TermsSplit(x, w, k, m);
    }
    SumsAgree((m: nat) => f(2 * m), even, h);
    SumsAgree((m: nat) => f(2 * m + 1), (m: nat) => Times(odd(m), Power(w, k)), h);
    SumScales(odd, Power(w, k), h);
  }

  lemma TermsSplit(x: seq<Complex>, w: Complex, k: nat, m: nat)
    requires m < |x| / 2
    ensures Term(x, w, k, 2 * m) == Term(Even(x), Power(w, 2), k, m)
    ensures Term(x, w, k, 2 * m + 1) == Times(Term(Odd(x), Power(w, 2), k, m), Power(w, k))
  {
    hide Times, Root, Power;
    RootOfEven(w, m, k);
    RootOfOdd(w, m, k);
    TimesAssociates(x[2 * m + 1], Root(Power(w, 2), m, k), Power(w, k));
  }

  /** Bins repeat after the root's order. */
  lemma BinRepeats(x: seq<Complex>, w: Complex, k: nat)
    requires Power(w, |x|) == ONE
    ensures Dft(x, w, k + |x|) == Dft(x, w, k)
  {
    hide Times;
    forall j: nat | j < |x|
      ensures Term(x, w, k + |x|, j) == Term(x, w, k, j)
    {
      RootRepeats(w, |x|, j, k);
    }
    SumsAgree((j: nat) => Term(x, w, k + |x|, j), (j: nat) => Term(x, w, k, j), |x|);
  }

  lemma RootRepeats(w: Complex, n: nat, j: nat, k: nat)
    requires Power(w, n) == ONE
    ensures Root(w, j, k + n) == Root(w, j, k)
  {
    hide Times, Power;
    assert j * (k + n) == j * k + n * j;
    PowerAdds(w, j * k, n * j);
    PowerOfRoot(w, n, j);
    TimesOne(Power(w, j * k));
  }

  lemma HalfTurn(a: Complex, b: Complex)
    ensures Plus(a, Times(b, MINUS_ONE)) == Minus(a, b)
  {
  }

  /** The two bins that a pair of half-length bins gives. */
  lemma Butterfly(x: seq<Complex>, w: Complex, k: nat)
    requires |x| % 2 == 0 && PrimitiveRoot(w, |x|) && k < |x| / 2
    ensures var h := |x| / 2; var root := Power(w, 2);
      var turned := Times(Power(w, k), Dft(Odd(x), root, k));
      && Dft(x, w, k) == Plus(Dft(Even(x), root, k), turned)
      && Dft(x, w, k + h) == Minus(Dft(Even(x), root, k), turned)
  {
    hide Times, Dft, Power;
    var h := |x| / 2;
    var root := Power(w, 2);
    var odd := Dft(Odd(x), root, k);
    BinSplits(x, w, k);
    BinSplits(x, w, k + h);
    PowerMultiplies(w, 2, h);
    BinRepeats(Even(x), root, k);
    BinRepeats(Odd(x), root, k);
    PowerAdds(w, k, h);
    TimesAssociates(odd, Power(w, k), MINUS_ONE);
    TimesCommutes(odd, Power(w, k));
    HalfTurn(Dft(Even(x), root, k), Times(odd, Power(w, k)));
  }

  lemma HalfRoot(w: Complex, n: nat)
    requires n % 2 == 0 && PrimitiveRoot(w, n) && (n / 2 >= 2 ==> (n / 2) % 2 == 0)
    ensures PrimitiveRoot(Power(w, 2), n / 2)
  {
    hide Power;
    var h := n / 2;
    PowerMultiplies(w, 2, h);
    if h >= 2 {
      PowerMultiplies(w, 2, h / 2);
      assert 2 * (h / 2) == h;
    }
  }

  lemma OneSample(x: seq<Complex>, w: Complex)
    requires |x| == 1
    ensures Dft(x, w, 0) == x[0]
  {
  }

  // ---------------------------------------------------------------- in place

  /** The even and the odd samples in vectors of their own. */
  method Separate(signal: array<Complex>) returns (even: array<Complex>, odd: array<Complex>)
    ensures fresh(even) && fresh(odd) && even != odd
    ensures even[..] == Even(signal[..]) && odd[..] == Odd(signal[..])
  {
    var h := signal.Length / 2;
    even := new Complex[h](_ => ZERO);
    odd := new Complex[h](_ => ZERO);
    for i := 0 to h
      invariant forall m :: 0 <= m < i ==> even[m] == signal[2 * m] && odd[m] == signal[2 * m + 1]
    {
      even[i] := signal[2 * i];
      odd[i] := signal[2 * i + 1];
    }
  }

  /** Writes the bins of `x` over it from those of its even and odd samples. */
  method Combine(signal: array<Complex>, even: array<Complex>, odd: array<Complex>, w: Complex, ghost x: seq<Complex>)
    requires |x| == signal.Length && |x| % 2 == 0 && PrimitiveRoot(w, |x|)
    requires even.Length == odd.Length == |x| / 2 && signal != even && signal != odd
    requires forall m :: 0 <= m < |x| / 2 ==> even[m] == Dft(Even(x), Power(w, 2), m)
    requires forall m :: 0 <= m < |x| / 2 ==> odd[m] == Dft(Odd(x), Power(w, 2), m)
    modifies signal
    ensures forall k :: 0 <= k < signal.Length ==> signal[k] == Dft(x, w, k)
  {
    hide Dft, Times, PrimitiveRoot, Power, Plus, Minus;
    var h := signal.Length / 2;
    for i := 0 to h
      invariant forall k :: 0 <= k < i ==> signal[k] == Dft(x, w, k)
      invariant forall k :: h <= k < h + i ==> signal[k] == Dft(x, w, k)
    {
      Butterfly(x, w, i);
      var turned := Times(Power(w, i), odd[i]);
      signal[i] := Plus(even[i], turned);
      signal[i + h] := Minus(even[i], turned);
    }
  }

  lemma HalfLength(exponent: nat)
    requires Pow2(exponent) != 1
    ensures exponent > 0 && Pow2(exponent) == 2 * Pow2(exponent - 1) && Pow2(exponent - 1) >= 1
    ensures Pow2(exponent - 1) == 1 || Pow2(exponent - 1) % 2 == 0
  {
  }

  /**
   Transforms `signal` in place with the root `w`. The root of the halves is its square, as the angle of the half-length
   root is twice that of the whole.
   */
  method ComputeFft(signal: array<Complex>, w: Complex, ghost exponent: nat)
    requires signal.Length == Pow2(exponent) && PrimitiveRoot(w, signal.Length)
    modifies signal
    ensures forall k :: 0 <= k < signal.Length ==> signal[k] == Dft(old(signal[..]), w, k)
    decreases exponent
  {
    hide Dft, Times, PrimitiveRoot, Power, Pow2;
    ghost var x := signal[..];
    if signal.Length == 1 {
      OneSample(x, w);
      return;
    }
    HalfLength(exponent);
    HalfRoot(w, signal.Length);
    var even, odd := Separate(signal);
    ComputeFft(even, Power(w, 2), exponent - 1);
    ComputeFft(odd, Power(w, 2), exponent - 1);
    Combine(signal, even, odd, w, x);
  }
}
