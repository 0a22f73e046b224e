/** Complex numbers over the reals, powers, finite sums, and the discrete Fourier transform they define. */
module ComplexNumbers {
  datatype Complex = Complex(re: real, im: real)

  const ZERO := Complex(0.0, 0.0)
  const ONE := Complex(1.0, 0.0)

  function Plus(a: Complex, b: Complex): Complex { Complex(a.re + b.re, a.im + b.im) }

  function Minus(a: Complex, b: Complex): Complex { Complex(a.re - b.re, a.im - b.im) }

  function Times(a: Complex, b: Complex): Complex { Complex(a.re * b.re - a.im * b.im, a.re * b.im + a.im * b.re) }

  lemma TimesOne(a: Complex)
    ensures Times(a, ONE) == a && Times(ONE, a) == a
  {
  }

  lemma TimesZero(a: Complex)
    ensures Times(a, ZERO) == ZERO && Times(ZERO, a) == ZERO
  {
  }

  lemma TimesCommutes(a: Complex, b: Complex)
    ensures Times(a, b) == Times(b, a)
  {
  }

  lemma TimesAssociates(a: Complex, b: Complex, c: Complex)
    ensures Times(Times(a, b), c) == Times(a, Times(b, c))
  {
  }

  lemma TimesDistributes(a: Complex, b: Complex, c: Complex)
    ensures Times(Plus(a, b), c) == Plus(Times(a, c), Times(b, c))
  {
  }

  /** `w` to the power `n`. */
  function Power(w: Complex, n: nat): Complex {
    if n == 0 then ONE else Times(Power(w, n - 1), w)
  }

  lemma {:induction false} PowerAdds(w: Complex, m: nat, n: nat)
    ensures Power(w, m + n) == Times(Power(w, m), Power(w, n))
  {
    hide Times;
    if n == 0 {
      TimesOne(Power(w, m));
    } else {
      PowerAdds(w, m, n - 1);
      TimesAssociates(Power(w, m), Power(w, n - 1), w);
    }
  }

  lemma {:induction false} PowerMultiplies(w: Complex, m: nat, n: nat)
    ensures Power(Power(w, m), n) == Power(w, m * n)
  {
    hide Times;
    if n == 0 {
      assert m * n == 0;
    } else {
      PowerMultiplies(w, m, n - 1);
      assert m * n == m * (n - 1) + m;
      PowerAdds(w, m * (n - 1), m);
    }
  }

  /** A power of a root of one is one at every multiple of its order. */
  lemma {:induction false} PowerOfRoot(w: Complex, order: nat, turns: nat)
    requires Power(w, order) == ONE
    ensures Power(w, order * turns) == ONE
  {
    PowerMultiplies(w, order, turns);
    PowerOfOne(turns);
  }

  lemma {:induction false} PowerOfOne(n: nat)
    ensures Power(ONE, n) == ONE
  {
    hide Times;
    if n > 0 {
      PowerOfOne(n - 1);
      TimesOne(ONE);
    }
  }

  // ---------------------------------------------------------------- sums

  /** `f(0) + ... + f(n - 1)`. */
  function Sum(f: nat -> Complex, n: nat): Complex {
    if n == 0 then ZERO else Plus(Sum(f, n - 1), f(n - 1))
  }

  lemma {:induction false} SumsAgree(f: nat -> Complex, g: nat -> Complex, n: nat)
    requires forall k: nat :: k < n ==> f(k) == g(k)
    ensures Sum(f, n) == Sum(g, n)
  {
    if n > 0 {
      SumsAgree(f, g, n - 1);
    }
  }

  lemma {:induction false} SumAdds(f: nat -> Complex, g: nat -> Complex, n: nat)
    ensures Sum((k: nat) => Plus(f(k), g(k)), n) == Plus(Sum(f, n), Sum(g, n))
  {
    if n > 0 {
      SumAdds(f, g, n - 1);
    }
  }

  lemma {:induction false} SumScales(f: nat -> Complex, c: Complex, n: nat)
    ensures Sum((k: nat) => Times(f(k), c), n) == Times(Sum(f, n), c)
  {
    hide Times;
    if n == 0 {
      TimesZero(c);
    } else {
      SumScales(f, c, n - 1);
      TimesDistributes(Sum(f, n - 1), f(n - 1), c);
    }
  }

  /** A sum over `m + n` terms in two parts. */
  lemma {:induction false} SumSplits(f: nat -> Complex, m: nat, n: nat)
    ensures Sum(f, m + n) == Plus(Sum(f, m), Sum((k: nat) => f(m + k), n))
  {
    if n > 0 {
      SumSplits(f, m, n - 1);
    }
  }

  /** The place of entry `j` of row `i` in a record with rows of `cols`. */
  function Cell(i: nat, cols: nat, j: nat): nat { i * cols + j }

  /** The sum of row `i` of a record with rows of `cols`. */
  function RowSum(f: nat -> Complex, cols: nat, i: nat): Complex {
    Sum((j: nat) => f(Cell(i, cols, j)), cols)
  }

  /** A sum over a record of `rows` rows, row by row. */
  lemma {:induction false} SumByRows(f: nat -> Complex, rows: nat, cols: nat)
    ensures Sum(f, rows * cols) == Sum((i: nat) => RowSum(f, cols, i), rows)
  {
    hide Plus;
    if rows == 0 {
      assert rows * cols == 0;
    } else {
      var start := (rows - 1) * cols;
      assert rows * cols == start + cols;
      SumByRows(f, rows - 1, cols);
      SumSplits(f, start, cols);
      var last := rows - 1;
      assert forall j: nat :: Cell(last, cols, j) == start + j;
      SumsAgree((k: nat) => f(start + k), (j: nat) => f(Cell(rows - 1, cols, j)), cols);
    }
  }

  lemma {:induction false} SumOfZeros(n: nat)
    ensures Sum((_: nat) => ZERO, n) == ZERO
  {
    if n > 0 {
      SumOfZeros(n - 1);
    }
  }

  /** The order of a double sum does not matter. */
  lemma {:induction false} SumSwaps(f: (nat, nat) -> Complex, m: nat, n: nat)
    ensures Sum((i: nat) => Sum((j: nat) => f(i, j), n), m) == Sum((j: nat) => Sum((i: nat) => f(i, j), m), n)
  {
    if m == 0 {
      SumOfZeros(n);
      SumsAgree((_: nat) => ZERO, (j: nat) => Sum((i: nat) => f(i, j), m), n);
    } else {
      SumSwaps(f, m - 1, n);
      var upper := (j: nat) => Sum((i: nat) => f(i, j), m - 1);
      var last := (j: nat) => f(m - 1, j);
      SumAdds(upper, last, n);
      SumsAgree((k: nat) => Plus(upper(k), last(k)), (j: nat) => Sum((i: nat) => f(i, j), m), n);
    }
  }

  // ---------------------------------------------------------------- the transform

  /** The root `w` at sample `j` of bin `k`. */
  function Root(w: Complex, j: nat, k: nat): Complex { Power(w, j * k) }

  function Term(x: seq<Complex>, w: Complex, k: nat, j: nat): Complex {
    if j < |x| then Times(x[j], Root(w, j, k)) else ZERO
  }

  /** Bin `k` of the discrete Fourier transform of `x` with the root `w`. */
  function Dft(x: seq<Complex>, w: Complex, k: nat): Complex {
    Sum((j: nat) => Term(x, w, k, j), |x|)
  }
}
