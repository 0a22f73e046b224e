/**
 The four-step transform of a record of n1 x n2 samples in five passes: a transposing copy, n2 transforms of length n1,
 a transpose that applies the twiddles, n1 transforms of length n2, and a transpose into bin order. Each pass is shared
 out among threads in blocks of rows. The result is the transform of the whole record.
 */
module FourStep {
  import opened ComplexNumbers

  // ---------------------------------------------------------------- the split, as algebra

  /** Column `j` of the record read as n1 rows of n2. */
  function Column(x: seq<Complex>, n1: nat, n2: nat, j: nat): (r: seq<Complex>)
    requires |x| == n1 * n2 && j < n2
    ensures |r| == n1
  {
    seq(n1, i requires 0 <= i < n1 => InRecord(n1, n2, i, j); x[Cell(i, n2, j)])
  }

  lemma InRecord(rows: nat, cols: nat, i: nat, j: nat)
    requires i < rows && j < cols
    ensures Cell(i, cols, j) < rows * cols
  {
    assert i * cols <= (rows - 1) * cols;
  }

  /** What the first four passes leave at row `k1`: the bins `k1` of the columns, each turned by its twiddle. */
  function TurnedRow(x: seq<Complex>, w: Complex, n1: nat, n2: nat, k1: nat): (r: seq<Complex>)
    requires |x| == n1 * n2
    ensures |r| == n2
  {
    seq(n2, j requires 0 <= j < n2 => Times(Dft(Column(x, n1, n2, j), Power(w, n2), k1), Root(w, j, k1)))
  }

  /** Moving a factor through a product of four. */
  lemma Regroup(x: Complex, a: Complex, b: Complex, c: Complex)
    ensures Times(x, Times(Times(a, b), c)) == Times(Times(Times(x, a), b), c)
  {
  }

  /** The root at (i n2 + j)(k2 n1 + k1): whole turns fall away, and the rest is the three roots of the passes. */
  lemma RootSplits(w: Complex, n1: nat, n2: nat, i: nat, j: nat, k1: nat, k2: nat)
    requires Power(w, n1 * n2) == ONE
    ensures Root(w, Cell(i, n2, j), Cell(k2, n1, k1))
      == Times(Times(Root(Power(w, n2), i, k1), Root(w, j, k1)), Root(Power(w, n1), j, k2))
  {
    hide Times, Power, Cell;
    var order, turns, a, b, c := n1 * n2, i * k2, n2 * (i * k1), j * k1, n1 * (j * k2);
    var e := order * turns + ((a + b) + c);
    assert Cell(i, n2, j) * Cell(k2, n1, k1) == e by { ExponentSplits(n1, n2, i, j, k1, k2); }
    PowerMultiplies(w, n2, i * k1);
    PowerMultiplies(w, n1, j * k2);
    TurnsFallAway(w, order, turns, a, b, c);
  }

  lemma TurnsFallAway(w: Complex, order: nat, turns: nat, a: nat, b: nat, c: nat)
    requires Power(w, order) == ONE
    ensures Power(w, order * turns + ((a + b) + c)) == Times(Times(Power(w, a), Power(w, b)), Power(w, c))
  {
    hide Times, Power;
    PowerAdds(w, order * turns, (a + b) + c);
    PowerOfRoot(w, order, turns);
    TimesOne(Power(w, (a + b) + c));
    PowerAdds(w, a + b, c);
    PowerAdds(w, a, b);
  }

  lemma ExponentSplits(n1: nat, n2: nat, i: nat, j: nat, k1: nat, k2: nat)
    ensures Cell(i, n2, j) * Cell(k2, n1, k1) == (n1 * n2) * (i * k2) + ((n2 * (i * k1) + j * k1) + n1 * (j * k2))
  {
  }

  /** Column `j`'s part of bin k2 n1 + k1 of the whole record. */
  lemma ColumnPart(x: seq<Complex>, w: Complex, n1: nat, n2: nat, j: nat, k1: nat, k2: nat)
    requires |x| == n1 * n2 && Power(w, n1 * n2) == ONE && j < n2
    ensures Sum((i: nat) => Term(x, w, Cell(k2, n1, k1), Cell(i, n2, j)), n1)
      == Times(TurnedRow(x, w, n1, n2, k1)[j], Root(Power(w, n1), j, k2))
  {
    hide Times, Root, Cell;
    var b := Root(w, j, k1);
    var c := Root(Power(w, n1), j, k2);
    var column := Column(x, n1, n2, j);
    var whole := (i: nat) => Term(x, w, Cell(k2, n1, k1), Cell(i, n2, j));
    var inner := (i: nat) => Term(column, Power(w, n2), k1, i);
    var middle := (i: nat) => Times(inner(i), b);
    forall i: nat | i < n1
      ensures whole(i) == Times(middle(i), c)
    {
      InRecord(n1, n2, i, j);
      RootSplits(w, n1, n2, i, j, k1, k2);
      Regroup(x[Cell(i, n2, j)], Root(Power(w, n2), i, k1), b, c);
    }
    SumsAgree(whole, (i: nat) => Times(middle(i), c), n1);
    SumScales(middle, c, n1);
    SumScales(inner, b, n1);
  }

  /** Transforming the turned rows gives the transform of the whole record. */
  lemma FourStepIsDft(x: seq<Complex>, w: Complex, n1: nat, n2: nat, k1: nat, k2: nat)
    requires |x| == n1 * n2 && Power(w, n1 * n2) == ONE
    ensures Dft(TurnedRow(x, w, n1, n2, k1), Power(w, n1), k2) == Dft(x, w, Cell(k2, n1, k1))
  {
    hide Times, Root, Term, Cell;
    var k := Cell(k2, n1, k1);
    var whole := (p: nat) => Term(x, w, k, p);
    var cell := (i: nat, j: nat) => whole(Cell(i, n2, j));
    SumByRows(whole, n1, n2);
    forall i: nat | i < n1
      ensures RowSum(whole, n2, i) == Sum((j: nat) => cell(i, j), n2)
    {
      SumsAgree((j: nat) => whole(Cell(i, n2, j)), (j: nat) => cell(i, j), n2);
    }
    SumsAgree((i: nat) => RowSum(whole, n2, i), (i: nat) => Sum((j: nat) => cell(i, j), n2), n1);
    SumSwaps(cell, n1, n2);
    var row := TurnedRow(x, w, n1, n2, k1);
    var bin := (j: nat) => Term(row, Power(w, n1), k2, j);
    forall j: nat | j < n2
      ensures Sum((i: nat) => cell(i, j), n1) == bin(j)
    {
      SumsAgree((i: nat) => cell(i, j), (i: nat) => Term(x, w, k, Cell(i, n2, j)), n1);
      ColumnPart(x, w, n1, n2, j, k1, k2);
      TermOf(row, Power(w, n1), k2, j);
    }
    SumsAgree((j: nat) => Sum((i: nat) => cell(i, j), n1), bin, n2);
  }

  lemma TermOf(x: seq<Complex>, w: Complex, k: nat, j: nat)
    requires j < |x|
    ensures Term(x, w, k, j) == Times(x[j], Root(w, j, k))
  {
  }
}
