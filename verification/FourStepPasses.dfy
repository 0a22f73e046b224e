/**
 The five passes on records in memory. Every pass is a loop over the threads' shares, run in any order of the threads.
 Each cell of a record is written once, by one thread, and the record that results does not depend on the order.
 */
module FourStepPasses {
  import opened Basics
  import opened ComplexNumbers
  import opened FourStep

  const BLOCK: nat := 32

  // ---------------------------------------------------------------- shares

  /** The orders in which `count` threads can run: each of them once. */
  ghost predicate Schedule(order: seq<nat>, count: nat) {
    && (forall k :: 0 <= k < |order| ==> order[k] < count)
    && (forall id :: 0 <= id < count ==> id in order)
    && (forall j, k :: 0 <= j < k < |order| ==> order[j] != order[k])
  }

  /** The thread that moves row `i`: blocks of rows are dealt out in turn. */
  function BlockOwner(i: nat, count: nat): (id: nat)
    requires count >= 1
    ensures id < count
  {
    (i / BLOCK) % count
  }

  /** The place `p` of a transposed record: the row it came from. */
  function RowAt(p: nat, rows: nat): nat
    requires rows >= 1
  {
    p % rows
  }

  /** The column it came from. */
  function ColumnAt(p: nat, rows: nat): nat
    requires rows >= 1
  {
    p / rows
  }

  lemma CellParts(i: nat, cols: nat, j: nat)
    requires j < cols
    ensures Cell(i, cols, j) / cols == i && Cell(i, cols, j) % cols == j
    ensures ColumnAt(Cell(i, cols, j), cols) == i && RowAt(Cell(i, cols, j), cols) == j
  {
    var p := Cell(i, cols, j);
    OneQuotient(p / cols, p % cols, i, j, cols);
  }

  lemma PartsInRecord(p: nat, rows: nat, cols: nat)
    requires p < cols * rows && rows >= 1
    ensures p % rows < rows && p / rows < cols && Cell(p / rows, rows, p % rows) == p
    ensures RowAt(p, rows) == p % rows && ColumnAt(p, rows) == p / rows
    ensures Cell(p % rows, cols, p / rows) < rows * cols
  {
    var q := p / rows;
    assert q < cols by {
      if q >= cols {
        ProductGrows(cols, q, rows);
      }
    }
    InRecord(rows, cols, p % rows, q);
  }

  /** Entry `p` of the transpose of a record of `rows` rows. */
  function Transposed(values: seq<Complex>, rows: nat, cols: nat, p: nat): Complex
    requires |values| == rows * cols && p < cols * rows && rows >= 1
  {
    PartsInRecord(p, rows, cols);
    values[Cell(p % rows, cols, p / rows)]
  }

  predicate InBlock(p: nat, rows: nat, r: nat, c: nat)
    requires rows >= 1
  {
    r <= RowAt(p, rows) < r + BLOCK && c <= ColumnAt(p, rows) < c + BLOCK
  }

  /** What a transposing pass moves from each cell: the sample, times its twiddle where the pass applies twiddles. */
  ghost predicate Carries(values: seq<Complex>, src: seq<Complex>, twiddles: Option<seq<Complex>>) {
    && |values| == |src|
    && (twiddles.Some? ==> |twiddles.value| == |src|)
    && forall c :: 0 <= c < |src| ==>
         values[c] == if twiddles.Some? then Times(src[c], twiddles.value[c]) else src[c]
  }

  ghost function Contents(a: Option<array<Complex>>): Option<seq<Complex>>
    reads if a.Some? then {a.value} else {}
  {
    if a.Some? then Some(a.value[..]) else None
  }

  /** Moves one block, from row `r` and column `c` on. `counts` counts the writes of every cell. */
  method TransposeBlock(
    src: array<Complex>, twiddles: Option<array<Complex>>, dst: array<Complex>, rows: nat, cols: nat, r: nat, c: nat,
    ghost values: seq<Complex>, ghost counts: seq<nat>) returns (ghost counted: seq<nat>)
    requires rows >= 1 && cols >= 1 && src.Length == rows * cols && dst.Length == |counts| == cols * rows
    requires dst != src && (twiddles.Some? ==> dst != twiddles.value)
    requires Carries(values, src[..], Contents(twiddles))
    modifies dst
    ensures |counted| == |counts|
    ensures forall p :: 0 <= p < dst.Length ==>
      if InBlock(p, rows, r, c)
      then dst[p] == Transposed(values, rows, cols, p) && counted[p] == counts[p] + 1
      else dst[p] == old(dst[p]) && counted[p] == counts[p]
  {
    hide Cell, Times;
    counted := counts;
    var i := r;
    while i < Min(r + BLOCK, rows)
      invariant r <= i <= Max(r, Min(r + BLOCK, rows)) && |counted| == |counts|
      invariant forall p :: 0 <= p < dst.Length ==>
        if InBlock(p, rows, r, c) && RowAt(p, rows) < i
        then dst[p] == Transposed(values, rows, cols, p) && counted[p] == counts[p] + 1
        else dst[p] == old(dst[p]) && counted[p] == counts[p]
    {
      var j := c;
      while j < Min(c + BLOCK, cols)
        invariant c <= j <= Max(c, Min(c + BLOCK, cols)) && |counted| == |counts|
        invariant forall p :: 0 <= p < dst.Length ==>
          if InBlock(p, rows, r, c) && (RowAt(p, rows) < i || (RowAt(p, rows) == i && ColumnAt(p, rows) < j))
          then dst[p] == Transposed(values, rows, cols, p) && counted[p] == counts[p] + 1
          else dst[p] == old(dst[p]) && counted[p] == counts[p]
      {
        InRecord(rows, cols, i, j);
        InRecord(cols, rows, j, i);
        CellParts(j, rows, i);
        var from := Cell(i, cols, j);
        var to := Cell(j, rows, i);
        dst[to] := if twiddles.Some? then Times(src[from], twiddles.value[from]) else src[from];
        counted := counted[to := counted[to] + 1];
        forall p: nat | p < dst.Length && RowAt(p, rows) == i && ColumnAt(p, rows) == j
          ensures p == to
        {
          PartsInRecord(p, rows, cols);
        }
        j := j + 1;
      }
      forall p: nat | p < dst.Length
        ensures ColumnAt(p, rows) < cols
      {
        PartsInRecord(p, rows, cols);
      }
      i := i + 1;
    }
    forall p: nat | p < dst.Length
      ensures RowAt(p, rows) < rows
    {
    }
  }

  /** Moves one band of rows, block by block. */
  method TransposeBand(
    src: array<Complex>, twiddles: Option<array<Complex>>, dst: array<Complex>, rows: nat, cols: nat, r: nat,
    ghost values: seq<Complex>, ghost counts: seq<nat>) returns (ghost counted: seq<nat>)
    requires rows >= 1 && cols >= 1 && src.Length == rows * cols && dst.Length == |counts| == cols * rows
    requires dst != src && (twiddles.Some? ==> dst != twiddles.value)
    requires Carries(values, src[..], Contents(twiddles)) && |values| == rows * cols
    modifies dst
    ensures |counted| == |counts|
    ensures forall p :: 0 <= p < dst.Length ==>
      if r <= RowAt(p, rows) < r + BLOCK
      then dst[p] == Transposed(values, rows, cols, p) && counted[p] == counts[p] + 1
      else dst[p] == old(dst[p]) && counted[p] == counts[p]
  {
    hide Transposed, Carries, Contents, RowAt, ColumnAt;
    counted := counts;
    var c := 0;
    while c < cols
      invariant |counted| == |counts|
      invariant Carries(values, src[..], Contents(twiddles))
      invariant forall p :: 0 <= p < dst.Length ==>
        if r <= RowAt(p, rows) < r + BLOCK && ColumnAt(p, rows) < c
        then dst[p] == Transposed(values, rows, cols, p) && counted[p] == counts[p] + 1
        else dst[p] == old(dst[p]) && counted[p] == counts[p]
    {
      counted := TransposeBlock(src, twiddles, dst, rows, cols, r, c, values, counted);
      c := c + BLOCK;
    }
    ColumnsEnd(rows, cols);
  }

  lemma ColumnsEnd(rows: nat, cols: nat)
    requires rows >= 1
    ensures forall p: nat :: p < cols * rows ==> ColumnAt(p, rows) < cols
  {
  }

  /** The share of thread `id` in a transposing pass. */
  method TransposeShare(
    src: array<Complex>, twiddles: Option<array<Complex>>, dst: array<Complex>, rows: nat, cols: nat, id: nat, count: nat,
    ghost values: seq<Complex>, ghost counts: seq<nat>) returns (ghost counted: seq<nat>)
    requires rows >= 1 && cols >= 1 && src.Length == rows * cols && dst.Length == |counts| == cols * rows
    requires dst != src && (twiddles.Some? ==> dst != twiddles.value)
    requires Carries(values, src[..], Contents(twiddles)) && |values| == rows * cols && id < count
    modifies dst
    ensures |counted| == |counts|
    ensures forall p :: 0 <= p < dst.Length ==>
      if BlockOwner(RowAt(p, rows), count) == id
      then dst[p] == Transposed(values, rows, cols, p) && counted[p] == counts[p] + 1
      else dst[p] == old(dst[p]) && counted[p] == counts[p]
  {
    hide Transposed, Carries, BlockOwner, RowAt;
    counted := counts;
    ghost var band := id;
    var r := id * BLOCK;
    OwnersFrom(id, id, count);
    while r < rows
      invariant r == band * BLOCK && band % count == id && |counted| == |counts|
      invariant Carries(values, src[..], Contents(twiddles))
      invariant forall p :: 0 <= p < dst.Length ==>
        if BlockOwner(RowAt(p, rows), count) == id && RowAt(p, rows) < r
        then dst[p] == Transposed(values, rows, cols, p) && counted[p] == counts[p] + 1
        else dst[p] == old(dst[p]) && counted[p] == counts[p]
      decreases rows - r
    {
      counted := TransposeBand(src, twiddles, dst, rows, cols, r, values, counted);
      OwnersFrom(band, id, count);
      band := band + count;
      r := r + count * BLOCK;
    }
    RowsEnd(rows);
  }

  lemma RowsEnd(rows: nat)
    requires rows >= 1
    ensures forall p: nat :: RowAt(p, rows) < rows
  {
  }

  /** From a band of thread `id` to its next one, the rows of the other bands belong to others. */
  lemma OwnersFrom(band: nat, id: nat, count: nat)
    requires id < count && band % count == id
    ensures (band + count) % count == id
    ensures band < count ==> forall i: nat :: i < band * BLOCK ==> BlockOwner(i, count) != id
    ensures forall i: nat :: band * BLOCK <= i < (band + count) * BLOCK ==>
      (BlockOwner(i, count) == id <==> i < band * BLOCK + BLOCK)
  {
    OneQuotient((band + count) / count, (band + count) % count, band / count + 1, id, count);
    forall i: nat | band * BLOCK <= i < (band + count) * BLOCK
      ensures BlockOwner(i, count) == id <==> i < band * BLOCK + BLOCK
    {
      var q := i / BLOCK;
      if q != band && q % count == id {
        var d := q / count - band / count;
        assert d * count == q - band;
        AtLeast(d, count);
        assert false;
      }
    }
    if band < count {
      assert band / count == 0 && band == id;
      forall i: nat | i < band * BLOCK
        ensures BlockOwner(i, count) != id
      {
        assert i / BLOCK < band;
        OneQuotient((i / BLOCK) / count, (i / BLOCK) % count, 0, i / BLOCK, count);
      }
    }
  }

  // ---------------------------------------------------------------- finer interleavings

  /** The record after the cells of `order` are written in that order, each with its value of `values`. */
  function Written(dst: seq<Complex>, values: seq<Complex>, order: seq<nat>): (r: seq<Complex>)
    requires |dst| == |values| && forall k :: 0 <= k < |order| ==> order[k] < |dst|
    ensures |r| == |dst|
  {
    if order == [] then dst
    else
      var last := |order| - 1;
      Written(dst, values, order[..last])[order[last] := values[order[last]]]
  }

  lemma {:induction false} WrittenAt(dst: seq<Complex>, values: seq<Complex>, order: seq<nat>, p: nat)
    requires |dst| == |values| && p < |dst| && forall k :: 0 <= k < |order| ==> order[k] < |dst|
    ensures Written(dst, values, order)[p] == if p in order then values[p] else dst[p]
  {
    if order == [] {
      assert Written(dst, values, order) == dst;
    } else {
      var last := |order| - 1;
      WrittenAt(dst, values, order[..last], p);
      assert order == order[..last] + [order[last]];
    }
  }

  /** The writes of single cells, of all the threads together in any interleaving, that reach every cell. */
  ghost predicate Covers(order: seq<nat>, n: nat) {
    && (forall k :: 0 <= k < |order| ==> order[k] < n)
    && (forall p: nat :: p < n ==> p in order)
  }

  /** Every interleaving of the writes of a pass leaves the record `after`. */
  ghost predicate AnyInterleaving(before: seq<Complex>, values: seq<Complex>, after: seq<Complex>)
    requires |before| == |values|
  {
    forall order: seq<nat> :: Covers(order, |before|) ==> Written(before, values, order) == after
  }

  lemma WritesCommute(before: seq<Complex>, values: seq<Complex>)
    requires |before| == |values|
    ensures AnyInterleaving(before, values, values)
  {
    hide Written;
    forall order: seq<nat> | Covers(order, |before|) ensures Written(before, values, order) == values {
      forall p: nat | p < |values| ensures Written(before, values, order)[p] == values[p] {
        WrittenAt(before, values, order, p);
      }
    }
  }

  /** All entries of the transpose. */
  ghost function TransposedRecord(values: seq<Complex>, rows: nat, cols: nat): (r: seq<Complex>)
    requires |values| == rows * cols && rows >= 1
    ensures |r| == cols * rows
  {
    seq(cols * rows, p requires 0 <= p < cols * rows => Transposed(values, rows, cols, p))
  }

  /** All rows transformed. */
  ghost function TransformedRecord(x: seq<Complex>, rows: nat, n: nat, w: Complex): (r: seq<Complex>)
    requires |x| == rows * n && n >= 1
    ensures |r| == rows * n
  {
    seq(rows * n, p requires 0 <= p < rows * n => Transformed(x, rows, n, w, p))
  }

  // ---------------------------------------------------------------- whole passes

  /** A transposing pass: the threads' shares, in any order. */
  method TransposePass(
    src: array<Complex>, twiddles: Option<array<Complex>>, dst: array<Complex>, rows: nat, cols: nat, count: nat,
    order: seq<nat>, ghost values: seq<Complex>) returns (ghost counted: seq<nat>)
    requires rows >= 1 && cols >= 1 && src.Length == rows * cols && dst.Length == cols * rows
    requires dst != src && (twiddles.Some? ==> dst != twiddles.value)
    requires Carries(values, src[..], Contents(twiddles)) && |values| == rows * cols
    requires count >= 1 && Schedule(order, count)
    modifies dst
    ensures counted == Repeat(1, dst.Length)
    ensures forall p :: 0 <= p < dst.Length ==> dst[p] == Transposed(values, rows, cols, p)
    ensures AnyInterleaving(old(dst[..]), TransposedRecord(values, rows, cols), dst[..])
  {
    hide Transposed, Carries, BlockOwner, RowAt, AnyInterleaving;
    counted := Repeat(0, dst.Length);
    for k := 0 to |order|
      invariant |counted| == dst.Length && Carries(values, src[..], Contents(twiddles))
      invariant forall p :: 0 <= p < dst.Length ==>
        if BlockOwner(RowAt(p, rows), count) in order[..k]
        then dst[p] == Transposed(values, rows, cols, p) && counted[p] == 1
        else counted[p] == 0
    {
      counted := TransposeShare(src, twiddles, dst, rows, cols, order[k], count, values, counted);
      assert order[..k + 1] == order[..k] + [order[k]];
    }
    assert order[..|order|] == order;
    WritesCommute(old(dst[..]), TransposedRecord(values, rows, cols));
    assert dst[..] == TransposedRecord(values, rows, cols);
  }

  /** Row `i` of a record with rows of `n`. */
  function Row(x: seq<Complex>, rows: nat, n: nat, i: nat): (r: seq<Complex>)
    requires |x| == rows * n && i < rows
    ensures |r| == n
  {
    seq(n, j requires 0 <= j < n => InRecord(rows, n, i, j); x[Cell(i, n, j)])
  }

  /** Entry `p` of the record whose rows are the transforms of those of `x`. */
  function Transformed(x: seq<Complex>, rows: nat, n: nat, w: Complex, p: nat): Complex
    requires |x| == rows * n && n >= 1 && p < rows * n
  {
    PartsInRecord(p, n, rows);
    Dft(Row(x, rows, n, p / n), w, p % n)
  }

  /** One short transform, stated as its sum: the engine that computes it is not part of this model. */
  method ShortTransform(
    src: array<Complex>, dst: array<Complex>, rows: nat, n: nat, w: Complex, i: nat, ghost counts: seq<nat>)
    returns (ghost counted: seq<nat>)
    requires n >= 1 && src.Length == dst.Length == |counts| == rows * n && src != dst && i < rows
    modifies dst
    ensures |counted| == |counts|
    ensures forall p :: 0 <= p < dst.Length ==>
      if p / n == i then dst[p] == Transformed(src[..], rows, n, w, p) && counted[p] == counts[p] + 1
      else dst[p] == old(dst[p]) && counted[p] == counts[p]
  {
    hide Cell, Dft;
    counted := counts;
    var row := Row(src[..], rows, n, i);
    for k := 0 to n
      invariant |counted| == |counts|
      invariant forall p :: 0 <= p < dst.Length ==>
        if p / n == i && p % n < k then dst[p] == Dft(row, w, p % n) && counted[p] == counts[p] + 1
        else dst[p] == old(dst[p]) && counted[p] == counts[p]
    {
      InRecord(rows, n, i, k);
      CellParts(i, n, k);
      var to := Cell(i, n, k);
      dst[to] := Dft(row, w, k);
      counted := counted[to := counted[to] + 1];
      forall p: nat | p < dst.Length && p / n == i && p % n == k
        ensures p == to
      {
        PartsInRecord(p, n, rows);
      }
    }
  }

  /** The share of thread `id` in a pass of row transforms: every `count`-th row. */
  method TransformShare(
    src: array<Complex>, dst: array<Complex>, rows: nat, n: nat, w: Complex, id: nat, count: nat, ghost counts: seq<nat>)
    returns (ghost counted: seq<nat>)
    requires n >= 1 && src.Length == dst.Length == |counts| == rows * n && src != dst && id < count
    modifies dst
    ensures |counted| == |counts|
    ensures forall p :: 0 <= p < dst.Length ==>
      if (p / n) % count == id then dst[p] == Transformed(src[..], rows, n, w, p) && counted[p] == counts[p] + 1
      else dst[p] == old(dst[p]) && counted[p] == counts[p]
  {
    hide Transformed;
    counted := counts;
    ghost var x := src[..];
    var r := id;
    RowsFrom(id, id, count);
    while r < rows
      invariant r % count == id && |counted| == |counts| && src[..] == x
      invariant forall p :: 0 <= p < dst.Length ==>
        if (p / n) % count == id && p / n < r then dst[p] == Transformed(x, rows, n, w, p) && counted[p] == counts[p] + 1
        else dst[p] == old(dst[p]) && counted[p] == counts[p]
      decreases rows - r
    {
      counted := ShortTransform(src, dst, rows, n, w, r, counted);
      RowsFrom(r, id, count);
      r := r + count;
    }
    forall p: nat | p < dst.Length
      ensures p / n < r
    {
      PartsInRecord(p, n, rows);
    }
  }

  lemma RowsFrom(r: nat, id: nat, count: nat)
    requires id < count && r % count == id
    ensures (r + count) % count == id
    ensures r < count ==> forall q: nat :: q < r ==> q % count != id
    ensures forall q: nat :: r < q < r + count ==> q % count != id
  {
    OneQuotient((r + count) / count, (r + count) % count, r / count + 1, id, count);
    forall q: nat | r < q < r + count
      ensures q % count != id
    {
      if q % count == id {
        var d := q / count - r / count;
        assert d * count == q - r;
        AtLeast(d, count);
        assert false;
      }
    }
    forall q: nat | q < r < count
      ensures q % count != id
    {
      OneQuotient(q / count, q % count, 0, q, count);
      OneQuotient(r / count, r % count, 0, r, count);
    }
  }

  /** A pass of row transforms: the threads' shares, in any order. */
  method TransformPass(
    src: array<Complex>, dst: array<Complex>, rows: nat, n: nat, w: Complex, count: nat, order: seq<nat>)
    returns (ghost counted: seq<nat>)
    requires n >= 1 && src.Length == dst.Length == rows * n && src != dst
    requires count >= 1 && Schedule(order, count)
    modifies dst
    ensures counted == Repeat(1, dst.Length)
    ensures forall p :: 0 <= p < dst.Length ==> dst[p] == Transformed(src[..], rows, n, w, p)
    ensures AnyInterleaving(old(dst[..]), TransformedRecord(src[..], rows, n, w), dst[..])
  {
    hide Transformed, AnyInterleaving;
    counted := Repeat(0, dst.Length);
    ghost var x := src[..];
    for k := 0 to |order|
      invariant |counted| == dst.Length && src[..] == x
      invariant forall p :: 0 <= p < dst.Length ==>
        if (p / n) % count in order[..k] then dst[p] == Transformed(x, rows, n, w, p) && counted[p] == 1
        else counted[p] == 0
    {
      counted := TransformShare(src, dst, rows, n, w, order[k], count, counted);
      assert order[..k + 1] == order[..k] + [order[k]];
    }
    assert order[..|order|] == order;
    WritesCommute(old(dst[..]), TransformedRecord(x, rows, n, w));
    assert dst[..] == TransformedRecord(x, rows, n, w);
  }

  // ---------------------------------------------------------------- the five passes

  /** The twiddle table, laid out as the record the column transforms write. */
  method TwiddleTable(n1: nat, n2: nat, w: Complex) returns (twiddles: array<Complex>)
    requires n1 >= 1
    ensures fresh(twiddles) && twiddles.Length == n2 * n1
    ensures forall c :: 0 <= c < twiddles.Length ==> twiddles[c] == Root(w, ColumnAt(c, n1), RowAt(c, n1))
  {
    hide Root, Cell, RowAt, ColumnAt;
    twiddles := new Complex[n2 * n1](_ => ZERO);
    for i2 := 0 to n2
      invariant forall c :: 0 <= c < twiddles.Length && ColumnAt(c, n1) < i2 ==>
        twiddles[c] == Root(w, ColumnAt(c, n1), RowAt(c, n1))
    {
      for k1 := 0 to n1
        invariant forall c :: 0 <= c < twiddles.Length ==>
          ColumnAt(c, n1) < i2 || (ColumnAt(c, n1) == i2 && RowAt(c, n1) < k1) ==>
            twiddles[c] == Root(w, ColumnAt(c, n1), RowAt(c, n1))
      {
        InRecord(n2, n1, i2, k1);
        CellParts(i2, n1, k1);
        twiddles[Cell(i2, n1, k1)] := Root(w, i2, k1);
        OnlyCell(n1, n2, i2, k1);
      }
      RowsEnd(n1);
    }
    ColumnsEnd(n1, n2);
  }

  lemma OnlyCell(n1: nat, n2: nat, i2: nat, k1: nat)
    requires n1 >= 1
    ensures forall c: nat :: c < n2 * n1 && ColumnAt(c, n1) == i2 && RowAt(c, n1) == k1 ==> c == Cell(i2, n1, k1)
  {
  }

  /**
   The whole transform of `signal` on `count` threads, which run each pass in the order given for it. Every pass writes
   every cell once, and bin k of the transform ends at place k.
   */
  method Transform(signal: array<Complex>, n1: nat, n2: nat, w: Complex, count: nat, orders: seq<seq<nat>>)
    returns (out: array<Complex>, ghost writes: seq<seq<nat>>)
    requires n1 >= 1 && n2 >= 1 && signal.Length == n1 * n2 && Power(w, n1 * n2) == ONE
    requires count >= 1 && |orders| == 5 && forall k :: 0 <= k < 5 ==> Schedule(orders[k], count)
    ensures fresh(out) && out.Length == n1 * n2
    ensures forall k :: 0 <= k < out.Length ==> out[k] == Dft(signal[..], w, k)
    ensures |writes| == 5 && forall k :: 0 <= k < 5 ==> writes[k] == Repeat(1, n1 * n2)
  {
    hide Transposed, Transformed, Carries, Dft, Power, Schedule;
    var a := new Complex[n2 * n1](_ => ZERO);
    var b := new Complex[n2 * n1](_ => ZERO);
    out := new Complex[n1 * n2](_ => ZERO);
    var twiddles := TwiddleTable(n1, n2, w);
    ghost var x := signal[..];
    CarriesPlain(x);
    ghost var c0 := TransposePass(signal, None, a, n1, n2, count, orders[0], x);
    ghost var columns := a[..];
    ghost var c1 := TransformPass(a, b, n2, n1, Power(w, n2), count, orders[1]);
    ghost var turned := Products(b[..], twiddles[..]);
    CarriesProducts(b[..], twiddles[..]);
    ghost var bins := b[..];
    ghost var c2 := TransposePass(b, Some(twiddles), a, n2, n1, count, orders[2], turned);
    ghost var rows := a[..];
    ghost var c3 := TransformPass(a, b, n1, n2, Power(w, n1), count, orders[3]);
    CarriesPlain(b[..]);
    ghost var last := b[..];
    ghost var c4 := TransposePass(b, None, out, n1, n2, count, orders[4], last);
    writes := [c0, c1, c2, c3, c4];
    forall k | 0 <= k < n1 * n2
      ensures out[k] == Dft(x, w, k)
    {
      BinInPlace(x, columns, bins, twiddles[..], turned, rows, last, n1, n2, w, k);
    }
  }

  ghost function Products(x: seq<Complex>, y: seq<Complex>): (r: seq<Complex>)
    requires |x| == |y|
    ensures |r| == |x|
  {
    seq(|x|, c requires 0 <= c < |x| => Times(x[c], y[c]))
  }

  lemma CarriesPlain(x: seq<Complex>)
    ensures Carries(x, x, None)
  {
  }

  lemma CarriesProducts(x: seq<Complex>, y: seq<Complex>)
    requires |x| == |y|
    ensures Carries(Products(x, y), x, Some(y))
  {
  }

  /** What the passes leave at place `k`, followed back to the signal. */
  lemma BinInPlace(
    x: seq<Complex>, columns: seq<Complex>, bins: seq<Complex>, twiddles: seq<Complex>, turned: seq<Complex>,
    rows: seq<Complex>, last: seq<Complex>, n1: nat, n2: nat, w: Complex, k: nat)
    requires n1 >= 1 && n2 >= 1 && Power(w, n1 * n2) == ONE && k < n1 * n2
    requires |x| == n1 * n2 && |columns| == |bins| == |twiddles| == |turned| == n2 * n1 && |rows| == |last| == n1 * n2
    requires forall p :: 0 <= p < n2 * n1 ==> columns[p] == Transposed(x, n1, n2, p)
    requires forall p :: 0 <= p < n2 * n1 ==> bins[p] == Transformed(columns, n2, n1, Power(w, n2), p)
    requires forall p :: 0 <= p < n2 * n1 ==> twiddles[p] == Root(w, ColumnAt(p, n1), RowAt(p, n1))
    requires turned == Products(bins, twiddles)
    requires forall p :: 0 <= p < n1 * n2 ==> rows[p] == Transposed(turned, n2, n1, p)
    requires forall p :: 0 <= p < n1 * n2 ==> last[p] == Transformed(rows, n1, n2, Power(w, n1), p)
    ensures Transposed(last, n1, n2, k) == Dft(x, w, k)
  {
    hide Dft, Power, Root, Times, Cell;
    PartsInRecord(k, n1, n2);
    var k1 := k % n1;
    var k2 := k / n1;
    forall j: nat | j < n2
      ensures Row(columns, n2, n1, j) == Column(x, n1, n2, j)
    {
      forall i: nat | i < n1
        ensures Row(columns, n2, n1, j)[i] == Column(x, n1, n2, j)[i]
      {
        InRecord(n2, n1, j, i);
        CellParts(j, n1, i);
      }
    }
    forall j: nat | j < n2
      ensures Row(rows, n1, n2, k1)[j] == TurnedRow(x, w, n1, n2, k1)[j]
    {
      InRecord(n1, n2, k1, j);
      CellParts(k1, n2, j);
      InRecord(n2, n1, j, k1);
      CellParts(j, n1, k1);
    }
    assert Row(rows, n1, n2, k1) == TurnedRow(x, w, n1, n2, k1);
    InRecord(n1, n2, k1, k2);
    CellParts(k1, n2, k2);
    FourStepIsDft(x, w, n1, n2, k1, k2);
  }
}
