/**
 The twiddles read from two small tables in place of one long one, and the chunks of rows the threads take: the product
 of two row and column numbers splits into the index of each table.
 */
module TwiddleTables {
  import opened Basics
  import opened Bits
  import opened ComplexNumbers
  import opened FourStep
  import opened FourStepPasses

  // ---------------------------------------------------------------- chunks

  function Chunk(total: nat, count: nat): (chunk: nat)
    requires count >= 1
    ensures total >= 1 ==> chunk >= 1
  {
    (total + count - 1) / count
  }

  /** Chunks are no longer than they must be for the threads to get through. */
  lemma ChunkIsLeast(total: nat, count: nat)
    requires count >= 1
    ensures total <= Chunk(total, count) * count < total + count
  {
    var x := total + count - 1;
    assert x == (x / count) * count + x % count;
  }

  function ShareBegin(total: nat, index: nat, count: nat): (begin: nat)
    requires count >= 1
    ensures begin <= total
  {
    Min(total, index * Chunk(total, count))
  }

  function ShareEnd(total: nat, index: nat, count: nat): (end: nat)
    requires count >= 1
    ensures ShareBegin(total, index, count) <= end <= total
  {
    Min(total, ShareBegin(total, index, count) + Chunk(total, count))
  }

  predicate InShare(i: nat, total: nat, index: nat, count: nat)
    requires count >= 1
  {
    ShareBegin(total, index, count) <= i < ShareEnd(total, index, count)
  }

  /** The thread whose chunk holds item `i`. */
  function ChunkOwner(i: nat, total: nat, count: nat): nat
    requires count >= 1 && total >= 1
  {
    i / Chunk(total, count)
  }

  /** Every item falls into the share of one thread and no other. */
  lemma SharesPartition(total: nat, count: nat, i: nat)
    requires count >= 1 && i < total
    ensures ChunkOwner(i, total, count) < count
    ensures forall index: nat :: index < count ==>
      (InShare(i, total, index, count) <==> index == ChunkOwner(i, total, count))
  {
    var chunk := Chunk(total, count);
    var owner := ChunkOwner(i, total, count);
    EnoughChunks(total, count);
    if owner >= count {
      ProductGrows(count, owner, chunk);
      assert false;
    }
    forall index: nat | index < count
      ensures InShare(i, total, index, count) <==> index == owner
    {
      if InShare(i, total, index, count) {
        OneQuotient(owner, i % chunk, index, i - index * chunk, chunk);
      }
    }
  }

  lemma EnoughChunks(total: nat, count: nat)
    requires count >= 1 && total >= 1
    ensures Chunk(total, count) >= 1 && count * Chunk(total, count) >= total
  {
  }

  // ---------------------------------------------------------------- the two tables

  /** `i1 * i2` splits into an index of each table, both in bounds, and the entries multiply to the root at it. */
  lemma TablesGiveRoot(w: Complex, n1: nat, shift: nat, i1: nat, i2: nat)
    requires i1 < n1 && i2 < Pow2(shift)
    ensures var n2 := Pow2(shift); var product := i1 * i2;
      && 0 <= Shr(product, shift) < n1
      && 0 <= And(product, n2 - 1) < n2
      && Times(Power(Power(w, n2), Shr(product, shift)), Power(w, And(product, n2 - 1))) == Root(w, i1, i2)
  {
    hide Times, And, Power;
    var n2 := Pow2(shift);
    var product := i1 * i2;
    AndOnes(product, shift);
    ProductBelow(i1, i2, n1, n2, product);
    QuotientBelow(product, n1, n2);
    RootInParts(w, n2, product / n2, product % n2, product);
  }

  lemma RootInParts(w: Complex, n2: nat, a: nat, b: nat, product: nat)
    requires product == n2 * a + b
    ensures Times(Power(Power(w, n2), a), Power(w, b)) == Power(w, product)
  {
    hide Times, Power;
    PowerMultiplies(w, n2, a);
    PowerAdds(w, n2 * a, b);
  }

  lemma ProductBelow(i1: nat, i2: nat, n1: nat, n2: nat, product: int)
    requires i1 < n1 && i2 < n2 && product == i1 * i2
    ensures 0 <= product < n1 * n2
  {
  }

  lemma QuotientBelow(product: nat, n1: nat, n2: nat)
    requires product < n1 * n2 && n2 >= 1
    ensures 0 <= product / n2 < n1 && product == n2 * (product / n2) + product % n2
  {
  }

  /** One thread's rows of the twiddle pass, the twiddles read from the tables. */
  method TwiddleShare(
    work: array<Complex>, coarse: array<Complex>, fine: array<Complex>, n1: nat, shift: nat, w: Complex,
    beginRow: nat, endRow: nat)
    requires beginRow <= endRow <= n1 && work.Length == n1 * Pow2(shift)
    requires work != coarse && work != fine && coarse.Length == n1 && fine.Length == Pow2(shift)
    requires forall a :: 0 <= a < n1 ==> coarse[a] == Power(Power(w, Pow2(shift)), a)
    requires forall b :: 0 <= b < Pow2(shift) ==> fine[b] == Power(w, b)
    modifies work
    ensures var n2 := Pow2(shift); forall p :: 0 <= p < work.Length ==>
      work[p] == if beginRow <= ColumnAt(p, n2) < endRow
        then Times(old(work[p]), Root(w, ColumnAt(p, n2), RowAt(p, n2))) else old(work[p])
  {
    hide Times, Root, And, Power, Cell, ColumnAt, RowAt;
    var n2: nat := Pow2(shift);
    var mask := n2 - 1;
    for i1 := beginRow to endRow
      invariant forall p :: 0 <= p < work.Length ==>
        work[p] == if beginRow <= ColumnAt(p, n2) < i1
          then Times(old(work[p]), Root(w, ColumnAt(p, n2), RowAt(p, n2))) else old(work[p])
    {
      for i2 := 0 to n2
        invariant forall p :: 0 <= p < work.Length ==>
          work[p] == if beginRow <= ColumnAt(p, n2) < i1 || (ColumnAt(p, n2) == i1 && RowAt(p, n2) < i2)
            then Times(old(work[p]), Root(w, ColumnAt(p, n2), RowAt(p, n2))) else old(work[p])
      {
        InRecord(n1, n2, i1, i2);
        CellParts(i1, n2, i2);
        TablesGiveRoot(w, n1, shift, i1, i2);
        var product := i1 * i2;
        var at := Cell(i1, n2, i2);
        work[at] := Times(work[at], Times(coarse[Shr(product, shift)], fine[And(product, mask)]));
        OnlyCell(n2, n1, i1, i2);
      }
      RowsEnd(n2);
    }
  }

  /** The twiddle pass from the tables on `count` threads, run in any order: every cell is turned by its twiddle once. */
  method TwiddlePass(
    work: array<Complex>, coarse: array<Complex>, fine: array<Complex>, n1: nat, shift: nat, w: Complex,
    count: nat, order: seq<nat>)
    requires n1 >= 1 && work.Length == n1 * Pow2(shift) && count >= 1 && Schedule(order, count)
    requires work != coarse && work != fine && coarse.Length == n1 && fine.Length == Pow2(shift)
    requires forall a :: 0 <= a < n1 ==> coarse[a] == Power(Power(w, Pow2(shift)), a)
    requires forall b :: 0 <= b < Pow2(shift) ==> fine[b] == Power(w, b)
    modifies work
    ensures var n2 := Pow2(shift); forall p :: 0 <= p < work.Length ==>
      work[p] == Times(old(work[p]), Root(w, ColumnAt(p, n2), RowAt(p, n2)))
  {
    hide Times, Root, Power, InShare, ChunkOwner, ColumnAt, RowAt, Chunk;
    var n2: nat := Pow2(shift);
    ColumnsEnd(n2, n1);
    for k := 0 to |order|
      invariant forall p :: 0 <= p < work.Length ==>
        work[p] == if ChunkOwner(ColumnAt(p, n2), n1, count) in order[..k]
          then Times(old(work[p]), Root(w, ColumnAt(p, n2), RowAt(p, n2))) else old(work[p])
    {
      TwiddleShare(work, coarse, fine, n1, shift, w, ShareBegin(n1, order[k], count), ShareEnd(n1, order[k], count));
      RowsOf(n1, count, order[k]);
      assert order[..k + 1] == order[..k] + [order[k]];
    }
    assert order[..|order|] == order;
    OwnersRun(n1, count);
  }

  lemma RowsOf(n1: nat, count: nat, index: nat)
    requires n1 >= 1 && index < count
    ensures forall row: nat :: row < n1 ==>
      (ShareBegin(n1, index, count) <= row < ShareEnd(n1, index, count) <==> index == ChunkOwner(row, n1, count))
  {
    hide ShareBegin, ShareEnd, ChunkOwner;
    forall row: nat | row < n1
      ensures ShareBegin(n1, index, count) <= row < ShareEnd(n1, index, count) <==> index == ChunkOwner(row, n1, count)
    {
      SharesPartition(n1, count, row);
      assert InShare(row, n1, index, count) <==> index == ChunkOwner(row, n1, count);
    }
  }

  lemma OwnersRun(n1: nat, count: nat)
    requires n1 >= 1 && count >= 1
    ensures forall row: nat :: row < n1 ==> ChunkOwner(row, n1, count) < count
  {
  }
}
