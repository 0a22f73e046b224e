/** Small definitions shared by the models. */
module Basics {
  datatype Option<+T> = None | Some(value: T)

  function Min(a: int, b: int): int { if a < b then a else b }

  function Max(a: int, b: int): int { if a < b then b else a }

  /** `count` copies of `x`. */
  function Repeat<T>(x: T, count: nat): (s: seq<T>)
    ensures |s| == count && forall k :: 0 <= k < count ==> s[k] == x
  {
    seq(count, _ => x)
  }

  /** The elements of the given sequences, one sequence after the other. */
  function Concat<T>(parts: seq<seq<T>>): seq<T> {
    if parts == [] then [] else parts[0] + Concat(parts[1..])
  }

  lemma {:induction false} ConcatAppend<T>(a: seq<seq<T>>, b: seq<seq<T>>)
    ensures Concat(a + b) == Concat(a) + Concat(b)
  {
    if a == [] {
      assert a + b == b;
    } else {
      assert (a + b)[1..] == a[1..] + b;
      ConcatAppend(a[1..], b);
    }
  }

  lemma ConcatOne<T>(part: seq<T>)
    ensures Concat([part]) == part
  {
  }

  lemma {:induction false} ConcatEmpties<T>(count: nat)
    ensures Concat(Repeat<seq<T>>([], count)) == []
  {
    if count > 0 {
      assert Repeat<seq<T>>([], count)[1..] == Repeat<seq<T>>([], count - 1);
      ConcatEmpties<T>(count - 1);
    }
  }

  // ---------------------------------------------------------------- division

  /** A quotient and a remainder are settled by the number they make up. */
  lemma OneQuotient(q: int, r: int, i: int, j: int, m: int)
    requires q * m + r == i * m + j && 0 <= r < m && 0 <= j < m
    ensures q == i && r == j
  {
    var d := q - i;
    assert d * m == j - r;
    if d >= 1 {
      AtLeast(d, m);
    } else if d <= -1 {
      AtLeast(-d, m);
    }
  }

  lemma AtLeast(d: int, m: int)
    requires d >= 1 && m >= 0
    ensures d * m >= m
  {
  }

  lemma ProductGrows(a: int, b: int, m: nat)
    requires a <= b
    ensures a * m <= b * m
  {
  }

  lemma FactorBelow(a: int, b: int, m: nat)
    requires a * m < b * m
    ensures a < b
  {
  }

  lemma DividesAs(x: int, m: int, q: int, r: int)
    requires x == q * m + r && 0 <= r < m
    ensures x / m == q && x % m == r
  {
    OneQuotient(x / m, x % m, q, r, m);
  }

  // ---------------------------------------------------------------- reals

  /** 2 to the power -n. */
  function HalfPower(n: nat): (r: real)
    ensures 0.0 < r <= 1.0
  {
    if n == 0 then 1.0 else HalfPower(n - 1) / 2.0
  }

  /** The smallest normal double. An average below it is taken for zero. */
  const MIN_NORMAL: real := HalfPower(1022)

  function Flushed(x: real): real { if x < MIN_NORMAL then 0.0 else x }

  lemma {:induction false} HalfPowerFalls(m: nat, n: nat)
    requires m <= n
    ensures HalfPower(n) <= HalfPower(m)
  {
    if m < n {
      HalfPowerFalls(m, n - 1);
    }
  }

  lemma PositiveProduct(x: real, y: real, product: real)
    requires 0.0 < x && 0.0 < y && product == x * y
    ensures 0.0 < product
  {
  }

  lemma NotNegative(x: real, y: real, product: real)
    requires 0.0 <= x && 0.0 <= y && product == x * y
    ensures 0.0 <= product
  {
  }
}
