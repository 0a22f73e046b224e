/** Bit operations on two's complement integers of any width, and powers of two. */
module Bits {
  import opened Basics

  function Pow2(n: nat): (r: int)
    ensures r >= 1
  {
    if n == 0 then 1 else 2 * Pow2(n - 1)
  }

  /** The bits two integers share, the sign extended for ever. */
  function And(x: int, y: int): int
    decreases if x < 0 then -x else x
  {
    if x == 0 then 0
    else if x == -1 then y
    else 2 * And(x / 2, y / 2) + if x % 2 == 1 && y % 2 == 1 then 1 else 0
  }

  function Not(x: int): int { -1 - x }

  function Or(x: int, y: int): int { Not(And(Not(x), Not(y))) }

  /** The arithmetic shift to the right: the bits below are lost, the sign stays. */
  function Shr(x: int, n: nat): int { x / Pow2(n) }

  lemma {:induction false} Pow2Adds(m: nat, n: nat)
    ensures Pow2(m + n) == Pow2(m) * Pow2(n)
  {
    if m == 0 {
      assert Pow2(0) == 1;
    } else {
      Pow2Adds(m - 1, n);
      assert (m - 1) + n == m + n - 1;
    }
  }

  lemma {:induction false} Pow2Grows(m: nat, n: nat)
    requires m <= n
    ensures Pow2(m) <= Pow2(n)
  {
    if m < n {
      Pow2Grows(m, n - 1);
    }
  }

  /** The low bits of `x`, one bit at a time. */
  lemma ModSplits(x: int, half: int)
    requires half >= 1
    ensures x % (2 * half) == 2 * ((x / 2) % half) + x % 2
  {
    var q := (x / 2) / half;
    var r := (x / 2) % half;
    assert x / 2 == q * half + r;
    assert q * (2 * half) == 2 * (q * half);
    DividesAs(x, 2 * half, q, 2 * r + x % 2);
  }

  /** Masking with n ones keeps the n low bits. */
  lemma {:induction false} AndOnes(x: int, n: nat)
    ensures And(x, Pow2(n) - 1) == x % Pow2(n)
    decreases n
  {
    var ones := Pow2(n) - 1;
    if n == 0 {
      AndZero(x);
    } else if x == -1 {
      DividesAs(-1, Pow2(n), -1, ones);
    } else if x != 0 {
      AndOnes(x / 2, n - 1);
      AndOneMore(x, Pow2(n - 1));
    }
  }

  lemma AndOneMore(x: int, half: int)
    requires half >= 1 && x != 0 && x != -1 && And(x / 2, half - 1) == (x / 2) % half
    ensures And(x, 2 * half - 1) == x % (2 * half)
  {
    var ones := 2 * half - 1;
    assert ones / 2 == half - 1 && ones % 2 == 1;
    assert And(x, ones) == 2 * And(x / 2, half - 1) + x % 2;
    ModSplits(x, half);
  }

  lemma {:induction false} AndZero(x: int)
    ensures And(x, 0) == 0
    decreases if x < 0 then -x else x
  {
    if x != 0 && x != -1 {
      AndZero(x / 2);
    }
  }

  lemma {:induction false} AndAllOnes(x: int)
    ensures And(x, -1) == x
    decreases if x < 0 then -x else x
  {
    if x != 0 && x != -1 {
      AndAllOnes(x / 2);
    }
  }

  lemma AndStep(x: int, y: int)
    ensures And(x, y) == if x == 0 then 0 else if x == -1 then y
      else 2 * And(x / 2, y / 2) + if x % 2 == 1 && y % 2 == 1 then 1 else 0
  {
  }

  /** Clearing the n low bits. */
  lemma {:induction false} AndHigh(x: int, n: nat)
    ensures And(x, -Pow2(n)) == x - x % Pow2(n)
    decreases n
  {
    hide And;
    var y := -Pow2(n);
    AndStep(x, y);
    if n == 0 {
      AndAllOnes(x);
    } else if x == -1 {
      DividesAs(-1, Pow2(n), -1, Pow2(n) - 1);
    } else if x != 0 {
      var half := Pow2(n - 1);
      HalfOfHigh(half, y);
      AndHigh(x / 2, n - 1);
      ModSplits(x, half);
    }
  }

  lemma HalfOfHigh(half: int, y: int)
    requires y == -(2 * half)
    ensures y / 2 == -half && y % 2 == 0
  {
  }

  lemma {:induction false} AndCommutes(x: int, y: int)
    ensures And(x, y) == And(y, x)
    decreases if x < 0 then -x else x
  {
    hide And;
    AndStep(x, y);
    AndStep(y, x);
    if x == 0 {
      AndZero(y);
    } else if x == -1 {
      AndAllOnes(y);
    } else if y == 0 {
      AndZero(x);
    } else if y == -1 {
      AndAllOnes(x);
    } else {
      AndCommutes(x / 2, y / 2);
    }
  }

  lemma OrZero(x: int)
    ensures Or(x, 0) == x && Or(0, x) == x
  {
    AndAllOnes(Not(x));
  }

  /** Setting the bits from n on in a number below 2^n. */
  lemma OrHigh(x: int, n: nat)
    requires 0 <= x < Pow2(n)
    ensures Or(-Pow2(n), x) == x - Pow2(n)
  {
    AndCommutes(Pow2(n) - 1, Not(x));
    AndOnes(Not(x), n);
    DividesAs(Not(x), Pow2(n), -1, Pow2(n) - 1 - x);
  }

  /** Setting low bits in a number whose n low bits are clear. */
  lemma {:induction false} OrLow(high: int, low: int, n: nat)
    requires 0 <= low < Pow2(n)
    ensures Or(high * Pow2(n), low) == high * Pow2(n) + low
    decreases n
  {
    hide And;
    if n == 0 {
      OrZero(high);
    } else {
      var p := Pow2(n - 1);
      var x := high * (2 * p);
      OrLow(high, low / 2, n - 1);
      assert x == 2 * (high * p);
      OrStep(x, low);
    }
  }

  /** Or, one bit at a time. */
  lemma OrStep(x: int, y: int)
    ensures Or(x, y) == 2 * Or(x / 2, y / 2) + if x % 2 == 1 || y % 2 == 1 then 1 else 0
  {
  }
}
