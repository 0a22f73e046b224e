/** The exponentially weighted mean that a single-pole average stands for, exactly and with the tiny flushed to zero. */
module WeightedMean {
  import opened Basics

  function RealPower(x: real, n: nat): real {
    if n == 0 then 1.0 else RealPower(x, n - 1) * x
  }

  /** The weight of a level that `age` newer ones follow. */
  function Weight(alpha: real, age: nat): real { alpha * RealPower(1.0 - alpha, age) }

  /** The sum of the `n` oldest levels, each times its weight. */
  function WeightedSum(levels: seq<real>, alpha: real, n: nat): real
    requires n <= |levels|
  {
    if n == 0 then 0.0 else WeightedSum(levels, alpha, n - 1) + Weight(alpha, |levels| - n) * levels[n - 1]
  }

  /** The exponentially weighted mean of the levels, the newest last. */
  function Mean(levels: seq<real>, alpha: real): real { WeightedSum(levels, alpha, |levels|) }

  lemma Distributes(a: real, b: real, level: real, x: real)
    ensures (a + b * level) * x == a * x + (b * x) * level
  {
  }

  /** A newer level takes every weight down by one factor. */
  lemma {:induction false} OlderByOne(levels: seq<real>, level: real, alpha: real, n: nat)
    requires n <= |levels|
    ensures WeightedSum(levels + [level], alpha, n) == WeightedSum(levels, alpha, n) * (1.0 - alpha)
  {
    hide RealPower;
    if n == 0 {
      assert WeightedSum(levels + [level], alpha, 0) == 0.0;
    } else {
      OlderByOne(levels, level, alpha, n - 1);
      var age := |levels| - n;
      WeightFalls(alpha, age);
      Distributes(WeightedSum(levels, alpha, n - 1), Weight(alpha, age), levels[n - 1], 1.0 - alpha);
    }
  }

  lemma WeightFalls(alpha: real, age: nat)
    ensures Weight(alpha, age + 1) == Weight(alpha, age) * (1.0 - alpha)
    ensures Weight(alpha, 0) == alpha
  {
    var p, x := RealPower(1.0 - alpha, age), 1.0 - alpha;
    assert alpha * (p * x) == (alpha * p) * x;
  }

  lemma MeanOfNothing(alpha: real)
    ensures Mean([], alpha) == 0.0
  {
  }

  /** One more level. */
  lemma MeanMoves(levels: seq<real>, level: real, alpha: real)
    ensures Mean(levels + [level], alpha) == Mean(levels, alpha) * (1.0 - alpha) + alpha * level
  {
    OlderByOne(levels, level, alpha, |levels|);
    WeightFalls(alpha, 0);
  }

  /** The mean of `n` equal levels approaches them by one factor a level. */
  lemma {:induction false} MeanOfEqual(level: real, alpha: real, n: nat)
    ensures Mean(Repeat(level, n), alpha) == level * (1.0 - RealPower(1.0 - alpha, n))
  {
    hide Mean;
    if n == 0 {
      MeanOfNothing(alpha);
      assert Repeat(level, 0) == [];
    } else {
      MeanOfEqual(level, alpha, n - 1);
      MeanMoves(Repeat(level, n - 1), level, alpha);
      assert Repeat(level, n) == Repeat(level, n - 1) + [level];
      OneFactor(level, alpha, RealPower(1.0 - alpha, n - 1));
    }
  }

  lemma OneFactor(level: real, alpha: real, p: real)
    ensures level * (1.0 - p) * (1.0 - alpha) + alpha * level == level * (1.0 - p * (1.0 - alpha))
  {
  }

  // ---------------------------------------------------------------- flushing

  /** On the way no mean falls below the smallest normal number without being zero. */
  predicate Unflushed(levels: seq<real>, alpha: real) {
    forall n :: 0 <= n <= |levels| ==> Mean(levels[..n], alpha) == 0.0 || Mean(levels[..n], alpha) >= MIN_NORMAL
  }

  /** Never above the mean, and below it by no more than flushing can take. */
  predicate Follows(alpha: real, mean: real, power: real) {
    0.0 <= power <= mean && alpha * (mean - power) <= MIN_NORMAL
  }

  /** What follows the mean, moved toward one more level and flushed, follows the next mean. */
  lemma OneMoreLevel(levels: seq<real>, level: real, alpha: real, power: real, moved: real)
    requires 0.0 < alpha <= 1.0 && level >= 0.0 && moved == power * (1.0 - alpha) + alpha * level
    requires Follows(alpha, Mean(levels, alpha), power) && (Unflushed(levels, alpha) ==> power == Mean(levels, alpha))
    ensures var next := if moved < MIN_NORMAL then 0.0 else moved;
      && Follows(alpha, Mean(levels + [level], alpha), next)
      && (Unflushed(levels + [level], alpha) ==> next == Mean(levels + [level], alpha))
  {
    hide Mean, Unflushed, Follows, HalfPower;
    MeanMoves(levels, level, alpha);
    UnflushedBefore(levels, level, alpha);
    Drifts(alpha, level, Mean(levels, alpha), power, Mean(levels + [level], alpha), moved);
  }

  lemma UnflushedBefore(levels: seq<real>, level: real, alpha: real)
    ensures Unflushed(levels + [level], alpha) ==>
      && Unflushed(levels, alpha)
      && (Mean(levels + [level], alpha) == 0.0 || Mean(levels + [level], alpha) >= MIN_NORMAL)
  {
    hide Mean, MIN_NORMAL;
    var all := levels + [level];
    if Unflushed(all, alpha) {
      forall n | 0 <= n <= |levels|
        ensures Mean(levels[..n], alpha) == 0.0 || Mean(levels[..n], alpha) >= MIN_NORMAL
      {
        assert all[..n] == levels[..n];
      }
      assert all[..|all|] == all;
    }
  }

  /** How far the flushed power falls behind the mean with one more level. */
  lemma Drifts(alpha: real, level: real, mean: real, power: real, nextMean: real, moved: real)
    requires 0.0 < alpha <= 1.0 && level >= 0.0 && Follows(alpha, mean, power)
    requires nextMean == mean * (1.0 - alpha) + alpha * level && moved == power * (1.0 - alpha) + alpha * level
    ensures MIN_NORMAL > 0.0 && Follows(alpha, nextMean, if moved < MIN_NORMAL then 0.0 else moved)
    ensures power == mean ==> moved == nextMean
  {
    hide HalfPower;
    NotNegative(power, 1.0 - alpha, power * (1.0 - alpha));
    NotNegative(alpha, level, alpha * level);
    var gap, behind := mean - power, alpha * (mean - power);
    NotNegative(gap, 1.0 - alpha, gap * (1.0 - alpha));
    assert nextMean - moved == gap * (1.0 - alpha);
    assert alpha * (nextMean - moved) == behind * (1.0 - alpha);
    NotNegative(MIN_NORMAL - behind, 1.0 - alpha, (MIN_NORMAL - behind) * (1.0 - alpha));
    NotNegative(MIN_NORMAL, alpha, MIN_NORMAL * alpha);
    if moved < MIN_NORMAL {
      NotNegative(alpha, MIN_NORMAL - moved, alpha * (MIN_NORMAL - moved));
      assert alpha * nextMean == alpha * (nextMean - moved) + alpha * moved;
      assert alpha * (nextMean - 0.0) == alpha * nextMean;
    }
  }

  lemma NothingFollows(alpha: real)
    ensures Follows(alpha, 0.0, 0.0)
  {
  }
}
