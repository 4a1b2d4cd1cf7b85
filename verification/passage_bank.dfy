/** Passage selection (App.tsx, pickRandomText): the pool of the
    requested tier, or the Medium pool when the bank has no entry for the
    tier, indexed by floor(roll * length) where `roll` is the value of
    Math.random, in [0, 1). */
module PassageBank {
  import opened Types

  type Passage = string

  /** Passages grouped by tier. */
  type Bank = map<Level, seq<Passage>>

  /** A usable bank: it has a Medium pool to fall back on, and no pool
      it holds is empty. */
  predicate WellFormed(bank: Bank) {
    Medium in bank && forall l :: l in bank ==> |bank[l]| > 0
  }

  function Pool(bank: Bank, level: Level): (pool: seq<Passage>)
    requires WellFormed(bank)
    ensures |pool| > 0
    ensures level in bank ==> pool == bank[level]
    ensures level !in bank ==> pool == bank[Medium]
  {
    if level in bank then bank[level] else bank[Medium]
  }

  lemma MulMonotone(a: real, b: real, c: real)
    requires a <= b && c > 0.0
    ensures a * c <= b * c && (a < b ==> a * c < b * c)
  {
  }

  /** floor(roll * n): an index below n for every roll in [0, 1). */
  function PickIndex(n: nat, roll: real): (i: nat)
    requires n > 0 && 0.0 <= roll < 1.0
    ensures i < n
    ensures i as real <= roll * n as real < (i + 1) as real
  {
    MulMonotone(0.0, roll, n as real);
    MulMonotone(roll, 1.0, n as real);
    (roll * n as real).Floor
  }

  function PickRandomText(bank: Bank, level: Level, roll: real): (p: Passage)
    requires WellFormed(bank) && 0.0 <= roll < 1.0
    ensures p in Pool(bank, level)
  {
    var pool := Pool(bank, level);
    pool[PickIndex(|pool|, roll)]
  }

  /** Scaling the interval [k / n, (k + 1) / n) by n gives [k, k + 1). */
  lemma ScaleInterval(k: int, n: real, x: real)
    requires 0.0 < n && k as real / n <= x < (k + 1) as real / n
    ensures k as real <= x * n < (k + 1) as real
  {
    var lo, hi := k as real / n, (k + 1) as real / n;
    MulMonotone(lo, x, n);
    MulMonotone(x, hi, n);
  }

  /** Rolls in [k / n, (k + 1) / n) lie in [0, 1) and give index k. */
  lemma PickIndexOf(n: nat, k: nat, roll: real)
    requires k < n && k as real / n as real <= roll < (k + 1) as real / n as real
    ensures 0.0 <= roll < 1.0 && PickIndex(n, roll) == k
  {
    var m := n as real;
    ScaleInterval(k, m, roll);
    if roll < 0.0 {
      MulMonotone(roll, 0.0, m);
    }
    if roll >= 1.0 {
      MulMonotone(1.0, roll, m);
    }
    var i := PickIndex(n, roll);
    assert k as real < (i + 1) as real && i as real < (k + 1) as real;
  }

  /** Every passage of the pool is chosen by some roll: the roll k / n
      (and every roll up to (k + 1) / n) picks passage k. */
  lemma PickReachesEvery(bank: Bank, level: Level, k: nat, roll: real)
    requires WellFormed(bank) && k < |Pool(bank, level)|
    requires var n := |Pool(bank, level)| as real;
      k as real / n <= roll < (k + 1) as real / n
    ensures 0.0 <= roll < 1.0 && PickRandomText(bank, level, roll) == Pool(bank, level)[k]
  {
    PickIndexOf(|Pool(bank, level)|, k, roll);
  }
}
