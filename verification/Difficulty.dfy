/** Targets and difficulties: both conversions are the same rounded division of 2^256. */
module Difficulty {

  /** 2^255. */
  const HALF: nat := 57896044618658097711785492504343953926634992332820282019728792003956564819968

  const U256_MAX: nat := 2 * HALF - 1

  type U256 = x: nat | x <= U256_MAX

  /** The shift of the halved quotient loses no bit: from a divisor of two on it has a bit to spare. */
  function TargetToDifficulty(target: U256): (d: U256)
    ensures target >= 2 ==> target * d <= 2 * HALF < target * (d + 2)
    ensures target <= 1 ==> d == U256_MAX
  {
    if target <= 1 then U256_MAX
    else
      Quotient(HALF, target);
      2 * (HALF / target)
  }

  function DifficultyToTarget(difficulty: U256): (t: U256)
    ensures t == TargetToDifficulty(difficulty)
  {
    if difficulty <= 1 then U256_MAX
    else
      Quotient(HALF, difficulty);
      2 * (HALF / difficulty)
  }

  lemma Quotient(n: nat, d: nat)
    requires d >= 2
    ensures (n / d) * d <= n < (n / d + 1) * d
    ensures 2 * (n / d) <= n
  {
  }

  /** A product bound is a quotient bound. */
  lemma QuotientMax(n: nat, d: nat, k: nat)
    requires d >= 1
    ensures k <= n / d <==> k * d <= n
  {
    var q := n / d;
    assert n == q * d + n % d;
    if k <= q { Scale(k, q, d); } else { Scale(q + 1, k, d); }
  }

  lemma Scale(a: nat, b: nat, d: nat)
    requires a <= b
    ensures a * d <= b * d
  {
  }

  /** A higher target never means a higher difficulty. */
  lemma Antitone(s: U256, t: U256)
    requires s <= t
    ensures TargetToDifficulty(t) <= TargetToDifficulty(s)
  {
    if s >= 2 {
      var q := HALF / t;
      QuotientMax(HALF, t, q);
      Scale(s, t, q);
      QuotientMax(HALF, s, q);
    }
  }

  /** Converting twice never loses an even value, and never more than one of an odd value. */
  lemma ThereAndBack(t: U256)
    ensures var back := TargetToDifficulty(TargetToDifficulty(t));
      back >= if t % 2 == 0 then t else t - 1
  {
    if t >= 2 {
      var q := HALF / t;
      if q > 0 {
        QuotientMax(HALF, t, q);
        var h := t / 2;
        assert 2 * h <= t;
        Scale(2 * h, t, q);
        assert h * (2 * q) == 2 * h * q;
        QuotientMax(HALF, 2 * q, h);
      }
    } else {
      var d := TargetToDifficulty(t);
      assert d == U256_MAX;
    }
  }

  /** The odd target `t` comes back as more than `t` exactly when `t + 1` has the same difficulty. */
  lemma ComesBackHigher(t: U256)
    requires t >= 2 && t % 2 == 1 && t < U256_MAX
    ensures TargetToDifficulty(TargetToDifficulty(t)) > t <==> TargetToDifficulty(t + 1) == TargetToDifficulty(t)
  {
    Antitone(t, t + 1);
    if HALF / t > 0 { SameQuotient(HALF, HALF / t, (t + 1) / 2, t); }
  }

  lemma SameQuotient(n: nat, q: nat, h: nat, t: nat)
    requires q > 0 && 2 * h == t + 1
    ensures h <= n / (2 * q) <==> q <= n / (t + 1)
  {
    QuotientMax(n, t + 1, q);
    QuotientMax(n, 2 * q, h);
    Doubled(q, h, t);
  }

  lemma Doubled(q: nat, h: nat, t: nat)
    requires 2 * h == t + 1
    ensures h * (2 * q) == q * (t + 1)
  {
    assert h * (2 * q) == (2 * h) * q;
  }

  /** It gives the first difficulty for an odd target exactly when an even neighbour has the same difficulty. */
  lemma NeighbourStable(t: U256)
    ensures var d := TargetToDifficulty(t);
      TargetToDifficulty(DifficultyToTarget(d)) == d <==>
        t % 2 == 0 || TargetToDifficulty(t - 1) == d || (t < U256_MAX && TargetToDifficulty(t + 1) == d)
  {
    var d := TargetToDifficulty(t);
    var back := TargetToDifficulty(d);
    ThereAndBack(t);
    ThereAndBack(d);
    Parity(t);
    Parity(d);
    Extremes();
    if t >= 2 && t % 2 == 1 && t < U256_MAX { ComesBackHigher(t); }
    if back >= t { Antitone(t, back); }
    hide TargetToDifficulty;
  }

  /** When the neighbours have the same difficulty, by quotient and remainder. */
  lemma Neighbours(t: U256)
    requires 3 <= t < U256_MAX
    ensures TargetToDifficulty(t + 1) == TargetToDifficulty(t) <==> HALF % t >= HALF / t
    ensures TargetToDifficulty(t - 1) == TargetToDifficulty(t) <==> HALF % t + HALF / t < t - 1
  {
    var q, r := HALF / t, HALF % t;
    Antitone(t, t + 1);
    Antitone(t - 1, t);
    QuotientMax(HALF, t + 1, q);
    QuotientMax(HALF, t - 1, q + 1);
    Expand(q, t, r);
  }

  lemma Expand(q: nat, t: nat, r: nat)
    requires t > 0 && q == HALF / t && r == HALF % t
    ensures q * (t + 1) <= HALF <==> q <= r
    ensures (q + 1) * (t - 1) <= HALF <==> t - 1 <= q + r
  {
    assert HALF == q * t + r;
    assert q * (t + 1) == q * t + q && (q + 1) * (t - 1) == q * t - q + t - 1;
  }

  /**
   Target to difficulty to target to difficulty gives the first difficulty for every even target. For
   an odd target `t > 1` it does so exactly when the remainder of 2^255 by `t` is not below the
   quotient, or remainder and quotient together are below `t - 1`.
   */
  lemma DifficultyStable(t: U256)
    ensures var d := TargetToDifficulty(t);
      TargetToDifficulty(DifficultyToTarget(d)) == d <==>
        t % 2 == 0 || t == 1 || HALF % t >= HALF / t || HALF % t + HALF / t < t - 1
  {
    NeighbourStable(t);
    Extremes();
    if 3 <= t < U256_MAX { Neighbours(t); }
    hide TargetToDifficulty;
  }

  /** Target three is one of the odd targets that drift. */
  lemma ThreeDrifts()
    ensures TargetToDifficulty(DifficultyToTarget(TargetToDifficulty(3))) != TargetToDifficulty(3)
  {
  }

  lemma Parity(t: U256)
    ensures t >= 2 ==> TargetToDifficulty(t) % 2 == 0
  {
  }

  /** The largest targets have difficulty zero, which converts back to the largest target. */
  lemma Extremes()
    ensures TargetToDifficulty(U256_MAX) == TargetToDifficulty(U256_MAX - 1) == 0
    ensures TargetToDifficulty(0) == TargetToDifficulty(1) == U256_MAX
  {
  }
}
