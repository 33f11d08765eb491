/** The decaying block-reward schedule: per-block reward, the interval-skipping
    cumulative sum, and how much it can ever issue. */
module Issuance {
  import opened Primitives

  datatype TokenomicsConfig = TokenomicsConfig(
    initialSupply: U128, initialBlockReward: U128, decayInterval: U64,
    decayNumerator: U64, decayDenominator: U64, minBlockReward: U128)
  {
    /** Outside this the code divides by zero or loops forever. */
    predicate Runnable() {
      0 < decayInterval && 0 < decayDenominator
    }
  }

  function Mainnet(): TokenomicsConfig {
    TokenomicsConfig(1_000_000_000_000_000_000, 10_000_000_000, 2_000_000, 9, 10, 100_000_000)
  }

  // ------------------------------------------------------------- arithmetic --

  /** Multiplication by repeated addition, equal to `*` by `TimesIsProduct`. */
  function Times(a: nat, b: nat): nat {
    if b == 0 then 0 else a + Times(a, b - 1)
  }

  lemma {:induction false} TimesIsProduct(a: nat, b: nat)
    ensures Times(a, b) == a * b
  {
    if b > 0 {
      TimesIsProduct(a, b - 1);
      assert a * b == a + a * (b - 1);
    }
  }

  lemma {:induction false} TimesDistributes(a: nat, b: nat, k: nat)
    ensures Times(k, a + b) == Times(k, a) + Times(k, b)
    ensures Times(a + b, k) == Times(a, k) + Times(b, k)
    decreases b + k
  {
    if b > 0 { TimesDistributes(a, b - 1, k); }
    if k > 0 { TimesDistributes(a, b, k - 1); }
  }

  lemma {:induction false} TimesCommutes(a: nat, b: nat)
    ensures Times(a, b) == Times(b, a)
    decreases b
  {
    if b == 0 {
      TimesDistributes(0, 0, a);
    } else {
      TimesCommutes(a, b - 1);
      TimesDistributes(b - 1, 1, a);
      TimesOne(a);
    }
  }

  lemma {:induction false} TimesOne(a: nat)
    ensures Times(1, a) == a
  {
    if a > 0 { TimesOne(a - 1); }
  }

  lemma {:induction false} TimesAssociates(a: nat, b: nat, k: nat)
    ensures Times(Times(a, b), k) == Times(a, Times(b, k))
    decreases k
  {
    if k > 0 {
      TimesAssociates(a, b, k - 1);
      TimesDistributes(b, Times(b, k - 1), a);
    }
  }

  lemma {:induction false} TimesMonotone(a: nat, b: nat, k: nat)
    requires a <= b
    ensures Times(a, k) <= Times(b, k) && Times(k, a) <= Times(k, b)
  {
    TimesDistributes(a, b - a, k);
  }

  /** Truncating division by repeated subtraction, equal to `/` by `QuotIsDivision`. */
  function Quot(a: nat, d: nat): (q: nat)
    requires 0 < d
    ensures q <= a
  {
    if a < d then 0 else 1 + Quot(a - d, d)
  }

  lemma {:induction false} QuotBounds(a: nat, d: nat)
    requires 0 < d
    ensures Times(d, Quot(a, d)) <= a < Times(d, Quot(a, d)) + d
  {
    if a >= d { QuotBounds(a - d, d); }
  }

  lemma QuotIsDivision(a: nat, d: nat)
    requires 0 < d
    ensures Quot(a, d) == a / d
  {
    QuotBounds(a, d);
    TimesIsProduct(d, Quot(a, d));
    assert (a / d) * d <= a < (a / d) * d + d;
    SameMultiple(Quot(a, d), a / d, a, d);
  }

  lemma SameMultiple(p: nat, q: nat, a: nat, d: nat)
    requires p * d <= a < p * d + d && q * d <= a < q * d + d
    ensures p == q
  {
    if p < q {
      MulGap(p, q, d);
    } else if q < p {
      MulGap(q, p, d);
    }
  }

  lemma MulGap(a: nat, b: nat, d: nat)
    requires a < b
    ensures a * d + d <= b * d
  {
    MulMonotone(a + 1, b, d);
    assert (a + 1) * d == a * d + d;
  }

  lemma {:induction false} QuotMonotone(a: nat, b: nat, d: nat)
    requires 0 < d && a <= b
    ensures Quot(a, d) <= Quot(b, d)
  {
    if a >= d { QuotMonotone(a - d, b - d, d); }
  }

  lemma MulMonotone(a: nat, b: nat, k: nat)
    requires a <= b
    ensures a * k <= b * k && k * a <= k * b
  {}

  /** `reward.saturating_mul(n).saturating_div(d)`. */
  function Decay(c: TokenomicsConfig, r: U128): U128
    requires c.Runnable()
  {
    Quot(Cap128(Times(r, c.decayNumerator)), c.decayDenominator)
  }

  // ------------------------------------------------------- per-block reward --

  /** The reward after some decay steps, as the loop of `block_reward` computes it:
      once at or below the minimum it is the minimum for good. */
  function RewardAfter(c: TokenomicsConfig, steps: nat, r: U128): U128
    requires c.Runnable()
  {
    if steps == 0 then r
    else if Decay(c, r) <= c.minBlockReward then c.minBlockReward
    else RewardAfter(c, steps - 1, Decay(c, r))
  }

  function RewardAt(c: TokenomicsConfig, height: nat): U128
    requires c.Runnable()
  {
    if height == 0 then 0 else RewardAfter(c, Quot(height - 1, c.decayInterval), c.initialBlockReward)
  }

  method BlockReward(c: TokenomicsConfig, height: U64) returns (reward: U128)
    requires c.Runnable()
    ensures reward == RewardAt(c, height)
  {
    if height == 0 { return 0; }
    QuotIsDivision(height - 1, c.decayInterval);
    var decaySteps := (height - 1) / c.decayInterval;
    reward := c.initialBlockReward;
    var i := 0;
    while i < decaySteps
      invariant 0 <= i <= decaySteps
      invariant RewardAfter(c, decaySteps, c.initialBlockReward) == RewardAfter(c, decaySteps - i, reward)
    {
      reward := Decay(c, reward);
      if reward <= c.minBlockReward { return c.minBlockReward; }
      i := i + 1;
    }
  }

  /** The naive cumulative issuance: add up every block's reward. */
  function NaiveIssued(c: TokenomicsConfig, height: nat): nat
    requires c.Runnable()
  {
    if height == 0 then 0 else NaiveIssued(c, height - 1) + RewardAt(c, height)
  }

  // --------------------------------------------------------- cumulative sum --

  /** How `total_issued_by_height` moves its running reward to the next interval. */
  function NextReward(c: TokenomicsConfig, r: U128): U128
    requires c.Runnable()
  {
    if r <= c.minBlockReward then r
    else if Decay(c, r) < c.minBlockReward then c.minBlockReward
    else Decay(c, r)
  }

  /** The exact, unbounded sum behind the loop, from `remaining` blocks at `r`. */
  function IntervalSum(c: TokenomicsConfig, remaining: nat, r: U128): nat
    requires c.Runnable()
    decreases remaining
  {
    if remaining == 0 then 0
    else
      var blocks := Min(remaining, c.decayInterval);
      Times(r, blocks) + IntervalSum(c, remaining - blocks, NextReward(c, r))
  }

  method TotalIssuedByHeight(c: TokenomicsConfig, height: U64) returns (total: U128)
    requires c.Runnable()
    ensures total == Cap128(IntervalSum(c, height, c.initialBlockReward))
  {
    if height == 0 { return 0; }
    total := 0;
    var currentReward: U128 := c.initialBlockReward;
    var remaining: U64 := height;
    var stepHeight: U64 := 0;
    while remaining > 0
      invariant Cap128(IntervalSum(c, height, c.initialBlockReward)) ==
                Cap128(total + IntervalSum(c, remaining, currentReward))
      decreases remaining
    {
      var stepEnd: U64 := (stepHeight + c.decayInterval) % (U64_MAX + 1);
      var blocksInStep := Min(remaining, c.decayInterval);
      total := Cap128(total + Cap128(Times(currentReward, blocksInStep)));
      remaining := remaining - blocksInStep;
      stepHeight := stepEnd;
      if currentReward > c.minBlockReward {
        currentReward := Decay(c, currentReward);
        if currentReward < c.minBlockReward {
          currentReward := c.minBlockReward;
        }
      }
    }
  }

  // ------------------------------------------------------------ refinement --

  /** A reward the two loops treat alike. */
  predicate Tame(c: TokenomicsConfig, r: U128)
    requires c.Runnable()
  {
    r > c.minBlockReward || (r == c.minBlockReward && Decay(c, r) <= c.minBlockReward)
  }

  /** From the first interval on both loops run the same reward sequence. */
  predicate Aligned(c: TokenomicsConfig)
    requires c.Runnable()
  {
    Tame(c, c.initialBlockReward)
  }

  /** The sum of `RewardAfter` over the first `n` blocks of a schedule that begins with
      reward `r`. */
  function RewardSum(c: TokenomicsConfig, r: U128, n: nat): nat
    requires c.Runnable()
  {
    if n == 0 then 0 else RewardSum(c, r, n - 1) + RewardAfter(c, Quot(n - 1, c.decayInterval), r)
  }

  lemma {:induction false} NaiveIsRewardSum(c: TokenomicsConfig, h: nat)
    requires c.Runnable()
    ensures NaiveIssued(c, h) == RewardSum(c, c.initialBlockReward, h)
  {
    if h > 0 { NaiveIsRewardSum(c, h - 1); }
  }

  lemma {:induction false} FirstIntervalSum(c: TokenomicsConfig, r: U128, n: nat)
    requires c.Runnable() && n <= c.decayInterval
    ensures RewardSum(c, r, n) == Times(r, n)
  {
    if n > 0 {
      FirstIntervalSum(c, r, n - 1);
    }
  }

  /** Once below the minimum, `RewardAfter` stays there. */
  lemma {:induction false} RewardAfterMin(c: TokenomicsConfig, steps: nat, r: U128)
    requires c.Runnable() && Decay(c, r) <= c.minBlockReward && 0 < steps
    ensures RewardAfter(c, steps, r) == c.minBlockReward
  {}

  lemma {:induction false} TailSum(c: TokenomicsConfig, r: U128, n: nat)
    requires c.Runnable() && Tame(c, r) && Decay(c, r) > c.minBlockReward
    ensures RewardSum(c, r, c.decayInterval + n) == Times(r, c.decayInterval) + RewardSum(c, NextReward(c, r), n)
  {
    if n == 0 {
      FirstIntervalSum(c, r, c.decayInterval);
    } else {
      TailSum(c, r, n - 1);
    }
  }

  lemma {:induction false} MinTailSum(c: TokenomicsConfig, r: U128, n: nat)
    requires c.Runnable() && Decay(c, r) <= c.minBlockReward
    ensures RewardSum(c, r, c.decayInterval + n) == Times(r, c.decayInterval) + Times(c.minBlockReward, n)
  {
    if n == 0 {
      FirstIntervalSum(c, r, c.decayInterval);
    } else {
      MinTailSum(c, r, n - 1);
      RewardAfterMin(c, Quot(c.decayInterval + n - 1, c.decayInterval), r);
    }
  }

  /** A running reward at or below the minimum never moves again. */
  lemma {:induction false} StuckSum(c: TokenomicsConfig, n: nat, r: U128)
    requires c.Runnable() && r <= c.minBlockReward
    ensures IntervalSum(c, n, r) == Times(r, n)
    decreases n
  {
    if n > 0 {
      var blocks := Min(n, c.decayInterval);
      StuckSum(c, n - blocks, r);
      TimesDistributes(blocks, n - blocks, r);
    }
  }

  /** Skipping whole intervals computes the same sum as visiting every block. */
  lemma {:induction false} IntervalSumIsRewardSum(c: TokenomicsConfig, n: nat, r: U128)
    requires c.Runnable() && Tame(c, r)
    ensures IntervalSum(c, n, r) == RewardSum(c, r, n)
    decreases n
  {
    if n <= c.decayInterval {
      FirstIntervalSum(c, r, n);
    } else {
      var rest := n - c.decayInterval;
      if Decay(c, r) <= c.minBlockReward {
        MinTailSum(c, r, rest);
        StuckSum(c, rest, c.minBlockReward);
      } else {
        TailSum(c, r, rest);
        IntervalSumIsRewardSum(c, rest, NextReward(c, r));
      }
    }
  }

  lemma {:induction false} RewardAtLeastMin(c: TokenomicsConfig, steps: nat, r: U128)
    requires c.Runnable() && 0 < steps
    ensures RewardAfter(c, steps, r) >= c.minBlockReward
  {
    if 1 < steps && Decay(c, r) > c.minBlockReward { RewardAtLeastMin(c, steps - 1, Decay(c, r)); }
  }

  /** A misaligned schedule pays strictly more per block than the fast sum counts. */
  lemma {:induction false} MisalignedSumLarger(c: TokenomicsConfig, n: nat)
    requires c.Runnable() && !Aligned(c)
    ensures Times(c.initialBlockReward, n) <= RewardSum(c, c.initialBlockReward, n)
    ensures c.decayInterval < n ==> Times(c.initialBlockReward, n) < RewardSum(c, c.initialBlockReward, n)
  {
    var r := c.initialBlockReward;
    if n <= c.decayInterval {
      FirstIntervalSum(c, r, n);
    } else {
      MisalignedSumLarger(c, n - 1);
      var steps := Quot(n - 1, c.decayInterval);
      RewardAtLeastMin(c, steps, r);
      if n == c.decayInterval + 1 {
        assert steps == 1;
        assert RewardAfter(c, 1, r) > r;
      }
    }
  }

  /** The fast total equals the saturated naive sum exactly when the two loops
      agree on what happens at the minimum, or the height never leaves the first
      interval, or the fast total is already saturated. */
  lemma FastEqualsNaiveExactly(c: TokenomicsConfig, h: nat)
    requires c.Runnable()
    ensures Cap128(IntervalSum(c, h, c.initialBlockReward)) == Cap128(NaiveIssued(c, h)) <==>
            Aligned(c) || h <= c.decayInterval || U128_MAX <= Times(c.initialBlockReward, h)
  {
    var r := c.initialBlockReward;
    NaiveIsRewardSum(c, h);
    if Aligned(c) {
      IntervalSumIsRewardSum(c, h, r);
    } else {
      StuckSum(c, h, r);
      MisalignedSumLarger(c, h);
      if h <= c.decayInterval { FirstIntervalSum(c, r, h); }
    }
  }

  /** Every decaying configuration that starts at or above its minimum is aligned. */
  lemma DecayingIsAligned(c: TokenomicsConfig)
    requires c.Runnable() && c.decayNumerator <= c.decayDenominator && c.minBlockReward <= c.initialBlockReward
    ensures Aligned(c)
  {
    DecayShrinks(c, c.minBlockReward);
  }

  lemma DecayShrinks(c: TokenomicsConfig, r: U128)
    requires c.Runnable() && c.decayNumerator <= c.decayDenominator
    ensures Decay(c, r) <= r
    ensures Times(c.decayDenominator, Decay(c, r)) <= Times(r, c.decayNumerator)
  {
    QuotBounds(Cap128(Times(r, c.decayNumerator)), c.decayDenominator);
    TimesMonotone(c.decayNumerator, c.decayDenominator, r);
    TimesCommutes(r, c.decayDenominator);
    FactorAtMost(Decay(c, r), r, c.decayDenominator);
  }

  lemma FactorAtMost(a: nat, b: nat, d: nat)
    requires 0 < d && Times(d, a) <= Times(d, b)
    ensures a <= b
  {
    if b < a { TimesDistributes(b, a - b, d); }
  }

  // ------------------------------------------------------ the schedule pinned --

  lemma {:induction false} LastStep(c: TokenomicsConfig, steps: nat, first: U128)
    requires c.Runnable()
    ensures var r := RewardAfter(c, steps, first);
            RewardAfter(c, steps + 1, first) ==
            if Decay(c, r) <= c.minBlockReward || (steps > 0 && r == c.minBlockReward) then c.minBlockReward
            else Decay(c, r)
  {
    if steps > 0 && Decay(c, first) > c.minBlockReward { LastStep(c, steps - 1, Decay(c, first)); }
  }

  lemma DecayIsQuotient(c: TokenomicsConfig, r: U128)
    requires c.Runnable()
    ensures Decay(c, r) == Cap128(r * c.decayNumerator) / c.decayDenominator
  {
    TimesIsProduct(r, c.decayNumerator);
    QuotIsDivision(Cap128(r * c.decayNumerator), c.decayDenominator);
  }

  /** The schedule in full: the initial reward through the first interval, and one
      interval on the reward times numerator (saturated) divided by denominator, or the
      minimum from the first time that is not above it. */
  lemma RewardOneIntervalOn(c: TokenomicsConfig, h: nat)
    requires c.Runnable() && h >= 1
    ensures RewardAt(c, 0) == 0
    ensures h <= c.decayInterval ==> RewardAt(c, h) == c.initialBlockReward
    ensures var r := RewardAt(c, h);
            var decayed := Cap128(r * c.decayNumerator) / c.decayDenominator;
            RewardAt(c, h + c.decayInterval) ==
            if decayed <= c.minBlockReward || (c.decayInterval < h && r == c.minBlockReward) then c.minBlockReward
            else decayed
  {
    LastStep(c, Quot(h - 1, c.decayInterval), c.initialBlockReward);
    DecayIsQuotient(c, RewardAt(c, h));
  }

  /** On mainnet: ten billion base units a block for two million blocks, then nine, and
      at no time less than a hundred million. */
  lemma MainnetRewards(c: TokenomicsConfig, h: nat)
    requires c == Mainnet() && h >= 1
    ensures h <= 2_000_000 ==> RewardAt(c, h) == 10_000_000_000 && RewardAt(c, h + 2_000_000) == 9_000_000_000
    ensures RewardAt(c, h) >= 100_000_000
    ensures c.initialSupply == 1_000_000_000 * 1_000_000_000
  {
    RewardOneIntervalOn(c, h);
    RewardNonIncreasing(c, h, h);
  }

  // ------------------------------------------------------------------ bound --

  /** `sum` is covered by what reward `r` can issue as a geometric series, plus the
      minimum for each of `rest` blocks. With k = d - n and span = interval * d:
      k * sum <= span * r + k * min * rest. */
  ghost predicate Covered(c: TokenomicsConfig, sum: nat, rest: nat, r: nat)
    requires c.decayNumerator < c.decayDenominator
  {
    var k := c.decayDenominator - c.decayNumerator;
    Times(k, sum) <= Times(Times(c.decayInterval, c.decayDenominator), r) + Times(Times(k, c.minBlockReward), rest)
  }

  /** One interval's issuance plus what the decayed reward can still issue is
      covered by what the undecayed reward could issue. */
  lemma BoundStep(blocks: nat, interval: nat, r: nat, next: nat, n: nat, d: nat)
    requires blocks <= interval && n < d && Times(d, next) <= Times(r, n)
    ensures Times(d - n, Times(r, blocks)) + Times(Times(interval, d), next) <= Times(Times(interval, d), r)
  {
    var k := d - n;
    TimesMonotone(blocks, interval, r);
    TimesMonotone(Times(r, blocks), Times(r, interval), k);
    TimesMonotone(Times(d, next), Times(r, n), interval);
    TimesAssociates(interval, d, next);
    BoundAlgebra(interval, r, n, d);
  }

  lemma BoundAlgebra(interval: nat, r: nat, n: nat, d: nat)
    requires n < d
    ensures Times(d - n, Times(r, interval)) + Times(interval, Times(r, n)) == Times(Times(interval, d), r)
  {
    var k := d - n;
    TimesCommutes(k, Times(r, interval));
    TimesCommutes(r, interval);
    TimesAssociates(interval, r, k);
    TimesDistributes(Times(r, k), Times(r, n), interval);
    TimesDistributes(k, n, r);
    TimesCommutes(r, d);
    TimesAssociates(interval, d, r);
  }

  lemma CoveredStuck(c: TokenomicsConfig, rest: nat, r: nat)
    requires c.decayNumerator < c.decayDenominator && r <= c.minBlockReward
    ensures Covered(c, Times(r, rest), rest, r)
  {
    var k := c.decayDenominator - c.decayNumerator;
    TimesMonotone(r, c.minBlockReward, rest);
    TimesMonotone(Times(r, rest), Times(c.minBlockReward, rest), k);
    TimesAssociates(k, c.minBlockReward, rest);
  }

  lemma CoveredClamped(c: TokenomicsConfig, rest: nat, r: nat, blocks: nat)
    requires c.decayNumerator < c.decayDenominator && blocks <= rest && blocks <= c.decayInterval
    ensures Covered(c, Times(r, blocks) + Times(c.minBlockReward, rest - blocks), rest, r)
  {
    var k, m := c.decayDenominator - c.decayNumerator, c.minBlockReward;
    BoundStep(blocks, c.decayInterval, r, 0, c.decayNumerator, c.decayDenominator);
    TimesDistributes(Times(r, blocks), Times(m, rest - blocks), k);
    TimesAssociates(k, m, rest - blocks);
    TimesMonotone(rest - blocks, rest, Times(k, m));
  }

  lemma CoveredDecayed(c: TokenomicsConfig, rest: nat, r: nat, blocks: nat, next: nat, later: nat)
    requires c.decayNumerator < c.decayDenominator && blocks <= rest && blocks <= c.decayInterval
    requires Covered(c, later, rest - blocks, next) && Times(c.decayDenominator, next) <= Times(r, c.decayNumerator)
    ensures Covered(c, Times(r, blocks) + later, rest, r)
  {
    BoundStep(blocks, c.decayInterval, r, next, c.decayNumerator, c.decayDenominator);
    CoveredChain(c, rest, r, blocks, next, Times(r, blocks), later);
  }

  lemma CoveredChain(c: TokenomicsConfig, rest: nat, r: nat, blocks: nat, next: nat, now: nat, later: nat)
    requires c.decayNumerator < c.decayDenominator && blocks <= rest && Covered(c, later, rest - blocks, next)
    requires var span := Times(c.decayInterval, c.decayDenominator);
             Times(c.decayDenominator - c.decayNumerator, now) + Times(span, next) <= Times(span, r)
    ensures Covered(c, now + later, rest, r)
  {
    var k, span := c.decayDenominator - c.decayNumerator, Times(c.decayInterval, c.decayDenominator);
    ChainBound(k, now, later, Times(span, next), Times(span, r), Times(k, c.minBlockReward), rest, blocks);
  }

  lemma ChainBound(k: nat, now: nat, later: nat, coverLater: nat, cover: nat, perBlock: nat, rest: nat, blocks: nat)
    requires blocks <= rest
    requires Times(k, later) <= coverLater + Times(perBlock, rest - blocks)
    requires Times(k, now) + coverLater <= cover
    ensures Times(k, now + later) <= cover + Times(perBlock, rest)
  {
    TimesDistributes(now, later, k);
    TimesMonotone(rest - blocks, rest, perBlock);
  }

  /** Geometric bound on the exact sum, for every strictly decaying schedule. */
  lemma {:induction false} IntervalSumCovered(c: TokenomicsConfig, rest: nat, r: U128)
    requires c.Runnable() && c.decayNumerator < c.decayDenominator
    ensures Covered(c, IntervalSum(c, rest, r), rest, r)
    decreases rest
  {
    if r <= c.minBlockReward {
      StuckSum(c, rest, r);
      CoveredStuck(c, rest, r);
    } else if rest > 0 {
      var blocks := Min(rest, c.decayInterval);
      DecayShrinks(c, r);
      if NextReward(c, r) == c.minBlockReward {
        StuckSum(c, rest - blocks, c.minBlockReward);
        CoveredClamped(c, rest, r, blocks);
      } else {
        IntervalSumCovered(c, rest - blocks, NextReward(c, r));
        CoveredDecayed(c, rest, r, blocks, NextReward(c, r), IntervalSum(c, rest - blocks, NextReward(c, r)));
      }
    }
  }

  /** What the schedule can issue by any height: the geometric series scaled by the
      interval, plus the perpetual minimum. */
  lemma IssuanceBound(c: TokenomicsConfig, h: nat)
    requires c.Runnable() && c.decayNumerator < c.decayDenominator
    ensures Cap128(IntervalSum(c, h, c.initialBlockReward)) * (c.decayDenominator - c.decayNumerator) <=
            c.decayInterval * c.initialBlockReward * c.decayDenominator
            + h * c.minBlockReward * (c.decayDenominator - c.decayNumerator)
  {
    var k := c.decayDenominator - c.decayNumerator;
    var sum := IntervalSum(c, h, c.initialBlockReward);
    IntervalSumCovered(c, h, c.initialBlockReward);
    TimesMonotone(Cap128(sum), sum, k);
    BoundInProducts(Cap128(sum), c.decayInterval, c.initialBlockReward, c.decayDenominator, k, c.minBlockReward, h);
  }

  lemma BoundInProducts(sum: nat, i: nat, r: nat, d: nat, k: nat, m: nat, h: nat)
    requires Times(k, sum) <= Times(Times(i, d), r) + Times(Times(k, m), h)
    ensures sum * k <= i * r * d + h * m * k
  {
    TimesCommutes(k, sum);
    TimesIsProduct(sum, k);
    TripleProduct(i, d, r);
    TripleProduct(k, m, h);
  }

  lemma TripleProduct(a: nat, b: nat, k: nat)
    ensures Times(Times(a, b), k) == a * k * b == k * b * a
  {
    TimesIsProduct(a, b);
    TimesIsProduct(Times(a, b), k);
    Rearranged(a, b, k);
  }

  lemma Rearranged(a: nat, b: nat, k: nat)
    ensures a * b * k == a * k * b == k * b * a
  {}

  // ----------------------------------------------------------- monotonicity --

  lemma {:induction false} RewardAfterDecreasing(c: TokenomicsConfig, i: nat, j: nat, r: U128)
    requires c.Runnable() && c.decayNumerator <= c.decayDenominator && c.minBlockReward <= r && i <= j
    ensures c.minBlockReward <= RewardAfter(c, j, r) <= RewardAfter(c, i, r) <= r
    decreases j
  {
    DecayShrinks(c, r);
    if i > 0 && Decay(c, r) > c.minBlockReward {
      RewardAfterDecreasing(c, i - 1, j - 1, Decay(c, r));
    } else if i == 0 < j && Decay(c, r) > c.minBlockReward {
      RewardAfterDecreasing(c, 0, j - 1, Decay(c, r));
    }
  }

  /** From block 1 on the reward never rises and stays within its two bounds. */
  lemma RewardNonIncreasing(c: TokenomicsConfig, g: nat, h: nat)
    requires c.Runnable() && c.decayNumerator <= c.decayDenominator && c.minBlockReward <= c.initialBlockReward
    requires 0 < g <= h
    ensures c.minBlockReward <= RewardAt(c, h) <= RewardAt(c, g) <= c.initialBlockReward
  {
    QuotMonotone(g - 1, h - 1, c.decayInterval);
    RewardAfterDecreasing(c, Quot(g - 1, c.decayInterval), Quot(h - 1, c.decayInterval), c.initialBlockReward);
  }

  // ------------------------------------------------------ asymptotic supply --

  /** `asymptotic_max_supply`, whose series leaves the interval out. */
  function AsymptoticMaxSupply(c: TokenomicsConfig): U128 {
    if c.decayNumerator >= c.decayDenominator then U128_MAX
    else Cap128(c.initialSupply +
                Quot(Cap128(Times(c.initialBlockReward, c.decayDenominator)), c.decayDenominator - c.decayNumerator))
  }

  /** The advertised maximum in full: unbounded without decay, and otherwise the initial
      supply plus reward times denominator over the difference, saturated twice. */
  lemma AdvertisedInFull(c: TokenomicsConfig, product: nat, difference: int)
    requires product == c.initialBlockReward * c.decayDenominator && difference == c.decayDenominator - c.decayNumerator
    ensures AsymptoticMaxSupply(c) ==
            if difference <= 0 then U128_MAX else Cap128(c.initialSupply + Cap128(product) / difference)
  {
    TimesIsProduct(c.initialBlockReward, c.decayDenominator);
    if difference > 0 { QuotIsDivision(Cap128(product), difference); }
  }

  /** Within the first interval the issued total passes the advertised maximum
      exactly when that many undiscounted rewards exceed the unscaled series. */
  lemma FirstIntervalPassesMaximum(c: TokenomicsConfig, h: nat)
    requires c.Runnable() && c.decayNumerator < c.decayDenominator && h <= c.decayInterval
    requires c.initialSupply + Times(c.initialBlockReward, c.decayDenominator) < U128_MAX
    ensures c.initialSupply + Cap128(IntervalSum(c, h, c.initialBlockReward)) > AsymptoticMaxSupply(c) <==>
            Times(c.initialBlockReward, h) >
            Quot(Times(c.initialBlockReward, c.decayDenominator), c.decayDenominator - c.decayNumerator)
  {
    if h > 0 { assert IntervalSum(c, 0, NextReward(c, c.initialBlockReward)) == 0; }
  }

  /** The mainnet configuration passes its "asymptotic maximum" at block 11. */
  lemma MainnetPassesMaximum()
    ensures var c := Mainnet();
            && c.initialSupply + Cap128(IntervalSum(c, 10, c.initialBlockReward)) == AsymptoticMaxSupply(c)
            && c.initialSupply + Cap128(IntervalSum(c, 11, c.initialBlockReward)) > AsymptoticMaxSupply(c)
  {
    var c := Mainnet();
    TimesIsProduct(c.initialBlockReward, 10);
    TimesIsProduct(c.initialBlockReward, 11);
    QuotIsDivision(100_000_000_000, 1);
    assert IntervalSum(c, 0, NextReward(c, c.initialBlockReward)) == 0;
    assert IntervalSum(c, 10, c.initialBlockReward) == Times(c.initialBlockReward, 10);
    assert IntervalSum(c, 11, c.initialBlockReward) == Times(c.initialBlockReward, 11);
  }

  /** The running reward never issues less per block than the smaller of itself and the
      minimum. */
  lemma {:induction false} IssuesAtLeast(c: TokenomicsConfig, n: nat, r: U128)
    requires c.Runnable()
    ensures IntervalSum(c, n, r) >= Times(Min(r, c.minBlockReward), n)
    decreases n
  {
    if r <= c.minBlockReward {
      StuckSum(c, n, r);
    } else if n > 0 {
      var blocks := Min(n, c.decayInterval);
      IssuesAtLeast(c, n - blocks, NextReward(c, r));
      TimesMonotone(c.minBlockReward, r, blocks);
      TimesDistributes(blocks, n - blocks, c.minBlockReward);
    }
  }

  lemma QuotientBounds(k: nat, sum: nat, a: nat)
    requires 0 < k && Times(k, sum) <= a
    ensures sum <= Quot(a, k)
  {
    QuotBounds(a, k);
    if sum > Quot(a, k) { TimesMonotone(Quot(a, k) + 1, sum, k); }
  }

  /** The advertised maximum is right for an interval of one block and no minimum: no
      height passes it. */
  lemma UnitIntervalNeverPasses(c: TokenomicsConfig, h: nat)
    requires c.Runnable() && c.decayNumerator < c.decayDenominator && c.decayInterval == 1 && c.minBlockReward == 0
    requires c.initialSupply + Times(c.initialBlockReward, c.decayDenominator) < U128_MAX
    ensures c.initialSupply + Cap128(IntervalSum(c, h, c.initialBlockReward)) <= AsymptoticMaxSupply(c)
  {
    var k, r, d := c.decayDenominator - c.decayNumerator, c.initialBlockReward, c.decayDenominator;
    var sum := IntervalSum(c, h, r);
    IntervalSumCovered(c, h, r);
    TimesOne(d);
    TimesCommutes(d, r);
    assert Times(k, 0) == 0;
    TimesCommutes(0, h);
    QuotientBounds(k, sum, Times(r, d));
  }

  // ------------------------------------------------- ever passing the maximum --

  lemma DecayStrict(c: TokenomicsConfig, r: U128)
    requires c.Runnable() && c.decayNumerator < c.decayDenominator && 0 < r
    ensures Decay(c, r) < r
  {
    var n, d := c.decayNumerator, c.decayDenominator;
    DecayShrinks(c, r);
    TimesDistributes(n, d - n, r);
    TimesMonotone(1, d - n, r);
    TimesCommutes(r, 1);
    TimesOne(r);
    TimesCommutes(r, d);
    FactorBelow(Decay(c, r), r, d);
  }

  lemma FactorBelow(a: nat, b: nat, d: nat)
    requires Times(d, a) < Times(d, b)
    ensures a < b
  {
    if b <= a { TimesMonotone(b, a, d); }
  }

  /** The rewards of one block of each interval, added up until they reach zero. */
  function DecaySum(c: TokenomicsConfig, r: U128): nat
    requires c.Runnable() && c.decayNumerator < c.decayDenominator
    decreases r
  {
    if r == 0 then 0 else
      DecayStrict(c, r);
      r + DecaySum(c, Decay(c, r))
  }

  /** The height by which they have. */
  function DecaySpan(c: TokenomicsConfig, r: U128): nat
    requires c.Runnable() && c.decayNumerator < c.decayDenominator
    decreases r
  {
    if r == 0 then 0 else
      DecayStrict(c, r);
      c.decayInterval + DecaySpan(c, Decay(c, r))
  }

  /** Without a minimum no height issues more than whole intervals of that sum ... */
  lemma {:induction false} IssuesAtMost(c: TokenomicsConfig, h: nat, r: U128)
    requires c.Runnable() && c.decayNumerator < c.decayDenominator && c.minBlockReward == 0
    ensures IntervalSum(c, h, r) <= Times(c.decayInterval, DecaySum(c, r))
    decreases h
  {
    if r == 0 {
      StuckSum(c, h, r);
      TimesCommutes(0, h);
    } else if h > 0 {
      var blocks := Min(h, c.decayInterval);
      IssuesAtMost(c, h - blocks, Decay(c, r));
      TimesMonotone(blocks, c.decayInterval, r);
      TimesCommutes(r, c.decayInterval);
      TimesDistributes(r, DecaySum(c, Decay(c, r)), c.decayInterval);
    }
  }

  /** ... and the span issues exactly that. */
  lemma {:induction false} SpanIssuesAll(c: TokenomicsConfig, r: U128)
    requires c.Runnable() && c.decayNumerator < c.decayDenominator && c.minBlockReward == 0
    ensures IntervalSum(c, DecaySpan(c, r), r) == Times(c.decayInterval, DecaySum(c, r))
    decreases r
  {
    if r > 0 {
      DecayStrict(c, r);
      SpanIssuesAll(c, Decay(c, r));
      TimesCommutes(r, c.decayInterval);
      TimesDistributes(r, DecaySum(c, Decay(c, r)), c.decayInterval);
    }
  }

  predicate PassesMaximum(c: TokenomicsConfig, h: nat)
    requires c.Runnable()
  {
    c.initialSupply + Cap128(IntervalSum(c, h, c.initialBlockReward)) > AsymptoticMaxSupply(c)
  }

  /** What the advertised maximum leaves to issue. */
  function Advertised(c: TokenomicsConfig): nat
    requires c.decayNumerator < c.decayDenominator
  {
    Quot(Times(c.initialBlockReward, c.decayDenominator), c.decayDenominator - c.decayNumerator)
  }

  lemma PassesIff(c: TokenomicsConfig, h: nat)
    requires c.Runnable() && c.decayNumerator < c.decayDenominator
    requires c.initialSupply + Times(c.initialBlockReward, c.decayDenominator) < U128_MAX
    ensures PassesMaximum(c, h) <==> IntervalSum(c, h, c.initialBlockReward) > Advertised(c)
  {}

  lemma {:induction false} IssuedGrows(c: TokenomicsConfig, g: nat, h: nat, r: U128)
    requires c.Runnable() && g <= h
    ensures IntervalSum(c, g, r) <= IntervalSum(c, h, r)
    decreases h
  {
    if g > 0 {
      TimesMonotone(Min(g, c.decayInterval), Min(h, c.decayInterval), r);
      if g > c.decayInterval { IssuedGrows(c, g - c.decayInterval, h - c.decayInterval, NextReward(c, r)); }
    }
  }

  /** Exactly which configurations pass their advertised maximum at some height the
      code accepts: those that have issued more than it leaves by the last one. */
  lemma EverPassesExactly(c: TokenomicsConfig)
    requires c.Runnable() && c.decayNumerator < c.decayDenominator
    requires c.initialSupply + Times(c.initialBlockReward, c.decayDenominator) < U128_MAX
    ensures (exists h: U64 :: PassesMaximum(c, h)) <==> IntervalSum(c, U64_MAX, c.initialBlockReward) > Advertised(c)
  {
    forall h: U64 ensures PassesMaximum(c, h) ==> IntervalSum(c, U64_MAX, c.initialBlockReward) > Advertised(c) {
      PassesIff(c, h);
      IssuedGrows(c, h, U64_MAX, c.initialBlockReward);
    }
    PassesIff(c, U64_MAX);
  }

  /** With a positive minimum and a positive initial reward the maximum is passed at
      the latest after as many blocks as it leaves to issue, if heights reach that far. */
  lemma PositiveMinimumPasses(c: TokenomicsConfig, h: U64)
    requires c.Runnable() && c.decayNumerator < c.decayDenominator && 0 < c.minBlockReward && 0 < c.initialBlockReward
    requires c.initialSupply + Times(c.initialBlockReward, c.decayDenominator) < U128_MAX
    ensures Advertised(c) < h ==> PassesMaximum(c, h)
  {
    if Advertised(c) < h { ScheduleReaches(c, h); }
  }

  /** The schedule itself, were heights unbounded: it passes the maximum exactly with a
      positive minimum and a positive initial reward, or without a minimum if the
      rewards, over whole intervals, add up to more than the maximum leaves to issue. */
  lemma SchedulePassesExactly(c: TokenomicsConfig)
    requires c.Runnable() && c.decayNumerator < c.decayDenominator
    requires c.initialSupply + Times(c.initialBlockReward, c.decayDenominator) < U128_MAX
    ensures (exists h: nat :: PassesMaximum(c, h)) <==>
            if c.minBlockReward > 0 then c.initialBlockReward > 0
            else Times(c.decayInterval, DecaySum(c, c.initialBlockReward)) > Advertised(c)
  {
    var r := c.initialBlockReward;
    if c.minBlockReward > 0 && r > 0 {
      ScheduleReaches(c, Advertised(c) + 1);
    } else if c.minBlockReward > 0 {
      forall h: nat ensures !PassesMaximum(c, h) {
        StuckSum(c, h, r);
        TimesCommutes(0, h);
        PassesIff(c, h);
      }
    } else {
      forall h: nat ensures PassesMaximum(c, h) ==> Times(c.decayInterval, DecaySum(c, r)) > Advertised(c) {
        IssuesAtMost(c, h, r);
        PassesIff(c, h);
      }
      SpanIssuesAll(c, r);
      PassesIff(c, DecaySpan(c, r));
    }
  }

  lemma ScheduleReaches(c: TokenomicsConfig, h: nat)
    requires c.Runnable() && c.decayNumerator < c.decayDenominator && 0 < c.minBlockReward && 0 < c.initialBlockReward
    requires c.initialSupply + Times(c.initialBlockReward, c.decayDenominator) < U128_MAX && Advertised(c) < h
    ensures PassesMaximum(c, h)
  {
    IssuesAtLeast(c, h, c.initialBlockReward);
    TimesMonotone(1, Min(c.initialBlockReward, c.minBlockReward), h);
    TimesOne(h);
    PassesIff(c, h);
  }

  /** The two differ: a schedule of one base unit per block whose maximum leaves exactly
      as many units as there are heights passes it only at the height after the last. */
  lemma LastHeightFallsShort(c: TokenomicsConfig)
    requires c.initialSupply == 0 && c.initialBlockReward == 1 && c.minBlockReward == 1 && c.decayInterval == 1
    requires c.decayDenominator == U64_MAX && c.decayNumerator == U64_MAX - 1
    ensures PassesMaximum(c, U64_MAX + 1) && forall h: U64 :: !PassesMaximum(c, h)
  {
    var d: nat, k: nat := c.decayDenominator, c.decayDenominator - c.decayNumerator;
    TimesOne(d);
    QuotIsDivision(d, k);
    OnePerBlock(c, d + 1);
    forall h: U64 ensures !PassesMaximum(c, h) { OnePerBlock(c, h); }
  }

  lemma OnePerBlock(c: TokenomicsConfig, h: nat)
    requires c.Runnable() && c.decayNumerator < c.decayDenominator && c.initialBlockReward == 1 <= c.minBlockReward
    requires c.initialSupply + Times(c.initialBlockReward, c.decayDenominator) < U128_MAX
    ensures PassesMaximum(c, h) <==> h > Advertised(c)
  {
    StuckSum(c, h, c.initialBlockReward);
    TimesOne(h);
    PassesIff(c, h);
  }
}
