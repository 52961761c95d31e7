/**
 * Sampling one payout: walk the buckets accumulating their probabilities and
 * return the payout of the first bucket whose running total reaches the roll;
 * if none does, fall back to the last (largest) payout.
 *
 * The roll is the program's `random.nextDouble()`, taken here as an input.
 * Probabilities and the running total are exact reals, an idealisation of the
 * program's doubles.
 */
module PayoutSampler {
  import opened Casino

  /** Sum of the first n probabilities. */
  function PrefixSum(chances: seq<real>, n: nat): real
    requires n <= |chances|
    decreases n
  {
    if n == 0 then 0.0 else PrefixSum(chances, n - 1) + chances[n - 1]
  }

  /** The running total after bucket i has reached the roll. */
  predicate Covers(chances: seq<real>, roll: real, i: nat)
    requires i < |chances|
  {
    roll <= PrefixSum(chances, i + 1)
  }

  /** The first bucket at or after `from` that covers the roll, or |chances| if none. */
  function FirstCovering(chances: seq<real>, roll: real, from: nat): (k: nat)
    requires from <= |chances|
    ensures from <= k <= |chances|
    ensures k < |chances| ==> Covers(chances, roll, k)
    ensures forall j :: from <= j < k ==> !Covers(chances, roll, j)
    decreases |chances| - from
  {
    if from == |chances| then |chances|
    else if Covers(chances, roll, from) then from
    else FirstCovering(chances, roll, from + 1)
  }

  /** The payout a roll selects: the first covering bucket's, else the last bucket's. */
  function SampledPayout(chances: seq<real>, roll: real): (payout: int)
    requires |chances| <= |Payouts|
    ensures payout in Payouts
  {
    var k := FirstCovering(chances, roll, 0);
    if k < |chances| then Payouts[k] else Payouts[|Payouts| - 1]
  }

  /** The cumulative walk with its early return and its fallback. */
  method SamplePayout(chances: seq<real>, roll: real) returns (payout: int)
    requires |chances| <= |Payouts|
    ensures payout in Payouts
    ensures payout == SampledPayout(chances, roll)
  {
    var cumulative := 0.0;
    for i := 0 to |chances|
      invariant cumulative == PrefixSum(chances, i)
      invariant forall j :: 0 <= j < i ==> !Covers(chances, roll, j)
    {
      cumulative := cumulative + chances[i];
      if roll <= cumulative {
        assert Covers(chances, roll, i);
        assert FirstCovering(chances, roll, 0) == i;
        return Payouts[i];
      }
    }
    return Payouts[|Payouts| - 1];
  }

  lemma {:induction false} PrefixSumMonotone(chances: seq<real>, m: nat, n: nat)
    requires m <= n <= |chances|
    requires forall j :: 0 <= j < |chances| ==> chances[j] >= 0.0
    ensures PrefixSum(chances, m) <= PrefixSum(chances, n)
    decreases n - m
  {
    if m < n {
      PrefixSumMonotone(chances, m, n - 1);
    }
  }

  /**
   * With non-negative probabilities, bucket i is chosen exactly for the rolls
   * in the interval (PrefixSum(i), PrefixSum(i + 1)], the first bucket for
   * every roll up to its probability; so a uniform roll picks bucket i with
   * probability chances[i].
   */
  lemma BucketInterval(chances: seq<real>, roll: real, i: nat)
    requires i < |chances|
    requires forall j :: 0 <= j < |chances| ==> chances[j] >= 0.0
    ensures FirstCovering(chances, roll, 0) == i <==>
      (i == 0 || PrefixSum(chances, i) < roll) && roll <= PrefixSum(chances, i + 1)
  {
    var k := FirstCovering(chances, roll, 0);
    if (i == 0 || PrefixSum(chances, i) < roll) && roll <= PrefixSum(chances, i + 1) {
      assert Covers(chances, roll, i);
      if k < i {
        PrefixSumMonotone(chances, k + 1, i);
        assert false;
      }
    }
    if k == i && i > 0 {
      assert !Covers(chances, roll, i - 1);
      assert PrefixSum(chances, i) < roll;
    }
  }

  /** The fallback is taken only if the walk's total stays below the roll. */
  lemma NoFallbackWhenTotalReached(chances: seq<real>, roll: real)
    requires 0 < |chances|
    requires roll <= PrefixSum(chances, |chances|)
    ensures FirstCovering(chances, roll, 0) < |chances|
  {
    assert Covers(chances, roll, |chances| - 1);
  }

  /**
   * The fixed distribution: a roll up to 0.50 pays 0, up to 0.80 pays 1, up to
   * 0.95 pays 5, and anything above pays 100; for rolls up to 1.0 the
   * fallback is never the reason for a payout of 100.
   */
  lemma FixedChancesBuckets(roll: real)
    ensures SampledPayout(FixedChances, roll) ==
      if roll <= 0.50 then 0
      else if roll <= 0.80 then 1
      else if roll <= 0.95 then 5
      else 100
    ensures roll <= 1.0 ==> FirstCovering(FixedChances, roll, 0) < |FixedChances|
  {
    assert PrefixSum(FixedChances, 1) == 0.50;
    assert PrefixSum(FixedChances, 2) == 0.80;
    assert PrefixSum(FixedChances, 3) == 0.95;
    assert PrefixSum(FixedChances, 4) == 1.0;
    if roll <= 1.0 {
      NoFallbackWhenTotalReached(FixedChances, roll);
    }
  }
}
