/** The tool's tiered subscription price. */
module Pricing {

  /** Price of one trace for a subscription of `traces` traces. Each tier's
      upper bound belongs to that tier; everything above 250 costs 5. */
  function PricePerTrace(traces: int): (price: int)
    ensures price in {10, 9, 8, 6, 5}
    ensures price == 10 <==> traces <= 25
    ensures price == 5 <==> traces > 250
  {
    if traces <= 25 then 10
    else if traces <= 50 then 9
    else if traces <= 100 then 8
    else if traces <= 250 then 6
    else 5
  }

  /** Monthly subscription cost: the tier price times the number of traces. */
  function SubscriptionCost(traces: int): (cost: int)
    ensures traces >= 0 ==> (cost == 0 <==> traces == 0)
    ensures traces > 0 ==> 5 * traces <= cost <= 10 * traces
  {
    PricePerTrace(traces) * traces
  }

  /** The tier table as data: inclusive upper bound and price of each bounded
      tier, cheapest last; counts above every bound pay `OpenTierPrice`. */
  const Tiers: seq<(int, int)> := [(25, 10), (50, 9), (100, 8), (250, 6)]
  const OpenTierPrice: int := 5

  /** Reference price: the price of the first tier whose upper bound admits
      `traces`. */
  function TierPrice(tiers: seq<(int, int)>, traces: int): int
  {
    if |tiers| == 0 then OpenTierPrice
    else if traces <= tiers[0].0 then tiers[0].1
    else TierPrice(tiers[1..], traces)
  }

  /** The branch chain agrees with the tier table for every count. */
  lemma PriceMatchesTierTable(traces: int)
    ensures PricePerTrace(traces) == TierPrice(Tiers, traces)
  {
    var t1, t2, t3, t4 := Tiers[1..], Tiers[2..], Tiers[3..], Tiers[4..];
    assert t1 == [(50, 9), (100, 8), (250, 6)] && t1[1..] == t2;
    assert t2 == [(100, 8), (250, 6)] && t2[1..] == t3;
    assert t3 == [(250, 6)] && t3[1..] == t4 && t4 == [];
    assert TierPrice(t4, traces) == 5;
    assert TierPrice(t3, traces) == if traces <= 250 then 6 else 5;
    assert TierPrice(t2, traces) == if traces <= 100 then 8 else TierPrice(t3, traces);
    assert TierPrice(t1, traces) == if traces <= 50 then 9 else TierPrice(t2, traces);
  }

  /** The price never rises as the trace count grows. */
  lemma PriceNonIncreasing(a: int, b: int)
    requires a <= b
    ensures PricePerTrace(b) <= PricePerTrace(a)
  {
  }

  /** Tier boundaries: each upper bound is in its own tier. */
  lemma TierBoundaries()
    ensures PricePerTrace(25) == 10 && PricePerTrace(26) == 9
    ensures PricePerTrace(50) == 9 && PricePerTrace(51) == 8
    ensures PricePerTrace(100) == 8 && PricePerTrace(101) == 6
    ensures PricePerTrace(250) == 6 && PricePerTrace(251) == 5
  {
  }

  /** Inside one tier the cost grows with the count. */
  lemma CostMonotoneWithinTier(a: int, b: int)
    requires 0 <= a <= b
    requires PricePerTrace(a) == PricePerTrace(b)
    ensures SubscriptionCost(a) <= SubscriptionCost(b)
  {
  }

  /** Across a tier boundary the cost can drop: 25 traces cost more than 26. */
  lemma CostNotMonotone()
    ensures SubscriptionCost(25) == 250 && SubscriptionCost(26) == 234
  {
  }
}
