/** The coverage sweep: one scenario row per whole percent of coverage, before
    any grouping. */
module Scenarios {
  import opened Wrappers
  import opened Pricing
  import Seqs
  import RealArith

  /** The builder's inputs: head count, critical services per user, monthly
      downtime cost and the fraction of that cost the tool removes at full
      coverage. */
  datatype Input = Input(userCount: int, criticalServices: int, downtimeCost: real, impact: real)

  /** Both counts are at least one, so the sweep has at least one trace. */
  predicate Valid(inp: Input)
  {
    inp.userCount >= 1 && inp.criticalServices >= 1
  }

  /** Every (user, critical service) pair as a trace: the count at 100% coverage. */
  function MaxTraces(inp: Input): (m: nat)
    requires Valid(inp)
    ensures m >= inp.userCount && m >= inp.criticalServices
  {
    inp.userCount * inp.criticalServices
  }

  /** Coverage runs over the whole percents 0, 1, ..., LastPercent. */
  const LastPercent: nat := 100

  /** Traces needed to cover `pct` percent of `m` paths, rounded up. */
  function Traces(m: nat, pct: nat): nat
  {
    (m * pct + 99) / 100
  }

  /** The trace count is the least whole number of traces whose hundredfold
      reaches `m * pct`: the exact ceiling of `m * pct / 100`. */
  lemma TracesIsCeiling(m: nat, pct: nat)
    ensures 100 * (Traces(m, pct) - 1) < m * pct <= 100 * Traces(m, pct)
  {
  }

  /** More coverage never needs fewer traces. */
  lemma TracesMonotone(m: nat, i: nat, j: nat)
    requires i <= j
    ensures Traces(m, i) <= Traces(m, j)
  {
    TracesIsCeiling(m, i);
    TracesIsCeiling(m, j);
    assert m * i <= m * j by {
      assert m * j - m * i == m * (j - i);
    }
  }

  /** The sweep starts at no traces, ends at every path, and stays in between;
      any positive coverage needs at least one trace. */
  lemma TracesBounds(m: nat, pct: nat)
    requires pct <= LastPercent
    ensures Traces(m, 0) == 0 && Traces(m, LastPercent) == m
    ensures Traces(m, pct) <= m
    ensures m >= 1 && pct >= 1 ==> Traces(m, pct) >= 1
  {
    TracesMonotone(m, pct, LastPercent);
    if m >= 1 && pct >= 1 {
      assert m * pct >= 1 by {
        assert m * pct >= 1 * pct;
      }
    }
  }

  /** One scenario, or after grouping one table row. `coverage` is a whole
      percent; `roi` is None where the ratio is undefined (no traces, so no
      cost to divide by). */
  datatype Row = Row(
    traces: int,
    coverage: int,
    cost: int,
    costPerTrace: int,
    downtimeCost: real,
    downtimeImpact: real,
    adjustedDowntime: real,
    roi: Option<real>)

  /** Key projections used to state orderings and to group. */
  function TracesOf(r: Row): int { r.traces }
  function CoverageOf(r: Row): int { r.coverage }

  /** Downtime saved at `pct` percent coverage. */
  function Savings(inp: Input, pct: nat): real
  {
    inp.downtimeCost * inp.impact * (pct as real / 100.0)
  }

  /** With an impact of one, full coverage saves the whole downtime cost. */
  lemma FullImpactSavings(inp: Input)
    ensures inp.impact == 1.0 ==> Savings(inp, LastPercent) == inp.downtimeCost
  {
  }

  /** Return on the subscription: net gain per unit of cost, undefined for a
      free subscription. */
  function Roi(savings: real, cost: int): (roi: Option<real>)
    ensures roi.None? <==> cost == 0
    ensures cost > 0 ==> (roi.value > 0.0 <==> savings > cost as real)
    ensures cost > 0 ==> (roi.value < 0.0 <==> savings < cost as real)
  {
    if cost == 0 then None else Some((savings - cost as real) / cost as real)
  }

  /** ROI rises strictly with savings at a fixed cost. */
  lemma RoiIncreasingInSavings(s1: real, s2: real, cost: int)
    requires cost > 0 && s1 < s2
    ensures Roi(s1, cost).value < Roi(s2, cost).value
  {
    RealArith.DivLt(s1 - cost as real, s2 - cost as real, cost as real);
  }

  /** ROI falls strictly with cost when there is something to save. */
  lemma RoiDecreasingInCost(savings: real, c1: int, c2: int)
    requires 0 < c1 < c2 && savings > 0.0
    ensures Roi(savings, c2).value < Roi(savings, c1).value
  {
    var a, b := c1 as real, c2 as real;
    RealArith.NetOverCost(savings, a);
    RealArith.NetOverCost(savings, b);
    RealArith.SpreadThinner(savings, a, b);
  }

  /** The scenario at `pct` percent coverage. */
  function ScenarioRow(inp: Input, pct: nat): (r: Row)
    requires Valid(inp) && pct <= LastPercent
    ensures r.coverage == pct && r.traces == Traces(MaxTraces(inp), pct)
    ensures 0 <= r.traces <= MaxTraces(inp)
    ensures r.downtimeCost == inp.downtimeCost
    ensures r.downtimeImpact + r.adjustedDowntime == r.downtimeCost
    ensures r.cost > 0 <==> pct > 0
    ensures r.roi.Some? <==> pct > 0
    ensures r.roi.Some? ==> (r.roi.value > 0.0 <==> r.downtimeImpact > r.cost as real)
    ensures inp.impact == 1.0 && pct == LastPercent ==> r.downtimeImpact == inp.downtimeCost
  {
    TracesBounds(MaxTraces(inp), pct);
    FullImpactSavings(inp);
    var traces := Traces(MaxTraces(inp), pct);
    var cost := SubscriptionCost(traces);
    var impact := Savings(inp, pct);
    Row(traces, pct, cost, PricePerTrace(traces), inp.downtimeCost, impact,
        inp.downtimeCost - impact, Roi(impact, cost))
  }

  /** The full sweep over 0%, 1%, ..., 100% coverage, in that order. */
  function Sweep(inp: Input): (rows: seq<Row>)
    requires Valid(inp)
    ensures |rows| == LastPercent + 1
    ensures forall i :: 0 <= i < |rows| ==> rows[i] == ScenarioRow(inp, i)
    ensures Seqs.IncreasingBy(rows, CoverageOf)
    ensures forall x :: x in rows ==> 0 <= x.coverage <= LastPercent && rows[x.coverage] == x
    ensures rows[0].traces == 0 && rows[LastPercent].traces == MaxTraces(inp)
  {
    TracesBounds(MaxTraces(inp), 0);
    seq(LastPercent + 1, i requires 0 <= i <= LastPercent => ScenarioRow(inp, i))
  }

  /** Trace counts never decrease along the sweep. */
  lemma ScenarioTracesNonDecreasing(inp: Input, i: nat, j: nat)
    requires Valid(inp) && i <= j <= LastPercent
    ensures Sweep(inp)[i].traces <= Sweep(inp)[j].traces
  {
    TracesMonotone(MaxTraces(inp), i, j);
  }
}
