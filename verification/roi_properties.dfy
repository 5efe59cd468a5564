/** What the scenario table and its queries promise, stated over all inputs. */
module RoiProperties {
  import opened Wrappers
  import opened Pricing
  import opened Scenarios
  import opened Grouping
  import opened RoiModel
  import Seqs
  import RealArith

  /** The percents whose scenarios fall in the trace-count group `t` are
      exactly the interval lo..hi. */
  ghost predicate GroupSpan(inp: Input, t: int, lo: nat, hi: nat)
    requires Valid(inp)
  {
    forall i: nat :: i <= LastPercent ==> (Traces(MaxTraces(inp), i) == t <==> lo <= i <= hi)
  }

  /** The downtime the tool removes at full coverage. */
  function FullSavings(inp: Input): real
  {
    inp.downtimeCost * inp.impact
  }

  /** With non-negative full savings, savings grow with coverage. */
  lemma SavingsMonotone(inp: Input, i: nat, j: nat)
    requires i <= j && FullSavings(inp) >= 0.0
    ensures Savings(inp, i) <= Savings(inp, j)
  {
    var k := FullSavings(inp);
    assert k * (j as real / 100.0) - k * (i as real / 100.0) == k * ((j - i) as real / 100.0);
  }

  /** The percents that need trace count `t` form one run lo..hi, and the
      group's first and last rows are the scenarios at its two ends. */
  lemma GroupRun(inp: Input, t: int) returns (lo: nat, hi: nat)
    requires Valid(inp) && t >= 1 && t in Keys(Sweep(inp))
    ensures 1 <= lo <= hi <= LastPercent && GroupSpan(inp, t, lo, hi)
    ensures Sweep(inp)[lo] in Group(Sweep(inp), t) && Sweep(inp)[hi] in Group(Sweep(inp), t)
    ensures forall y :: y in Group(Sweep(inp), t) ==> lo <= y.coverage <= hi
  {
    lo, hi := GroupEnds(inp, t);
    var m := MaxTraces(inp);
    TracesBounds(m, 0);
    forall i: nat | i <= LastPercent
      ensures Traces(m, i) == t <==> lo <= i <= hi
    {
      if Traces(m, i) == t {
        assert Sweep(inp)[i] in Group(Sweep(inp), t);
      }
      if lo <= i <= hi {
        TracesMonotone(m, lo, i);
        TracesMonotone(m, i, hi);
      }
    }
  }

  /** The first and last rows of a scenario group are the scenarios with the
      least and the greatest coverage in it. */
  lemma GroupEnds(inp: Input, t: int) returns (lo: nat, hi: nat)
    requires Valid(inp) && t in Keys(Sweep(inp))
    ensures lo <= hi <= LastPercent
    ensures Sweep(inp)[lo] in Group(Sweep(inp), t) && Sweep(inp)[hi] in Group(Sweep(inp), t)
    ensures forall y :: y in Group(Sweep(inp), t) ==> lo <= y.coverage <= hi
  {
    var scn := Sweep(inp);
    var g := Group(scn, t);
    Seqs.FilterIncreasing(scn, HasTraces(t), CoverageOf);
    var y :| y in scn && y.traces == t;
    assert y in g;
    lo, hi := g[0].coverage, g[|g| - 1].coverage;
    forall z | z in g
      ensures lo <= z.coverage <= hi
    {
      Seqs.EndsAreExtremes(g, CoverageOf, z);
    }
  }

  /** A table row is a grouped sweep row with traces and a defined ROI. */
  lemma TableRow(inp: Input, x: Row)
    requires Valid(inp) && x in BuildTable(inp)
    ensures x in GroupByTraces(Sweep(inp)) && x.traces in Keys(Sweep(inp))
    ensures 1 <= x.traces <= MaxTraces(inp) && x.roi.Some?
    ensures x.cost == SubscriptionCost(x.traces)
  {
    GroupedScenarioRow(inp, x);
  }

  /** Every table row stands for the run of percents lo..hi that need its
      trace count: the coverage column is the run's highest percent, and the
      cost, price and downtime columns are those of its trace count. */
  lemma BuildRowColumns(inp: Input, x: Row) returns (lo: nat, hi: nat)
    requires Valid(inp) && x in BuildTable(inp)
    ensures 1 <= lo <= hi <= LastPercent && GroupSpan(inp, x.traces, lo, hi)
    ensures x.coverage == hi && x.traces == Traces(MaxTraces(inp), hi)
    ensures x.cost == SubscriptionCost(x.traces) && x.costPerTrace == PricePerTrace(x.traces)
    ensures x.downtimeCost == inp.downtimeCost
  {
    var scn := Sweep(inp);
    var t := x.traces;
    TableRow(inp, x);
    lo, hi := GroupRun(inp, t);
    var c, p, d, _, _, _, _ := GroupedRowSources(scn, x);
    assert x.coverage == hi by {
      GroupedRowDominates(scn, x, scn[hi]);
    }
    assert x.traces == Traces(MaxTraces(inp), hi) by {
      GroupMember(inp, t, scn[hi]);
    }
    assert x.costPerTrace == PricePerTrace(t) by {
      GroupMember(inp, t, p);
    }
    assert x.downtimeCost == inp.downtimeCost by {
      GroupMember(inp, t, d);
    }
  }

  /** With non-negative savings the grouped maxima come from the ends of the
      run: savings and ROI from its highest percent, adjusted downtime from
      its lowest. */
  lemma BuildRowSavingsColumns(inp: Input, x: Row) returns (lo: nat, hi: nat)
    requires Valid(inp) && x in BuildTable(inp) && FullSavings(inp) >= 0.0
    ensures 1 <= lo <= hi <= LastPercent && GroupSpan(inp, x.traces, lo, hi)
    ensures x.coverage == hi && x.traces == Traces(MaxTraces(inp), hi)
    ensures x.downtimeCost == inp.downtimeCost
    ensures x.downtimeImpact == Savings(inp, hi)
    ensures x.roi == Roi(Savings(inp, hi), SubscriptionCost(x.traces))
    ensures x.adjustedDowntime == inp.downtimeCost - Savings(inp, lo)
  {
    lo, hi := BuildRowColumns(inp, x);
    TableRow(inp, x);
    var lo', hi' := GroupRun(inp, x.traces);
    assert lo' == lo && hi' == hi by {
      SpanUnique(inp, x.traces, lo, hi, lo', hi');
    }
    GroupMaxSavings(inp, x, hi);
    GroupMaxRoi(inp, x, hi);
    GroupMaxAdjusted(inp, x, lo);
  }

  /** A trace count's run of percents has one pair of ends. */
  lemma SpanUnique(inp: Input, t: int, lo: nat, hi: nat, lo': nat, hi': nat)
    requires Valid(inp) && lo <= hi <= LastPercent && lo' <= hi' <= LastPercent
    requires GroupSpan(inp, t, lo, hi) && GroupSpan(inp, t, lo', hi')
    ensures lo == lo' && hi == hi'
  {
    assert Traces(MaxTraces(inp), lo) == t && Traces(MaxTraces(inp), hi) == t;
    assert Traces(MaxTraces(inp), lo') == t && Traces(MaxTraces(inp), hi') == t;
  }

  /** Savings grow with coverage, so their group maximum is at the top. */
  lemma GroupMaxSavings(inp: Input, x: Row, hi: nat)
    requires Valid(inp) && FullSavings(inp) >= 0.0 && hi <= LastPercent
    requires x in GroupByTraces(Sweep(inp))
    requires Sweep(inp)[hi] in Group(Sweep(inp), x.traces)
    requires forall y :: y in Group(Sweep(inp), x.traces) ==> y.coverage <= hi
    ensures x.downtimeImpact == Savings(inp, hi)
  {
    var scn := Sweep(inp);
    var top := scn[hi];
    var _, _, _, a, _, _, _ := GroupedRowSources(scn, x);
    assert top.downtimeImpact == Savings(inp, hi) by {
      GroupMemberSavings(inp, x.traces, top);
    }
    assert a.downtimeImpact == Savings(inp, a.coverage) && a.coverage <= hi by {
      GroupMemberSavings(inp, x.traces, a);
    }
    GroupedRowDominates(scn, x, top);
    SavingsPeak(inp, x.downtimeImpact, a.coverage, hi);
  }

  /** A value that is the savings at some coverage up to `hi`, yet no less
      than the savings at `hi`, is the savings at `hi`. */
  lemma SavingsPeak(inp: Input, v: real, c: nat, hi: nat)
    requires FullSavings(inp) >= 0.0 && c <= hi
    requires v == Savings(inp, c) && v >= Savings(inp, hi)
    ensures v == Savings(inp, hi)
  {
    SavingsMonotone(inp, c, hi);
  }

  /** At a fixed trace count ROI grows with savings, so its group maximum is
      at the top too. */
  lemma GroupMaxRoi(inp: Input, x: Row, hi: nat)
    requires Valid(inp) && FullSavings(inp) >= 0.0 && hi <= LastPercent && x.traces >= 1
    requires x in GroupByTraces(Sweep(inp))
    requires Sweep(inp)[hi] in Group(Sweep(inp), x.traces)
    requires forall y :: y in Group(Sweep(inp), x.traces) ==> y.coverage <= hi
    ensures x.roi == Roi(Savings(inp, hi), SubscriptionCost(x.traces))
  {
    var scn := Sweep(inp);
    var t := x.traces;
    var top := scn[hi];
    var _, _, _, _, _, b, _ := GroupedRowSources(scn, x);
    var cost := SubscriptionCost(t);
    assert top.roi == Roi(Savings(inp, hi), cost) by {
      GroupMemberSavings(inp, t, top);
    }
    assert b.roi == Roi(Savings(inp, b.coverage), cost) && b.coverage <= hi by {
      GroupMemberSavings(inp, t, b);
    }
    assert cost > 0 by {
      GroupMember(inp, t, b);
    }
    GroupedRowDominates(scn, x, top);
    RoiPeak(inp, x.roi.value, b.coverage, hi, cost);
  }

  /** The same for ROI at a positive cost. */
  lemma RoiPeak(inp: Input, v: real, c: nat, hi: nat, cost: int)
    requires FullSavings(inp) >= 0.0 && c <= hi && cost > 0
    requires v == Roi(Savings(inp, c), cost).value && v >= Roi(Savings(inp, hi), cost).value
    ensures v == Roi(Savings(inp, hi), cost).value
  {
    SavingsMonotone(inp, c, hi);
    RoiMonotone(Savings(inp, c), Savings(inp, hi), cost);
  }

  /** At a positive cost ROI never falls as savings rise. */
  lemma RoiMonotone(s1: real, s2: real, cost: int)
    requires cost > 0 && s1 <= s2
    ensures Roi(s1, cost).value <= Roi(s2, cost).value
  {
    RealArith.DivLe(s1 - cost as real, s2 - cost as real, cost as real);
  }

  /** Adjusted downtime shrinks with coverage, so its group maximum is at the
      bottom. */
  lemma GroupMaxAdjusted(inp: Input, x: Row, lo: nat)
    requires Valid(inp) && FullSavings(inp) >= 0.0 && lo <= LastPercent
    requires x in GroupByTraces(Sweep(inp))
    requires Sweep(inp)[lo] in Group(Sweep(inp), x.traces)
    requires forall y :: y in Group(Sweep(inp), x.traces) ==> lo <= y.coverage
    ensures x.adjustedDowntime == inp.downtimeCost - Savings(inp, lo)
  {
    var scn := Sweep(inp);
    var bottom := scn[lo];
    var _, _, _, _, c, _, _ := GroupedRowSources(scn, x);
    assert bottom.adjustedDowntime == inp.downtimeCost - Savings(inp, lo) by {
      GroupMemberSavings(inp, x.traces, bottom);
    }
    assert c.adjustedDowntime == inp.downtimeCost - Savings(inp, c.coverage) && lo <= c.coverage by {
      GroupMemberSavings(inp, x.traces, c);
    }
    GroupedRowDominates(scn, x, bottom);
    AdjustedPeak(inp, x.adjustedDowntime, c.coverage, lo);
  }

  /** Adjusted downtime at some coverage from `lo` up that is no less than
      the adjusted downtime at `lo` is the adjusted downtime at `lo`. */
  lemma AdjustedPeak(inp: Input, v: real, c: nat, lo: nat)
    requires FullSavings(inp) >= 0.0 && lo <= c
    requires v == inp.downtimeCost - Savings(inp, c) && v >= inp.downtimeCost - Savings(inp, lo)
    ensures v == inp.downtimeCost - Savings(inp, lo)
  {
    SavingsMonotone(inp, lo, c);
  }

  /** Because each column is maximised on its own, a row's savings and
      adjusted downtime add up to at least the downtime cost, and to exactly
      that only when nothing is saved or one percent alone needs its count.
      The excess is the full savings times the width of the row's run. */
  lemma BuildRowSumIdentity(inp: Input, x: Row) returns (lo: nat, hi: nat)
    requires Valid(inp) && x in BuildTable(inp) && FullSavings(inp) >= 0.0
    ensures 1 <= lo <= hi <= LastPercent && GroupSpan(inp, x.traces, lo, hi)
    ensures x.downtimeImpact + x.adjustedDowntime - x.downtimeCost
         == FullSavings(inp) * ((hi - lo) as real / 100.0)
    ensures x.downtimeImpact + x.adjustedDowntime >= x.downtimeCost
    ensures x.downtimeImpact + x.adjustedDowntime == x.downtimeCost <==> FullSavings(inp) == 0.0 || lo == hi
  {
    lo, hi := BuildRowSavingsColumns(inp, x);
    RunExcess(inp, x, lo, hi);
  }

  /** A row whose savings come from the top of the run lo..hi and whose
      adjusted downtime comes from its bottom exceeds the downtime cost by
      the savings of the run's width. */
  lemma RunExcess(inp: Input, x: Row, lo: nat, hi: nat)
    requires lo <= hi && FullSavings(inp) >= 0.0
    requires x.downtimeImpact == Savings(inp, hi)
    requires x.adjustedDowntime == inp.downtimeCost - Savings(inp, lo)
    requires x.downtimeCost == inp.downtimeCost
    ensures x.downtimeImpact + x.adjustedDowntime - x.downtimeCost
         == FullSavings(inp) * ((hi - lo) as real / 100.0)
    ensures x.downtimeImpact + x.adjustedDowntime >= x.downtimeCost
    ensures x.downtimeImpact + x.adjustedDowntime == x.downtimeCost <==> FullSavings(inp) == 0.0 || lo == hi
  {
    SavingsDifference(inp, lo, hi);
    ExcessSign(x.downtimeImpact + x.adjustedDowntime, x.downtimeCost, FullSavings(inp), lo, hi);
  }

  /** An excess of full savings times a coverage gap is zero exactly when
      one of the two is. */
  lemma ExcessSign(sum: real, base: real, k: real, lo: nat, hi: nat)
    requires lo <= hi && k >= 0.0
    requires sum - base == k * ((hi - lo) as real / 100.0)
    ensures sum >= base
    ensures sum == base <==> k == 0.0 || lo == hi
  {
    RealArith.ProductSign(k, (hi - lo) as real / 100.0);
  }

  /** Without full savings there are no savings at any coverage. */
  lemma SavingsNonPositive(inp: Input, pct: nat)
    requires FullSavings(inp) <= 0.0
    ensures Savings(inp, pct) <= 0.0
  {
    RealArith.MulLeftLe(0.0 - FullSavings(inp), 0.0, pct as real / 100.0);
  }

  /** Savings between two coverages are the full savings times the gap. */
  lemma SavingsDifference(inp: Input, lo: nat, hi: nat)
    requires lo <= hi
    ensures Savings(inp, hi) - Savings(inp, lo) == FullSavings(inp) * ((hi - lo) as real / 100.0)
  {
    var k := FullSavings(inp);
    assert k * (hi as real / 100.0) - k * (lo as real / 100.0) == k * ((hi - lo) as real / 100.0);
  }

  /** The last row is the full-coverage row: every path traced. */
  lemma LastRowIsFullCoverage(inp: Input)
    requires Valid(inp)
    ensures |BuildTable(inp)| > 0
    ensures BuildTable(inp)[|BuildTable(inp)| - 1].traces == MaxTraces(inp)
    ensures BuildTable(inp)[|BuildTable(inp)| - 1].coverage == LastPercent
  {
    var table := BuildTable(inp);
    var m := MaxTraces(inp);
    TracesBounds(m, LastPercent);
    assert m in ReachedTraces(inp);
    var y :| y in table && y.traces == m;
    var last := table[|table| - 1];
    Seqs.EndsAreExtremes(table, TracesOf, y);
    assert last.traces == m;
    var lo, hi := BuildRowColumns(inp, last);
  }

  /** With non-negative savings the last row's ROI is the full-coverage
      scenario's. */
  lemma LastRowRoi(inp: Input)
    requires Valid(inp) && FullSavings(inp) >= 0.0
    ensures |BuildTable(inp)| > 0
    ensures BuildTable(inp)[|BuildTable(inp)| - 1].roi
         == Roi(Savings(inp, LastPercent), SubscriptionCost(MaxTraces(inp)))
  {
    LastRowIsFullCoverage(inp);
    var table := BuildTable(inp);
    var _, _ := BuildRowSavingsColumns(inp, table[|table| - 1]);
  }

  /** No scenario beats full coverage: the ceiling makes a partial sweep pay
      for at least its share of traces, and the tier price never drops below
      the full-coverage price. */
  lemma ScenarioRoiAtMostFull(inp: Input, i: nat)
    requires Valid(inp) && 1 <= i <= LastPercent && FullSavings(inp) >= 0.0
    ensures SubscriptionCost(Traces(MaxTraces(inp), i)) > 0 && SubscriptionCost(MaxTraces(inp)) > 0
    ensures Roi(Savings(inp, i), SubscriptionCost(Traces(MaxTraces(inp), i))).value
         <= Roi(Savings(inp, LastPercent), SubscriptionCost(MaxTraces(inp))).value
  {
    SavingsShare(inp, i);
    SavingsShare(inp, LastPercent);
    PartialRoiAtMostFull(FullSavings(inp), MaxTraces(inp), i, Savings(inp, i), Savings(inp, LastPercent));
  }

  /** Savings at a coverage are that share of the full savings. */
  lemma SavingsShare(inp: Input, pct: nat)
    ensures Savings(inp, pct) == FullSavings(inp) * (pct as real / 100.0)
  {
  }

  /** The arithmetic behind it, for `m` paths, full savings `k` and the
      savings `s` and `sFull` at `i` percent and at full coverage. */
  lemma PartialRoiAtMostFull(k: real, m: nat, i: nat, s: real, sFull: real)
    requires k >= 0.0 && m >= 1 && 1 <= i <= LastPercent
    requires s == k * (i as real / 100.0) && sFull == k * (LastPercent as real / 100.0)
    ensures SubscriptionCost(Traces(m, i)) > 0 && SubscriptionCost(m) > 0
    ensures Roi(s, SubscriptionCost(Traces(m, i))).value <= Roi(sFull, SubscriptionCost(m)).value
  {
    TracesBounds(m, i);
    var t := Traces(m, i);
    var p, pm := PricePerTrace(t), PricePerTrace(m);
    var c, cm := SubscriptionCost(t), SubscriptionCost(m);
    PriceNonIncreasing(t, m);
    FullPriceShare(m, i, t, p, pm);
    CrossMultiplied(k, s, i, m, pm, cm, c);
    assert sFull == k;
    RoiComparison(s, c, k, cm);
  }

  /** Comparing two ROIs by cross-multiplying savings and costs. */
  lemma RoiComparison(s: real, c: int, k: real, cm: int)
    requires c > 0 && cm > 0 && s * cm as real <= k * c as real
    ensures Roi(s, c).value <= Roi(k, cm).value
  {
    RealArith.RatioLe(s, c as real, k, cm as real);
    RealArith.NetOverCost(s, c as real);
    RealArith.NetOverCost(k, cm as real);
  }

  /** Full-coverage price times the covered share of paths is at most what
      the partial sweep pays. */
  lemma FullPriceShare(m: nat, i: nat, t: nat, p: int, pm: int)
    requires m * i <= 100 * t && 0 <= pm <= p
    ensures m * i * pm <= 100 * (p * t)
  {
    assert (100 * t - m * i) * pm >= 0;
    assert 100 * t * (p - pm) >= 0;
  }

  /** The real-number side of the comparison above. */
  lemma CrossMultiplied(k: real, s: real, i: nat, m: nat, pm: int, cm: int, c: int)
    requires k >= 0.0 && s == k * (i as real / 100.0) && cm == pm * m
    requires m * i * pm <= 100 * c
    ensures s * cm as real <= k * c as real
  {
    assert s * cm as real == k * ((m * i * pm) as real / 100.0);
    assert (m * i * pm) as real / 100.0 <= c as real;
    RealArith.MulLeftLe(k, (m * i * pm) as real / 100.0, c as real);
  }

  /** With non-negative savings the last row has the largest ROI in the
      table, so the "max" query's row is also the best row. */
  lemma LastRowHasLargestRoi(inp: Input, x: Row)
    requires Valid(inp) && FullSavings(inp) >= 0.0 && x in BuildTable(inp)
    ensures |BuildTable(inp)| > 0 && BuildTable(inp)[|BuildTable(inp)| - 1].roi.Some?
    ensures x.roi.value <= BuildTable(inp)[|BuildTable(inp)| - 1].roi.value
    ensures PositiveRoi(x) ==> PositiveRoi(BuildTable(inp)[|BuildTable(inp)| - 1])
  {
    LastRowRoi(inp);
    var lo, hi := BuildRowSavingsColumns(inp, x);
    ScenarioRoiAtMostFull(inp, hi);
  }

  /** The "min" row has the fewest traces among the rows with positive ROI. */
  lemma BreakevenHasFewestTraces(table: seq<Row>, x: Row)
    requires Seqs.IncreasingBy(table, TracesOf)
    requires x in table && PositiveRoi(x)
    ensures Breakeven(table).Some?
    ensures Breakeven(table).value.traces <= x.traces
  {
    var r := Breakeven(table).value;
    var k :| 0 <= k < |table| && table[k] == r && forall j :: 0 <= j < k ==> !PositiveRoi(table[j]);
    var i :| 0 <= i < |table| && table[i] == x;
    assert k <= i;
    if k < i {
      assert TracesOf(table[k]) < TracesOf(table[i]);
    }
  }

  /** The "max" row has the most traces of all rows. */
  lemma LastIfPositiveHasMostTraces(table: seq<Row>, x: Row)
    requires Seqs.IncreasingBy(table, TracesOf)
    requires x in table && LastIfPositive(table).Some?
    ensures x.traces <= LastIfPositive(table).value.traces
  {
    Seqs.EndsAreExtremes(table, TracesOf, x);
  }

  /** When the tool saves nothing (or less), no row has positive ROI and
      both queries come back empty rather than failing. */
  lemma NoSavingsNoPositiveRoi(inp: Input)
    requires Valid(inp) && FullSavings(inp) <= 0.0
    ensures forall x :: x in BuildTable(inp) ==> !PositiveRoi(x)
    ensures GetRoiValues(BuildTable(inp), "min") == Success(None)
    ensures GetRoiValues(BuildTable(inp), "max") == Success(None)
  {
    var table := BuildTable(inp);
    forall x | x in table
      ensures !PositiveRoi(x)
    {
      RowRoiNotPositive(inp, x);
    }
    if |table| > 0 {
      assert table[|table| - 1] in table;
    }
  }

  /** Without savings a row's ROI is below zero: it pays and gains nothing. */
  lemma RowRoiNotPositive(inp: Input, x: Row)
    requires Valid(inp) && FullSavings(inp) <= 0.0 && x in BuildTable(inp)
    ensures !PositiveRoi(x)
  {
    TableRow(inp, x);
    var _, _, _, _, _, b, _ := GroupedRowSources(Sweep(inp), x);
    GroupMember(inp, x.traces, b);
    GroupMemberSavings(inp, x.traces, b);
    SavingsNonPositive(inp, b.coverage);
  }

  /** For every valid input the two queries agree on whether the ROI turns
      positive: the "max" query is empty exactly when the "min" query is. */
  lemma QueriesAgreeOnPositiveRoi(inp: Input)
    requires Valid(inp)
    ensures LastIfPositive(BuildTable(inp)).None? <==> Breakeven(BuildTable(inp)).None?
  {
    var table := BuildTable(inp);
    assert PositiveReachesLast(table) by {
      if FullSavings(inp) <= 0.0 {
        NoSavingsNoPositiveRoi(inp);
      } else {
        forall x | x in table && PositiveRoi(x)
          ensures |table| > 0 && PositiveRoi(table[|table| - 1])
        {
          LastRowHasLargestRoi(inp, x);
        }
      }
    }
    QueriesAgreeOnTable(table);
  }

  /** Any row with positive ROI implies the last row has one too. */
  predicate PositiveReachesLast(table: seq<Row>)
  {
    forall x :: x in table && PositiveRoi(x) ==> |table| > 0 && PositiveRoi(table[|table| - 1])
  }

  /** On such a table the "max" query is empty exactly when the "min" query is. */
  lemma QueriesAgreeOnTable(table: seq<Row>)
    requires PositiveReachesLast(table)
    ensures LastIfPositive(table).None? <==> Breakeven(table).None?
  {
    if |table| > 0 {
      assert table[|table| - 1] in table;
    }
  }

  /** One path (one user, one service): every positive coverage needs the
      single trace, so the table is a single row. */
  lemma SinglePathOneRow(inp: Input)
    requires inp.userCount == 1 && inp.criticalServices == 1
    ensures |BuildTable(inp)| == 1
  {
    OnePathMax(inp);
    OnePathTable(inp);
  }

  /** A table over a single path has exactly one row. */
  lemma OnePathTable(inp: Input)
    requires Valid(inp) && MaxTraces(inp) == 1
    ensures |BuildTable(inp)| == 1
  {
    LastRowIsFullCoverage(inp);
    OneTraceCount(BuildTable(inp), MaxTraces(inp));
  }

  /** One user and one service make one path. */
  lemma OnePathMax(inp: Input)
    requires inp.userCount == 1 && inp.criticalServices == 1
    ensures Valid(inp) && MaxTraces(inp) == 1
  {
  }

  /** A table in strict trace order whose trace counts all lie in 1..1 has
      at most one row. */
  lemma OneTraceCount(table: seq<Row>, m: int)
    requires m == 1 && Seqs.IncreasingBy(table, TracesOf)
    requires RowsPriced(table, m)
    ensures |table| <= 1
  {
    if |table| > 0 {
      assert table[0] in table && table[|table| - 1] in table;
      Seqs.IncreasingSpread(table, TracesOf);
    }
  }

  /** With a single path the run of percents needing one trace is all of
      1..LastPercent. */
  lemma SinglePathRun(inp: Input, lo: nat, hi: nat)
    requires inp.userCount == 1 && inp.criticalServices == 1
    requires GroupSpan(inp, 1, lo, hi)
    ensures lo <= 1 && LastPercent <= hi
  {
    var m := MaxTraces(inp);
    assert m == 1;
    OnePathOneTrace(m);
  }

  /** One path needs one trace at 1% and at 100%. */
  lemma OnePathOneTrace(m: nat)
    requires m == 1
    ensures Traces(m, 1) == 1 && Traces(m, LastPercent) == 1
  {
  }

  /** So that row's savings come from 100% coverage and its adjusted
      downtime from 1%, and whenever anything is saved they over-count the
      downtime cost. */
  lemma SinglePathOverCounts(inp: Input)
    requires inp.userCount == 1 && inp.criticalServices == 1 && FullSavings(inp) > 0.0
    ensures |BuildTable(inp)| == 1
    ensures var x := BuildTable(inp)[0];
      x.downtimeImpact + x.adjustedDowntime > x.downtimeCost
  {
    var table := BuildTable(inp);
    SinglePathOneRow(inp);
    var x := table[0];
    assert x in table;
    assert x.traces == 1 by {
      assert MaxTraces(inp) == 1;
    }
    var lo, hi := BuildRowSumIdentity(inp, x);
    SinglePathRun(inp, lo, hi);
  }

  /** The worked example: 20 users and 2 critical services make 40 paths;
      full coverage at 9 per trace costs 360 and saves half of 746.4. */
  lemma LegalFullCoverage(inp: Input)
    requires inp == Input(20, 2, 746.4, 0.5)
    ensures MaxTraces(inp) == 40 && FullSavings(inp) >= 0.0
    ensures SubscriptionCost(40) == 360 && Savings(inp, LastPercent) == 373.2
    ensures Roi(Savings(inp, LastPercent), SubscriptionCost(MaxTraces(inp))).value > 0.0
  {
    assert PricePerTrace(40) == 9;
    assert Traces(40, LastPercent) == 40;
  }

  /** In the worked example the last table row is the full-coverage row:
      40 traces for 360, saving 373.2, so its ROI is positive. */
  lemma LegalLastRow(inp: Input)
    requires inp == Input(20, 2, 746.4, 0.5)
    ensures var table := BuildTable(inp);
      && |table| > 0
      && table[|table| - 1].traces == 40
      && table[|table| - 1].cost == 360
      && table[|table| - 1].downtimeImpact == 373.2
      && PositiveRoi(table[|table| - 1])
  {
    var table := BuildTable(inp);
    LegalFullCoverage(inp);
    LastRowIsFullCoverage(inp);
    LastRowRoi(inp);
    var last := table[|table| - 1];
    assert last.traces == 40;
    assert last.cost == SubscriptionCost(40) by {
      TableRow(inp, last);
    }
    assert last.downtimeImpact == Savings(inp, LastPercent) by {
      var lo, hi := BuildRowSavingsColumns(inp, last);
    }
    assert last.roi == Roi(Savings(inp, LastPercent), SubscriptionCost(MaxTraces(inp)));
  }

  /** When the full-coverage row pays off, both queries return a row: "max"
      the full-coverage row, "min" a row with no more traces. */
  lemma PositiveLastRowQueries(inp: Input)
    requires Valid(inp)
    requires |BuildTable(inp)| > 0 && PositiveRoi(BuildTable(inp)[|BuildTable(inp)| - 1])
    ensures var table := BuildTable(inp);
      && GetRoiValues(table, "max") == Success(Some(table[|table| - 1]))
      && GetRoiValues(table, "min").Success?
      && GetRoiValues(table, "min").value.Some?
      && GetRoiValues(table, "min").value.value.traces <= table[|table| - 1].traces
  {
    var table := BuildTable(inp);
    MaxQueryOfPositiveLast(table);
    MinQueryBound(table, table[|table| - 1]);
  }

  /** The "max" query by name returns the last row when its ROI is positive. */
  lemma MaxQueryOfPositiveLast(table: seq<Row>)
    requires |table| > 0 && PositiveRoi(table[|table| - 1])
    ensures GetRoiValues(table, "max") == Success(Some(table[|table| - 1]))
  {
  }

  /** The "min" query by name returns a row no later than any row with
      positive ROI. */
  lemma MinQueryBound(table: seq<Row>, x: Row)
    requires Seqs.IncreasingBy(table, TracesOf) && x in table && PositiveRoi(x)
    ensures GetRoiValues(table, "min").Success?
    ensures GetRoiValues(table, "min").value.Some?
    ensures GetRoiValues(table, "min").value.value.traces <= x.traces
  {
    BreakevenHasFewestTraces(table, x);
  }
}
