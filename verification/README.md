# PingPlotter Cloud ROI calculator — a Dafny model

This project models the return-on-investment calculator of the PingPlotter
Cloud ROI tool (`RoiCalc.py`) and proves what its table and its two queries
promise. The model covers these parts:

- **Tiered price** (`price_per_trace`): the price of one trace is 10, 9, 8, 6
  or 5, depending on how many traces are bought.
- **Subscription cost** (`calc_pingplotter_cost`): the tier price times the
  number of traces.
- **Monthly downtime cost** (`calc_downtime_cost`): issues per month times
  issue hours times the combined hourly cost of the users and of IT.
- **Scenario table** (`PingPlotterRoi.__init__`):
  - one scenario per whole percent of coverage, 0% to 100%;
  - each scenario needs the rounded-up share of the `users × services`
    paths as traces, and has a subscription cost, savings ("downtime impact"),
    adjusted downtime and ROI;
  - the scenarios are grouped by trace count, keeping the maximum of every
    column;
  - the rows whose ROI is undefined are dropped.
- **Queries** (`getRoiValues`):
  - "min" is the breakeven row: the first row with positive ROI;
  - "max" is the last row (the most traces), returned only when its ROI is
    positive;
  - any other name raises `ValueError("Error")`.

## Modules

| module | file | models |
|---|---|---|
| `Wrappers` | wrappers.dfy | `Option` and `Result` |
| `Seqs` | seqs.dfy | filtering sequences and strict key order |
| `Pricing` | pricing.dfy | price tiers and subscription cost |
| `Downtime` | downtime.dfy | the downtime-cost formula |
| `RealArith` | real_arith.dfy | small facts about real division and products |
| `Scenarios` | scenarios.dfy | inputs, trace counts, the `Row` datatype, the coverage sweep |
| `Grouping` | grouping.dfy | `groupby("traces").max()` and `dropna` |
| `RoiModel` | roi_model.dfy | the finished table and the two queries |
| `RoiProperties` | roi_properties.dfy | properties of the table and the queries over all inputs |

## Modelling choices

- **Coverage** is the whole percent `pct` in 0..100, not the float `pct / 100`.
- **Traces** is the exact integer ceiling `(M * pct + 99) / 100` for
  `M = users × services`. The source computes `math.ceil(M * (pct / 100))` in
  binary floating point. That can round up one trace too many: `0.07 * 100` is
  `7.000000000000001`, so 100 paths at 7% give 8 traces there and 7 here.
- **Money columns** are `real` (exact rationals), not doubles.
- **Undefined ROI**: `Row.roi` is `Option<real>`. `None` stands for the NaN
  that 0/0 produces in the zero-trace scenario.
  - The grouped maximum skips `None`, as the dataframe max skips NaN.
  - `DropUndefined` removes exactly the rows whose ROI is `None`.
- **Inputs**: the table is built only for at least one user and at least one
  critical service (`Scenarios.Valid`). The source accepts any integers; with
  no paths at all it divides a cost of zero into a saving and gets infinities
  that `dropna` keeps, and two negative counts give a positive path count.
- **Row order**: the table is a sequence. The source queries the dataframe
  index after `dropna`, which is not renumbered. Because the index follows the
  trace order, "smallest index" is the first row of the sequence and "largest
  index" is the last.

## Model

| member | source | states |
|---|---|---|
| Pricing.PricePerTrace | RoiCalc.py:7-17 | the price is one of 10, 9, 8, 6, 5; it is 10 exactly up to 25 traces and 5 exactly above 250 |
| Pricing.PriceMatchesTierTable | RoiCalc.py:7-17 | for every count, the branch chain agrees with the tier table read as data: the price of the first tier whose inclusive upper bound admits the count, else 5 |
| Pricing.PriceNonIncreasing | RoiCalc.py:7-17 | buying more traces never raises the price per trace |
| Pricing.TierBoundaries | RoiCalc.py:8-15 | each tier's upper bound belongs to that tier: 25→10, 26→9, 50→9, 51→8, 100→8, 101→6, 250→6, 251→5 |
| Pricing.SubscriptionCost | RoiCalc.py:20-23 | for a non-negative count the cost is 0 exactly when no trace is bought; otherwise it lies between 5 and 10 per trace |
| Pricing.CostMonotoneWithinTier | RoiCalc.py:20-23 | within one price tier the cost grows with the count |
| Pricing.CostNotMonotone | RoiCalc.py:20-23 | across a tier boundary the cost can fall: 25 traces cost 250, 26 cost 234 |
| Downtime.DowntimeCost | RoiCalc.py:26-30 | non-negative inputs give a non-negative cost; no issues, zero duration or a zero hourly rate cost nothing |
| Downtime.DowntimeCostIsHoursTimesRate | RoiCalc.py:26-30 | sixty times the cost is issues × minutes × (user cost + IT cost) |
| Downtime.LegalExample | RoiCalc.py:140-150 | the worked example (200 + 111 per hour, 4 issues of 36 minutes) costs 746.4 |
| Scenarios.MaxTraces | RoiCalc.py:49 | the number of paths is at least the number of users and at least the number of services |
| Scenarios.TracesIsCeiling | RoiCalc.py:50-52 | the trace count is the least whole number whose hundredfold reaches `M × pct` |
| Scenarios.TracesMonotone | RoiCalc.py:50-52 | more coverage never needs fewer traces |
| Scenarios.TracesBounds | RoiCalc.py:41-52 | 0% needs 0 traces and 100% needs all M; every percent needs at most M; any positive percent of a positive M needs at least one |
| Scenarios.FullImpactSavings | RoiCalc.py:58-60 | with an impact of one, full coverage saves the whole downtime cost |
| Scenarios.Roi | RoiCalc.py:62-64 | ROI is undefined exactly when the cost is zero; for a positive cost it is positive exactly when savings exceed the cost, and negative exactly when they fall short |
| Scenarios.RoiIncreasingInSavings | RoiCalc.py:62-64 | at a fixed positive cost, ROI rises strictly with savings |
| Scenarios.RoiDecreasingInCost | RoiCalc.py:62-64 | with positive savings, ROI falls strictly as the cost rises |
| Scenarios.ScenarioRow | RoiCalc.py:53-64 | the row at `pct` has that coverage and its ceiling trace count, within 0..M; impact and adjusted downtime add up to the downtime cost; the cost is positive and the ROI defined exactly at positive coverage; ROI is positive exactly when impact exceeds cost; full coverage at impact one saves the whole downtime cost |
| Scenarios.Sweep | RoiCalc.py:41-64 | 101 rows, row `i` is the scenario at `i`%, in strictly increasing coverage; the first row has no traces and the last has all M |
| Scenarios.ScenarioTracesNonDecreasing | RoiCalc.py:50-52 | trace counts never decrease along the sweep |
| Grouping.MaxDefined | RoiCalc.py:65 | the maximum of two ROI cells skips an undefined cell: undefined only when both are, one of the two, and at least each defined one |
| Grouping.ColumnMax | RoiCalc.py:65 | the grouped row is at least every member of its group in every column, and each of its cells is some member's cell |
| Grouping.ColumnMaxUnique | RoiCalc.py:65 | that description determines the grouped row uniquely |
| Grouping.MinTraces | RoiCalc.py:65 | the least trace count occurs among the rows and is at most every row's count |
| Grouping.GroupByTraces | RoiCalc.py:65 | the grouped rows have exactly the input's trace counts, one row each, in strictly increasing order |
| Grouping.GroupedRowIsGroupMax | RoiCalc.py:65 | every grouped row is the column-wise maximum of the input rows that share its trace count |
| Grouping.GroupedRowSources | RoiCalc.py:65 | each cell of a grouped row comes from some row of its group |
| Grouping.DropUndefined | RoiCalc.py:65 | a row survives exactly when it was there and its ROI is defined |
| Grouping.DropKeepsOrder | RoiCalc.py:65 | dropping rows keeps the survivors in trace order |
| RoiModel.GroupedScenarioRow | RoiCalc.py:53-65 | a grouped sweep row has a reached trace count within 0..M, a defined ROI exactly when it has a trace, and the cost of its trace count |
| RoiModel.BuildTable | RoiCalc.py:41-65 | the table is in strictly increasing trace order; its trace counts are exactly those some positive percent needs; every row has a defined ROI, a positive cost and 1..M traces |
| RoiModel.BuildTableKeys | RoiCalc.py:49-65 | dropping undefined rows removes exactly the zero-trace group |
| RoiModel.Breakeven | RoiCalc.py:68-70 | nothing exactly when no row has positive ROI; otherwise a row with positive ROI and no positive row before it |
| RoiModel.LastIfPositive | RoiCalc.py:71-73 | a row exactly when the table is non-empty and its last row has positive ROI, and then that last row |
| RoiModel.GetRoiValues | RoiCalc.py:67-79 | "min" gives the breakeven query and "max" the last-row query; any other name is the error `ValueError("Error")` |
| RoiModel.GetRoiValuesDefault | RoiCalc.py:67-70 | called without an aggregate name (the default `"min"`), the query is the breakeven query and does not fail |
| RoiProperties.GroupRun | RoiCalc.py:50-52 | the percents needing a given positive trace count t form one run lo..hi, and the group's rows lie within it |
| RoiProperties.BuildRowColumns | RoiCalc.py:53-65 | each table row stands for its run lo..hi of percents: coverage is hi, and cost, price and downtime cost are those of its trace count |
| RoiProperties.BuildRowSavingsColumns | RoiCalc.py:58-65 | with non-negative savings, a row's impact and ROI come from the top of its run and its adjusted downtime from the bottom |
| RoiProperties.BuildRowSumIdentity | RoiCalc.py:58-65 | after grouping, impact plus adjusted downtime exceeds the downtime cost by the full savings times the run's width; the two are equal only when nothing is saved or the run is one percent wide |
| RoiProperties.SinglePathOverCounts | RoiCalc.py:49-65 | one user with one service gives a one-row table whose impact plus adjusted downtime over-counts the downtime cost whenever anything is saved |
| RoiProperties.SinglePathOneRow | RoiCalc.py:49-65 | one user with one service gives exactly one table row |
| RoiProperties.LastRowIsFullCoverage | RoiCalc.py:49-65 | the table is never empty, and its last row has all M traces at 100% coverage |
| RoiProperties.LastRowRoi | RoiCalc.py:58-65 | with non-negative savings, the last row's ROI is the full-coverage scenario's |
| RoiProperties.ScenarioRoiAtMostFull | RoiCalc.py:49-64 | with non-negative savings no scenario's ROI exceeds the full-coverage ROI, because the rounded-up trace count and the non-increasing price make a partial sweep pay at least its share |
| RoiProperties.LastRowHasLargestRoi | RoiCalc.py:71-73 | with non-negative savings the last row has the largest ROI in the table, so whenever any row has positive ROI, "max" returns a row with the largest ROI |
| RoiProperties.BreakevenHasFewestTraces | RoiCalc.py:68-70 | the "min" row has no more traces than any row with positive ROI |
| RoiProperties.LastIfPositiveHasMostTraces | RoiCalc.py:71-73 | the "max" row has at least as many traces as any row |
| RoiProperties.NoSavingsNoPositiveRoi | RoiCalc.py:67-79 | when nothing is saved, no row has positive ROI, and both queries return nothing rather than an error |
| RoiProperties.QueriesAgreeOnPositiveRoi | RoiCalc.py:67-79 | for every valid input, "max" returns nothing exactly when "min" returns nothing |
| RoiProperties.PositiveLastRowQueries | RoiCalc.py:67-79 | when the last row pays off, "max" returns it and "min" returns a row with no more traces |
| RoiProperties.LegalLastRow | RoiCalc.py:139-157 | in the worked example (20 users, 2 services, 746.4, impact 0.5), the last row has 40 traces, costs 360, saves 373.2 and has positive ROI |

## Left out

- `routes.py`: the web form, its callbacks and the parsing of text fields are presentation code. `routes.py` is not part of this model.
- `plotRoi`, `plotBreakeven` and `report` (RoiCalc.py:81-136) build plot figures, titles and an HTML table. The data they show is the table and the two query results, and those are modelled.
- The `figsize` field, the `inputs` dictionary and the `__main__` block. The block's last call passes `report` an argument it does not accept. Only its inputs are used, as the worked example.
- Binary floating point: traces use the exact integer ceiling (see Modelling choices), and money is exact rational arithmetic.
- Zero or negative counts: the table is built only for at least one user and at least one critical service (`Scenarios.Valid`). The source also runs when both counts are negative (−1 × −1 is one path), and with zero paths it keeps infinite ROIs; neither case is modelled.
- The dataframe index after `dropna` is not modelled. Rows are identified by their position, which follows the same order.
- The float `coverage` column holds the percent itself (7 for 7%), not 0.07.
