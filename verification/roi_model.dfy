/** The ROI model proper: the scenario table and the two queries on it. */
module RoiModel {
  import opened Wrappers
  import opened Pricing
  import opened Scenarios
  import opened Grouping
  import Seqs

  /** What a scenario group looks like: its rows are sweep rows of that
      trace count, share its cost and price, and have a defined ROI exactly
      when the count is positive. */
  lemma GroupMember(inp: Input, t: int, m: Row)
    requires Valid(inp) && m in Group(Sweep(inp), t)
    ensures 0 <= t <= MaxTraces(inp)
    ensures 0 <= m.coverage <= LastPercent
    ensures m.traces == t && Traces(MaxTraces(inp), m.coverage) == t
    ensures m.cost == SubscriptionCost(t) && m.costPerTrace == PricePerTrace(t)
    ensures m.downtimeCost == inp.downtimeCost
    ensures m.roi.Some? <==> t >= 1
  {
    var scn := Sweep(inp);
    assert m in scn;
    TracesBounds(MaxTraces(inp), m.coverage);
  }

  /** The savings-dependent cells of a scenario group's rows. */
  lemma GroupMemberSavings(inp: Input, t: int, m: Row)
    requires Valid(inp) && m in Group(Sweep(inp), t)
    ensures 0 <= m.coverage <= LastPercent
    ensures m.downtimeImpact == Savings(inp, m.coverage)
    ensures m.adjustedDowntime == inp.downtimeCost - Savings(inp, m.coverage)
    ensures m.roi == Roi(Savings(inp, m.coverage), SubscriptionCost(t))
  {
    assert m in Sweep(inp);
    assert m == ScenarioRow(inp, m.coverage);
  }

  /** A row of the grouped sweep: its ROI is defined exactly when it has
      traces, and then its cost is positive. */
  lemma GroupedScenarioRow(inp: Input, x: Row)
    requires Valid(inp) && x in GroupByTraces(Sweep(inp))
    ensures x.traces in Keys(Sweep(inp))
    ensures 0 <= x.traces <= MaxTraces(inp)
    ensures x.roi.Some? <==> x.traces >= 1
    ensures x.cost == SubscriptionCost(x.traces)
  {
    var _, _, _, _, _, m, c := GroupedRowSources(Sweep(inp), x);
    GroupMember(inp, x.traces, m);
    GroupMember(inp, x.traces, c);
  }

  /** The trace counts the sweep reaches with positive coverage. */
  function ReachedTraces(inp: Input): set<int>
    requires Valid(inp)
  {
    set i | 1 <= i <= LastPercent :: Traces(MaxTraces(inp), i)
  }

  /** Every row has a defined ROI, between 1 and `m` traces and a positive
      cost. */
  predicate RowsPriced(table: seq<Row>, m: int)
  {
    forall x :: x in table ==> x.roi.Some? && 1 <= x.traces <= m && x.cost > 0
  }

  /** Builds the scenario table: sweep, group by trace count keeping every
      column's maximum, drop the rows whose ROI is undefined. */
  function BuildTable(inp: Input): (table: seq<Row>)
    requires Valid(inp)
    ensures Seqs.IncreasingBy(table, TracesOf)
    ensures Keys(table) == ReachedTraces(inp)
    ensures RowsPriced(table, MaxTraces(inp))
  {
    var grouped := GroupByTraces(Sweep(inp));
    DropKeepsOrder(grouped);
    BuildTableKeys(inp);
    assert RowsPriced(DropUndefined(grouped), MaxTraces(inp)) by {
      forall x | x in DropUndefined(grouped)
        ensures x.roi.Some? && 1 <= x.traces <= MaxTraces(inp) && x.cost > 0
      {
        GroupedScenarioRow(inp, x);
      }
    }
    DropUndefined(grouped)
  }

  /** Dropping undefined rows removes exactly the zero-trace group. */
  lemma BuildTableKeys(inp: Input)
    requires Valid(inp)
    ensures Keys(DropUndefined(GroupByTraces(Sweep(inp)))) == ReachedTraces(inp)
  {
    TableKeysReached(inp);
    ReachedTableKeys(inp);
  }

  lemma TableKeysReached(inp: Input)
    requires Valid(inp)
    ensures Keys(DropUndefined(GroupByTraces(Sweep(inp)))) <= ReachedTraces(inp)
  {
    forall t | t in Keys(DropUndefined(GroupByTraces(Sweep(inp))))
      ensures t in ReachedTraces(inp)
    {
      TableKeyIsReached(inp, t);
    }
  }

  lemma ReachedTableKeys(inp: Input)
    requires Valid(inp)
    ensures ReachedTraces(inp) <= Keys(DropUndefined(GroupByTraces(Sweep(inp))))
  {
    forall t | t in ReachedTraces(inp)
      ensures t in Keys(DropUndefined(GroupByTraces(Sweep(inp))))
    {
      ReachedIsTableKey(inp, t);
    }
  }

  lemma TableKeyIsReached(inp: Input, t: int)
    requires Valid(inp) && t in Keys(DropUndefined(GroupByTraces(Sweep(inp))))
    ensures t in ReachedTraces(inp)
  {
    var scn := Sweep(inp);
    var x :| x in DropUndefined(GroupByTraces(scn)) && x.traces == t;
    GroupedScenarioRow(inp, x);
    var y :| y in scn && y.traces == t;
    assert 1 <= y.coverage <= LastPercent && Traces(MaxTraces(inp), y.coverage) == t;
  }

  lemma ReachedIsTableKey(inp: Input, t: int)
    requires Valid(inp) && t in ReachedTraces(inp)
    ensures t in Keys(DropUndefined(GroupByTraces(Sweep(inp))))
  {
    var scn := Sweep(inp);
    var i :| 1 <= i <= LastPercent && Traces(MaxTraces(inp), i) == t;
    TracesBounds(MaxTraces(inp), i);
    assert scn[i] in scn;
    SweepKeyIsTableKey(inp, t);
  }

  lemma SweepKeyIsTableKey(inp: Input, t: int)
    requires Valid(inp) && t in Keys(Sweep(inp)) && t >= 1
    ensures t in Keys(DropUndefined(GroupByTraces(Sweep(inp))))
  {
    var grouped := GroupByTraces(Sweep(inp));
    assert t in Keys(grouped);
    var x :| x in grouped && x.traces == t;
    GroupedScenarioRow(inp, x);
    assert x in DropUndefined(grouped);
  }

  /** ROI strictly above zero; an undefined ROI is not positive. */
  predicate PositiveRoi(x: Row)
  {
    x.roi.Some? && x.roi.value > 0.0
  }

  /** Query "min": the first row, in table order, with positive ROI. */
  function Breakeven(table: seq<Row>): (r: Option<Row>)
    ensures r.None? <==> forall x :: x in table ==> !PositiveRoi(x)
    ensures r.Some? ==> exists k :: 0 <= k < |table| && table[k] == r.value
                          && PositiveRoi(r.value)
                          && forall j :: 0 <= j < k ==> !PositiveRoi(table[j])
  {
    if |table| == 0 then None
    else if PositiveRoi(table[0]) then Some(table[0])
    else
      var r := Breakeven(table[1..]);
      assert forall x :: x in table <==> x == table[0] || x in table[1..];
      assert r.Some? ==> exists k :: 0 <= k < |table[1..]| && table[1..][k] == r.value
                          && forall j :: 0 <= j < k ==> !PositiveRoi(table[1..][j]);
      assert r.Some? ==> exists k :: 1 <= k < |table| && table[k] == r.value
                          && forall j :: 0 <= j < k ==> !PositiveRoi(table[j]);
      r
  }

  /** Query "max": the last row of the table, if its ROI is positive. */
  function LastIfPositive(table: seq<Row>): (r: Option<Row>)
    ensures r.Some? <==> |table| > 0 && PositiveRoi(table[|table| - 1])
    ensures r.Some? ==> r.value == table[|table| - 1]
  {
    if |table| == 0 then None
    else if PositiveRoi(table[|table| - 1]) then Some(table[|table| - 1])
    else None
  }

  /** The error a query raises for an aggregate it does not know. */
  datatype QueryError = ValueError(message: string)

  /** The two queries by name; any other name is an error. */
  function GetRoiValues(table: seq<Row>, agg: string): (r: Result<Option<Row>, QueryError>)
    ensures r.Failure? <==> agg != "min" && agg != "max"
    ensures agg == "min" ==> r == Success(Breakeven(table))
    ensures agg == "max" ==> r == Success(LastIfPositive(table))
  {
    if agg == "min" then Success(Breakeven(table))
    else if agg == "max" then Success(LastIfPositive(table))
    else Failure(ValueError("Error"))
  }

  /** The query with its default aggregate: a call without a name is the
      breakeven query, and it never fails. */
  function GetRoiValuesDefault(table: seq<Row>): (r: Result<Option<Row>, QueryError>)
    ensures r == Success(Breakeven(table))
  {
    GetRoiValues(table, "min")
  }
}
