/** Grouping the sweep by trace count and keeping, per group, the maximum of
    every column — the dataframe `groupby("traces").max()` step — and then
    dropping the rows whose ROI is undefined. */
module Grouping {
  import opened Wrappers
  import opened Scenarios
  import Seqs

  /** Column maximum that skips undefined cells, as a dataframe max skips NaN. */
  function MaxDefined(a: Option<real>, b: Option<real>): (m: Option<real>)
    ensures m.None? <==> a.None? && b.None?
    ensures m == a || m == b
    ensures RoiAtLeast(m, a) && RoiAtLeast(m, b)
  {
    match (a, b)
    case (None, _) => b
    case (_, None) => a
    case (Some(x), Some(y)) => if x >= y then a else b
  }

  /** `x` is defined wherever `y` is, and no smaller there. */
  predicate RoiAtLeast(x: Option<real>, y: Option<real>)
  {
    y.Some? ==> x.Some? && x.value >= y.value
  }

  function MaxInt(a: int, b: int): int { if a >= b then a else b }
  function MaxReal(a: real, b: real): real { if a >= b then a else b }

  /** Column-by-column maximum of two rows. */
  function RowMax(a: Row, b: Row): Row
  {
    Row(MaxInt(a.traces, b.traces), MaxInt(a.coverage, b.coverage),
        MaxInt(a.cost, b.cost), MaxInt(a.costPerTrace, b.costPerTrace),
        MaxReal(a.downtimeCost, b.downtimeCost),
        MaxReal(a.downtimeImpact, b.downtimeImpact),
        MaxReal(a.adjustedDowntime, b.adjustedDowntime),
        MaxDefined(a.roi, b.roi))
  }

  /** `r` is at least `m` in every column. */
  predicate Dominates(r: Row, m: Row)
  {
    && r.traces >= m.traces && r.coverage >= m.coverage
    && r.cost >= m.cost && r.costPerTrace >= m.costPerTrace
    && r.downtimeCost >= m.downtimeCost && r.downtimeImpact >= m.downtimeImpact
    && r.adjustedDowntime >= m.adjustedDowntime && RoiAtLeast(r.roi, m.roi)
  }

  /** `r` is the column-wise maximum of the group `g`: it dominates every
      member, and every one of its cells is the cell of some member (an
      undefined ROI only when no member has one). */
  ghost predicate IsColumnMax(g: seq<Row>, r: Row)
  {
    && (forall m :: m in g ==> Dominates(r, m))
    && (exists m :: m in g && m.traces == r.traces)
    && (exists m :: m in g && m.coverage == r.coverage)
    && (exists m :: m in g && m.cost == r.cost)
    && (exists m :: m in g && m.costPerTrace == r.costPerTrace)
    && (exists m :: m in g && m.downtimeCost == r.downtimeCost)
    && (exists m :: m in g && m.downtimeImpact == r.downtimeImpact)
    && (exists m :: m in g && m.adjustedDowntime == r.adjustedDowntime)
    && (exists m :: m in g && m.roi == r.roi)
  }

  /** The column-wise maximum of a non-empty group. */
  function ColumnMax(g: seq<Row>): (r: Row)
    requires |g| > 0
    ensures IsColumnMax(g, r)
  {
    if |g| == 1 then g[0]
    else
      var rest := ColumnMax(g[1..]);
      assert forall m :: m in g <==> m == g[0] || m in g[1..];
      RowMax(g[0], rest)
  }

  /** The column-wise maximum is unique: the predicate pins the row down. */
  lemma ColumnMaxUnique(g: seq<Row>, r1: Row, r2: Row)
    requires IsColumnMax(g, r1) && IsColumnMax(g, r2)
    ensures r1 == r2
  {
    var m1 :| m1 in g && m1.roi == r1.roi;
    var m2 :| m2 in g && m2.roi == r2.roi;
    assert Dominates(r1, m2) && Dominates(r2, m1);
  }

  function HasTraces(t: int): Row -> bool { (x: Row) => x.traces == t }
  function LacksTraces(t: int): Row -> bool { (x: Row) => x.traces != t }

  /** The rows whose trace count is `t`, in order. */
  function Group(rows: seq<Row>, t: int): (g: seq<Row>)
    ensures forall x :: x in g <==> x in rows && x.traces == t
  {
    Seqs.Filter(rows, HasTraces(t))
  }

  /** The rows whose trace count is not `t`, in order. */
  function Others(rows: seq<Row>, t: int): (o: seq<Row>)
    ensures forall x :: x in o <==> x in rows && x.traces != t
    ensures (exists x :: x in rows && x.traces == t) ==> |o| < |rows|
  {
    var o := Seqs.Filter(rows, LacksTraces(t));
    assert (exists x :: x in rows && x.traces == t) ==> exists i :: 0 <= i < |rows| && !LacksTraces(t)(rows[i]);
    o
  }

  /** The distinct trace counts of a sequence of rows. */
  function Keys(rows: seq<Row>): set<int>
  {
    set x | x in rows :: x.traces
  }

  /** The least trace count among the rows. */
  function MinTraces(rows: seq<Row>): (t: int)
    requires |rows| > 0
    ensures t in Keys(rows)
    ensures forall x :: x in rows ==> t <= x.traces
  {
    if |rows| == 1 then rows[0].traces
    else
      var rest := MinTraces(rows[1..]);
      assert forall x :: x in rows <==> x == rows[0] || x in rows[1..];
      if rows[0].traces <= rest then rows[0].traces else rest
  }

  /** One row per distinct trace count, in increasing trace order, each the
      column-wise maximum of its group. */
  function GroupByTraces(rows: seq<Row>): (r: seq<Row>)
    ensures Keys(r) == Keys(rows)
    ensures Seqs.IncreasingBy(r, TracesOf)
    decreases |rows|
  {
    if |rows| == 0 then []
    else
      var k := MinTraces(rows);
      var head := ColumnMax(Group(rows, k));
      var tail := GroupByTraces(Others(rows, k));
      PrependLeastGroup(rows, k, head, tail);
      [head] + tail
  }

  /** Putting the least key's row in front of the grouped remainder covers
      every key once, in increasing order. */
  lemma PrependLeastGroup(rows: seq<Row>, k: int, head: Row, tail: seq<Row>)
    requires k in Keys(rows) && forall x :: x in rows ==> k <= x.traces
    requires head.traces == k
    requires Keys(tail) == Keys(Others(rows, k)) && Seqs.IncreasingBy(tail, TracesOf)
    ensures Keys([head] + tail) == Keys(rows)
    ensures Seqs.IncreasingBy([head] + tail, TracesOf)
  {
    assert Keys(Others(rows, k)) == Keys(rows) - {k};
    var r := [head] + tail;
    assert forall x :: x in r <==> x == head || x in tail;
    assert Keys(r) == {k} + Keys(tail) by {
      forall t | t in Keys(r) ensures t in {k} + Keys(tail) {
        var x :| x in r && x.traces == t;
      }
      forall t | t in {k} + Keys(tail) ensures t in Keys(r) {
        if t == k {
          assert head in r;
        } else {
          var x :| x in tail && x.traces == t;
          assert x in r;
        }
      }
    }
    forall i, j | 0 <= i < j < |r|
      ensures TracesOf(r[i]) < TracesOf(r[j])
    {
      assert r[j] == tail[j - 1];
      assert r[j].traces in Keys(tail);
      if i > 0 {
        assert r[i] == tail[i - 1];
      }
    }
  }

  /** Every grouped row is the column-wise maximum of the input rows that
      share its trace count. */
  lemma {:induction false} GroupedRowIsGroupMax(rows: seq<Row>, x: Row)
    requires x in GroupByTraces(rows)
    ensures x.traces in Keys(rows)
    ensures IsColumnMax(Group(rows, x.traces), x)
    decreases |rows|
  {
    var r := GroupByTraces(rows);
    assert x.traces in Keys(r);
    var k := MinTraces(rows);
    var others := Others(rows, k);
    var tail := GroupByTraces(others);
    assert r == [ColumnMax(Group(rows, k))] + tail;
    if x != r[0] {
      assert x in tail;
      GroupedRowIsGroupMax(others, x);
      var t := x.traces;
      assert t != k;
      Seqs.FilterFilter(rows, LacksTraces(k), HasTraces(t));
      assert Group(others, t) == Group(rows, t);
    }
  }

  /** Each cell of a grouped row is the cell of some row of its group. */
  lemma GroupedRowSources(rows: seq<Row>, x: Row)
    returns (cov: Row, price: Row, down: Row, impact: Row, adjusted: Row, roi: Row, cost: Row)
    requires x in GroupByTraces(rows)
    ensures x.traces in Keys(rows)
    ensures cov in Group(rows, x.traces) && cov.coverage == x.coverage
    ensures price in Group(rows, x.traces) && price.costPerTrace == x.costPerTrace
    ensures down in Group(rows, x.traces) && down.downtimeCost == x.downtimeCost
    ensures impact in Group(rows, x.traces) && impact.downtimeImpact == x.downtimeImpact
    ensures adjusted in Group(rows, x.traces) && adjusted.adjustedDowntime == x.adjustedDowntime
    ensures roi in Group(rows, x.traces) && roi.roi == x.roi
    ensures cost in Group(rows, x.traces) && cost.cost == x.cost
  {
    GroupedRowIsGroupMax(rows, x);
    var g := Group(rows, x.traces);
    cov :| cov in g && cov.coverage == x.coverage;
    price :| price in g && price.costPerTrace == x.costPerTrace;
    down :| down in g && down.downtimeCost == x.downtimeCost;
    impact :| impact in g && impact.downtimeImpact == x.downtimeImpact;
    adjusted :| adjusted in g && adjusted.adjustedDowntime == x.adjustedDowntime;
    roi :| roi in g && roi.roi == x.roi;
    cost :| cost in g && cost.cost == x.cost;
  }

  /** A grouped row is at least every row of its group, column by column. */
  lemma GroupedRowDominates(rows: seq<Row>, x: Row, m: Row)
    requires x in GroupByTraces(rows) && m in Group(rows, x.traces)
    ensures Dominates(x, m)
  {
    GroupedRowIsGroupMax(rows, x);
  }

  function IsDefined(x: Row): bool { x.roi.Some? }

  /** Removes the rows whose ROI is undefined (the dataframe `dropna`). */
  function DropUndefined(rows: seq<Row>): (r: seq<Row>)
    ensures forall x :: x in r <==> x in rows && x.roi.Some?
  {
    Seqs.Filter(rows, IsDefined)
  }

  /** Dropping rows keeps the survivors in trace order. */
  lemma DropKeepsOrder(rows: seq<Row>)
    requires Seqs.IncreasingBy(rows, TracesOf)
    ensures Seqs.IncreasingBy(DropUndefined(rows), TracesOf)
  {
    Seqs.FilterIncreasing(rows, IsDefined, TracesOf);
  }
}
