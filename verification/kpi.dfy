/** The three headline figures shown above the charts: total sales, total
    profit and the number of distinct orders in the filtered view. */
module Kpi {
  import opened Sequences
  import opened Records
  import opened Filter

  datatype Summary = Summary(totalSales: int, totalProfit: int, distinctOrders: nat)

  /** The set of order identifiers that occur in a view. */
  function OrderIds(v: Dataset): set<string>
  {
    ColumnValues(v, OrderId)
  }

  /** The headline figures of a view: `Sales.sum()`, `Profit.sum()` and
      `Order ID.nunique()`. One order may span several lines, so the order
      count is the number of distinct identifiers, not the number of rows. */
  function Summarize(v: Dataset): (s: Summary)
    ensures s.totalSales == Sum(v, Sales)
    ensures s.totalProfit == Sum(v, Profit)
    ensures s.distinctOrders == |OrderIds(v)|
    ensures s.distinctOrders <= |v|
    ensures s.distinctOrders == 0 <==> v == []
    ensures v == [] ==> s == Summary(0, 0, 0)
  {
    var ids := Column(v, OrderId);
    UniqueCountIsCardinality(ids);
    assert v != [] ==> ids[0] in Elems(ids);
    Summary(Sum(v, Sales), Sum(v, Profit), |Unique(ids)|)
  }

  /** Filtering never adds an order: the view's orders are among the
      table's. */
  lemma FilterKeepsOrdersWithin(d: Dataset, sel: Selection)
    ensures OrderIds(Apply(d, sel)) <= OrderIds(d)
    ensures Summarize(Apply(d, sel)).distinctOrders <= Summarize(d).distinctOrders
  {
    var v := Apply(d, sel);
    forall k | k in OrderIds(v) ensures k in OrderIds(d) {
      ColumnValuesMember(v, OrderId, k);
      var i :| 0 <= i < |v| && Key(v[i], OrderId) == k;
      assert v[i] in v;
      ApplyMembership(d, sel, v[i]);
      var j :| 0 <= j < |d| && d[j] == v[i];
      ColumnValuesMember(d, OrderId, k);
    }
    SubsetCardinality(OrderIds(v), OrderIds(d));
  }

  /** With no negative sales amount in the table, narrowing the filter can
      only lower total sales, never below zero. */
  lemma {:induction false} FilteredSalesAtMostTotal(d: Dataset, sel: Selection)
    requires SalesNonNegative(d)
    ensures 0 <= Summarize(Apply(d, sel)).totalSales <= Summarize(d).totalSales
  {
    if |d| != 0 {
      var init := d[..|d| - 1];
      FilteredSalesAtMostTotal(init, sel);
      var r := d[|d| - 1];
      var rest: Dataset := if Keep(r, sel) then [r] else [];
      SumConcat(Apply(init, sel), rest, Sales);
    }
  }

  /** The headline figures of two tables laid end to end: the totals add
      up, while the order count is that of the union of their orders. */
  lemma SummarizeConcat(a: Dataset, b: Dataset)
    ensures Summarize(a + b).totalSales == Summarize(a).totalSales + Summarize(b).totalSales
    ensures Summarize(a + b).totalProfit == Summarize(a).totalProfit + Summarize(b).totalProfit
    ensures OrderIds(a + b) == OrderIds(a) + OrderIds(b)
  {
    SumConcat(a, b, Sales);
    SumConcat(a, b, Profit);
    assert Column(a + b, OrderId) == Column(a, OrderId) + Column(b, OrderId);
    ElemsConcat(Column(a, OrderId), Column(b, OrderId));
  }
}
