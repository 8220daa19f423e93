/** One run of the dashboard page: the filtered view computed from the
    sidebar selections, the headline figures, and the four group-by tables
    behind the charts (monthly sales, sales by category, profit by
    sub-category ranked from highest to lowest, profit by segment). */
module Dashboard {
  import opened Records
  import opened Filter
  import opened Kpi
  import opened GroupBy
  import opened Ranking

  datatype Report = Report(
    summary: Summary,
    monthlySales: Table,
    categorySales: Table,
    subCategoryProfit: Table,
    segmentProfit: Table)

  /** Everything the page computes for table `d` under selection `sel`.
      Every chart is drawn from the same view as the headline figures, so
      each chart's values add up to the matching headline total, and a
      chart only shows keys the sidebar lets through. */
  function Build(d: Dataset, sel: Selection): (rep: Report)
    ensures rep.summary == Summarize(Apply(d, sel))
    ensures rep.summary.distinctOrders == |OrderIds(Apply(d, sel))|
    ensures KeySet(rep.subCategoryProfit) == ColumnValues(Apply(d, sel), SubCategory)
    ensures forall k :: Lookup(rep.subCategoryProfit, k) == Sum(Where(Apply(d, sel), SubCategory, k), Profit)
    ensures TableTotal(rep.monthlySales) == rep.summary.totalSales
    ensures TableTotal(rep.categorySales) == rep.summary.totalSales
    ensures TableTotal(rep.subCategoryProfit) == rep.summary.totalProfit
    ensures TableTotal(rep.segmentProfit) == rep.summary.totalProfit
    ensures NonIncreasing(rep.subCategoryProfit)
    ensures NoDuplicateKeys(rep.subCategoryProfit)
    ensures KeySet(rep.categorySales) <= sel.categories
    ensures KeySet(rep.segmentProfit) <= sel.segments
  {
    var v := Apply(d, sel);
    var subCategory := GroupSum(v, SubCategory, Profit);
    RankKeepsKeysAndTotal(subCategory);
    RankKeepsNoDuplicates(subCategory);
    forall k ensures Lookup(RankDescending(subCategory), k) == Lookup(subCategory, k) {
      RankKeepsLookups(subCategory, k);
    }
    ViewValuesSelected(d, sel);
    Report(
      Summarize(v),
      GroupSum(v, Month, Sales),
      GroupSum(v, Category, Sales),
      RankDescending(subCategory),
      GroupSum(v, Segment, Profit))
  }

  /** On first load, with every option selected, the page reports on the
      whole table. */
  lemma DefaultReportCoversTable(d: Dataset)
    ensures Build(d, DefaultSelection(d)).summary == Summarize(d)
    ensures KeySet(Build(d, DefaultSelection(d)).categorySales) == ColumnValues(d, Category)
    ensures KeySet(Build(d, DefaultSelection(d)).subCategoryProfit) == ColumnValues(d, SubCategory)
  {
    DefaultSelectionIsIdentity(d);
    RankKeepsKeysAndTotal(GroupSum(d, SubCategory, Profit));
  }

  /** Clearing a multi-select zeroes the headline figures and empties every
      chart. */
  lemma ClearedFilterReportsNothing(d: Dataset, sel: Selection)
    requires sel.categories == {} || sel.segments == {} || sel.regions == {}
    ensures Build(d, sel) == Report(Summary(0, 0, 0), [], [], [], [])
  {
    EmptySelectionGivesEmptyView(d, sel);
  }

  /** A three-line table for the worked examples below; amounts in cents. */
  function SampleTable(): Dataset
  {
    [ Record("A", "2024-01", "Furniture", "Chairs", "Consumer", "East", 10000, 1000),
      Record("A", "2024-01", "Furniture", "Tables", "Consumer", "East", 5000, -500),
      Record("B", "2024-02", "Technology", "Phones", "Corporate", "West", 20000, 4000) ]
  }

  /** Two lines of order A and one of order B give 350.00 in sales and
      45.00 in profit. */
  lemma SampleTotals()
    ensures Sum(SampleTable(), Sales) == 35000
    ensures Sum(SampleTable(), Profit) == 4500
  {
    var d := SampleTable();
    assert d[..3] == d;
    assert d[..1] == [d[0]] && d[..2] == [d[0], d[1]];
    assert [d[0]][..0] == [];
    assert [d[0], d[1]][..1] == [d[0]];
    assert Sum([], Sales) == 0 && Sum([], Profit) == 0;
    assert Sum([d[0]], Sales) == 10000;
    assert Sum([d[0]], Profit) == 1000;
    assert Sum([d[0], d[1]], Sales) == 15000;
    assert Sum([d[0], d[1]], Profit) == 500;
  }

  /** The same three lines hold two orders, not three. */
  lemma SampleOrders()
    ensures OrderIds(SampleTable()) == {"A", "B"}
  {
    var d := SampleTable();
    assert Column(d, OrderId) == ["A", "A", "B"];
  }

  /** The headline figures of the three lines: 350.00, 45.00 and 2. */
  lemma SampleSummary()
    ensures Summarize(SampleTable()) == Summary(35000, 4500, 2)
  {
    SampleTotals();
    SampleOrders();
    assert |{"A", "B"}| == 2;
  }

  /** Keeping only Furniture leaves the two lines of order A, worth 150.00
      in sales. */
  lemma SampleFurnitureView()
    ensures Apply(SampleTable(), Selection({"Furniture"}, {"Consumer", "Corporate"}, {"East", "West"}))
         == SampleTable()[..2]
    ensures Sum(SampleTable()[..2], Sales) == 15000
  {
    var d := SampleTable();
    var furniture := Selection({"Furniture"}, {"Consumer", "Corporate"}, {"East", "West"});
    assert d[..3] == d;
    assert d[..2][..1] == d[..1];
    assert d[..1][..0] == [];
    assert Apply(d[..1], furniture) == d[..1];
    assert Apply(d[..2], furniture) == d[..2];
  }

  /** Sales by category is 150.00 for Furniture and 200.00 for
      Technology. */
  lemma SampleCategorySales()
    ensures GroupSum(SampleTable(), Category, Sales) == [("Furniture", 15000), ("Technology", 20000)]
  {
    var d := SampleTable();
    assert d[..3] == d;
    assert d[..2][..1] == d[..1];
    assert d[..1][..0] == [];
    assert GroupSum(d[..1], Category, Sales) == [("Furniture", 10000)];
    assert GroupSum(d[..2], Category, Sales) == [("Furniture", 15000)];
    var t: Table := [("Furniture", 15000)];
    assert Accumulate(t[1..], "Technology", 20000) == [("Technology", 20000)];
    assert Accumulate(t, "Technology", 20000) == [("Furniture", 15000), ("Technology", 20000)];
  }
}
