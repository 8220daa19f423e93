# Store Sales and Profit dashboard: the filter-and-aggregate pipeline

This project models the data pipeline behind the Store Sales and Profit
Analysis dashboard (`app.py`). On each run the page does the following:

- It offers three sidebar multi-selects: Category, Segment and Region. Their
  choices are the distinct values of each column, and every choice starts
  selected.
- It filters the sales table with one boolean row mask. The mask is
  `isin` on each of the three columns, joined with `&`.
- It reports three headline figures: total Sales, total Profit and the
  number of distinct Order IDs.
- It draws four charts from `groupby(...).sum()` tables: sales by month,
  sales by category, profit by sub-category and profit by segment. The
  sub-category table is sorted by profit from highest to lowest.

Each piece is a pure function over an immutable `seq<Record>`. Money is held
in whole cents (`int`), so every sum is exact.

Modules, one per piece of the pipeline:

- `Sequences` (`sequences.dfy`): duplicate-freedom, order-preserving
  subsequences, and `Unique`. `Unique` gives the distinct values in
  first-seen order, as `Series.unique()` does.
- `Records` (`records.dfy`): the `Record` datatype, the text and money
  columns, column sums, and the rows of one group.
- `Filter` (`filter.dfy`): selections, the row mask, the filtered view, the
  filter options and the default selection.
- `Kpi` (`kpi.dfy`): the three headline figures.
- `GroupBy` (`groupby.dfy`): group-by-sum. Each row of the view is added into
  an association list in one pass.
- `Ranking` (`ranking.dfy`): the descending sort of an aggregate table.
- `Dashboard` (`dashboard.dfy`): one whole page run, and worked examples.

## Model

| member | source | states |
|---|---|---|
| `Sequences.Unique` | app.py:36 | The choice list is duplicate-free. It holds exactly the values of the column. It lists them in first-seen order. It is no longer than the column. |
| `Sequences.UniqueCountIsCardinality` | app.py:63 | The number of distinct values (`nunique`) equals the size of the column's value set. |
| `Records.SumConcat` | app.py:61-62 | A column total is additive: the total of two tables laid end to end is the sum of their totals. |
| `Records.SalesSumNonNegative` | app.py:61 | If no line has negative sales, total sales are non-negative. |
| `Records.WhereRows` | app.py:106 | A group holds every row carrying its key, as often as the table does, and no other row. A group is no larger than the table. A key absent from the table has an empty group. |
| `Records.WhereKeys` | app.py:106 | Every row of a group carries the group's key. |
| `Filter.Apply` | app.py:52-56 | The view is never longer than the table. Every row of the view passes all three `isin` tests. |
| `Filter.ApplyIsSubsequence` | app.py:52-56 | The view is a subsequence of the table: the kept rows stay in table order. |
| `Filter.ApplyCounts` | app.py:52-56 | A row that passes the mask occurs in the view as often as in the table. Any other row occurs zero times. |
| `Filter.ApplyMembership` | app.py:52-56 | Soundness and completeness: a row is in the view if and only if it is in the table and passes all three tests. |
| `Filter.ViewValuesSelected` | app.py:52-56 | Every Category, Segment and Region value present in the view was selected in the sidebar. |
| `Filter.Options` | app.py:34-50 | A filter's options are duplicate-free. They are exactly the values present in that column, in first-seen order. |
| `Filter.DefaultSelection` | app.py:34-50 | By default, each filter selects exactly the set of values present in its column. |
| `Filter.SelectsAllPresentKeepsEveryRow` | app.py:52-56 | When every value present in the table is selected, every row passes the mask. |
| `Filter.IdentitySelectsAllPresent` | app.py:52-56 | When the filter returns the table unchanged, every value present in each filtered column was selected. |
| `Filter.ApplyIdentityIff` | app.py:52-56 | The filter returns the table unchanged if and only if every value present in each filtered column is selected. |
| `Filter.DefaultSelectionIsIdentity` | app.py:34-56 | Under the default selections, the view is the whole table. |
| `Filter.ApplyEmptyIff` | app.py:52-56 | The view is empty if and only if no row passes all three tests. |
| `Filter.EmptySelectionGivesEmptyView` | app.py:52-56 | If any one multi-select is cleared, the view is empty. There is no fallback to "all". |
| `Filter.ApplyComposes` | app.py:52-56 | Filtering a view again equals one filter with the intersected selections. This is the AND-across, OR-within semantics. |
| `Filter.ApplyIdempotent` | app.py:52-56 | Applying the same selection twice gives the same view as applying it once. |
| `Filter.FilterByMask` | app.py:52-56 | Two steps give the view: build the whole boolean mask, then index with it. The result equals `Apply`. |
| `Kpi.Summarize` | app.py:61-63 | Total Sales and total Profit are the exact column sums. The order count is the size of the set of Order IDs. It is at most the row count. It is 0 exactly when the view is empty. An empty view reports (0, 0, 0). |
| `Kpi.FilterKeepsOrdersWithin` | app.py:52-63 | The filtered view's Order IDs are among the table's. So its order count never exceeds the table's. |
| `Kpi.FilteredSalesAtMostTotal` | app.py:52-61 | If no sales amount is negative, the filtered total sales lie between 0 and the table's total sales. |
| `Kpi.SummarizeConcat` | app.py:61-63 | For two tables laid end to end, the totals add up. The Order IDs form the union of both tables' IDs. |
| `GroupBy.Accumulate` | app.py:106 | Adding a row into the aggregate keeps the keys duplicate-free. It adds the row's key to the key set. It adds the value to that key only. It adds the value to the table total. |
| `GroupBy.GroupSum` | app.py:106 | The group-by table has no duplicate key. Its key set is exactly the set of values in the group column. Each key maps to the sum over the rows with that key. All values together add up to the column total. |
| `GroupBy.GroupSumRows` | app.py:132 | The table has one row per key present. Each row's value is the sum over exactly the rows carrying its key. |
| `GroupBy.KeySetCardinality` | app.py:119 | A table without duplicate keys has exactly one row per key. |
| `Ranking.Insert` | app.py:122 | Inserting into a non-increasing table keeps it non-increasing. The result is the old rows plus the new one. |
| `Ranking.RankDescending` | app.py:122 | The ranked table is a permutation of the input, with non-increasing Profit. |
| `Ranking.InsertKeySet` | app.py:122 | Inserting a row adds its key to the key set. |
| `Ranking.InsertTotal` | app.py:122 | Inserting a row adds its value to the table total. |
| `Ranking.InsertLookup` | app.py:122 | Inserting a row with a new key changes only that key's value. |
| `Ranking.InsertNoDuplicates` | app.py:122 | Inserting a row with a new key keeps a duplicate-free table duplicate-free. |
| `Ranking.RankKeepsKeysAndTotal` | app.py:119-122 | Ranking keeps the table's key set and its total profit. |
| `Ranking.RankKeepsNoDuplicates` | app.py:119-122 | Ranking a duplicate-free table keeps it duplicate-free. |
| `Ranking.RankKeepsLookups` | app.py:119-122 | Ranking a duplicate-free table keeps every key's value. |
| `Ranking.RankedHeadIsMaximum` | app.py:122 | The first ranked row carries the largest profit in the table. |
| `Dashboard.Build` | app.py:52-132 | On one page run, the headline figures are those of the filtered view. The ranked sub-category chart has exactly the sub-categories present in the view, each with its profit sum over the view. Monthly and category sales each add up to the total Sales figure. Sub-category and segment profit each add up to the total Profit figure. The ranked table is non-increasing and duplicate-free. Charted categories and segments are among the selected ones. |
| `Dashboard.DefaultReportCoversTable` | app.py:34-119 | On first load, the figures are those of the whole table. The category and sub-category charts show every value in the table. |
| `Dashboard.ClearedFilterReportsNothing` | app.py:52-132 | If a multi-select is cleared, all figures are zero and every chart is empty. |
| `Dashboard.SampleTotals` | app.py:61-62 | Example: three lines give 350.00 sales and 45.00 profit. |
| `Dashboard.SampleOrders` | app.py:63 | Example: the three lines carry exactly the Order IDs A and B. |
| `Dashboard.SampleSummary` | app.py:61-63 | Example: three lines from two orders give 350.00 sales, 45.00 profit and 2 orders. |
| `Dashboard.SampleFurnitureView` | app.py:52-61 | Example: selecting only Furniture keeps the two order-A lines, worth 150.00 in sales. |
| `Dashboard.SampleCategorySales` | app.py:106 | Example: sales by category is Furniture 150.00 and Technology 200.00. |

Two facts about the code shape the model:

- The filter options come from `unique()`, so they are listed in first-seen
  order.
- No code enforces non-negative Sales. Only `Kpi.FilteredSalesAtMostTotal`
  and `Records.SalesSumNonNegative` assume it, as a precondition.

## Left out

- Loading the CSV file: Latin-1 decoding, the `@st.cache_data` memo and
  `fillna(0)` (app.py:20-27). This is file I/O and library normalisation.
  Records arrive already normalised.
- Date parsing, and deriving the `YYYY-MM` Month key from Order Date
  (app.py:23, 91). Month is an opaque text field of `Record`. The monthly
  table is the same group-by-sum over that field.
- CSV export through `to_csv(...).encode("utf-8")` (app.py:77). The encoder
  is library code, so there is nothing to state a round trip against.
- The Profit/Sales ratio column and its mean per category (app.py:145-147).
  This is floating-point division, and a zero Sales amount gives inf or NaN.
- Page setup, widgets, metric display, currency formatting and rounding,
  download button, Plotly charts and the raw-data table (app.py:8-15, 32,
  65-68, 75-84, 94-101, 108-114, 121-127, 134-140, 149-155, 160-161). These
  are presentation only.
- Floating-point summation. pandas sums `float64` values, while the model
  sums exact cents, so rounding error in the totals is not modelled.
- `GroupBy.GroupSum`: does not state the order of the rows. pandas'
  `groupby` sorts keys by default, while the model's one-pass accumulation
  yields first-seen order. The contract leaves the order open.
- `Ranking.RankDescending`: does not state how rows with equal profit are
  ordered. `sort_values` uses an unstable sort by default, so only the
  permutation and the non-increasing order are stated.
