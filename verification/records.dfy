/** The sales table after loading: one `Record` per transaction line, money
    held exactly in whole cents, every missing value already replaced by its
    zero sentinel. */
module Records {
  import opened Sequences

  /** One line of the sales table. `month` is the order date's calendar
      month as the text key `YYYY-MM`; its derivation from the date is not
      modelled. */
  datatype Record = Record(
    orderId: string,
    month: string,
    category: string,
    subCategory: string,
    segment: string,
    region: string,
    sales: int,
    profit: int)

  /** The text columns a table can be filtered or grouped on. */
  datatype KeyColumn = OrderId | Month | Category | SubCategory | Segment | Region

  /** The money columns a table can be summed over. */
  datatype ValueColumn = Sales | Profit

  type Dataset = seq<Record>

  function Key(r: Record, c: KeyColumn): string
  {
    match c
    case OrderId => r.orderId
    case Month => r.month
    case Category => r.category
    case SubCategory => r.subCategory
    case Segment => r.segment
    case Region => r.region
  }

  function Value(r: Record, c: ValueColumn): int
  {
    match c
    case Sales => r.sales
    case Profit => r.profit
  }

  /** One text column of a table, in row order (`df[c]`). */
  function Column(d: Dataset, c: KeyColumn): seq<string>
  {
    seq(|d|, i requires 0 <= i < |d| => Key(d[i], c))
  }

  /** The set of values that occur in a text column. */
  function ColumnValues(d: Dataset, c: KeyColumn): set<string>
  {
    Elems(Column(d, c))
  }

  /** `df[c].sum()`: the exact sum of a money column; 0 on an empty table. */
  function Sum(d: Dataset, c: ValueColumn): int
  {
    if |d| == 0 then 0 else Sum(d[..|d| - 1], c) + Value(d[|d| - 1], c)
  }

  /** The rows whose text column `c` equals `k`: one group of a group-by. */
  function Where(d: Dataset, c: KeyColumn, k: string): Dataset
  {
    if |d| == 0 then []
    else Where(d[..|d| - 1], c, k) + (if Key(d[|d| - 1], c) == k then [d[|d| - 1]] else [])
  }

  /** The Sales column holds no negative amount. */
  predicate SalesNonNegative(d: Dataset)
  {
    forall i :: 0 <= i < |d| ==> d[i].sales >= 0
  }

  /** A value occurs in a column exactly when some row carries it. */
  lemma ColumnValuesMember(d: Dataset, c: KeyColumn, k: string)
    ensures k in ColumnValues(d, c) <==> exists i :: 0 <= i < |d| && Key(d[i], c) == k
  {
    if exists i :: 0 <= i < |d| && Key(d[i], c) == k {
      var i :| 0 <= i < |d| && Key(d[i], c) == k;
      assert Column(d, c)[i] == k;
    }
  }

  lemma ColumnValuesSnoc(d: Dataset, r: Record, c: KeyColumn)
    ensures ColumnValues(d + [r], c) == ColumnValues(d, c) + {Key(r, c)}
  {
    assert Column(d + [r], c) == Column(d, c) + [Key(r, c)];
  }

  /** Summing distributes over concatenation: the sum of a table split in
      two parts is the sum of the parts' sums. */
  lemma {:induction false} SumConcat(a: Dataset, b: Dataset, c: ValueColumn)
    ensures Sum(a + b, c) == Sum(a, c) + Sum(b, c)
    decreases |b|
  {
    if |b| != 0 {
      var b' := b[..|b| - 1];
      assert (a + b)[..|a + b| - 1] == a + b';
      SumConcat(a, b', c);
    } else {
      assert a + b == a;
    }
  }

  /** Total sales are never negative when no line has negative sales. */
  lemma {:induction false} SalesSumNonNegative(d: Dataset)
    requires SalesNonNegative(d)
    ensures Sum(d, Sales) >= 0
  {
    if |d| != 0 {
      SalesSumNonNegative(d[..|d| - 1]);
    }
  }

  /** A group holds exactly the rows carrying its key: each such row as
      often as it occurs in the table, and no other row. So a group is no
      larger than the table, and a key absent from the table has an empty
      group. */
  lemma {:induction false} WhereRows(d: Dataset, c: KeyColumn, k: string, r: Record)
    ensures multiset(Where(d, c, k))[r] == if Key(r, c) == k then multiset(d)[r] else 0
    ensures |Where(d, c, k)| <= |d|
    ensures k !in ColumnValues(d, c) ==> Where(d, c, k) == []
  {
    if |d| != 0 {
      var init := d[..|d| - 1];
      var x := d[|d| - 1];
      WhereRows(init, c, k, r);
      assert d == init + [x];
      assert multiset(d) == multiset(init) + multiset{x};
      var rest: Dataset := if Key(x, c) == k then [x] else [];
      assert multiset(Where(d, c, k)) == multiset(Where(init, c, k)) + multiset(rest);
      ColumnValuesSnoc(init, x, c);
    }
  }

  /** Every row of a group carries the group's key. */
  lemma WhereKeys(d: Dataset, c: KeyColumn, k: string)
    ensures forall i :: 0 <= i < |Where(d, c, k)| ==> Key(Where(d, c, k)[i], c) == k
  {
    var w := Where(d, c, k);
    forall i | 0 <= i < |w| ensures Key(w[i], c) == k {
      WhereRows(d, c, k, w[i]);
      assert w[i] in multiset(w);
    }
  }
}
