/** `view.groupby(key)[value].sum()`: one row per key present in the view,
    holding the sum of the value column over the rows with that key. The
    rows are accumulated in one pass over the view, as a hash aggregation
    does; the order of the result's rows is left open. */
module GroupBy {
  import opened Records

  /** An aggregate table: rows of (group key, summed value). */
  type Table = seq<(string, int)>

  /** The keys that have a row in the table. */
  function KeySet(t: Table): set<string>
  {
    set i | 0 <= i < |t| :: t[i].0
  }

  predicate NoDuplicateKeys(t: Table)
  {
    forall i, j :: 0 <= i < j < |t| ==> t[i].0 != t[j].0
  }

  /** The value the table holds for key `k`; 0 when `k` has no row. */
  function Lookup(t: Table, k: string): int
  {
    if |t| == 0 then 0
    else if t[0].0 == k then t[0].1
    else Lookup(t[1..], k)
  }

  /** The sum of the table's value column. */
  function TableTotal(t: Table): int
  {
    if |t| == 0 then 0 else t[0].1 + TableTotal(t[1..])
  }

  lemma KeySetCons(e: (string, int), t: Table)
    ensures KeySet([e] + t) == {e.0} + KeySet(t)
  {
    var s := [e] + t;
    forall k | k in KeySet(t) ensures k in KeySet(s) {
      var i :| 0 <= i < |t| && t[i].0 == k;
      assert s[i + 1] == t[i];
    }
    assert s[0] == e;
  }

  lemma NoDuplicateKeysCons(e: (string, int), t: Table)
    ensures NoDuplicateKeys([e] + t) <==> e.0 !in KeySet(t) && NoDuplicateKeys(t)
  {
    var s := [e] + t;
    if NoDuplicateKeys(s) {
      forall i | 0 <= i < |t| ensures t[i].0 != e.0 {
        assert s[0] == e && s[i + 1] == t[i];
      }
      forall i, j | 0 <= i < j < |t| ensures t[i].0 != t[j].0 {
        assert s[i + 1] == t[i] && s[j + 1] == t[j];
      }
    }
    if e.0 !in KeySet(t) && NoDuplicateKeys(t) {
      forall i, j | 0 <= i < j < |s| ensures s[i].0 != s[j].0 {
        if i == 0 {
          assert s[j] == t[j - 1];
        } else {
          assert s[i] == t[i - 1] && s[j] == t[j - 1];
        }
      }
    }
  }

  /** A key without a row looks up as 0. */
  lemma {:induction false} LookupAbsent(t: Table, k: string)
    requires k !in KeySet(t)
    ensures Lookup(t, k) == 0
  {
    if |t| != 0 {
      assert t == [t[0]] + t[1..];
      KeySetCons(t[0], t[1..]);
      LookupAbsent(t[1..], k);
    }
  }

  /** In a table without duplicate keys, looking up a row's key yields that
      row's value. */
  lemma {:induction false} LookupAt(t: Table, i: int)
    requires NoDuplicateKeys(t)
    requires 0 <= i < |t|
    ensures Lookup(t, t[i].0) == t[i].1
  {
    if i != 0 {
      assert t == [t[0]] + t[1..];
      NoDuplicateKeysCons(t[0], t[1..]);
      LookupAt(t[1..], i - 1);
    }
  }

  /** A table without duplicate keys has one row per key. */
  lemma {:induction false} KeySetCardinality(t: Table)
    requires NoDuplicateKeys(t)
    ensures |KeySet(t)| == |t|
  {
    if |t| != 0 {
      assert t == [t[0]] + t[1..];
      NoDuplicateKeysCons(t[0], t[1..]);
      KeySetCardinality(t[1..]);
      KeySetCons(t[0], t[1..]);
    }
  }

  /** Adds `x` to the row for key `k`, appending a new row when `k` has none
      yet. */
  function Accumulate(t: Table, k: string, x: int): (t': Table)
    requires NoDuplicateKeys(t)
    ensures NoDuplicateKeys(t')
    ensures KeySet(t') == KeySet(t) + {k}
    ensures forall k' :: Lookup(t', k') == Lookup(t, k') + (if k' == k then x else 0)
    ensures TableTotal(t') == TableTotal(t) + x
  {
    if |t| == 0 then
      KeySetCons((k, x), []);
      [(k, x)]
    else
      assert t == [t[0]] + t[1..];
      NoDuplicateKeysCons(t[0], t[1..]);
      KeySetCons(t[0], t[1..]);
      if t[0].0 == k then
        var t' := [(k, t[0].1 + x)] + t[1..];
        NoDuplicateKeysCons((k, t[0].1 + x), t[1..]);
        KeySetCons((k, t[0].1 + x), t[1..]);
        assert t'[1..] == t[1..];
        t'
      else
        var rest := Accumulate(t[1..], k, x);
        var t' := [t[0]] + rest;
        NoDuplicateKeysCons(t[0], rest);
        KeySetCons(t[0], rest);
        assert t'[1..] == rest;
        t'
  }

  lemma SumWhereSnoc(v: Dataset, kc: KeyColumn, vc: ValueColumn, k: string)
    requires |v| != 0
    ensures Sum(Where(v, kc, k), vc)
         == Sum(Where(v[..|v| - 1], kc, k), vc) + (if Key(v[|v| - 1], kc) == k then Value(v[|v| - 1], vc) else 0)
  {
    var w := Where(v[..|v| - 1], kc, k);
    if Key(v[|v| - 1], kc) == k {
      assert (w + [v[|v| - 1]])[..|w|] == w;
    } else {
      assert w + [] == w;
    }
  }

  /** `view.groupby(kc)[vc].sum()`: no key twice, exactly the keys present in
      the view, each key's value the sum over the rows with that key, and the
      values together adding up to the column's total. */
  function GroupSum(v: Dataset, kc: KeyColumn, vc: ValueColumn): (t: Table)
    ensures NoDuplicateKeys(t)
    ensures KeySet(t) == ColumnValues(v, kc)
    ensures forall k :: Lookup(t, k) == Sum(Where(v, kc, k), vc)
    ensures TableTotal(t) == Sum(v, vc)
  {
    if |v| == 0 then []
    else
      var init := v[..|v| - 1];
      var r := v[|v| - 1];
      assert v == init + [r];
      ColumnValuesSnoc(init, r, kc);
      var t := Accumulate(GroupSum(init, kc, vc), Key(r, kc), Value(r, vc));
      assert forall k :: Lookup(t, k) == Sum(Where(v, kc, k), vc) by {
        forall k ensures Lookup(t, k) == Sum(Where(v, kc, k), vc) {
          SumWhereSnoc(v, kc, vc, k);
        }
      }
      t
  }

  /** Row by row: the table has one row per key present in the view, and
      each row's value is the sum over exactly the rows with its key. */
  lemma GroupSumRows(v: Dataset, kc: KeyColumn, vc: ValueColumn)
    ensures |GroupSum(v, kc, vc)| == |ColumnValues(v, kc)|
    ensures forall i :: 0 <= i < |GroupSum(v, kc, vc)| ==>
              GroupSum(v, kc, vc)[i].1 == Sum(Where(v, kc, GroupSum(v, kc, vc)[i].0), vc)
  {
    var t := GroupSum(v, kc, vc);
    KeySetCardinality(t);
    forall i | 0 <= i < |t| ensures t[i].1 == Sum(Where(v, kc, t[i].0), vc) {
      LookupAt(t, i);
    }
  }
}
