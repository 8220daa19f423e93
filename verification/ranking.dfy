/** `table.sort_values(value, ascending=False)`: the sub-category profit
    table reordered from the highest to the lowest value. Rows with equal
    values may come out in any order, so only the reordering and the
    descending order are promised, not stability. */
module Ranking {
  import opened GroupBy

  /** Values never increase from one row to any later row. */
  predicate NonIncreasing(t: Table)
  {
    forall i, j :: 0 <= i < j < |t| ==> t[i].1 >= t[j].1
  }

  /** Puts `e` into a non-increasing table, before the first row whose value
      it is at least. */
  function Insert(e: (string, int), t: Table): (r: Table)
    requires NonIncreasing(t)
    ensures NonIncreasing(r)
    ensures multiset(r) == multiset(t) + multiset{e}
    ensures |r| == |t| + 1
    ensures r[0] == e || (|t| != 0 && r[0] == t[0])
  {
    if |t| == 0 || e.1 >= t[0].1 then
      [e] + t
    else
      var rest := Insert(e, t[1..]);
      assert t == [t[0]] + t[1..];
      var r := [t[0]] + rest;
      assert r[1..] == rest;
      assert rest[0].1 <= t[0].1;
      r
  }

  /** Inserting a row adds its key to the table's keys. */
  lemma {:induction false} InsertKeySet(e: (string, int), t: Table)
    requires NonIncreasing(t)
    ensures KeySet(Insert(e, t)) == KeySet(t) + {e.0}
  {
    var r := Insert(e, t);
    if |t| == 0 || e.1 >= t[0].1 {
      assert r == [e] + t;
      KeySetCons(e, t);
    } else {
      var rest := Insert(e, t[1..]);
      assert r == [t[0]] + rest;
      assert t == [t[0]] + t[1..];
      InsertKeySet(e, t[1..]);
      KeySetCons(t[0], t[1..]);
      KeySetCons(t[0], rest);
    }
  }

  /** Inserting a row adds its value to the table's total. */
  lemma {:induction false} InsertTotal(e: (string, int), t: Table)
    requires NonIncreasing(t)
    ensures TableTotal(Insert(e, t)) == TableTotal(t) + e.1
  {
    var r := Insert(e, t);
    if |t| == 0 || e.1 >= t[0].1 {
      assert r == [e] + t;
      assert r[1..] == t;
    } else {
      var rest := Insert(e, t[1..]);
      assert r == [t[0]] + rest;
      assert r[1..] == rest;
      InsertTotal(e, t[1..]);
    }
  }

  /** Inserting a row whose key is new changes only that key's value. */
  lemma {:induction false} InsertLookup(e: (string, int), t: Table, k: string)
    requires NonIncreasing(t)
    requires e.0 !in KeySet(t)
    ensures Lookup(Insert(e, t), k) == Lookup(t, k) + (if k == e.0 then e.1 else 0)
  {
    var r := Insert(e, t);
    if |t| == 0 || e.1 >= t[0].1 {
      assert r == [e] + t;
      LookupAbsent(t, e.0);
      assert r[1..] == t;
    } else {
      var rest := Insert(e, t[1..]);
      assert r == [t[0]] + rest;
      assert t == [t[0]] + t[1..];
      KeySetCons(t[0], t[1..]);
      InsertLookup(e, t[1..], k);
      assert r[1..] == rest;
    }
  }

  /** Inserting a row whose key is new keeps a table free of duplicate
      keys. */
  lemma {:induction false} InsertNoDuplicates(e: (string, int), t: Table)
    requires NonIncreasing(t)
    requires e.0 !in KeySet(t)
    requires NoDuplicateKeys(t)
    ensures NoDuplicateKeys(Insert(e, t))
  {
    var r := Insert(e, t);
    if |t| == 0 || e.1 >= t[0].1 {
      assert r == [e] + t;
      NoDuplicateKeysCons(e, t);
    } else {
      var rest := Insert(e, t[1..]);
      assert r == [t[0]] + rest;
      assert t == [t[0]] + t[1..];
      KeySetCons(t[0], t[1..]);
      NoDuplicateKeysCons(t[0], t[1..]);
      InsertNoDuplicates(e, t[1..]);
      InsertKeySet(e, t[1..]);
      NoDuplicateKeysCons(t[0], rest);
    }
  }

  /** The ranked table: the same rows, highest value first. */
  function RankDescending(t: Table): (r: Table)
    ensures NonIncreasing(r)
    ensures multiset(r) == multiset(t)
    ensures |r| == |t|
  {
    if |t| == 0 then []
    else
      assert t == [t[0]] + t[1..];
      Insert(t[0], RankDescending(t[1..]))
  }

  /** Ranking keeps the table's keys and its total. */
  lemma {:induction false} RankKeepsKeysAndTotal(t: Table)
    ensures KeySet(RankDescending(t)) == KeySet(t)
    ensures TableTotal(RankDescending(t)) == TableTotal(t)
  {
    if |t| != 0 {
      assert t == [t[0]] + t[1..];
      KeySetCons(t[0], t[1..]);
      RankKeepsKeysAndTotal(t[1..]);
      InsertKeySet(t[0], RankDescending(t[1..]));
      InsertTotal(t[0], RankDescending(t[1..]));
    }
  }

  /** Ranking a table without duplicate keys, as every group-by result is,
      keeps it free of duplicates. */
  lemma {:induction false} RankKeepsNoDuplicates(t: Table)
    requires NoDuplicateKeys(t)
    ensures NoDuplicateKeys(RankDescending(t))
  {
    if |t| != 0 {
      assert t == [t[0]] + t[1..];
      KeySetCons(t[0], t[1..]);
      NoDuplicateKeysCons(t[0], t[1..]);
      var rest := RankDescending(t[1..]);
      RankKeepsNoDuplicates(t[1..]);
      RankKeepsKeysAndTotal(t[1..]);
      InsertNoDuplicates(t[0], rest);
    }
  }

  /** Ranking a table without duplicate keys keeps every key's value. */
  lemma {:induction false} RankKeepsLookups(t: Table, k: string)
    requires NoDuplicateKeys(t)
    ensures Lookup(RankDescending(t), k) == Lookup(t, k)
  {
    if |t| != 0 {
      assert t == [t[0]] + t[1..];
      KeySetCons(t[0], t[1..]);
      NoDuplicateKeysCons(t[0], t[1..]);
      var rest := RankDescending(t[1..]);
      RankKeepsLookups(t[1..], k);
      RankKeepsKeysAndTotal(t[1..]);
      assert t[0].0 !in KeySet(rest);
      InsertLookup(t[0], rest, k);
      LookupAbsent(t[1..], t[0].0);
      assert RankDescending(t) == Insert(t[0], rest);
    }
  }

  /** The first row of the ranked table carries the largest value of the
      input table. */
  lemma RankedHeadIsMaximum(t: Table)
    requires |t| != 0
    ensures forall i :: 0 <= i < |t| ==> RankDescending(t)[0].1 >= t[i].1
  {
    var r := RankDescending(t);
    forall i | 0 <= i < |t| ensures r[0].1 >= t[i].1 {
      assert t[i] in multiset(r);
      var p :| 0 <= p < |r| && r[p] == t[i];
    }
  }
}
