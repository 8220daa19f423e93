/** The sidebar filter: three multi-selects (Category, Segment, Region)
    whose choices are the values present in the table, all selected by
    default, combined into one boolean row mask. Within a dimension a row
    passes when its value is one of the selected ones; across dimensions all
    three tests must pass. */
module Filter {
  import opened Sequences
  import opened Records

  /** The values currently selected in each of the three multi-selects. */
  datatype Selection = Selection(categories: set<string>, segments: set<string>, regions: set<string>)

  /** The row mask: `isin` on each filtered column, joined with `&`. */
  predicate Keep(r: Record, sel: Selection)
  {
    && r.category in sel.categories
    && r.segment in sel.segments
    && r.region in sel.regions
  }

  /** The filtered view `df[mask]`: the rows the mask keeps, in table order. */
  function Apply(d: Dataset, sel: Selection): (v: Dataset)
    ensures |v| <= |d|
    ensures forall i :: 0 <= i < |v| ==> Keep(v[i], sel)
  {
    if |d| == 0 then []
    else
      var r := d[|d| - 1];
      Apply(d[..|d| - 1], sel) + (if Keep(r, sel) then [r] else [])
  }

  /** The view keeps the table's order: it is the table with some rows
      deleted. */
  lemma {:induction false} ApplyIsSubsequence(d: Dataset, sel: Selection)
    ensures IsSubsequence(Apply(d, sel), d)
  {
    if |d| != 0 {
      var init := d[..|d| - 1];
      var r := d[|d| - 1];
      ApplyIsSubsequence(init, sel);
      var v := Apply(d, sel);
      if Keep(r, sel) {
        assert v[..|v| - 1] == Apply(init, sel);
      } else {
        assert v == Apply(init, sel);
      }
    }
  }

  /** Every row that passes is kept as often as it occurs in the table, and
      no other row appears. */
  lemma {:induction false} ApplyCounts(d: Dataset, sel: Selection, r: Record)
    ensures multiset(Apply(d, sel))[r] == if Keep(r, sel) then multiset(d)[r] else 0
  {
    if |d| != 0 {
      var init := d[..|d| - 1];
      var x := d[|d| - 1];
      ApplyCounts(init, sel, r);
      assert d == init + [x];
      assert multiset(d) == multiset(init) + multiset{x};
      var rest: Dataset := if Keep(x, sel) then [x] else [];
      assert multiset(Apply(d, sel)) == multiset(Apply(init, sel)) + multiset(rest);
    }
  }

  /** Soundness and completeness together: a row is in the view exactly when
      it is in the table and passes all three tests. */
  lemma ApplyMembership(d: Dataset, sel: Selection, r: Record)
    ensures r in Apply(d, sel) <==> r in d && Keep(r, sel)
  {
    var v := Apply(d, sel);
    ApplyCounts(d, sel, r);
    assert r in v <==> multiset(v)[r] > 0;
    assert r in d <==> multiset(d)[r] > 0;
  }

  /** Every value of a filtered column that occurs in the view is one the
      sidebar selected. */
  lemma ViewValuesSelected(d: Dataset, sel: Selection)
    ensures ColumnValues(Apply(d, sel), Category) <= sel.categories
    ensures ColumnValues(Apply(d, sel), Segment) <= sel.segments
    ensures ColumnValues(Apply(d, sel), Region) <= sel.regions
  {
    var v := Apply(d, sel);
    forall r | r in v ensures Keep(r, sel) {
      ApplyMembership(d, sel, r);
    }
  }

  /** The choices a multi-select offers for column `c`: the distinct values
      of that column, in first-seen order (`df[c].unique()`). */
  function Options(d: Dataset, c: KeyColumn): (o: seq<string>)
    ensures NoDuplicates(o)
    ensures Elems(o) == ColumnValues(d, c)
    ensures FirstSeenOrder(Column(d, c), o)
  {
    Unique(Column(d, c))
  }

  /** The selection the page starts with: every option of every filter. */
  function DefaultSelection(d: Dataset): (sel: Selection)
    ensures sel.categories == ColumnValues(d, Category)
    ensures sel.segments == ColumnValues(d, Segment)
    ensures sel.regions == ColumnValues(d, Region)
  {
    Selection(Elems(Options(d, Category)), Elems(Options(d, Segment)), Elems(Options(d, Region)))
  }

  /** Every value that occurs in the table is selected, in all three filters. */
  predicate SelectsAllPresent(d: Dataset, sel: Selection)
  {
    && ColumnValues(d, Category) <= sel.categories
    && ColumnValues(d, Segment) <= sel.segments
    && ColumnValues(d, Region) <= sel.regions
  }

  lemma {:induction false} ApplyKeepsAll(d: Dataset, sel: Selection)
    requires forall i :: 0 <= i < |d| ==> Keep(d[i], sel)
    ensures Apply(d, sel) == d
  {
    if |d| != 0 {
      var init := d[..|d| - 1];
      ApplyKeepsAll(init, sel);
      assert d == init + [d[|d| - 1]];
    }
  }

  /** When every present value is selected, every row passes the mask. */
  lemma SelectsAllPresentKeepsEveryRow(d: Dataset, sel: Selection)
    requires SelectsAllPresent(d, sel)
    ensures forall i :: 0 <= i < |d| ==> Keep(d[i], sel)
  {
    forall i | 0 <= i < |d| ensures Keep(d[i], sel) {
      ColumnValuesMember(d, Category, d[i].category);
      ColumnValuesMember(d, Segment, d[i].segment);
      ColumnValuesMember(d, Region, d[i].region);
    }
  }

  /** When the filter changes nothing, every present value was selected. */
  lemma IdentitySelectsAllPresent(d: Dataset, sel: Selection)
    requires Apply(d, sel) == d
    ensures SelectsAllPresent(d, sel)
  {
    forall k | k in ColumnValues(d, Category) ensures k in sel.categories {
      ColumnValuesMember(d, Category, k);
      var i :| 0 <= i < |d| && Key(d[i], Category) == k;
      assert Keep(Apply(d, sel)[i], sel);
    }
    forall k | k in ColumnValues(d, Segment) ensures k in sel.segments {
      ColumnValuesMember(d, Segment, k);
      var i :| 0 <= i < |d| && Key(d[i], Segment) == k;
      assert Keep(Apply(d, sel)[i], sel);
    }
    forall k | k in ColumnValues(d, Region) ensures k in sel.regions {
      ColumnValuesMember(d, Region, k);
      var i :| 0 <= i < |d| && Key(d[i], Region) == k;
      assert Keep(Apply(d, sel)[i], sel);
    }
  }

  /** The filter leaves the table unchanged exactly when every value present
      in the table is selected. */
  lemma ApplyIdentityIff(d: Dataset, sel: Selection)
    ensures Apply(d, sel) == d <==> SelectsAllPresent(d, sel)
  {
    if SelectsAllPresent(d, sel) {
      SelectsAllPresentKeepsEveryRow(d, sel);
      ApplyKeepsAll(d, sel);
    }
    if Apply(d, sel) == d {
      IdentitySelectsAllPresent(d, sel);
    }
  }

  /** With the default selections the filtered view is the whole table. */
  lemma DefaultSelectionIsIdentity(d: Dataset)
    ensures Apply(d, DefaultSelection(d)) == d
  {
    ApplyIdentityIff(d, DefaultSelection(d));
  }

  /** The view is empty exactly when no row passes all three tests. */
  lemma ApplyEmptyIff(d: Dataset, sel: Selection)
    ensures Apply(d, sel) == [] <==> forall i :: 0 <= i < |d| ==> !Keep(d[i], sel)
  {
    var v := Apply(d, sel);
    if v != [] {
      assert v[0] in v;
      ApplyMembership(d, sel, v[0]);
    }
    if exists i :: 0 <= i < |d| && Keep(d[i], sel) {
      var i :| 0 <= i < |d| && Keep(d[i], sel);
      assert d[i] in d;
      ApplyMembership(d, sel, d[i]);
    }
  }

  /** Clearing any one of the three multi-selects empties the view: there is
      no fallback to "everything" inside the filter. */
  lemma EmptySelectionGivesEmptyView(d: Dataset, sel: Selection)
    requires sel.categories == {} || sel.segments == {} || sel.regions == {}
    ensures Apply(d, sel) == []
  {
    ApplyEmptyIff(d, sel);
  }

  /** The selection that admits a value only when both selections do. */
  function Meet(s1: Selection, s2: Selection): Selection
  {
    Selection(s1.categories * s2.categories, s1.segments * s2.segments, s1.regions * s2.regions)
  }

  /** Filtering a filtered view is filtering once with the intersected
      selections. */
  lemma {:induction false} ApplyComposes(d: Dataset, s1: Selection, s2: Selection)
    ensures Apply(Apply(d, s1), s2) == Apply(d, Meet(s1, s2))
  {
    if |d| != 0 {
      var init := d[..|d| - 1];
      var r := d[|d| - 1];
      ApplyComposes(init, s1, s2);
      var x := Apply(init, s1);
      if Keep(r, s1) {
        assert (x + [r])[..|x + [r]| - 1] == x;
      } else {
        assert x + [] == x;
      }
    }
  }

  /** Applying the same filter twice changes nothing. */
  lemma ApplyIdempotent(d: Dataset, sel: Selection)
    ensures Apply(Apply(d, sel), sel) == Apply(d, sel)
  {
    ApplyComposes(d, sel, sel);
    assert Meet(sel, sel) == sel;
  }

  /** The filter as pandas evaluates it: first the whole boolean mask, one
      flag per row, then the rows whose flag is set. */
  method FilterByMask(d: Dataset, sel: Selection) returns (v: Dataset)
    ensures v == Apply(d, sel)
  {
    var mask: seq<bool> := [];
    var i := 0;
    while i < |d|
      invariant 0 <= i <= |d|
      invariant |mask| == i
      invariant forall k :: 0 <= k < i ==> (mask[k] <==> Keep(d[k], sel))
    {
      var inCategory := d[i].category in sel.categories;
      var inSegment := d[i].segment in sel.segments;
      var inRegion := d[i].region in sel.regions;
      mask := mask + [inCategory && inSegment && inRegion];
      i := i + 1;
    }
    v := [];
    var j := 0;
    while j < |d|
      invariant 0 <= j <= |d|
      invariant v == Apply(d[..j], sel)
    {
      assert d[..j + 1][..j] == d[..j];
      if mask[j] {
        v := v + [d[j]];
      }
      j := j + 1;
    }
    assert d[..|d|] == d;
  }
}
