/** Generic facts about sequences used throughout the dashboard model:
    duplicate-freedom, order-preserving subsequences, and the first-seen
    list of distinct values that pandas' `unique()` produces. */
module Sequences {

  /** The elements of a sequence, as a set. */
  function Elems<T>(s: seq<T>): set<T>
  {
    set x | x in s
  }

  lemma ElemsConcat<T>(s: seq<T>, t: seq<T>)
    ensures Elems(s + t) == Elems(s) + Elems(t)
  {
    assert forall x :: x in s + t <==> x in s || x in t;
  }

  /** No value occurs twice. */
  predicate NoDuplicates<T(==)>(s: seq<T>)
  {
    forall i, j :: 0 <= i < j < |s| ==> s[i] != s[j]
  }

  /** `a` is obtained from `b` by deleting some elements, keeping the order
      of the rest. */
  predicate IsSubsequence<T(==)>(a: seq<T>, b: seq<T>)
    decreases |b|
  {
    if |a| == 0 then true
    else if |b| == 0 then false
    else (a[|a| - 1] == b[|b| - 1] && IsSubsequence(a[..|a| - 1], b[..|b| - 1]))
         || IsSubsequence(a, b[..|b| - 1])
  }

  /** `u` lists its values in the order in which they first occur in `xs`:
      whenever `u[i]` comes before `u[j]`, every occurrence of `u[j]` in `xs`
      is preceded by an occurrence of `u[i]`. */
  predicate FirstSeenOrder<T(==)>(xs: seq<T>, u: seq<T>)
  {
    forall i, j, q :: 0 <= i < j < |u| && 0 <= q < |xs| && xs[q] == u[j] ==> u[i] in xs[..q]
  }

  /** The distinct values of `xs` in first-seen order, as returned by
      pandas' `Series.unique()`. */
  function Unique<T(==)>(xs: seq<T>): (u: seq<T>)
    ensures NoDuplicates(u)
    ensures Elems(u) == Elems(xs)
    ensures FirstSeenOrder(xs, u)
    ensures |u| <= |xs|
    decreases |xs|
  {
    if |xs| == 0 then []
    else
      var init := xs[..|xs| - 1];
      var x := xs[|xs| - 1];
      var rest := Unique(init);
      assert xs == init + [x];
      assert Elems(xs) == Elems(init) + {x};
      assert Elems(rest + [x]) == Elems(rest) + {x};
      var u := if x in rest then rest else rest + [x];
      assert FirstSeenOrder(xs, u) by {
        forall i, j, q | 0 <= i < j < |u| && 0 <= q < |xs| && xs[q] == u[j]
          ensures u[i] in xs[..q]
        {
          assert u[i] == rest[i] && rest[i] in Elems(init);
          if q < |init| {
            assert init[..q] == xs[..q];
          } else {
            assert xs[..q] == init;
          }
        }
      }
      u
  }

  /** A duplicate-free sequence has exactly as many elements as its set. */
  lemma {:induction false} NoDuplicatesCardinality<T>(s: seq<T>)
    requires NoDuplicates(s)
    ensures |Elems(s)| == |s|
  {
    if |s| != 0 {
      var init := s[..|s| - 1];
      NoDuplicatesCardinality(init);
      assert Elems(s) == Elems(init) + {s[|s| - 1]};
      assert s[|s| - 1] !in Elems(init);
    }
  }

  /** The number of distinct values, `nunique()`, is the size of the value set. */
  lemma UniqueCountIsCardinality<T>(xs: seq<T>)
    ensures |Unique(xs)| == |Elems(xs)|
  {
    var u := Unique(xs);
    NoDuplicatesCardinality(u);
    assert Elems(u) == Elems(xs);
  }

  /** A subset is no larger than its superset. */
  lemma SubsetCardinality<T>(a: set<T>, b: set<T>)
    requires a <= b
    ensures |a| <= |b|
  {
    assert b == a + (b - a);
  }
}
