/** A pipeline's extra filtering condition and the `sameCondition` comparison,
    which is written identically in internal/pump/server.go and pump/server.go.
    The Go function sorts both column slices in place before comparing them;
    the slices are shared with the stored pipelines, so the comparison leaves
    them sorted. The model returns the column lists as the call leaves them. */
module Conditions {
  import opened Sorting
  import opened Strings

  /** `Condition`: names of columns an update must change. */
  datatype Condition = Condition(columnChanged: seq<string>)

  /** The condition with its columns in ascending order, as `slices.Sort` leaves them. */
  function SortedCondition(c: Condition): (r: Condition)
    ensures multiset(r.columnChanged) == multiset(c.columnChanged)
    ensures |r.columnChanged| == |c.columnChanged|
  {
    Condition(SortStrings(c.columnChanged))
  }

  /** Sorting is idempotent, yields ascending columns and depends only on the multiset. */
  lemma SortedConditionCanonical(c: Condition, d: Condition)
    ensures SortedCondition(SortedCondition(c)) == SortedCondition(c)
    ensures SortedBy(LessEq, SortedCondition(c).columnChanged)
    ensures SortedCondition(c) == SortedCondition(d) <==>
      multiset(c.columnChanged) == multiset(d.columnChanged)
  {
    SortStringsCanonical(c.columnChanged, d.columnChanged);
    SortStringsCanonical(SortStrings(c.columnChanged), c.columnChanged);
  }

  /** Both column lists hold the same names, counted with repetition. */
  predicate SameColumns(a: Condition, b: Condition) {
    multiset(a.columnChanged) == multiset(b.columnChanged)
  }

  lemma SameColumnsSorted(a: Condition, b: Condition)
    ensures SameColumns(a, b) <==> SortedCondition(a).columnChanged == SortedCondition(b).columnChanged
  {
    SortedConditionCanonical(a, b);
  }

  /** `sameCondition`: different lengths give false untouched; otherwise both
      lists are sorted and compared position by position. */
  method SameCondition(a: Condition, b: Condition) returns (same: bool, a': Condition, b': Condition)
    ensures same <==> SameColumns(a, b)
    ensures |a.columnChanged| != |b.columnChanged| ==> a' == a && b' == b
    ensures |a.columnChanged| == |b.columnChanged| ==> a' == SortedCondition(a) && b' == SortedCondition(b)
  {
    if |a.columnChanged| != |b.columnChanged| {
      assert |multiset(a.columnChanged)| != |multiset(b.columnChanged)|;
      return false, a, b;
    }
    a' := SortedCondition(a);
    b' := SortedCondition(b);
    SameColumnsSorted(a, b);
    same := EqualColumns(a'.columnChanged, b'.columnChanged);
  }

  /** The comparison loop of `sameCondition` over two lists of equal length. */
  method EqualColumns(xs: seq<string>, ys: seq<string>) returns (eq: bool)
    requires |xs| == |ys|
    ensures eq <==> xs == ys
  {
    var i := 0;
    while i < |xs|
      invariant 0 <= i <= |xs|
      invariant xs[..i] == ys[..i]
    {
      if xs[i] != ys[i] {
        return false;
      }
      i := i + 1;
    }
    assert xs == xs[..i] && ys == ys[..i];
    return true;
  }
}
