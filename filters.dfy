/** Per-pipeline event filters (pump/filter.go) and the "does any filter
    admit it" loop both pipeline handlers run. */
module Filters {
  import opened Seqs
  import opened Events
  import opened Mapping
  import opened Pipelines

  datatype Filter = NoOpFilter | ColumnFilter(columnsChanged: seq<string>)

  /** Column `name` is present in the event with differing before and after texts. */
  predicate ChangedIn(se: StreamEvent, name: string) {
    name in se.columns && se.columns[name].before != se.columns[name].after
  }

  /** The loop of `columnFilter.Include`: some listed column changed. */
  function AnyChanged(names: seq<string>, se: StreamEvent): (b: bool)
    ensures b <==> exists i :: 0 <= i < |names| && ChangedIn(se, names[i])
  {
    if names == [] then false
    else if ChangedIn(se, names[0]) then true
    else
      var rest := AnyChanged(names[1..], se);
      assert forall i :: 1 <= i < |names| ==> names[i] == names[1..][i - 1];
      rest
  }

  /** `Include` of both filter kinds. */
  function Include(f: Filter, evt: Emitted): (b: bool)
    ensures f.NoOpFilter? ==> b
    ensures !evt.StreamValue? ==> b
    ensures evt.StreamValue? && evt.se.typ != TYPE_UPDATE ==> b
    ensures f.ColumnFilter? && evt.StreamValue? && evt.se.typ == TYPE_UPDATE ==>
      (b <==> exists name :: name in f.columnsChanged && ChangedIn(evt.se, name))
  {
    match f
    case NoOpFilter => true
    case ColumnFilter(names) =>
      match evt
      case StreamValue(se) =>
        if se.typ != TYPE_UPDATE then true
        else
          var b := AnyChanged(names, se);
          assert b ==> exists name :: name in names && ChangedIn(se, name);
          b
      case ChangeValue(_) => true
      case OtherValue => true
  }

  /** `NewFilters`: a single filter, a no-op one when the pipeline's condition lists no column. */
  function NewFilters(p: Pipeline): (fs: seq<Filter>)
    ensures |fs| == 1
    ensures p.condition.columnChanged == [] ==> fs[0] == NoOpFilter
    ensures p.condition.columnChanged != [] ==> fs[0].ColumnFilter? && NoDuplicates(fs[0].columnsChanged)
    ensures p.condition.columnChanged != [] ==>
      forall name :: name in fs[0].columnsChanged <==> name in p.condition.columnChanged
  {
    var c := p.condition.columnChanged;
    if |c| < 1 then [NoOpFilter] else [ColumnFilter(Distinct(c))]
  }

  /** Some filter of the list admits the event. */
  predicate AnyIncludes(fs: seq<Filter>, evt: Emitted) {
    exists i :: 0 <= i < |fs| && Include(fs[i], evt)
  }

  /** The filters built from a column list admit exactly: everything when the list
      is empty; otherwise all but update stream events, and those that change a
      listed column. */
  lemma NewFiltersAdmit(p: Pipeline, evt: Emitted)
    ensures var c := p.condition.columnChanged;
      AnyIncludes(NewFilters(p), evt) <==>
        c == [] || !evt.StreamValue? || evt.se.typ != TYPE_UPDATE
        || exists name :: name in c && ChangedIn(evt.se, name)
  {
    var fs := NewFilters(p);
    assert AnyIncludes(fs, evt) <==> Include(fs[0], evt);
  }

  /** The `anyMatch` loop of the pipeline handlers: the filters are tried in
      order and the first admitting one ends the search. */
  method AnyMatch(fs: seq<Filter>, evt: Emitted) returns (anyMatch: bool)
    ensures anyMatch <==> AnyIncludes(fs, evt)
  {
    anyMatch := false;
    var i := 0;
    while i < |fs|
      invariant 0 <= i <= |fs|
      invariant forall k :: 0 <= k < i ==> !Include(fs[k], evt)
    {
      if Include(fs[i], evt) {
        anyMatch := true;
        break;
      }
      i := i + 1;
    }
  }
}
