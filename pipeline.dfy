/** Pipeline values of internal/pump/server.go and internal/pump/config.go:
    the type-pattern rendering and parsing, the API form of a pipeline,
    input trimming and the `samePipeline` equivalence. */
module Pipelines {
  import opened Wrappers
  import opened Seqs
  import opened Strings
  import opened Conditions

  /** `Pipeline`. `handlerId` stands for the handler id string; 0 is the unset id. */
  datatype Pipeline = Pipeline(
    handlerId: nat,
    schema: string,
    table: string,
    stream: string,
    typ: string,
    types: seq<string>,
    enabled: bool,
    condition: Condition)

  /** `ApiPipeline`: the form the HTTP endpoints accept and list. */
  datatype ApiPipeline = ApiPipeline(
    schema: string,
    table: string,
    eventTypes: seq<string>,
    stream: string,
    condition: Condition)

  // ----- pipelineTypeRegex -----

  /** `pipelineTypeRegex`: "" for no types, else "^(A|B|...)$" over the sorted distinct types. */
  function TypeRegex(typs: seq<string>): string {
    if |typs| < 1 then ""
    else "^(" + Join(SortStrings(Distinct(typs)), "|") + ")$"
  }

  /** The rendering is empty exactly for no types, and depends only on the set of types. */
  lemma TypeRegexCanonical(a: seq<string>, b: seq<string>)
    ensures TypeRegex(a) == "" <==> a == []
    ensures (forall t :: t in a <==> t in b) ==> TypeRegex(a) == TypeRegex(b)
  {
    if a != [] {
      assert TypeRegex(a)[0] == '^';
    }
    if (forall t :: t in a <==> t in b) && a != [] {
      SameTypesSameRegex(a, b);
    } else if (forall t :: t in a <==> t in b) && b != [] {
      HeadIn(b);
      assert false;
    }
  }

  lemma HeadIn(b: seq<string>)
    requires b != []
    ensures b[0] in b
  {
  }

  lemma SameTypesSameRegex(a: seq<string>, b: seq<string>)
    requires a != [] && forall t :: t in a <==> t in b
    ensures TypeRegex(a) == TypeRegex(b)
  {
    assert a[0] in b;
    var da, db := Distinct(a), Distinct(b);
    SameElementsSameMultiset(da, db);
    SortStringsCanonical(da, db);
  }

  // ----- the type-string post-processing of loadLocalConfigs -----

  /** `s` is "^(" + `g` + ")$" with no ")" inside `g`. */
  predicate Wraps(s: string, g: string) {
    s == "^(" + g + ")$" && ')' !in g
  }

  /** The submatch of `^\^\(([^\)]*)\)\$$` in `s`, if the whole of `s` matches. */
  function TypeGroup(s: string): (g: Option<string>)
    ensures g.Some? ==> Wraps(s, g.value)
    ensures g.None? ==> forall x :: !Wraps(s, x)
  {
    if |s| >= 4 && s[..2] == "^(" && s[|s| - 2..] == ")$" && ')' !in s[2..|s| - 2] then
      assert s == "^(" + s[2..|s| - 2] + ")$";
      Some(s[2..|s| - 2])
    else
      assert forall x :: !Wraps(s, x) by {
        forall x | Wraps(s, x) ensures false {
          WrapsParts(s, x);
        }
      }
      None
  }

  lemma WrapsParts(s: string, g: string)
    requires Wraps(s, g)
    ensures |s| >= 4 && s[..2] == "^(" && s[|s| - 2..] == ")$" && s[2..|s| - 2] == g
  {
  }

  /** One iteration of the loop of `loadLocalConfigs`. */
  function Loaded(p: Pipeline): (q: Pipeline)
    ensures q.enabled
    ensures q.(enabled := p.enabled, typ := p.typ, types := p.types) == p
    ensures (p.typ == "" || TypeGroup(p.typ).None?) ==> q.typ == p.typ && q.types == p.types
  {
    var p1 := p.(enabled := true);
    if p1.typ != "" then
      match TypeGroup(p1.typ)
      case Some(g) =>
        var ts := Split(g, '|');
        p1.(types := ts, typ := TypeRegex(ts))
      case None => p1
    else p1
  }

  /** A type string written by `pipelineTypeRegex` loads back to itself, with
      its types sorted and without duplicates. */
  lemma LoadedCanonical(p: Pipeline, ts: seq<string>)
    requires |ts| >= 1 && p.typ == TypeRegex(ts)
    requires forall k :: 0 <= k < |ts| ==> '|' !in ts[k] && ')' !in ts[k]
    ensures Loaded(p).typ == p.typ
    ensures Loaded(p).types == SortStrings(Distinct(ts))
  {
    var s := SortStrings(Distinct(ts));
    SortedTypesAvoid(ts, ')');
    SortedTypesAvoid(ts, '|');
    JoinAvoids(s, "|", ')');
    var j := Join(s, "|");
    assert Wraps(p.typ, j);
    assert TypeGroup(p.typ) == Some(j) by {
      var g := TypeGroup(p.typ);
      assert g.Some?;
      assert |g.value| == |j|;
      assert g.value == p.typ[2..|p.typ| - 2] == j;
    }
    SplitJoin(s, '|');
    assert |s| >= 1 by {
      assert |s| == |Distinct(ts)|;
    }
    SortedTypesElements(ts);
    TypeRegexCanonical(s, ts);
  }

  lemma SortedTypesAvoid(ts: seq<string>, c: char)
    requires forall k :: 0 <= k < |ts| ==> c !in ts[k]
    ensures forall k :: 0 <= k < |SortStrings(Distinct(ts))| ==> c !in SortStrings(Distinct(ts))[k]
  {
    var s := SortStrings(Distinct(ts));
    SortedTypesElements(ts);
    forall k | 0 <= k < |s| ensures c !in s[k] {
      assert s[k] in ts;
    }
  }

  lemma SortedTypesElements(ts: seq<string>)
    ensures forall t :: t in SortStrings(Distinct(ts)) <==> t in ts
  {
    var s := SortStrings(Distinct(ts));
    forall t ensures t in s <==> t in ts {
      calc {
        t in s;
        t in multiset(s);
        t in multiset(Distinct(ts));
        t in Distinct(ts);
      }
    }
  }

  /** Loading a loaded pipeline leaves its type string as it is. */
  lemma LoadedStable(p: Pipeline)
    ensures Loaded(Loaded(p)).typ == Loaded(p).typ
  {
    var q := Loaded(p);
    if p.typ != "" && TypeGroup(p.typ).Some? {
      var g := TypeGroup(p.typ).value;
      var ts := Split(g, '|');
      SplitAvoids(g, '|', ')');
      LoadedCanonical(q, ts);
    }
  }

  /** The post-processing loop of `loadLocalConfigs`, rewriting the loaded list in place. */
  method LoadLocalConfigs(pl: array<Pipeline>)
    modifies pl
    ensures forall i :: 0 <= i < pl.Length ==> pl[i] == Loaded(old(pl[i]))
  {
    ghost var orig := pl[..];
    for i := 0 to pl.Length
      invariant forall k :: 0 <= k < i ==> pl[k] == Loaded(orig[k])
      invariant pl[i..] == orig[i..]
    {
      assert pl[i] == orig[i];
      var q := LoadOne(pl[i]);
      pl[i] := q;
      assert pl[i + 1..] == orig[i + 1..];
    }
  }

  /** The body of that loop for one pipeline. */
  method LoadOne(p0: Pipeline) returns (p: Pipeline)
    ensures p == Loaded(p0)
  {
    p := p0.(enabled := true);
    if p.typ != "" {
      var sub := TypeGroup(p.typ);
      if sub.Some? {
        p := p.(types := Split(sub.value, '|'));
        p := p.(typ := TypeRegex(p.types));
      }
    }
  }

  // ----- API form -----

  /** `ApiPipeline.Pipeline`: always enabled, types rendered into `typ`, `types` left empty. */
  function ToPipeline(a: ApiPipeline): (p: Pipeline)
    ensures p.enabled && p.types == [] && p.handlerId == 0
    ensures p.schema == a.schema && p.table == a.table && p.stream == a.stream
    ensures p.condition == a.condition
    ensures p.typ == TypeRegex(a.eventTypes)
  {
    Pipeline(0, a.schema, a.table, a.stream, TypeRegex(a.eventTypes), [], true, a.condition)
  }

  /** The listing form used by `copyApiPipelines`: event types are read from `types`. */
  function ToApi(p: Pipeline): (a: ApiPipeline)
    ensures a.eventTypes == p.types
    ensures a.schema == p.schema && a.table == p.table && a.stream == p.stream && a.condition == p.condition
  {
    ApiPipeline(p.schema, p.table, p.types, p.stream, p.condition)
  }

  /** A pipeline created through the API is listed with no event types, whatever it was given. */
  lemma ApiRoundTripLosesTypes(a: ApiPipeline)
    ensures ToApi(ToPipeline(a)) == a.(eventTypes := [])
  {
  }

  // ----- trimming -----

  function TrimAll(cs: seq<string>): (r: seq<string>)
    ensures |r| == |cs|
    ensures forall i :: 0 <= i < |cs| ==> r[i] == TrimSpace(cs[i])
  {
    seq(|cs|, i requires 0 <= i < |cs| => TrimSpace(cs[i]))
  }

  /** No white space around the schema, table, type, stream or any column. */
  predicate IsTrimmed(p: Pipeline) {
    && NoOuterSpace(p.schema) && NoOuterSpace(p.table)
    && NoOuterSpace(p.typ) && NoOuterSpace(p.stream)
    && forall c :: c in p.condition.columnChanged ==> NoOuterSpace(c)
  }

  /** The trimming `AddPipeline` applies: trimmed fields, nothing else changed. */
  function Trimmed(p: Pipeline): (q: Pipeline)
    ensures IsTrimmed(q)
    ensures q.handlerId == p.handlerId && q.types == p.types && q.enabled == p.enabled
    ensures q.schema == TrimSpace(p.schema) && q.table == TrimSpace(p.table)
    ensures q.typ == TrimSpace(p.typ) && q.stream == TrimSpace(p.stream)
    ensures |q.condition.columnChanged| == |p.condition.columnChanged|
    ensures forall k :: 0 <= k < |q.condition.columnChanged| ==>
      q.condition.columnChanged[k] == TrimSpace(p.condition.columnChanged[k])
    ensures IsTrimmed(p) ==> q == p
  {
    var cs := TrimAll(p.condition.columnChanged);
    assert IsTrimmed(p) ==> cs == p.condition.columnChanged;
    p.(schema := TrimSpace(p.schema), table := TrimSpace(p.table),
       typ := TrimSpace(p.typ), stream := TrimSpace(p.stream),
       condition := Condition(cs))
  }

  /** A stream of white space only survives the emptiness check and trims to "". */
  lemma BlankStreamTrimsToEmpty(p: Pipeline)
    requires AllSpace(p.stream)
    ensures Trimmed(p).stream == ""
  {
    var r := TrimSpace(p.stream);
    var i :| SurroundedBySpace(p.stream, r, i);
  }

  // ----- samePipeline -----

  /** The four fields `samePipeline` compares before the condition. */
  predicate SameFields(a: Pipeline, b: Pipeline) {
    a.schema == b.schema && a.table == b.table && a.typ == b.typ && a.stream == b.stream
  }

  /** What `samePipeline` decides: the four fields equal and the columns equal as multisets. */
  predicate Equivalent(a: Pipeline, b: Pipeline) {
    SameFields(a, b) && SameColumns(a.condition, b.condition)
  }

  /** The comparison reaches `sameCondition` and sorts both column lists. */
  predicate Touches(a: Pipeline, b: Pipeline) {
    SameFields(a, b) && |a.condition.columnChanged| == |b.condition.columnChanged|
  }

  function Sorted(p: Pipeline): (q: Pipeline)
    ensures q.(condition := p.condition) == p
    ensures SameColumns(q.condition, p.condition)
  {
    p.(condition := SortedCondition(p.condition))
  }

  /** Sorting once more changes nothing. */
  lemma SortedTwice(p: Pipeline)
    ensures Sorted(Sorted(p)) == Sorted(p)
  {
    SortedConditionCanonical(p.condition, p.condition);
  }

  /** `samePipeline`, with the column lists as the call leaves them. */
  method SamePipeline(a: Pipeline, b: Pipeline) returns (same: bool, a': Pipeline, b': Pipeline)
    ensures same <==> Equivalent(a, b)
    ensures a' == (if Touches(a, b) then Sorted(a) else a)
    ensures b' == (if Touches(a, b) then Sorted(b) else b)
  {
    a', b' := a, b;
    if a.schema == b.schema && a.table == b.table && a.typ == b.typ && a.stream == b.stream {
      var ca, cb;
      same, ca, cb := SameCondition(a.condition, b.condition);
      a', b' := a.(condition := ca), b.(condition := cb);
    } else {
      same := false;
    }
  }

  /** Equivalence is an equivalence relation, blind to handler id, types,
      enabled flag and column order. */
  lemma EquivalentIsEquivalence(a: Pipeline, b: Pipeline, c: Pipeline)
    ensures Equivalent(a, a)
    ensures Equivalent(a, b) ==> Equivalent(b, a)
    ensures Equivalent(a, b) && Equivalent(b, c) ==> Equivalent(a, c)
    ensures Equivalent(a, b) ==> Equivalent(Sorted(a).(handlerId := c.handlerId, types := c.types, enabled := c.enabled), b)
  {
  }
}
