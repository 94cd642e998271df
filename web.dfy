/** The HTTP endpoints of internal/pump/web.go: each refuses to work in HA
    mode and otherwise delegates to the registry. Whether HA mode is on is
    the `haMode` parameter; `order` is the map's iteration order. */
module Web {
  import opened Wrappers
  import opened Sorting
  import opened Pipelines
  import opened Registry

  const HA_ERROR := "Not supported for HA mode"

  /** `ApiCreatePipeline`: the request is converted first, then the HA guard applies. */
  function Create(st: RegistryState, haMode: bool, a: ApiPipeline): (r: (RegistryState, Option<string>))
    ensures haMode ==> r == (st, Some(HA_ERROR))
    ensures !haMode ==> (r.1 == None <==> a.stream != "")
    ensures !haMode && a.stream == "" ==> r == (st, Some(EMPTY_STREAM_ERROR))
    ensures !haMode && a.stream != "" ==> r.0 == Insert(st, Trimmed(ToPipeline(a)))
  {
    var p := ToPipeline(a);
    if haMode then (st, Some(HA_ERROR)) else Add(st, p)
  }

  /** `ApiRemovePipeline`: outside HA mode it always succeeds, matched or not. */
  function RemoveApi(st: RegistryState, haMode: bool, a: ApiPipeline): (r: (RegistryState, Option<string>))
    ensures haMode ==> r == (st, Some(HA_ERROR))
    ensures !haMode ==> r == (Remove(st, ToPipeline(a)), None)
  {
    var p := ToPipeline(a);
    if haMode then (st, Some(HA_ERROR)) else (Remove(st, p), None)
  }

  /** A pipeline created through the API is stored with no event types, so the
      listing shows it with empty `eventTypes` whatever types were requested. */
  lemma CreatedListsWithoutTypes(st: RegistryState, a: ApiPipeline)
    requires a.stream != ""
    requires var q := Trimmed(ToPipeline(a)); var b := Bucket(st, Key(q));
      forall j :: 0 <= j < |b| ==> !Equivalent(b[j], q)
    ensures var q := Trimmed(ToPipeline(a)); var key := Key(q); var st' := Create(st, false, a).0;
      && key in st'.pipelines
      && |st'.pipelines[key]| == |Bucket(st, key)| + 1
      && var e := ToApi(st'.pipelines[key][|Bucket(st, key)|]);
         e.eventTypes == [] && e.schema == q.schema && e.table == q.table && e.stream == q.stream
  {
    var p := ToPipeline(a);
    AddStores(st, p);
  }

  /** `ApiCreatePipeline`. */
  method ApiCreatePipeline(reg: Registry, haMode: bool, a: ApiPipeline) returns (err: Option<string>)
    modifies reg
    ensures (reg.State(), err) == Create(old(reg.State()), haMode, a)
  {
    var p := ToPipeline(a);
    if haMode {
      return Some(HA_ERROR);
    }
    err := reg.AddPipeline(p);
  }

  /** `ApiRemovePipeline`. */
  method ApiRemovePipeline(reg: Registry, haMode: bool, a: ApiPipeline) returns (err: Option<string>)
    modifies reg
    ensures (reg.State(), err) == RemoveApi(old(reg.State()), haMode, a)
  {
    var p := ToPipeline(a);
    if haMode {
      return Some(HA_ERROR);
    }
    reg.RemovePipeline(p);
    return None;
  }

  /** `ApiListPipelines`: no data and an error in HA mode; otherwise every
      stored pipeline in API form, ordered by schema and then table. */
  method ApiListPipelines(reg: Registry, haMode: bool, order: seq<string>) returns (list: seq<ApiPipeline>, err: Option<string>)
    requires ListsKeys(order, reg.pipelines)
    ensures haMode ==> list == [] && err == Some(HA_ERROR)
    ensures !haMode ==> err == None && SortedBy(ApiLe, list)
    ensures !haMode ==> multiset(list) == multiset(MapToApi(Flatten(reg.pipelines, order)))
  {
    if haMode {
      return [], Some(HA_ERROR);
    }
    list := reg.CopyApiPipelines(order);
    err := None;
  }
}
