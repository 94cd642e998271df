/** The older server of pump/server.go. Its `samePipeline`, `sameCondition`,
    `AddPipeline` and `RemovePipeline` are written exactly as in
    internal/pump/server.go (apart from the handler, which is
    `Handlers.LegacyHandle`), so they are the `Conditions`, `Pipelines` and
    `Registry` members; its pipelines carry no event-type list, so their
    `types` are always empty. Only the HTTP guards differ: they check HA mode
    before anything else and take the pipeline as it is. */
module LegacyServer {
  import opened Wrappers
  import opened Pipelines
  import opened Registry

  const HA_ERROR := "Not supported for HA mode"

  /** `ApiCreatePipeline` of pump/server.go. */
  function Create(st: RegistryState, haMode: bool, p: Pipeline): (r: (RegistryState, Option<string>))
    ensures haMode ==> r == (st, Some(HA_ERROR))
    ensures !haMode && !p.enabled ==> r == (st, None)
    ensures !haMode && p.enabled ==> (r.1 == None <==> p.stream != "")
    ensures !haMode && p.enabled && p.stream != "" ==> r.0 == Insert(st, Trimmed(p))
  {
    if haMode then (st, Some(HA_ERROR)) else Add(st, p)
  }

  /** `ApiRemovePipeline` of pump/server.go. */
  function RemoveApi(st: RegistryState, haMode: bool, p: Pipeline): (r: (RegistryState, Option<string>))
    ensures haMode ==> r == (st, Some(HA_ERROR))
    ensures !haMode ==> r == (Remove(st, p), None)
  {
    if haMode then (st, Some(HA_ERROR)) else (Remove(st, p), None)
  }

  /** `ApiCreatePipeline` of pump/server.go. */
  method ApiCreatePipeline(reg: Registry, haMode: bool, p: Pipeline) returns (err: Option<string>)
    modifies reg
    ensures (reg.State(), err) == Create(old(reg.State()), haMode, p)
  {
    if haMode {
      return Some(HA_ERROR);
    }
    err := reg.AddPipeline(p);
  }

  /** `ApiRemovePipeline` of pump/server.go. */
  method ApiRemovePipeline(reg: Registry, haMode: bool, p: Pipeline) returns (err: Option<string>)
    modifies reg
    ensures (reg.State(), err) == RemoveApi(old(reg.State()), haMode, p)
  {
    if haMode {
      return Some(HA_ERROR);
    }
    reg.RemovePipeline(p);
    return None;
  }
}
