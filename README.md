# event-pump core in Dafny

event-pump reads a MySQL binlog and turns row changes into `DataChangeEvent`s.
It hands each one to the event handlers registered by *pipelines*. A pipeline
names a schema pattern, a table pattern, an optional event-type pattern, an
event-bus stream and an optional "columns changed" condition. Its handler maps
the event into per-row `StreamEvent`s and filters them. It then publishes the
admitted ones on the stream.

This project models the Go backend of that system:

- `events.dfy` covers `pump/event.go`:
  - pairing update rows into before/after records, and one record per written or deleted row;
  - the missing-metadata error;
  - the handler list, run in order up to the first error;
  - the binlog position rule.
  The `Pump` class holds the handler list, the current log file name and the recorded positions.
- `mapping.dfy` and `filters.dfy` cover `pump/mapping.go` and `pump/filter.go`.
- `conditions.dfy` and `pipeline.dfy` cover the `Condition` and `Pipeline` records of the
  two `config.go` files and the pure parts of `internal/pump/server.go`:
  - `sameCondition`, `samePipeline`, `pipelineTypeRegex` and `ApiPipeline.Pipeline`;
  - the type-string post-processing of `loadLocalConfigs`.
- `registry.dfy` covers the pipeline registry of `internal/pump/server.go`:
  - spec functions `Add`/`Remove` on a `RegistryState` and the lemmas about them;
  - the `Registry` class, whose `pipelines` map, handler id set and next id the methods update.
- `handler.dfy` covers the per-pipeline event handler, with per-stream deduplication in
  `internal/pump/server.go` and without it in `pump/server.go`.
- `web.dfy` and `legacy.dfy` cover the HTTP guards of `internal/pump/web.go` and `pump/server.go`.
- `wrappers.dfy`, `seqs.dfy`, `sorting.dfy` and `strings.dfy` hold Go library behaviour the
  core relies on:
  - `strings.TrimSpace`, `Join` and `Split`;
  - Go's byte-wise string order;
  - `sort.Strings`/`slices.Sort`/`sort.Slice`, by what they guarantee;
  - `Distinct` and slice removal.

`sameCondition` sorts the two column slices in place. One of them is shared
with a stored pipeline, so an `AddPipeline` or `RemovePipeline` scan leaves
some stored column lists sorted. The model writes those sorted lists back. So
"the registry is unchanged" is stated as `SameState`: equal except for the
order of condition columns.

The things the code talks to are parameters:

- regular-expression matching is `matches(pattern, text)`;
- `fmt` `%v` rendering of a row value is `show`;
- the Go map's iteration order is `order`;
- HA mode is `haMode`;
- publishing to RabbitMQ appends a `Publication` to the handler's output.

## Model

| member | source | states |
|---|---|---|
| Conditions.SortedConditionCanonical | internal/pump/server.go:196-197 | sorting the columns is idempotent and ascending; two sorted lists are equal iff the columns are equal as multisets |
| Conditions.SameCondition | internal/pump/server.go:191-204 | true iff the columns are equal as multisets; on a length mismatch both lists are untouched, otherwise both come back sorted; pump/server.go:65-78 is the same code |
| Conditions.EqualColumns | internal/pump/server.go:198-203 | the comparison loop returns true iff the two lists are equal |
| Pipelines.SamePipeline | internal/pump/server.go:183-189 | true iff schema, table, type and stream are equal and the columns are equal as multisets; handler id, types and enabled are ignored; the column lists come back sorted exactly when `sameCondition` is reached with equal lengths; pump/server.go:57-63 is the same code |
| Pipelines.EquivalentIsEquivalence | internal/pump/server.go:183-204 | the equivalence is reflexive, symmetric and transitive, and it is blind to column order, handler id, types and enabled |
| Pipelines.TypeRegexCanonical | internal/pump/server.go:225-232 | the regex is "" exactly for an empty list; lists with the same elements, in any order and with any repetition, give the same regex |
| Pipelines.TypeGroup | internal/pump/server.go:120-123 | yields the group of a string of the form `^(g)$`, and nothing for a string not of that form |
| Pipelines.Loaded | internal/pump/server.go:118-128 | a loaded pipeline is enabled; only type and types may change, and they do not change when the type is empty or not of the form `^(g)$` |
| Pipelines.LoadedCanonical | internal/pump/server.go:120-126 | a type rendered by `pipelineTypeRegex` re-renders to itself, and `Types` becomes the sorted, duplicate-free list of the original types |
| Pipelines.LoadedStable | internal/pump/server.go:117-129 | loading a loaded pipeline again does not change its type |
| Pipelines.LoadLocalConfigs | internal/pump/server.go:117-129 | rewrites every element of the array to its loaded form |
| Pipelines.LoadOne | internal/pump/server.go:119-128 | the loop body produces the loaded form of one pipeline |
| Pipelines.ToPipeline | internal/pump/server.go:214-223 | the conversion keeps schema, table, stream and condition, renders the types into `typ`, leaves `types` empty and is always enabled |
| Pipelines.ToApi | internal/pump/server.go:250-258 | the listing form takes its event types from `types` and keeps schema, table, stream and condition |
| Pipelines.ApiRoundTripLosesTypes | internal/pump/server.go:218 | converting a request and listing it gives the request back with empty event types |
| Pipelines.Trimmed | internal/pump/server.go:304-310 | the result has no white space around schema, table, type, stream or any column: each of those strings and each column is replaced by its `TrimSpace`; handler id, types, enabled and the column count are kept; a trimmed pipeline is its own trimming |
| Pipelines.BlankStreamTrimsToEmpty | internal/pump/server.go:301-307 | a stream of only white space passes the emptiness check and becomes "" after trimming |
| Registry.FirstEquivalent | internal/pump/server.go:315-323 | the index of the first equivalent pipeline of the bucket, and none iff no pipeline there is equivalent |
| Registry.ScanBucket | internal/pump/server.go:315-323 | the scan finds the first equivalent entry; the bucket and probe come back with exactly the compared column lists sorted |
| Registry.SortTouchedSame | internal/pump/server.go:183-204 | the scan changes the bucket and the probe only in column order |
| Registry.Add | internal/pump/server.go:298-303 | an error exactly for an enabled pipeline whose untrimmed stream is empty; a disabled pipeline or an empty stream leaves the registry as it was |
| Registry.AddStores | internal/pump/server.go:304-323 | an accepted pipeline is trimmed and keyed `schema.table`; with an equivalent one in the bucket nothing changes; otherwise exactly one entry is appended to that bucket with a fresh handler id, the id is registered and no other key changes; pump/server.go:123-142 runs the same code |
| Registry.InsertDuplicate | internal/pump/server.go:317-322 | with an equivalent pipeline in the bucket the registry stays the same up to column order |
| Registry.InsertAppends | internal/pump/server.go:398-399 | without one, the bucket grows by one entry, equal to the pipeline with the next handler id, and the id counter advances |
| Registry.AddTwice | internal/pump/server.go:297-404 | adding a pipeline twice gives the same result and registry as adding it once |
| Registry.RemoveTakesFirst | internal/pump/server.go:279-295 | removal takes out exactly the first equivalent entry of the key and its handler id; with no match the registry is unchanged up to column order; pump/server.go:99-114 is the same code |
| Registry.RemoveUntrimmed | internal/pump/server.go:279-286 | removal does not trim: a stream with white space at either end matches nothing in a well-formed registry |
| Registry.AddWellFormed | internal/pump/server.go:297-404 | adding keeps every stored pipeline enabled, trimmed and under its own key, and keeps handler ids unique and registered |
| Registry.RemoveWellFormed | internal/pump/server.go:279-295 | removing keeps the same invariant |
| Registry.AddThenRemove | internal/pump/server.go:279-404 | removing a pipeline just added restores every bucket up to column order and the handler id set; only the id counter has advanced |
| Registry.FreshId | internal/pump/server.go:341 | in a well-formed registry the next handler id is not in use |
| Registry.FlattenMembers | internal/pump/server.go:238-241 | the concatenated buckets hold exactly the stored pipelines |
| Registry.FlattenOrderIrrelevant | internal/pump/server.go:238-241 | the map's iteration order changes the concatenation only by a permutation |
| Registry.MapToApiMultiset | internal/pump/server.go:250-258 | converting permuted lists gives permuted lists |
| Registry.ListingOrderIrrelevant | internal/pump/server.go:245-277 | the listing, as a multiset, does not depend on the map's iteration order |
| Registry.ApiLeLexicographic | internal/pump/server.go:262-275 | the `sort.Slice` less function orders by schema, then by table; its repeated schema test never decides |
| Registry.ApiLeTotalPreorder | internal/pump/server.go:262-275 | that order is total and transitive, as `sort.Slice` requires |
| Registry.ApiSorted | internal/pump/server.go:262-275 | in a sorted listing schemas ascend, and tables ascend within a schema |
| Registry.Registry.constructor | internal/pump/server.go:297-399 | a new registry is empty, with handler ids starting at 1 |
| Registry.Registry.AddPipeline | internal/pump/server.go:297-404 | the method's new state and result are those of `Add` |
| Registry.Registry.Store | internal/pump/server.go:312-399 | the part under the lock performs `Insert` |
| Registry.TrimColumns | internal/pump/server.go:308-310 | the trimming loop trims every column |
| Registry.Registry.RemovePipeline | internal/pump/server.go:279-295 | the method's new state is that of `Remove` |
| Registry.Registry.CopyPipelines | internal/pump/server.go:234-243 | returns the buckets concatenated in the iteration order: every stored pipeline and nothing else |
| Registry.Registry.CopyApiPipelines | internal/pump/server.go:245-277 | returns every stored pipeline in API form, as a multiset, sorted by schema and then table |
| Handlers.HandleDecision | internal/pump/server.go:341-396 | the handler publishes nothing unless schema, table and (when set) type match and its stream is not yet dispatched; then it publishes on its own stream exactly `Admitted` of the mapped events, in their order and with duplicates, and the stream becomes dispatched exactly when something was published |
| Handlers.HandleAllStreams | internal/pump/server.go:365-388 | of the handlers run on one event, none publishes on an already dispatched stream, and no two that publish share a stream |
| Handlers.HandleAllDispatched | internal/pump/server.go:365-388 | after all handlers ran, the dispatched streams are those before plus each stream published on |
| Handlers.AdmittedMembers | internal/pump/server.go:375-394 | an event is admitted exactly when it is among the input events and some filter includes it |
| Handlers.AdmittedCounts | internal/pump/server.go:375-394 | duplicates are kept: an included event occurs in the result as often as in the input, an excluded one never |
| Handlers.AdmittedAppend | internal/pump/server.go:375-394 | order is kept: filtering a concatenation is the concatenation of the filtered parts |
| Handlers.AdmittedOne | internal/pump/server.go:375-394 | a single event is kept exactly when some filter includes it (with `AdmittedAppend`, this fixes the whole filter) |
| Handlers.HandleEvent | internal/pump/server.go:341-396 | the handler closure publishes and marks streams as `Handle` says, and never returns an error |
| Handlers.DispatchEvents | internal/pump/server.go:375-394 | the publishing loop publishes the admitted events in order and marks the stream iff it published |
| Handlers.LegacyHandle | pump/server.go:160-202 | the older handler publishes nothing unless the three patterns match, and then exactly `Admitted` of the mapped events, in order, on its own stream |
| Handlers.LegacyAgrees | pump/server.go:160-202 | both handlers publish the same while the stream is not dispatched; the newer one publishes nothing once it is |
| Handlers.LegacyHandleEvent | pump/server.go:160-202 | the older closure publishes what `LegacyHandle` says and never returns an error |
| Handlers.PublishEvents | pump/server.go:183-199 | the older publishing loop publishes the admitted events in order |
| Handlers.MapWith | pump/mapping.go:31-69 | mapping never fails and yields the chosen mapper's events |
| Mapping.NewMapper | pump/mapping.go:71-80 | "raw" selects the raw mapper; every other name, "stream" included, selects the stream mapper |
| Mapping.Cell | pump/mapping.go:36-44 | a value beyond the row's length renders as "" |
| Mapping.MapEvent | pump/mapping.go:31-69 | the raw mapper yields exactly the event; the stream mapper yields one stream event per record, in record order |
| Mapping.StreamEventFields | pump/mapping.go:39-57 | each stream event carries the event's timestamp, schema, table and type, and a missing before (after) row gives empty before (after) texts |
| Mapping.ColumnMapKeys | pump/mapping.go:34-50 | the column map's keys are exactly the column names |
| Mapping.ColumnMapLastWins | pump/mapping.go:45-49 | a name maps to the entry of the last column carrying it, with that column's data type |
| Mapping.ColumnMapEntries | pump/mapping.go:45-49 | every entry is the entry of some column with that name |
| Mapping.BuildColumns | pump/mapping.go:34-50 | the inner loop builds that column map |
| Mapping.StreamMapEvent | pump/mapping.go:31-62 | the stream mapper's loop yields the stream mapping and no error |
| Mapping.RawMapEvent | pump/mapping.go:67-69 | the raw mapper yields the one-element list of the event and no error |
| Filters.Include | pump/filter.go:12-42 | the no-op filter includes everything; a column filter includes non-stream values and non-update stream events, and an update exactly when some listed column is present with differing before and after |
| Filters.AnyChanged | pump/filter.go:27-35 | the column loop finds a change iff some listed column changed |
| Filters.NewFilters | pump/filter.go:44-50 | one filter: no-op when no column is listed, otherwise a column filter over the same names without duplicates |
| Filters.NewFiltersAdmit | pump/filter.go:44-50 | the filters of a pipeline admit everything when it lists no column, and otherwise everything except update stream events that change none of the listed columns |
| Filters.AnyMatch | internal/pump/server.go:376-382 | the `anyMatch` loop is true iff some filter includes the event |
| Events.NewDataChangeEvent | pump/event.go:112-124 | copies timestamp, schema, table and columns and starts with no records |
| Events.GetColName | pump/event.go:82-87 | the column's name, or "" beyond the columns |
| Events.RowItems | pump/event.go:89-93 | one `name:value` item per value, in order |
| Events.RowToStr | pump/event.go:89-95 | the text starts with "{ " and ends with " }"; an empty row gives "{  }" and a one-value row a single item |
| Events.PrintRecord | pump/event.go:76-80 | the text starts with "{ before: { " and ends with " } }" |
| Events.UpdateRecords | pump/event.go:152-164 | row 2k is the before and row 2k+1 the after of record k; there are len(rows)/2 records, so a trailing unpaired row is dropped |
| Events.InsertRecords | pump/event.go:179-186 | one record per row, in order, with the row as after and no before |
| Events.DeleteRecords | pump/event.go:200-207 | one record per row, in order, with the row as before and no after |
| Events.BuildUpdateRecords | pump/event.go:152-164 | the pairing loop yields `UpdateRecords` |
| Events.BuildInsertRecords | pump/event.go:182-186 | the loop yields `InsertRecords` |
| Events.BuildDeleteRecords | pump/event.go:203-207 | the loop yields `DeleteRecords` |
| Events.Decode | pump/event.go:141-213 | a rows event of a rows type with no column names is the missing-metadata case; any other event type or body is not a change |
| Events.DecodedEvent | pump/event.go:143-213 | a decoded change carries the header and table data, the type code of its kind and its records: for updates the (before, after) pairs of consecutive rows, for inserts and deletes one record per row |
| Events.CallHandlers | pump/event.go:103-110 | no error iff every handler succeeds; otherwise the error of the first failing handler |
| Events.CallHandlersFirstError | pump/event.go:103-110 | the result is the error of the first handler that fails |
| Events.Truncate32 | pump/event.go:228 | the conversion to uint32 keeps values that fit |
| Events.NextPosition | pump/event.go:220-232 | a format description records nothing; a rotation moves to the next file at its position; any other event records the header's position in the current file |
| Events.Step | pump/event.go:138-236 | an event whose table map has no column metadata gives the metadata error and no change; a non-row event gives no error; a row event gives the first handler error; an error leaves the state as it was; otherwise the file name and the recorded positions advance as `NextPosition` says; the handlers never change |
| Events.RunWithoutError | pump/event.go:129-236 | after an error-free run the file name is that of the last rotation, and exactly one position per positioned event has been appended to those already recorded: the positions `Positions` computes by walking the events with `NextPosition` |
| Events.Pump.OnEventReceived | pump/event.go:99-101 | appends the handler and changes nothing else |
| Events.Pump.CallEventHandlers | pump/event.go:103-110 | the loop returns `CallHandlers` |
| Events.Pump.ProcessEvent | pump/event.go:138-236 | one pass of the loop performs `Step` |
| Events.Pump.PumpEvents | pump/event.go:126-236 | the loop over the events performs `Run` |
| Web.Create | internal/pump/web.go:7-13 | HA mode gives the error and no change; otherwise an error exactly for an empty stream, because the converted pipeline is always enabled; a non-empty stream inserts the trimmed converted pipeline |
| Web.RemoveApi | internal/pump/web.go:17-24 | HA mode gives the error and no change; otherwise no error, matched or not, and the state is `Remove` of the converted pipeline |
| Web.CreatedListsWithoutTypes | internal/pump/web.go:7-13 | a pipeline created through the API is listed with empty event types |
| Web.ApiCreatePipeline | internal/pump/web.go:7-13 | the endpoint performs `Create` |
| Web.ApiRemovePipeline | internal/pump/web.go:17-24 | the endpoint performs `RemoveApi` |
| Web.ApiListPipelines | internal/pump/web.go:28-34 | HA mode gives no data and the error; otherwise every stored pipeline in API form, sorted by schema and table |
| LegacyServer.Create | pump/server.go:82-87 | HA mode gives the error and no change; otherwise a disabled pipeline changes nothing, an empty stream is an error and anything else inserts the trimmed pipeline |
| LegacyServer.RemoveApi | pump/server.go:91-97 | HA mode gives the error and no change; otherwise no error and the state is `Remove` of the pipeline |
| LegacyServer.ApiCreatePipeline | pump/server.go:82-87 | the endpoint performs `Create` |
| LegacyServer.ApiRemovePipeline | pump/server.go:91-97 | the endpoint performs `RemoveApi` |

## Left out

- The Angular dashboard under `front/` is not modelled: it is UI.
- File I/O and JSON in `loadLocalConfigs`/`saveLocalConfigs` are not modelled. Only the type-string loop of `loadLocalConfigs` is.
- Concurrency is not modelled: the `pipMu`/`pmu` locks, goroutines, `WaitGroup`, leader election, bootstrap and shutdown. The registry is sequential.
- Go's `regexp` engine is the `matches` parameter. The panic of `MustCompile` on a bad pattern is not modelled.
- RabbitMQ is not modelled. `NewEventBus` is left out, and `PubEventBus` always succeeds and appends a `Publication`.
- Handler ids:
  - `OnEventReceived` of internal/pump/server.go is not part of this model. `RemoveEventHandler` is not part of it either.
  - Their effect is the registry's `handlerIds` set with ids drawn from a counter. The string `HandlerId` is a natural number, with 0 for unset.
- Redis position storage is not modelled. `updatePos` is an append to the `saved` positions and never fails. `lastPos` and the syncer/streamer set-up are left out too.
- `GetEvent` and its retry are left out. `Pump.PumpEvents` runs over a given finite list of events, and the `IsShuttingDown` exit is left out.
- `ev.Dump`, logging, `DataChangeEvent.String` and its time formatting are not modelled. They have no effect on state.
- `fmt` `%v` of a row value is the `show` parameter.
- Events.Decode: the missing-metadata error text ends before its `%+v` rendering of the rows event, which is not modelled.
- Events.RowToStr: only the bracketing, the empty row and the one-value row are stated. The general `strings.Join` of the items is `RowItems` joined with ", ".
- Events.PrintRecord: only the fixed prefix and suffix are stated. The row texts in between are those of `RowToStr`.
- `binlog/binlog.go`, `pump/event_test.go`, `main.go`, `static.go` and `metrics.go` are not part of this model. `PreServerBootstrap`, `LoadConfig` and the health and resource set-up are not part of it either.
- internal/pump/server.go calls `NewFilters`, `NewMapper` and `OnEventReceived` of its own package. Those files are not part of this model, so the handler uses the `pump/filter.go` and `pump/mapping.go` versions.
- `NewMapper()` is called with no argument in both servers, so the mapper is a parameter of the handler.
- `pump/event.go` declares `Columns` as a list of names, while `pump/mapping.go` reads `col.Name` and `col.DataType`. Columns are modelled as (name, data type) records.
- `pump/config.go`'s `Pipeline` has no `HandlerId` and no `Types`, though `pump/server.go:204` assigns a handler id. The older server uses the same `Pipeline` value with empty `types`.
- `OnEventReceived` of `pump/event.go` returns nothing, while `pump/server.go:160` uses its result. The older server is modelled as receiving an id, as the newer one does.
- Go's nil slice and empty slice are both the empty sequence. `ApiListPipelines` returns `[]` for nil.
- `AddPipeline` trims the condition's columns in the caller's own slice, which aliases the caller's pipeline. The model trims a copy.
- `sort.Slice` is not stable. `CopyApiPipelines` states only sortedness and the multiset, and its tie order is not modelled.
- The bodies of `slutil.Distinct`, `slutil.SliceRemove` and `slutil.MapTo` are not shown. They are modelled by what their names promise: first occurrences kept, one element removed, element-wise conversion.
- Strings are sequences of characters, and Go's byte order on UTF-8 is taken as character order. `TrimSpace` trims the full white-space set of Go's `unicode.IsSpace`; only the UTF-8 byte encoding is abstracted.
