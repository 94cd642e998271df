/** Conversion of a change event into the values published on a stream
    (pump/mapping.go). `%v` rendering of a row value is the `show` parameter. */
module Mapping {
  import opened Wrappers
  import opened Events

  const STRUCT_RAW := "raw"
  const STRUCT_STREAM := "stream"

  datatype StreamEventColumn = StreamEventColumn(dataType: string, before: string, after: string)

  /** One changed row, keyed by column name. */
  datatype StreamEvent = StreamEvent(
    timestamp: uint32,
    schema: string,
    table: string,
    typ: string,
    columns: map<string, StreamEventColumn>)

  /** A value a mapper emits (Go `any`); `OtherValue` stands for any other dynamic type. */
  datatype Emitted = StreamValue(se: StreamEvent) | ChangeValue(dce: DataChangeEvent) | OtherValue

  datatype Mapper = StreamMapper | RawMapper

  /** `NewMapper`: "raw" selects the raw mapper, every other name the stream mapper. */
  function NewMapper(structure: string): (m: Mapper)
    ensures m == RawMapper <==> structure == STRUCT_RAW
    ensures m == StreamMapper <==> structure != STRUCT_RAW
  {
    if structure == STRUCT_RAW then RawMapper
    else if structure == STRUCT_STREAM then StreamMapper
    else StreamMapper
  }

  /** The text of value `j` of a row, or "" when the row is shorter. */
  function Cell(row: Row, j: nat, show: Value -> string): (s: string)
    ensures j >= |row| ==> s == ""
    ensures j < |row| ==> s == show(row[j])
  {
    if j < |row| then show(row[j]) else ""
  }

  function ColumnEntry(cols: seq<Column>, r: Record, j: nat, show: Value -> string): StreamEventColumn
    requires j < |cols|
  {
    StreamEventColumn(cols[j].dataType, Cell(r.before, j, show), Cell(r.after, j, show))
  }

  /** The column map after the first `n` columns have been stored, each under its name. */
  function ColumnMap(cols: seq<Column>, r: Record, show: Value -> string, n: nat): map<string, StreamEventColumn>
    requires n <= |cols|
  {
    if n == 0 then map[]
    else ColumnMap(cols, r, show, n - 1)[cols[n - 1].name := ColumnEntry(cols, r, n - 1, show)]
  }

  /** The keys are exactly the column names. */
  lemma {:induction false} ColumnMapKeys(cols: seq<Column>, r: Record, show: Value -> string, n: nat)
    requires n <= |cols|
    ensures ColumnMap(cols, r, show, n).Keys == set j | 0 <= j < n :: cols[j].name
  {
    if n > 0 {
      ColumnMapKeys(cols, r, show, n - 1);
      assert (set j | 0 <= j < n :: cols[j].name) == (set j | 0 <= j < n - 1 :: cols[j].name) + {cols[n - 1].name};
    }
  }

  /** A name maps to the entry of the last column carrying it: later columns overwrite earlier ones. */
  lemma {:induction false} ColumnMapLastWins(cols: seq<Column>, r: Record, show: Value -> string, n: nat, j: nat)
    requires j < n <= |cols|
    requires forall k :: j < k < n ==> cols[k].name != cols[j].name
    ensures cols[j].name in ColumnMap(cols, r, show, n)
    ensures ColumnMap(cols, r, show, n)[cols[j].name] == ColumnEntry(cols, r, j, show)
  {
    if j < n - 1 {
      ColumnMapLastWins(cols, r, show, n - 1, j);
    }
  }

  /** Every entry of the map is the entry of some column under its own name. */
  lemma {:induction false} ColumnMapEntries(cols: seq<Column>, r: Record, show: Value -> string, n: nat, name: string)
    requires n <= |cols| && name in ColumnMap(cols, r, show, n)
    ensures exists j :: 0 <= j < n && cols[j].name == name && ColumnMap(cols, r, show, n)[name] == ColumnEntry(cols, r, j, show)
  {
    if cols[n - 1].name != name {
      ColumnMapEntries(cols, r, show, n - 1, name);
    }
  }

  function RecordEvent(dce: DataChangeEvent, r: Record, show: Value -> string): StreamEvent {
    StreamEvent(dce.timestamp, dce.schema, dce.table, dce.typ, ColumnMap(dce.columns, r, show, |dce.columns|))
  }

  /** `MapEvent` of both mappers; neither ever fails. */
  function MapEvent(m: Mapper, dce: DataChangeEvent, show: Value -> string): (r: seq<Emitted>)
    ensures m == RawMapper ==> r == [ChangeValue(dce)]
    ensures m == StreamMapper ==> |r| == |dce.records|
    ensures m == StreamMapper ==>
      forall i :: 0 <= i < |r| ==> r[i] == StreamValue(RecordEvent(dce, dce.records[i], show))
  {
    match m
    case RawMapper => [ChangeValue(dce)]
    case StreamMapper =>
      seq(|dce.records|, i requires 0 <= i < |dce.records| => StreamValue(RecordEvent(dce, dce.records[i], show)))
  }

  /** Every stream event carries the event's header fields, and an insert has empty before texts. */
  lemma StreamEventFields(dce: DataChangeEvent, show: Value -> string, i: nat, name: string)
    requires i < |dce.records|
    ensures var e := MapEvent(StreamMapper, dce, show)[i].se;
      && e.timestamp == dce.timestamp && e.schema == dce.schema
      && e.table == dce.table && e.typ == dce.typ
      && (name in e.columns && dce.records[i].before == [] ==> e.columns[name].before == "")
      && (name in e.columns && dce.records[i].after == [] ==> e.columns[name].after == "")
  {
    var e := MapEvent(StreamMapper, dce, show)[i].se;
    if name in e.columns {
      ColumnMapEntries(dce.columns, dce.records[i], show, |dce.columns|, name);
    }
  }

  /** The inner loop of the stream mapper: one map entry per column. */
  method BuildColumns(cols: seq<Column>, r: Record, show: Value -> string) returns (columns: map<string, StreamEventColumn>)
    ensures columns == ColumnMap(cols, r, show, |cols|)
  {
    columns := map[];
    for j := 0 to |cols|
      invariant columns == ColumnMap(cols, r, show, j)
    {
      var before := "";
      var after := "";
      if j < |r.before| {
        before := show(r.before[j]);
      }
      if j < |r.after| {
        after := show(r.after[j]);
      }
      columns := columns[cols[j].name := StreamEventColumn(cols[j].dataType, before, after)];
    }
  }

  /** `streamEventMapper.MapEvent`: one stream event per record, in record order. */
  method StreamMapEvent(dce: DataChangeEvent, show: Value -> string) returns (mapped: seq<Emitted>, err: Option<string>)
    ensures err == None
    ensures mapped == MapEvent(StreamMapper, dce, show)
  {
    mapped := [];
    for i := 0 to |dce.records|
      invariant |mapped| == i
      invariant forall k :: 0 <= k < i ==> mapped[k] == StreamValue(RecordEvent(dce, dce.records[k], show))
    {
      var columns := BuildColumns(dce.columns, dce.records[i], show);
      mapped := mapped + [StreamValue(StreamEvent(dce.timestamp, dce.schema, dce.table, dce.typ, columns))];
    }
    err := None;
  }

  /** `rawEventMapper.MapEvent`: the event itself, alone. */
  function RawMapEvent(dce: DataChangeEvent): (r: (seq<Emitted>, Option<string>))
    ensures r.1 == None && |r.0| == 1 && r.0[0].ChangeValue? && r.0[0].dce == dce
    ensures r.0 == MapEvent(RawMapper, dce, _ => "")
  {
    ([ChangeValue(dce)], None)
  }
}
