/** Binlog row decoding, handler dispatch and binlog position tracking of the
    pump (pump/event.go). The binlog stream is a finite sequence of abstract
    events; handlers are functions from a change event to an optional error;
    persisting a position (to Redis in the source) appends it to `saved`. */
module Events {
  import opened Wrappers
  import opened Strings

  type uint32 = x: int | 0 <= x < 0x1_0000_0000
  type uint64 = x: int | 0 <= x < 0x1_0000_0000_0000_0000

  const TYPE_INSERT := "INS"
  const TYPE_UPDATE := "UPD"
  const TYPE_DELETE := "DEL"

  const MISSING_METADATA_ERROR := "binlog doesn't provide FULL metadata, unable to parse it"

  /** A decoded column value (Go `interface{}`). Only its `%v` text is ever
      used, through a `show` parameter. */
  datatype Value = Null | Integer(n: int) | Decimal(d: real) | Text(s: string) | Bytes(b: seq<bv8>)

  type Row = seq<Value>

  /** A row change; a nil slice (no before image, or no after image) is `[]`. */
  datatype Record = Record(before: Row, after: Row)

  /** A column with the metadata the table map carries. */
  datatype Column = Column(name: string, dataType: string)

  datatype DataChangeEvent = DataChangeEvent(
    timestamp: uint32,
    schema: string,
    table: string,
    typ: string,
    records: seq<Record>,
    columns: seq<Column>)

  // ----- the binlog events the pump reads -----

  /** Header event types; the v0, v1 and v2 variants of each rows event are one case here. */
  datatype EventType = UpdateRowsEvent | WriteRowsEvent | DeleteRowsEvent | OtherEventType

  /** The table a rows event refers to; `columns` is empty unless the server
      logs full row metadata (`binlog_row_metadata=FULL`). */
  datatype TableMap = TableMap(schema: string, table: string, columns: seq<Column>)

  datatype EventBody =
    | RowsEvent(tableMap: TableMap, rows: seq<Row>)
    | FormatDescriptionEvent
    | RotateEvent(position: uint64, nextLogName: string)
    | OtherEvent

  datatype EventHeader = EventHeader(timestamp: uint32, eventType: EventType, logPos: uint32)

  datatype BinlogEvent = BinlogEvent(header: EventHeader, body: EventBody)

  datatype Position = Position(name: string, pos: uint32)

  // ----- change events and their text form -----

  /** `newDataChangeEvent`: header and table data copied, no records, no type yet. */
  function NewDataChangeEvent(header: EventHeader, tableMap: TableMap): (d: DataChangeEvent)
    ensures d.timestamp == header.timestamp
    ensures d.schema == tableMap.schema && d.table == tableMap.table
    ensures d.columns == tableMap.columns
    ensures d.records == [] && d.typ == ""
  {
    DataChangeEvent(header.timestamp, tableMap.schema, tableMap.table, "", [], tableMap.columns)
  }

  /** `getColName`: the name of column `j`, or "" past the known columns. */
  function GetColName(d: DataChangeEvent, j: nat): (name: string)
    ensures j < |d.columns| ==> name == d.columns[j].name
    ensures j >= |d.columns| ==> name == ""
  {
    if j < |d.columns| then d.columns[j].name else ""
  }

  function RowItems(d: DataChangeEvent, row: Row, show: Value -> string): (items: seq<string>)
    ensures |items| == |row|
    ensures forall i :: 0 <= i < |row| ==> items[i] == GetColName(d, i) + ":" + show(row[i])
  {
    seq(|row|, i requires 0 <= i < |row| => GetColName(d, i) + ":" + show(row[i]))
  }

  /** `rowToStr`: "{ name:value, ... }". */
  function RowToStr(d: DataChangeEvent, row: Row, show: Value -> string): (s: string)
    ensures |s| >= 4 && s[..2] == "{ " && s[|s| - 2..] == " }"
    ensures row == [] ==> s == "{  }"
    ensures |row| == 1 ==> s == "{ " + GetColName(d, 0) + ":" + show(row[0]) + " }"
  {
    var items := RowItems(d, row, show);
    var s := "{ " + Join(items, ", ") + " }";
    assert s[..2] == "{ ";
    assert s[|s| - 2..] == " }";
    s
  }

  /** `PrintRecord`: "{ before: <row>, after: <row> }". */
  function PrintRecord(d: DataChangeEvent, r: Record, show: Value -> string): (s: string)
    ensures |s| >= 12 && s[..12] == "{ before: { " && s[|s| - 4..] == " } }"
  {
    var bef := RowToStr(d, r.before, show);
    var aft := RowToStr(d, r.after, show);
    var s := "{ before: " + bef + ", after: " + aft + " }";
    assert s[..12] == "{ before: " + bef[..2];
    assert s[|s| - 4..] == aft[|aft| - 2..] + " }";
    s
  }

  // ----- rows to records -----

  /** UPDATE rows alternate before and after images; a trailing unpaired row is dropped. */
  function UpdateRecords(rows: seq<Row>): (r: seq<Record>)
    ensures |r| == |rows| / 2
    ensures forall k :: 0 <= k < |r| ==> r[k] == Record(rows[2 * k], rows[2 * k + 1])
  {
    if |rows| < 2 then []
    else
      var rest := UpdateRecords(rows[2..]);
      assert forall k :: 0 <= k < |rest| ==> rows[2..][2 * k] == rows[2 * (k + 1)];
      [Record(rows[0], rows[1])] + rest
  }

  /** WRITE rows: one record per row, with an after image only. */
  function InsertRecords(rows: seq<Row>): (r: seq<Record>)
    ensures |r| == |rows|
    ensures forall k :: 0 <= k < |r| ==> r[k].before == [] && r[k].after == rows[k]
  {
    seq(|rows|, k requires 0 <= k < |rows| => Record([], rows[k]))
  }

  /** DELETE rows: one record per row, with a before image only. */
  function DeleteRecords(rows: seq<Row>): (r: seq<Record>)
    ensures |r| == |rows|
    ensures forall k :: 0 <= k < |r| ==> r[k].before == rows[k] && r[k].after == []
  {
    seq(|rows|, k requires 0 <= k < |rows| => Record(rows[k], []))
  }

  lemma UpdateRecordsAppend(rows: seq<Row>, a: Row, b: Row)
    requires |rows| % 2 == 0
    ensures UpdateRecords(rows + [a, b]) == UpdateRecords(rows) + [Record(a, b)]
  {
    var rs := rows + [a, b];
    var l := UpdateRecords(rs);
    var r := UpdateRecords(rows) + [Record(a, b)];
    assert |l| == |r|;
    forall k | 0 <= k < |l| ensures l[k] == r[k] {
      assert l[k] == Record(rs[2 * k], rs[2 * k + 1]);
      if k < |rows| / 2 {
        assert rs[2 * k] == rows[2 * k] && rs[2 * k + 1] == rows[2 * k + 1];
      } else {
        assert 2 * k == |rows| && rs[2 * k] == a && rs[2 * k + 1] == b;
      }
    }
  }

  /** A trailing unpaired row adds no record. */
  lemma UpdateRecordsDropLast(rows: seq<Row>)
    requires |rows| % 2 == 1
    ensures UpdateRecords(rows[..|rows| - 1]) == UpdateRecords(rows)
  {
    var init := rows[..|rows| - 1];
    var l := UpdateRecords(init);
    var r := UpdateRecords(rows);
    assert |l| == |r|;
    forall k | 0 <= k < |l| ensures l[k] == r[k] {
      assert init[2 * k] == rows[2 * k] && init[2 * k + 1] == rows[2 * k + 1];
    }
  }

  /** The loop of the UPDATE case: even rows are before images, odd rows after images. */
  method BuildUpdateRecords(rows: seq<Row>) returns (records: seq<Record>)
    ensures records == UpdateRecords(rows)
  {
    records := [];
    var rec := Record([], []);
    var i := 0;
    while i < |rows|
      invariant 2 * |records| <= i <= |rows| && i <= 2 * |records| + 1
      invariant records == UpdateRecords(rows[..2 * |records|])
      invariant i == 2 * |records| ==> rec == Record([], [])
      invariant i == 2 * |records| + 1 ==> rec == Record(rows[i - 1], [])
    {
      var before := (i + 1) % 2 != 0;
      if before {
        rec := rec.(before := rows[i]);
      } else {
        rec := rec.(after := rows[i]);
        AppendPair(rows, records, i);
        records := records + [rec];
        rec := Record([], []);
      }
      i := i + 1;
    }
    if i == 2 * |records| {
      assert rows[..i] == rows;
    } else {
      UpdateRecordsDropLast(rows);
    }
  }

  /** One completed pair extends the records built so far. */
  lemma AppendPair(rows: seq<Row>, records: seq<Record>, i: nat)
    requires i == 2 * |records| + 1 && i < |rows|
    requires records == UpdateRecords(rows[..2 * |records|])
    ensures records + [Record(rows[i - 1], rows[i])] == UpdateRecords(rows[..2 * (|records| + 1)])
  {
    UpdateRecordsAppend(rows[..i - 1], rows[i - 1], rows[i]);
    assert rows[..i - 1] + [rows[i - 1], rows[i]] == rows[..i + 1];
  }

  /** The loop of the WRITE case. */
  method BuildInsertRecords(rows: seq<Row>) returns (records: seq<Record>)
    ensures records == InsertRecords(rows)
  {
    records := [];
    for i := 0 to |rows|
      invariant records == InsertRecords(rows[..i])
    {
      records := records + [Record([], rows[i])];
    }
    assert rows[..|rows|] == rows;
  }

  /** The loop of the DELETE case. */
  method BuildDeleteRecords(rows: seq<Row>) returns (records: seq<Record>)
    ensures records == DeleteRecords(rows)
  {
    records := [];
    for i := 0 to |rows|
      invariant records == DeleteRecords(rows[..i])
    {
      records := records + [Record(rows[i], [])];
    }
    assert rows[..|rows|] == rows;
  }

  /** What a binlog event becomes before it reaches the handlers. */
  datatype Decoded = NotRows | MissingMetadata | Change(dce: DataChangeEvent)

  predicate IsRowsType(t: EventType) {
    t == UpdateRowsEvent || t == WriteRowsEvent || t == DeleteRowsEvent
  }

  function Decode(ev: BinlogEvent): (d: Decoded)
    ensures d.MissingMetadata? <==>
      IsRowsType(ev.header.eventType) && ev.body.RowsEvent? && |ev.body.tableMap.columns| < 1
    ensures d.NotRows? <==> !IsRowsType(ev.header.eventType) || !ev.body.RowsEvent?
  {
    if !IsRowsType(ev.header.eventType) || !ev.body.RowsEvent? then NotRows
    else if |ev.body.tableMap.columns| < 1 then MissingMetadata
    else
      var dce := NewDataChangeEvent(ev.header, ev.body.tableMap);
      var rows := ev.body.rows;
      match ev.header.eventType
      case UpdateRowsEvent => Change(dce.(typ := TYPE_UPDATE, records := UpdateRecords(rows)))
      case WriteRowsEvent => Change(dce.(typ := TYPE_INSERT, records := InsertRecords(rows)))
      case DeleteRowsEvent => Change(dce.(typ := TYPE_DELETE, records := DeleteRecords(rows)))
  }

  /** A decoded rows event carries the header and table data, the type code of
      its kind and one record per row (per row pair for updates). */
  lemma DecodedEvent(ev: BinlogEvent)
    requires Decode(ev).Change?
    ensures var d := Decode(ev).dce;
      && ev.body.RowsEvent?
      && d == NewDataChangeEvent(ev.header, ev.body.tableMap).(typ := d.typ, records := d.records)
      && (ev.header.eventType == UpdateRowsEvent ==>
            d.typ == TYPE_UPDATE && d.records == UpdateRecords(ev.body.rows)
            && |d.records| == |ev.body.rows| / 2
            && forall k :: 0 <= k < |d.records| ==> d.records[k] == Record(ev.body.rows[2 * k], ev.body.rows[2 * k + 1]))
      && (ev.header.eventType == WriteRowsEvent ==>
            d.typ == TYPE_INSERT && |d.records| == |ev.body.rows|
            && forall k :: 0 <= k < |d.records| ==> d.records[k] == Record([], ev.body.rows[k]))
      && (ev.header.eventType == DeleteRowsEvent ==>
            d.typ == TYPE_DELETE && |d.records| == |ev.body.rows|
            && forall k :: 0 <= k < |d.records| ==> d.records[k] == Record(ev.body.rows[k], []))
  {
  }

  // ----- handlers -----

  type EventHandler = DataChangeEvent -> Option<string>

  /** `callEventHandlers`: handlers run in registration order; the first error stops the run. */
  function CallHandlers(hs: seq<EventHandler>, dce: DataChangeEvent): (err: Option<string>)
    ensures err.None? <==> forall i :: 0 <= i < |hs| ==> hs[i](dce).None?
    ensures err.Some? ==>
      exists i :: 0 <= i < |hs| && hs[i](dce) == err && forall j :: 0 <= j < i ==> hs[j](dce).None?
  {
    if hs == [] then None
    else if hs[0](dce).Some? then hs[0](dce)
    else
      var err := CallHandlers(hs[1..], dce);
      assert forall i :: 1 <= i < |hs| ==> hs[i] == hs[1..][i - 1];
      err
  }

  /** The failing handler is unique: the error is the first one in registration order. */
  lemma CallHandlersFirstError(hs: seq<EventHandler>, dce: DataChangeEvent, i: nat)
    requires i < |hs| && hs[i](dce).Some?
    requires forall j :: 0 <= j < i ==> hs[j](dce).None?
    ensures CallHandlers(hs, dce) == hs[i](dce)
  {
    var err := CallHandlers(hs, dce);
    assert err.Some?;
    var k :| 0 <= k < |hs| && hs[k](dce) == err && forall j :: 0 <= j < k ==> hs[j](dce).None?;
    assert k == i;
  }

  // ----- position tracking -----

  /** `uint32(x)`: Go's truncating conversion. */
  function Truncate32(x: uint64): (r: uint32)
    ensures x < 0x1_0000_0000 ==> r == x
  {
    x % 0x1_0000_0000
  }

  /** The file name and the position recorded after an event: none for a format
      description, the next file and its start for a rotation, and the header's
      log position in the current file otherwise. */
  function NextPosition(logFileName: string, ev: BinlogEvent): (r: (string, Option<Position>))
    ensures ev.body.FormatDescriptionEvent? ==> r == (logFileName, None)
    ensures ev.body.RotateEvent? ==>
      r == (ev.body.nextLogName, Some(Position(ev.body.nextLogName, Truncate32(ev.body.position))))
    ensures !ev.body.FormatDescriptionEvent? && !ev.body.RotateEvent? ==>
      r == (logFileName, Some(Position(logFileName, ev.header.logPos)))
  {
    if ev.body.FormatDescriptionEvent? then (logFileName, None)
    else if ev.body.RotateEvent? then
      var name := ev.body.nextLogName;
      (name, Some(Position(name, Truncate32(ev.body.position))))
    else (logFileName, Some(Position(logFileName, ev.header.logPos)))
  }

  // ----- one pass of the PumpEvents loop -----

  datatype PumpState = PumpState(handlers: seq<EventHandler>, logFileName: string, saved: seq<Position>)

  /** Processing of one event: decode, dispatch, then record the position. */
  function Step(st: PumpState, ev: BinlogEvent): (r: (PumpState, Option<string>))
    ensures r.0.handlers == st.handlers
    ensures r.1.Some? ==> r.0 == st
    ensures Decode(ev).MissingMetadata? ==> r == (st, Some(MISSING_METADATA_ERROR))
    ensures Decode(ev).NotRows? ==> r.1 == None
    ensures Decode(ev).Change? ==> r.1 == CallHandlers(st.handlers, Decode(ev).dce)
    ensures r.1.None? ==>
      var (name, pos) := NextPosition(st.logFileName, ev);
      r.0 == PumpState(st.handlers, name, st.saved + (if pos.Some? then [pos.value] else []))
  {
    var d := Decode(ev);
    if d.MissingMetadata? then (st, Some(MISSING_METADATA_ERROR))
    else
      var err := if d.Change? then CallHandlers(st.handlers, d.dce) else None;
      if err.Some? then (st, err)
      else
        var (name, pos) := NextPosition(st.logFileName, ev);
        var saved := if pos.Some? then st.saved + [pos.value] else st.saved;
        (PumpState(st.handlers, name, saved), None)
  }

  /** The loop over a finite prefix of the binlog stream; the first error ends it. */
  function Run(st: PumpState, evs: seq<BinlogEvent>): (r: (PumpState, Option<string>))
    ensures r.0.handlers == st.handlers
    decreases |evs|
  {
    if evs == [] then (st, None)
    else
      var (next, err) := Step(st, evs[0]);
      if err.Some? then (next, err) else Run(next, evs[1..])
  }

  /** The file name after a run of events: that of the last rotation, if any. */
  function LastLogName(name: string, evs: seq<BinlogEvent>): string {
    if evs == [] then name
    else if evs[|evs| - 1].body.RotateEvent? then evs[|evs| - 1].body.nextLogName
    else LastLogName(name, evs[..|evs| - 1])
  }

  /** The positions recorded, one after the other, while walking `evs` from the file `name`. */
  function Positions(name: string, evs: seq<BinlogEvent>): seq<Position>
    decreases |evs|
  {
    if evs == [] then []
    else
      var (next, pos) := NextPosition(name, evs[0]);
      (if pos.Some? then [pos.value] else []) + Positions(next, evs[1..])
  }

  function CountPositioned(evs: seq<BinlogEvent>): nat {
    if evs == [] then 0
    else (if evs[0].body.FormatDescriptionEvent? then 0 else 1) + CountPositioned(evs[1..])
  }

  lemma LastLogNameCons(name: string, ev: BinlogEvent, evs: seq<BinlogEvent>)
    ensures LastLogName(name, [ev] + evs) == LastLogName(NextPosition(name, ev).0, evs)
    decreases |evs|
  {
    if evs != [] {
      assert ([ev] + evs)[..|evs|] == [ev] + evs[..|evs| - 1];
      LastLogNameCons(name, ev, evs[..|evs| - 1]);
    } else {
      assert ([ev] + evs)[..0] == [];
    }
  }

  /** A run that ends without error has recorded one position per event other
      than format descriptions, and is in the file named by the last rotation. */
  lemma {:induction false} RunWithoutError(st: PumpState, evs: seq<BinlogEvent>)
    requires Run(st, evs).1.None?
    ensures Run(st, evs).0.logFileName == LastLogName(st.logFileName, evs)
    ensures |Run(st, evs).0.saved| == |st.saved| + CountPositioned(evs)
    ensures Run(st, evs).0.saved[..|st.saved|] == st.saved
    ensures Run(st, evs).0.saved == st.saved + Positions(st.logFileName, evs)
    decreases |evs|
  {
    if evs != [] {
      var (next, err) := Step(st, evs[0]);
      RunWithoutError(next, evs[1..]);
      LastLogNameCons(st.logFileName, evs[0], evs[1..]);
      assert [evs[0]] + evs[1..] == evs;
      var fin := Run(st, evs).0.saved;
      assert fin == next.saved + Positions(next.logFileName, evs[1..]);
      assert fin[..|next.saved|] == next.saved;
      assert next.saved[..|st.saved|] == st.saved;
    }
  }

  /** The pump's mutable state: the handler list, the current binlog file name
      and the positions persisted so far. */
  class Pump {
    var handlers: seq<EventHandler>
    var logFileName: string
    var saved: seq<Position>

    function State(): PumpState
      reads this
    {
      PumpState(handlers, logFileName, saved)
    }

    constructor ()
      ensures State() == PumpState([], "", [])
    {
      handlers := [];
      logFileName := "";
      saved := [];
    }

    /** `OnEventReceived`: registers a handler after the existing ones. */
    method OnEventReceived(h: EventHandler)
      modifies this
      ensures State() == old(State()).(handlers := old(handlers) + [h])
    {
      handlers := handlers + [h];
    }

    method CallEventHandlers(dce: DataChangeEvent) returns (err: Option<string>)
      ensures err == CallHandlers(handlers, dce)
    {
      var i := 0;
      while i < |handlers|
        invariant 0 <= i <= |handlers|
        invariant forall j :: 0 <= j < i ==> handlers[j](dce).None?
        invariant CallHandlers(handlers, dce) == CallHandlers(handlers[i..], dce)
      {
        var e := handlers[i](dce);
        if e.Some? {
          return e;
        }
        assert handlers[i..][1..] == handlers[i + 1..];
        i := i + 1;
      }
      return None;
    }

    /** One iteration of `PumpEvents`. */
    method ProcessEvent(ev: BinlogEvent) returns (err: Option<string>)
      modifies this
      ensures (State(), err) == Step(old(State()), ev)
    {
      if IsRowsType(ev.header.eventType) && ev.body.RowsEvent? {
        var re := ev.body;
        if |re.tableMap.columns| < 1 {
          return Some(MISSING_METADATA_ERROR);
        }
        var dce := NewDataChangeEvent(ev.header, re.tableMap);
        var records;
        match ev.header.eventType {
          case UpdateRowsEvent =>
            records := BuildUpdateRecords(re.rows);
            dce := dce.(typ := TYPE_UPDATE);
          case WriteRowsEvent =>
            records := BuildInsertRecords(re.rows);
            dce := dce.(typ := TYPE_INSERT);
          case DeleteRowsEvent =>
            records := BuildDeleteRecords(re.rows);
            dce := dce.(typ := TYPE_DELETE);
        }
        dce := dce.(records := records);
        assert Decode(ev) == Change(dce);
        err := CallEventHandlers(dce);
        if err.Some? {
          return;
        }
      }
      if ev.body.FormatDescriptionEvent? {
        return None;
      }
      var logPos := ev.header.logPos;
      if ev.body.RotateEvent? {
        logPos := Truncate32(ev.body.position);
        logFileName := ev.body.nextLogName;
      }
      saved := saved + [Position(logFileName, logPos)];
      err := None;
    }

    /** `PumpEvents` over a finite prefix of the stream. */
    method PumpEvents(evs: seq<BinlogEvent>) returns (err: Option<string>)
      modifies this
      ensures (State(), err) == Run(old(State()), evs)
    {
      var i := 0;
      while i < |evs|
        invariant 0 <= i <= |evs|
        invariant Run(old(State()), evs) == Run(State(), evs[i..])
      {
        assert evs[i..][1..] == evs[i + 1..];
        err := ProcessEvent(evs[i]);
        if err.Some? {
          return;
        }
        i := i + 1;
      }
      return None;
    }
  }
}
