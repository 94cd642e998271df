/** The pipeline registry of internal/pump/server.go: a map from the key
    "schema.table" to the pipelines registered under it, together with the
    ids of the event handlers registered for them. pump/server.go keeps a
    second registry with the same `AddPipeline`/`RemovePipeline` code.

    Comparing a stored pipeline with a probe sorts both column lists in place
    whenever the four compared fields and the column counts agree; since the
    stored pipeline shares its column slice with the map, the map is left with
    those lists sorted. The model writes the sorted lists back, so that adding
    or removing "changes nothing" means: equal up to column order (`SameState`). */
module Registry {
  import opened Wrappers
  import opened Seqs
  import opened Sorting
  import opened Strings
  import opened Conditions
  import opened Pipelines

  const EMPTY_STREAM_ERROR := "pipeline.stream is emtpy"

  function Key(p: Pipeline): string {
    p.schema + "." + p.table
  }

  // ----- scanning one bucket -----

  /** The index of the first pipeline of the bucket equivalent to `p`. */
  function FirstEquivalent(bucket: seq<Pipeline>, p: Pipeline): (r: Option<nat>)
    ensures r.Some? ==> r.value < |bucket| && Equivalent(bucket[r.value], p)
    ensures r.Some? ==> forall j :: 0 <= j < r.value ==> !Equivalent(bucket[j], p)
    ensures r.None? <==> forall j :: 0 <= j < |bucket| ==> !Equivalent(bucket[j], p)
  {
    if bucket == [] then None
    else if Equivalent(bucket[0], p) then Some(0)
    else
      var r := FirstEquivalent(bucket[1..], p);
      assert forall j :: 1 <= j < |bucket| ==> bucket[j] == bucket[1..][j - 1];
      match r
      case Some(i) => Some(i + 1)
      case None => None
  }

  /** How many pipelines of the bucket the scan compares with `p`. */
  function Compared(bucket: seq<Pipeline>, p: Pipeline): (n: nat)
    ensures n <= |bucket|
  {
    match FirstEquivalent(bucket, p)
    case Some(i) => i + 1
    case None => |bucket|
  }

  /** The bucket after the first `n` comparisons: compared entries that reached
      `sameCondition` have sorted columns. */
  function SortTouched(bucket: seq<Pipeline>, p: Pipeline, n: nat): (r: seq<Pipeline>)
    ensures |r| == |bucket|
    ensures forall j :: 0 <= j < |r| ==>
      r[j] == if j < n && Touches(bucket[j], p) then Sorted(bucket[j]) else bucket[j]
  {
    seq(|bucket|, j requires 0 <= j < |bucket| =>
      if j < n && Touches(bucket[j], p) then Sorted(bucket[j]) else bucket[j])
  }

  predicate AnyTouched(bucket: seq<Pipeline>, p: Pipeline, n: nat) {
    exists j :: 0 <= j < n && j < |bucket| && Touches(bucket[j], p)
  }

  /** The probe after the first `n` comparisons. */
  function ProbeAfter(bucket: seq<Pipeline>, p: Pipeline, n: nat): Pipeline {
    if AnyTouched(bucket, p, n) then Sorted(p) else p
  }

  /** The lookup loop of `AddPipeline` and `RemovePipeline`: compares `p` with
      each stored pipeline in order until one is equivalent. */
  method ScanBucket(bucket: seq<Pipeline>, p: Pipeline) returns (found: Option<nat>, scanned: seq<Pipeline>, probe: Pipeline)
    ensures found == FirstEquivalent(bucket, p)
    ensures scanned == SortTouched(bucket, p, Compared(bucket, p))
    ensures probe == ProbeAfter(bucket, p, Compared(bucket, p))
  {
    ScanStart(bucket, p);
    scanned, probe := bucket, p;
    var i := 0;
    while i < |bucket|
      invariant 0 <= i <= |bucket|
      invariant forall j :: 0 <= j < i ==> !Equivalent(bucket[j], p)
      invariant scanned == SortTouched(bucket, p, i)
      invariant probe == ProbeAfter(bucket, p, i)
    {
      var same;
      same, scanned, probe := CompareAt(bucket, p, i, scanned, probe);
      if same {
        FirstIs(bucket, p, i);
        found := Some(i);
        return;
      }
      i := i + 1;
    }
    NoneFound(bucket, p);
    found := None;
  }

  /** One pass of that loop: compares entry `i` with the probe and keeps the
      column lists as `samePipeline` leaves them. */
  method CompareAt(bucket: seq<Pipeline>, p: Pipeline, i: nat, scanned0: seq<Pipeline>, probe0: Pipeline)
    returns (same: bool, scanned: seq<Pipeline>, probe: Pipeline)
    requires i < |bucket|
    requires scanned0 == SortTouched(bucket, p, i) && probe0 == ProbeAfter(bucket, p, i)
    ensures same <==> Equivalent(bucket[i], p)
    ensures scanned == SortTouched(bucket, p, i + 1) && probe == ProbeAfter(bucket, p, i + 1)
  {
    ScanStepProbe(bucket, p, i);
    ScanStepBucket(bucket, p, i);
    var stored;
    same, stored, probe := SamePipeline(scanned0[i], probe0);
    scanned := scanned0[i := stored];
  }

  /** Sorting the probe's columns changes neither outcome of a comparison. */
  lemma SortedProbe(a: Pipeline, p: Pipeline)
    ensures Equivalent(a, Sorted(p)) == Equivalent(a, p)
    ensures Touches(a, Sorted(p)) == Touches(a, p)
  {
    var c, d := Sorted(p).condition.columnChanged, p.condition.columnChanged;
    assert |multiset(c)| == |c| && |multiset(d)| == |d|;
  }

  /** One comparison of the scan, as seen by the probe: comparing entry `i`
      with the probe as it then is decides as comparing it with `p` would. */
  lemma ScanStepProbe(bucket: seq<Pipeline>, p: Pipeline, i: nat)
    requires i < |bucket|
    ensures var probe := ProbeAfter(bucket, p, i);
      && Equivalent(bucket[i], probe) == Equivalent(bucket[i], p)
      && Touches(bucket[i], probe) == Touches(bucket[i], p)
      && (if Touches(bucket[i], p) then Sorted(probe) else probe) == ProbeAfter(bucket, p, i + 1)
  {
    SortedTwice(p);
    SortedProbe(bucket[i], p);
    if Touches(bucket[i], p) {
      assert AnyTouched(bucket, p, i + 1);
    } else if AnyTouched(bucket, p, i + 1) {
      var j :| 0 <= j < i + 1 && j < |bucket| && Touches(bucket[j], p);
      assert AnyTouched(bucket, p, i);
    }
  }

  /** One comparison of the scan, as seen by the bucket: entry `i` is not yet
      sorted, and the comparison extends the sorted prefix by one. */
  lemma ScanStepBucket(bucket: seq<Pipeline>, p: Pipeline, i: nat)
    requires i < |bucket|
    ensures SortTouched(bucket, p, i)[i] == bucket[i]
    ensures SortTouched(bucket, p, i)[i := if Touches(bucket[i], p) then Sorted(bucket[i]) else bucket[i]]
         == SortTouched(bucket, p, i + 1)
  {
  }

  /** Before any comparison nothing is sorted. */
  lemma ScanStart(bucket: seq<Pipeline>, p: Pipeline)
    ensures SortTouched(bucket, p, 0) == bucket && ProbeAfter(bucket, p, 0) == p
  {
    assert !AnyTouched(bucket, p, 0);
  }

  lemma NoneFound(bucket: seq<Pipeline>, p: Pipeline)
    requires forall j :: 0 <= j < |bucket| ==> !Equivalent(bucket[j], p)
    ensures FirstEquivalent(bucket, p) == None && Compared(bucket, p) == |bucket|
  {
  }

  lemma FirstIs(bucket: seq<Pipeline>, p: Pipeline, i: nat)
    requires i < |bucket| && Equivalent(bucket[i], p)
    requires forall j :: 0 <= j < i ==> !Equivalent(bucket[j], p)
    ensures FirstEquivalent(bucket, p) == Some(i) && Compared(bucket, p) == i + 1
  {
  }

  // ----- equality up to column order -----

  /** Equal except for the order of the condition's columns. */
  predicate SameEntry(a: Pipeline, b: Pipeline) {
    a.(condition := b.condition) == b && SameColumns(a.condition, b.condition)
  }

  predicate SameBucket(x: seq<Pipeline>, y: seq<Pipeline>) {
    |x| == |y| && forall j :: 0 <= j < |x| ==> SameEntry(x[j], y[j])
  }

  lemma SortTouchedSame(bucket: seq<Pipeline>, p: Pipeline, n: nat)
    ensures SameBucket(SortTouched(bucket, p, n), bucket)
    ensures SameEntry(ProbeAfter(bucket, p, n), p)
  {
  }

  // ----- the registry state and its operations -----

  datatype RegistryState = RegistryState(
    pipelines: map<string, seq<Pipeline>>,
    handlerIds: set<nat>,
    nextId: nat)

  /** The empty registry; handler ids start at 1, 0 being the unset id. */
  function Empty(): RegistryState {
    RegistryState(map[], {}, 1)
  }

  predicate SameState(s: RegistryState, t: RegistryState) {
    && s.pipelines.Keys == t.pipelines.Keys
    && (forall k :: k in s.pipelines ==> SameBucket(s.pipelines[k], t.pipelines[k]))
    && s.handlerIds == t.handlerIds
    && s.nextId == t.nextId
  }

  function Bucket(st: RegistryState, key: string): seq<Pipeline> {
    if key in st.pipelines then st.pipelines[key] else []
  }

  /** `AddPipeline`: disabled pipelines are ignored, an empty stream (checked
      before trimming) is an error; otherwise the trimmed pipeline is inserted. */
  function Add(st: RegistryState, p: Pipeline): (r: (RegistryState, Option<string>))
    ensures r.1.Some? <==> p.enabled && p.stream == ""
    ensures r.1.Some? ==> r.1.value == EMPTY_STREAM_ERROR
    ensures !p.enabled || p.stream == "" ==> r.0 == st
  {
    if !p.enabled then (st, None)
    else if p.stream == "" then (st, Some(EMPTY_STREAM_ERROR))
    else (Insert(st, Trimmed(p)), None)
  }

  /** The part of `AddPipeline` under the lock: `q` is stored under its key
      with a fresh handler id, unless an equivalent pipeline is there. */
  function Insert(st: RegistryState, q: Pipeline): RegistryState {
    var key := Key(q);
    var bucket := Bucket(st, key);
    var n := Compared(bucket, q);
    var scanned := SortTouched(bucket, q, n);
    if FirstEquivalent(bucket, q).Some? then
      st.(pipelines := st.pipelines[key := scanned])
    else
      var stored := ProbeAfter(bucket, q, n).(handlerId := st.nextId);
      RegistryState(st.pipelines[key := scanned + [stored]], st.handlerIds + {st.nextId}, st.nextId + 1)
  }

  /** `RemovePipeline`: the input is not trimmed; the first equivalent pipeline
      under its key is removed together with its handler id. */
  function Remove(st: RegistryState, p: Pipeline): RegistryState {
    var key := Key(p);
    if key !in st.pipelines then st
    else
      var bucket := st.pipelines[key];
      var scanned := SortTouched(bucket, p, Compared(bucket, p));
      match FirstEquivalent(bucket, p)
      case None => st.(pipelines := st.pipelines[key := scanned])
      case Some(i) =>
        RegistryState(st.pipelines[key := RemoveAt(scanned, i)], st.handlerIds - {bucket[i].handlerId}, st.nextId)
  }

  // ----- what Add and Remove do -----

  /** With an equivalent pipeline under its key, inserting changes nothing. */
  lemma InsertDuplicate(st: RegistryState, q: Pipeline)
    requires FirstEquivalent(Bucket(st, Key(q)), q).Some?
    ensures SameState(Insert(st, q), st)
  {
    var key := Key(q);
    var b := Bucket(st, key);
    var scanned := SortTouched(b, q, Compared(b, q));
    assert Insert(st, q) == st.(pipelines := st.pipelines[key := scanned]);
    assert key in st.pipelines;
    SortTouchedSame(b, q, Compared(b, q));
    ReplaceBucketSame(st, key, scanned);
  }

  /** Without one, exactly one pipeline, equal to `q` up to column order and
      carrying a fresh handler id, is appended under its key. */
  lemma InsertAppends(st: RegistryState, q: Pipeline)
    requires FirstEquivalent(Bucket(st, Key(q)), q).None?
    ensures var key := Key(q); var b := Bucket(st, key); var st' := Insert(st, q);
      && st'.pipelines.Keys == st.pipelines.Keys + {key}
      && (forall k :: k in st.pipelines && k != key ==> st'.pipelines[k] == st.pipelines[k])
      && |st'.pipelines[key]| == |b| + 1
      && SameBucket(st'.pipelines[key][..|b|], b)
      && SameEntry(st'.pipelines[key][|b|], q.(handlerId := st.nextId))
      && st'.handlerIds == st.handlerIds + {st.nextId}
      && st'.nextId == st.nextId + 1
  {
    InsertAppendsShape(st, q);
    var b := Bucket(st, Key(q));
    AppendedBucket(b, q, Compared(b, q), st.nextId);
  }

  lemma InsertAppendsShape(st: RegistryState, q: Pipeline)
    requires FirstEquivalent(Bucket(st, Key(q)), q).None?
    ensures var b := Bucket(st, Key(q));
      Insert(st, q) == RegistryState(
        st.pipelines[Key(q) := SortTouched(b, q, Compared(b, q)) + [ProbeAfter(b, q, Compared(b, q)).(handlerId := st.nextId)]],
        st.handlerIds + {st.nextId}, st.nextId + 1)
  {
  }

  lemma AppendedBucket(b: seq<Pipeline>, q: Pipeline, n: nat, id: nat)
    ensures var nb := SortTouched(b, q, n) + [ProbeAfter(b, q, n).(handlerId := id)];
      && |nb| == |b| + 1
      && SameBucket(nb[..|b|], b)
      && SameEntry(nb[|b|], q.(handlerId := id))
  {
    var scanned := SortTouched(b, q, n);
    SortTouchedSame(b, q, n);
    assert (scanned + [ProbeAfter(b, q, n).(handlerId := id)])[..|b|] == scanned;
  }

  /** An accepted pipeline is stored trimmed under `schema.table`: appended with
      a fresh handler id when no equivalent one is there, and otherwise not at
      all. No other key changes. */
  lemma AddStores(st: RegistryState, p: Pipeline)
    requires p.enabled && p.stream != ""
    ensures var q := Trimmed(p); var key := Key(q); var b := Bucket(st, key); var st' := Add(st, p).0;
      && ((exists j :: 0 <= j < |b| && Equivalent(b[j], q)) ==> SameState(st', st))
      && ((forall j :: 0 <= j < |b| ==> !Equivalent(b[j], q)) ==>
            && st'.pipelines.Keys == st.pipelines.Keys + {key}
            && (forall k :: k in st.pipelines && k != key ==> st'.pipelines[k] == st.pipelines[k])
            && |st'.pipelines[key]| == |b| + 1
            && SameBucket(st'.pipelines[key][..|b|], b)
            && SameEntry(st'.pipelines[key][|b|], q.(handlerId := st.nextId))
            && st'.handlerIds == st.handlerIds + {st.nextId}
            && st'.nextId == st.nextId + 1)
  {
    var q := Trimmed(p);
    if FirstEquivalent(Bucket(st, Key(q)), q).Some? {
      InsertDuplicate(st, q);
    } else {
      InsertAppends(st, q);
    }
  }

  /** Inserting the same pipeline twice is inserting it once. */
  lemma InsertTwice(st: RegistryState, q: Pipeline)
    ensures SameState(Insert(Insert(st, q), q), Insert(st, q))
  {
    var key := Key(q);
    var b := Bucket(st, key);
    var st1 := Insert(st, q);
    var b1 := Bucket(st1, key);
    if FirstEquivalent(b, q).Some? {
      var j := FirstEquivalent(b, q).value;
      SortTouchedSame(b, q, Compared(b, q));
      assert SameEntry(b1[j], b[j]);
      assert Equivalent(b1[j], q);
    } else {
      InsertAppends(st, q);
      assert Equivalent(b1[|b|], q);
    }
    InsertDuplicate(st1, q);
  }

  /** Adding the same pipeline twice is adding it once. */
  lemma AddTwice(st: RegistryState, p: Pipeline)
    ensures Add(Add(st, p).0, p).1 == Add(st, p).1
    ensures SameState(Add(Add(st, p).0, p).0, Add(st, p).0)
  {
    if p.enabled && p.stream != "" {
      InsertTwice(st, Trimmed(p));
    }
  }

  /** Removing takes out exactly the first equivalent pipeline of its key and
      that pipeline's handler id; without one, nothing changes. */
  lemma RemoveTakesFirst(st: RegistryState, p: Pipeline)
    ensures var key := Key(p); var b := Bucket(st, key); var st' := Remove(st, p);
      && (FirstEquivalent(b, p).None? ==> SameState(st', st))
      && (FirstEquivalent(b, p).Some? ==>
            var i := FirstEquivalent(b, p).value;
            && key in st.pipelines
            && st'.pipelines.Keys == st.pipelines.Keys
            && (forall k :: k in st.pipelines && k != key ==> st'.pipelines[k] == st.pipelines[k])
            && SameBucket(st'.pipelines[key], RemoveAt(b, i))
            && st'.handlerIds == st.handlerIds - {b[i].handlerId}
            && st'.nextId == st.nextId)
  {
    var key := Key(p);
    var b := Bucket(st, key);
    var n := Compared(b, p);
    SortTouchedSame(b, p, n);
  }

  /** Removal when the scan finds entry `i`. */
  lemma RemoveFound(st: RegistryState, p: Pipeline, i: nat)
    requires FirstEquivalent(Bucket(st, Key(p)), p) == Some(i)
    ensures var key := Key(p); var b := Bucket(st, key); var st' := Remove(st, p);
      && key in st.pipelines && i < |b|
      && st'.pipelines.Keys == st.pipelines.Keys
      && (forall k :: k in st.pipelines && k != key ==> st'.pipelines[k] == st.pipelines[k])
      && SameBucket(st'.pipelines[key], RemoveAt(b, i))
      && st'.handlerIds == st.handlerIds - {b[i].handlerId}
      && st'.nextId == st.nextId
  {
    RemoveTakesFirst(st, p);
  }

  // ----- the registry invariant -----

  predicate Stored(st: RegistryState, k: string, i: int) {
    k in st.pipelines && 0 <= i < |st.pipelines[k]|
  }

  /** A stored pipeline sits under its own key, is enabled and trimmed, and
      its handler id is registered and below the next id. */
  predicate EntryOk(st: RegistryState, k: string, e: Pipeline) {
    && k == Key(e) && e.enabled && IsTrimmed(e)
    && e.handlerId in st.handlerIds && 0 < e.handlerId < st.nextId
  }

  ghost predicate HasEntry(st: RegistryState, id: nat) {
    exists k, i :: Stored(st, k, i) && st.pipelines[k][i].handlerId == id
  }

  ghost predicate EntriesOk(st: RegistryState) {
    forall k, i :: Stored(st, k, i) ==> EntryOk(st, k, st.pipelines[k][i])
  }

  ghost predicate IdsUnique(st: RegistryState) {
    forall k1, i1, k2, i2 ::
      Stored(st, k1, i1) && Stored(st, k2, i2)
      && st.pipelines[k1][i1].handlerId == st.pipelines[k2][i2].handlerId
      ==> k1 == k2 && i1 == i2
  }

  ghost predicate IdsOwned(st: RegistryState) {
    forall id :: id in st.handlerIds ==> HasEntry(st, id)
  }

  /** Every stored pipeline is well placed, no two share a handler id, and
      every registered handler id belongs to a stored pipeline. */
  ghost predicate WellFormed(st: RegistryState) {
    st.nextId >= 1 && EntriesOk(st) && IdsUnique(st) && IdsOwned(st)
  }

  lemma EmptyWellFormed()
    ensures WellFormed(Empty())
  {
  }

  lemma SameEntryTrimmed(a: Pipeline, b: Pipeline)
    requires SameEntry(a, b) && IsTrimmed(b)
    ensures IsTrimmed(a)
  {
    forall c | c in a.condition.columnChanged ensures NoOuterSpace(c) {
      assert c in multiset(a.condition.columnChanged);
      assert c in b.condition.columnChanged;
    }
  }

  /** The invariant does not depend on the order of columns. */
  lemma SameStateWellFormed(s: RegistryState, t: RegistryState)
    requires WellFormed(t) && SameState(s, t)
    ensures WellFormed(s)
  {
    forall k, i | Stored(s, k, i) ensures EntryOk(s, k, s.pipelines[k][i]) {
      assert Stored(t, k, i);
      SameEntryTrimmed(s.pipelines[k][i], t.pipelines[k][i]);
    }
    forall id | id in s.handlerIds ensures HasEntry(s, id) {
      var k, i :| Stored(t, k, i) && t.pipelines[k][i].handlerId == id;
      assert Stored(s, k, i);
    }
  }

  /** The state after appending `e` to the bucket of `key` and registering the next id. */
  function Appended(st: RegistryState, key: string, e: Pipeline): RegistryState {
    RegistryState(st.pipelines[key := Bucket(st, key) + [e]], st.handlerIds + {st.nextId}, st.nextId + 1)
  }

  lemma AppendedStored(st: RegistryState, key: string, e: Pipeline)
    ensures var st' := Appended(st, key, e);
      && Stored(st', key, |Bucket(st, key)|) && st'.pipelines[key][|Bucket(st, key)|] == e
      && (forall k, i :: Stored(st', k, i) && !(k == key && i == |Bucket(st, key)|) ==>
            Stored(st, k, i) && st'.pipelines[k][i] == st.pipelines[k][i])
      && (forall k, i :: Stored(st, k, i) ==> Stored(st', k, i) && st'.pipelines[k][i] == st.pipelines[k][i])
  {
  }

  lemma AppendEntriesOk(st: RegistryState, key: string, e: Pipeline)
    requires EntriesOk(st)
    requires key == Key(e) && e.enabled && IsTrimmed(e) && e.handlerId == st.nextId && st.nextId >= 1
    ensures EntriesOk(Appended(st, key, e))
  {
    var st' := Appended(st, key, e);
    AppendedStored(st, key, e);
    forall k, i | Stored(st', k, i) ensures EntryOk(st', k, st'.pipelines[k][i]) {
      if !(k == key && i == |Bucket(st, key)|) {
        assert EntryOk(st, k, st.pipelines[k][i]);
      }
    }
  }

  lemma AppendIdsUnique(st: RegistryState, key: string, e: Pipeline)
    requires EntriesOk(st) && IdsUnique(st) && e.handlerId == st.nextId
    ensures IdsUnique(Appended(st, key, e))
  {
    var st' := Appended(st, key, e);
    var n := |Bucket(st, key)|;
    AppendedStored(st, key, e);
    forall k1, i1, k2, i2 |
      Stored(st', k1, i1) && Stored(st', k2, i2) && st'.pipelines[k1][i1].handlerId == st'.pipelines[k2][i2].handlerId
      ensures k1 == k2 && i1 == i2
    {
      var new1, new2 := k1 == key && i1 == n, k2 == key && i2 == n;
      if new1 && !new2 {
        assert EntryOk(st, k2, st.pipelines[k2][i2]);
      } else if !new1 && new2 {
        assert EntryOk(st, k1, st.pipelines[k1][i1]);
      } else if !new1 && !new2 {
        assert st.pipelines[k1][i1].handlerId == st.pipelines[k2][i2].handlerId;
      }
    }
  }

  lemma AppendIdsOwned(st: RegistryState, key: string, e: Pipeline)
    requires IdsOwned(st) && e.handlerId == st.nextId
    ensures IdsOwned(Appended(st, key, e))
  {
    var st' := Appended(st, key, e);
    AppendedStored(st, key, e);
    forall id | id in st'.handlerIds ensures HasEntry(st', id) {
      if id == st.nextId {
        assert Stored(st', key, |Bucket(st, key)|);
      } else {
        var k, i :| Stored(st, k, i) && st.pipelines[k][i].handlerId == id;
        assert Stored(st', k, i) && st'.pipelines[k][i] == st.pipelines[k][i];
      }
    }
  }

  /** Appending a well-formed pipeline with the next handler id keeps the invariant. */
  lemma AppendWellFormed(st: RegistryState, key: string, e: Pipeline)
    requires WellFormed(st)
    requires key == Key(e) && e.enabled && IsTrimmed(e) && e.handlerId == st.nextId
    ensures WellFormed(Appended(st, key, e))
  {
    AppendEntriesOk(st, key, e);
    AppendIdsUnique(st, key, e);
    AppendIdsOwned(st, key, e);
  }

  /** The state after removing entry `i` of the bucket of `key` and its handler id. */
  function RemovedAt(st: RegistryState, key: string, i: nat): RegistryState
    requires Stored(st, key, i)
  {
    RegistryState(st.pipelines[key := RemoveAt(st.pipelines[key], i)], st.handlerIds - {st.pipelines[key][i].handlerId}, st.nextId)
  }

  /** Where entry `j` of bucket `k` came from after the removal. */
  function Origin(key: string, i: nat, k: string, j: int): int {
    if k == key && j >= i then j + 1 else j
  }

  /** Where entry `j` of bucket `k` went to in the removal. */
  function Target(key: string, i: nat, k: string, j: int): int {
    if k == key && j > i then j - 1 else j
  }

  lemma RemovedStored(st: RegistryState, key: string, i: nat)
    requires Stored(st, key, i)
    ensures var st' := RemovedAt(st, key, i);
      && (forall k, j :: Stored(st', k, j) ==>
            Stored(st, k, Origin(key, i, k, j)) && (k, Origin(key, i, k, j)) != (key, i)
            && st'.pipelines[k][j] == st.pipelines[k][Origin(key, i, k, j)])
      && (forall k, j :: Stored(st, k, j) && (k, j) != (key, i) ==>
            Stored(st', k, Target(key, i, k, j)) && st'.pipelines[k][Target(key, i, k, j)] == st.pipelines[k][j])
  {
  }

  lemma RemoveEntriesOk(st: RegistryState, key: string, i: nat)
    requires Stored(st, key, i) && EntriesOk(st) && IdsUnique(st)
    ensures EntriesOk(RemovedAt(st, key, i))
  {
    var st' := RemovedAt(st, key, i);
    RemovedStored(st, key, i);
    forall k, j | Stored(st', k, j) ensures EntryOk(st', k, st'.pipelines[k][j]) {
      var j0 := Origin(key, i, k, j);
      assert EntryOk(st, k, st.pipelines[k][j0]);
      assert st.pipelines[k][j0].handlerId != st.pipelines[key][i].handlerId;
    }
  }

  lemma RemoveIdsUnique(st: RegistryState, key: string, i: nat)
    requires Stored(st, key, i) && IdsUnique(st)
    ensures IdsUnique(RemovedAt(st, key, i))
  {
    var st' := RemovedAt(st, key, i);
    RemovedStored(st, key, i);
    forall k1, j1, k2, j2 |
      Stored(st', k1, j1) && Stored(st', k2, j2) && st'.pipelines[k1][j1].handlerId == st'.pipelines[k2][j2].handlerId
      ensures k1 == k2 && j1 == j2
    {
      var a, b := Origin(key, i, k1, j1), Origin(key, i, k2, j2);
      assert st.pipelines[k1][a].handlerId == st.pipelines[k2][b].handlerId;
    }
  }

  lemma RemoveIdsOwned(st: RegistryState, key: string, i: nat)
    requires Stored(st, key, i) && IdsOwned(st)
    ensures IdsOwned(RemovedAt(st, key, i))
  {
    var st' := RemovedAt(st, key, i);
    RemovedStored(st, key, i);
    forall id | id in st'.handlerIds ensures HasEntry(st', id) {
      var k, j :| Stored(st, k, j) && st.pipelines[k][j].handlerId == id;
      assert (k, j) != (key, i);
      var j' := Target(key, i, k, j);
      assert Stored(st', k, j') && st'.pipelines[k][j'].handlerId == id;
    }
  }

  /** Removing the pipeline at `i` with its handler id keeps the invariant. */
  lemma RemoveAtWellFormed(st: RegistryState, key: string, i: nat)
    requires WellFormed(st) && Stored(st, key, i)
    ensures WellFormed(RemovedAt(st, key, i))
  {
    RemoveEntriesOk(st, key, i);
    RemoveIdsUnique(st, key, i);
    RemoveIdsOwned(st, key, i);
  }

  /** Replacing a bucket by a reordering of its columns is the same state. */
  lemma ReplaceBucketSame(st: RegistryState, key: string, scanned: seq<Pipeline>)
    requires key in st.pipelines && SameBucket(scanned, st.pipelines[key])
    ensures SameState(st.(pipelines := st.pipelines[key := scanned]), st)
  {
  }

  /** Replacing a bucket by a reordering of its columns keeps the invariant. */
  lemma ReplaceBucketWellFormed(st: RegistryState, key: string, scanned: seq<Pipeline>)
    requires WellFormed(st) && key in st.pipelines && SameBucket(scanned, st.pipelines[key])
    ensures WellFormed(st.(pipelines := st.pipelines[key := scanned]))
  {
    ReplaceBucketSame(st, key, scanned);
    SameStateWellFormed(st.(pipelines := st.pipelines[key := scanned]), st);
  }

  lemma AppendedScanned(st: RegistryState, key: string, scanned: seq<Pipeline>, e: Pipeline)
    ensures Appended(st.(pipelines := st.pipelines[key := scanned]), key, e)
         == RegistryState(st.pipelines[key := scanned + [e]], st.handlerIds + {st.nextId}, st.nextId + 1)
  {
    var mid := st.(pipelines := st.pipelines[key := scanned]);
    assert Bucket(mid, key) == scanned;
    assert mid.pipelines[key := scanned + [e]] == st.pipelines[key := scanned + [e]];
  }

  /** Appending after a scan that only reordered columns keeps the invariant. */
  lemma AppendScannedWellFormed(st: RegistryState, key: string, scanned: seq<Pipeline>, e: Pipeline)
    requires WellFormed(st) && SameBucket(scanned, Bucket(st, key))
    requires key == Key(e) && e.enabled && IsTrimmed(e) && e.handlerId == st.nextId
    ensures WellFormed(RegistryState(st.pipelines[key := scanned + [e]], st.handlerIds + {st.nextId}, st.nextId + 1))
  {
    var mid := st.(pipelines := st.pipelines[key := scanned]);
    if key in st.pipelines {
      ReplaceBucketWellFormed(st, key, scanned);
    } else {
      assert scanned == [];
      assert mid == st.(pipelines := st.pipelines[key := []]);
      EmptyBucketWellFormed(st, key);
    }
    AppendWellFormed(mid, key, e);
    AppendedScanned(st, key, scanned, e);
  }

  /** An empty bucket under a new key changes nothing the invariant looks at. */
  lemma EmptyBucketWellFormed(st: RegistryState, key: string)
    requires WellFormed(st) && key !in st.pipelines
    ensures WellFormed(st.(pipelines := st.pipelines[key := []]))
  {
    var st' := st.(pipelines := st.pipelines[key := []]);
    assert forall k, i :: Stored(st', k, i) <==> Stored(st, k, i);
    assert forall k, i :: Stored(st, k, i) ==> st'.pipelines[k][i] == st.pipelines[k][i];
    forall id | id in st'.handlerIds ensures HasEntry(st', id) {
      var k, i :| Stored(st, k, i) && st.pipelines[k][i].handlerId == id;
      assert Stored(st', k, i) && st'.pipelines[k][i].handlerId == id;
    }
  }

  /** Inserting a trimmed, enabled pipeline keeps the invariant. */
  lemma InsertWellFormed(st: RegistryState, q: Pipeline)
    requires WellFormed(st) && q.enabled && IsTrimmed(q)
    ensures WellFormed(Insert(st, q))
  {
    var b := Bucket(st, Key(q));
    var n := Compared(b, q);
    if FirstEquivalent(b, q).Some? {
      InsertDuplicate(st, q);
      SameStateWellFormed(Insert(st, q), st);
    } else {
      InsertAppendsShape(st, q);
      SortTouchedSame(b, q, n);
      SameEntryTrimmed(ProbeAfter(b, q, n), q);
      AppendScannedWellFormed(st, Key(q), SortTouched(b, q, n), ProbeAfter(b, q, n).(handlerId := st.nextId));
    }
  }

  /** Adding keeps the registry well formed. */
  lemma AddWellFormed(st: RegistryState, p: Pipeline)
    requires WellFormed(st)
    ensures WellFormed(Add(st, p).0)
  {
    if p.enabled && p.stream != "" {
      InsertWellFormed(st, Trimmed(p));
    }
  }

  /** Removing entry `i` after a scan that only reordered columns keeps the invariant. */
  lemma RemoveScannedWellFormed(st: RegistryState, key: string, scanned: seq<Pipeline>, i: nat)
    requires WellFormed(st) && key in st.pipelines && SameBucket(scanned, st.pipelines[key]) && i < |scanned|
    ensures WellFormed(RegistryState(st.pipelines[key := RemoveAt(scanned, i)],
                                     st.handlerIds - {st.pipelines[key][i].handlerId}, st.nextId))
  {
    var mid := st.(pipelines := st.pipelines[key := scanned]);
    ReplaceBucketSame(st, key, scanned);
    SameStateWellFormed(mid, st);
    RemoveAtWellFormed(mid, key, i);
    assert mid.pipelines[key][i].handlerId == st.pipelines[key][i].handlerId;
    assert mid.pipelines[key := RemoveAt(scanned, i)] == st.pipelines[key := RemoveAt(scanned, i)];
    assert RemovedAt(mid, key, i)
        == RegistryState(st.pipelines[key := RemoveAt(scanned, i)], st.handlerIds - {st.pipelines[key][i].handlerId}, st.nextId);
  }

  /** Removing keeps the registry well formed. */
  lemma RemoveWellFormed(st: RegistryState, p: Pipeline)
    requires WellFormed(st)
    ensures WellFormed(Remove(st, p))
  {
    var key := Key(p);
    if key in st.pipelines {
      var b := st.pipelines[key];
      var n := Compared(b, p);
      SortTouchedSame(b, p, n);
      if FirstEquivalent(b, p).Some? {
        RemoveScannedWellFormed(st, key, SortTouched(b, p, n), FirstEquivalent(b, p).value);
      } else {
        ReplaceBucketSame(st, key, SortTouched(b, p, n));
        SameStateWellFormed(st.(pipelines := st.pipelines[key := SortTouched(b, p, n)]), st);
      }
    }
  }

  /** The next handler id is not in use. */
  lemma FreshId(st: RegistryState)
    requires WellFormed(st)
    ensures st.nextId !in st.handlerIds
  {
    assert st.nextId in st.handlerIds ==> HasEntry(st, st.nextId);
  }

  lemma SameStateReflexive(st: RegistryState)
    ensures SameState(st, st)
  {
  }

  /** Removal does not trim: a stream with white space at either end matches
      nothing in a well-formed registry. */
  lemma RemoveUntrimmed(st: RegistryState, p: Pipeline)
    requires WellFormed(st) && !NoOuterSpace(p.stream)
    ensures SameState(Remove(st, p), st)
  {
    var key := Key(p);
    RemoveTakesFirst(st, p);
    if key in st.pipelines {
      var b := st.pipelines[key];
      forall j | 0 <= j < |b| ensures !Equivalent(b[j], p) {
        assert Stored(st, key, j);
      }
    } else {
      SameStateReflexive(st);
    }
  }

  lemma SameBucketTransitive(x: seq<Pipeline>, y: seq<Pipeline>, z: seq<Pipeline>)
    requires SameBucket(x, y) && SameBucket(y, z)
    ensures SameBucket(x, z)
  {
    forall j | 0 <= j < |x| ensures SameEntry(x[j], z[j]) {
      assert SameEntry(x[j], y[j]) && SameEntry(y[j], z[j]);
    }
  }

  /** Removing a pipeline just added to a well-formed registry restores every
      bucket up to column order and the set of handler ids; only the id
      counter has moved on (and the key stays, possibly with no pipelines). */
  lemma AddThenRemove(st: RegistryState, p: Pipeline)
    requires WellFormed(st)
    requires p.enabled && p.stream != "" && IsTrimmed(p)
    requires forall j :: 0 <= j < |Bucket(st, Key(p))| ==> !Equivalent(Bucket(st, Key(p))[j], p)
    ensures var key := Key(p); var st' := Remove(Add(st, p).0, p);
      && st'.pipelines.Keys == st.pipelines.Keys + {key}
      && (forall k :: k in st.pipelines && k != key ==> st'.pipelines[k] == st.pipelines[k])
      && SameBucket(st'.pipelines[key], Bucket(st, key))
      && st'.handlerIds == st.handlerIds
      && st'.nextId == st.nextId + 1
  {
    FreshId(st);
    assert Add(st, p).0 == Insert(st, p);
    InsertThenRemove(st, p);
  }

  lemma InsertThenRemove(st: RegistryState, p: Pipeline)
    requires st.nextId !in st.handlerIds
    requires forall j :: 0 <= j < |Bucket(st, Key(p))| ==> !Equivalent(Bucket(st, Key(p))[j], p)
    ensures var key := Key(p); var st' := Remove(Insert(st, p), p);
      && st'.pipelines.Keys == st.pipelines.Keys + {key}
      && (forall k :: k in st.pipelines && k != key ==> st'.pipelines[k] == st.pipelines[k])
      && SameBucket(st'.pipelines[key], Bucket(st, key))
      && st'.handlerIds == st.handlerIds
      && st'.nextId == st.nextId + 1
  {
    var key := Key(p);
    var b := Bucket(st, key);
    var st1 := Insert(st, p);
    InsertAppends(st, p);
    InsertedIsFirst(st, p);
    var b1 := st1.pipelines[key];
    RemoveFound(st1, p, |b|);
    var st2 := Remove(st1, p);
    assert RemoveAt(b1, |b|) == b1[..|b|];
    SameBucketTransitive(st2.pipelines[key], b1[..|b|], b);
    assert b1[|b|].handlerId == st.nextId;
    assert st2.handlerIds == (st.handlerIds + {st.nextId}) - {st.nextId};
  }

  /** The pipeline just inserted is the first one under its key it is equivalent to. */
  lemma InsertedIsFirst(st: RegistryState, p: Pipeline)
    requires forall j :: 0 <= j < |Bucket(st, Key(p))| ==> !Equivalent(Bucket(st, Key(p))[j], p)
    ensures Key(p) in Insert(st, p).pipelines
    ensures |Insert(st, p).pipelines[Key(p)]| == |Bucket(st, Key(p))| + 1
    ensures FirstEquivalent(Bucket(Insert(st, p), Key(p)), p) == Some(|Bucket(st, Key(p))|)
  {
    var key := Key(p);
    var b := Bucket(st, key);
    InsertAppends(st, p);
    var b1 := Insert(st, p).pipelines[key];
    assert Bucket(Insert(st, p), key) == b1;
    forall j | 0 <= j < |b| ensures !Equivalent(b1[j], p) {
      assert b1[..|b|][j] == b1[j];
      assert SameEntry(b1[j], b[j]);
    }
    assert Equivalent(b1[|b|], p);
    FirstIs(b1, p, |b|);
  }

  // ----- listing -----

  /** `order` lists every key of `m` exactly once: a Go map iteration order. */
  predicate ListsKeys(order: seq<string>, m: map<string, seq<Pipeline>>) {
    NoDuplicates(order) && (forall k :: k in order ==> k in m) && (forall k :: k in m ==> k in order)
  }

  /** The buckets of the keys in `order`, concatenated in that order. */
  function Flatten(m: map<string, seq<Pipeline>>, order: seq<string>): seq<Pipeline>
    requires forall k :: k in order ==> k in m
  {
    if order == [] then []
    else Flatten(m, order[..|order| - 1]) + m[order[|order| - 1]]
  }

  /** The concatenation holds exactly the pipelines of the listed buckets. */
  lemma {:induction false} FlattenMembers(m: map<string, seq<Pipeline>>, order: seq<string>)
    requires forall k :: k in order ==> k in m
    ensures forall x :: x in Flatten(m, order) <==> exists k :: k in order && x in m[k]
  {
    if order != [] {
      var init, last := order[..|order| - 1], order[|order| - 1];
      FlattenMembers(m, init);
      assert order == init + [last];
      assert forall k :: k in order <==> k in init || k == last;
    }
  }

  lemma FlattenAppend(m: map<string, seq<Pipeline>>, order: seq<string>, k: string)
    requires forall k' :: k' in order ==> k' in m
    requires k in m
    ensures Flatten(m, order + [k]) == Flatten(m, order) + m[k]
  {
    assert (order + [k])[..|order|] == order;
  }

  /** Leaving out one key leaves out exactly its bucket. */
  lemma {:induction false} FlattenRemove(m: map<string, seq<Pipeline>>, order: seq<string>, i: nat)
    requires forall k :: k in order ==> k in m
    requires i < |order|
    ensures multiset(Flatten(m, order)) == multiset(m[order[i]]) + multiset(Flatten(m, RemoveAt(order, i)))
  {
    var n := |order|;
    var init, last := order[..n - 1], order[n - 1];
    assert order == init + [last];
    FlattenAppend(m, init, last);
    if i == n - 1 {
      assert RemoveAt(order, i) == init;
    } else {
      RemoveAtSnoc(order, i);
      RemoveAtIn(init, i);
      FlattenAppend(m, RemoveAt(init, i), last);
      assert init[i] == order[i];
      FlattenRemove(m, init, i);
      MultisetSnoc(Flatten(m, init), m[order[i]], Flatten(m, RemoveAt(init, i)), m[last]);
    }
  }

  lemma MultisetSnoc(a: seq<Pipeline>, x: seq<Pipeline>, b: seq<Pipeline>, l: seq<Pipeline>)
    requires multiset(a) == multiset(x) + multiset(b)
    ensures multiset(a + l) == multiset(x) + multiset(b + l)
  {
  }

  /** Which key order the map is walked in changes the listing only by a permutation. */
  lemma {:induction false} FlattenOrderIrrelevant(m: map<string, seq<Pipeline>>, o1: seq<string>, o2: seq<string>)
    requires NoDuplicates(o1) && NoDuplicates(o2)
    requires forall k :: k in o1 <==> k in o2
    requires forall k :: k in o1 ==> k in m
    ensures multiset(Flatten(m, o1)) == multiset(Flatten(m, o2))
    decreases |o1|
  {
    if o1 == [] {
      if o2 != [] {
        HeadIn(o2);
        assert false;
      }
    } else {
      var n := |o1|;
      var last := o1[n - 1];
      assert last in o2;
      var i :| 0 <= i < |o2| && o2[i] == last;
      var init, rest := RemoveAt(o1, n - 1), RemoveAt(o2, i);
      SameElementsRemove(o1, n - 1, o2, i);
      RemoveAtNoDuplicates(o1, n - 1);
      RemoveAtNoDuplicates(o2, i);
      RemoveAtIn(o1, n - 1);
      FlattenOrderIrrelevant(m, init, rest);
      FlattenRemove(m, o1, n - 1);
      FlattenRemove(m, o2, i);
    }
  }

  function MapToApi(s: seq<Pipeline>): (r: seq<ApiPipeline>)
    ensures |r| == |s| && forall i :: 0 <= i < |s| ==> r[i] == ToApi(s[i])
  {
    seq(|s|, i requires 0 <= i < |s| => ToApi(s[i]))
  }

  lemma MapToApiAppend(a: seq<Pipeline>, b: seq<Pipeline>)
    ensures MapToApi(a + b) == MapToApi(a) + MapToApi(b)
  {
  }

  /** Converting equal multisets of pipelines gives equal multisets. */
  lemma MapToApiRemove(b: seq<Pipeline>, i: nat)
    requires i < |b|
    ensures multiset(MapToApi(b)) == multiset{ToApi(b[i])} + multiset(MapToApi(RemoveAt(b, i)))
  {
    assert b == b[..i] + [b[i]] + b[i + 1..];
    MapToApiAppend(b[..i] + [b[i]], b[i + 1..]);
    MapToApiAppend(b[..i], [b[i]]);
    MapToApiAppend(b[..i], b[i + 1..]);
  }

  lemma RemoveAtMultiset(b: seq<Pipeline>, i: nat)
    requires i < |b|
    ensures multiset(RemoveAt(b, i)) == multiset(b) - multiset{b[i]}
  {
    assert b == b[..i] + [b[i]] + b[i + 1..];
  }

  /** Converting equal multisets of pipelines gives equal multisets. */
  lemma {:induction false} MapToApiMultiset(a: seq<Pipeline>, b: seq<Pipeline>)
    requires multiset(a) == multiset(b)
    ensures multiset(MapToApi(a)) == multiset(MapToApi(b))
    decreases |a|
  {
    if a != [] {
      assert a[0] in multiset(b);
      var i :| 0 <= i < |b| && b[i] == a[0];
      assert a == [a[0]] + a[1..];
      RemoveAtMultiset(b, i);
      assert multiset(a[1..]) == multiset(RemoveAt(b, i));
      MapToApiMultiset(a[1..], RemoveAt(b, i));
      MapToApiAppend([a[0]], a[1..]);
      assert MapToApi(a) == MapToApi([a[0]]) + MapToApi(a[1..]);
      assert MapToApi([a[0]]) == [ToApi(a[0])];
      assert multiset(MapToApi(a)) == multiset{ToApi(a[0])} + multiset(MapToApi(a[1..]));
      MapToApiRemove(b, i);
    } else {
      assert |b| == |multiset(b)|;
    }
  }

  /** The less function given to `sort.Slice` in `copyApiPipelines`: by schema,
      then by table; the third test repeats the first and never decides. */
  predicate ApiLess(a: ApiPipeline, b: ApiPipeline) {
    if a.schema != b.schema then Less(a.schema, b.schema)
    else if a.table != b.table then Less(a.table, b.table)
    else if a.schema != b.schema then Less(a.schema, b.schema)
    else false
  }

  /** The order `sort.Slice` establishes: no later element is less than an earlier one. */
  predicate ApiLe(a: ApiPipeline, b: ApiPipeline) {
    !ApiLess(b, a)
  }

  /** `ApiLe` is the lexicographic order on schema and table. */
  lemma ApiLeLexicographic(a: ApiPipeline, b: ApiPipeline)
    ensures ApiLe(a, b) <==> Less(a.schema, b.schema) || (a.schema == b.schema && LessEq(a.table, b.table))
  {
    LessTrichotomy(a.schema, b.schema);
    LessTrichotomy(a.table, b.table);
  }

  lemma ApiLeTotalPreorder()
    ensures TotalPreorder(ApiLe)
  {
    forall a, b ensures ApiLe(a, b) || ApiLe(b, a) {
      LessTrichotomy(a.schema, b.schema);
      LessTrichotomy(a.table, b.table);
    }
    forall a, b, c | ApiLe(a, b) && ApiLe(b, c) ensures ApiLe(a, c) {
      ApiLeTransitive(a, b, c);
    }
  }

  lemma ApiLeTransitive(a: ApiPipeline, b: ApiPipeline, c: ApiPipeline)
    requires ApiLe(a, b) && ApiLe(b, c)
    ensures ApiLe(a, c)
  {
    ApiLeLexicographic(a, b);
    ApiLeLexicographic(b, c);
    ApiLeLexicographic(a, c);
    LessEqIsTotalOrder();
    if Less(a.schema, b.schema) && Less(b.schema, c.schema) {
      LessTransitive(a.schema, b.schema, c.schema);
    }
  }

  /** A listing sorted by `ApiLe` is ordered by schema, and by table within a schema. */
  lemma ApiSorted(r: seq<ApiPipeline>, i: nat, j: nat)
    requires SortedBy(ApiLe, r) && i < j < |r|
    ensures LessEq(r[i].schema, r[j].schema)
    ensures r[i].schema == r[j].schema ==> LessEq(r[i].table, r[j].table)
  {
    assert ApiLe(r[i], r[j]);
    ApiLeLexicographic(r[i], r[j]);
    LessTrichotomy(r[i].schema, r[j].schema);
  }

  /** The listing of `copyApiPipelines` as a multiset does not depend on the
      map's iteration order. */
  lemma ListingOrderIrrelevant(m: map<string, seq<Pipeline>>, o1: seq<string>, o2: seq<string>)
    requires ListsKeys(o1, m) && ListsKeys(o2, m)
    ensures multiset(MapToApi(Flatten(m, o1))) == multiset(MapToApi(Flatten(m, o2)))
  {
    FlattenOrderIrrelevant(m, o1, o2);
    MapToApiMultiset(Flatten(m, o1), Flatten(m, o2));
  }

  // ----- the registry as the server keeps it -----

  /** `pipelineMap` and the handler registry behind `OnEventReceived` and `RemoveEventHandler`. */
  class Registry {
    var pipelines: map<string, seq<Pipeline>>
    var handlerIds: set<nat>
    var nextId: nat

    function State(): RegistryState
      reads this
    {
      RegistryState(pipelines, handlerIds, nextId)
    }

    constructor ()
      ensures State() == Empty()
    {
      pipelines, handlerIds, nextId := map[], {}, 1;
    }

    /** `AddPipeline`. */
    method AddPipeline(p: Pipeline) returns (err: Option<string>)
      modifies this
      ensures (State(), err) == Add(old(State()), p)
    {
      if !p.enabled {
        return None;
      }
      if p.stream == "" {
        return Some(EMPTY_STREAM_ERROR);
      }
      var cs := TrimColumns(p.condition.columnChanged);
      var q := p.(schema := TrimSpace(p.schema), table := TrimSpace(p.table),
                  typ := TrimSpace(p.typ), stream := TrimSpace(p.stream),
                  condition := Condition(cs));
      assert q == Trimmed(p);
      Store(q);
      return None;
    }

    /** The part of `AddPipeline` under the lock. */
    method Store(q: Pipeline)
      modifies this
      ensures State() == Insert(old(State()), q)
    {
      var key := Key(q);
      var bucket := if key in pipelines then pipelines[key] else [];
      var found, scanned, probe := ScanBucket(bucket, q);
      if found.Some? {
        pipelines := pipelines[key := scanned];
        return;
      }
      var id := nextId;
      handlerIds := handlerIds + {id};
      nextId := nextId + 1;
      pipelines := pipelines[key := scanned + [probe.(handlerId := id)]];
    }

    /** `RemovePipeline`. */
    method RemovePipeline(p: Pipeline)
      modifies this
      ensures State() == Remove(old(State()), p)
    {
      var key := Key(p);
      if key in pipelines {
        var bucket := pipelines[key];
        var found, scanned, probe := ScanBucket(bucket, p);
        if found.Some? {
          var i := found.value;
          handlerIds := handlerIds - {scanned[i].handlerId};
          pipelines := pipelines[key := RemoveAt(scanned, i)];
        } else {
          pipelines := pipelines[key := scanned];
        }
      }
    }

    /** `copyPipelines`: the buckets concatenated in the map's iteration order. */
    method CopyPipelines(order: seq<string>) returns (cp: seq<Pipeline>)
      requires ListsKeys(order, pipelines)
      ensures cp == Flatten(pipelines, order)
      ensures forall x :: x in cp <==> exists k :: k in pipelines && x in pipelines[k]
    {
      cp := [];
      for i := 0 to |order|
        invariant cp == Flatten(pipelines, order[..i])
      {
        assert order[..i + 1][..i] == order[..i];
        cp := cp + pipelines[order[i]];
      }
      assert order[..|order|] == order;
      FlattenMembers(pipelines, order);
    }

    /** `copyApiPipelines`: every stored pipeline in API form, sorted by schema and table. */
    method CopyApiPipelines(order: seq<string>) returns (cp: seq<ApiPipeline>)
      requires ListsKeys(order, pipelines)
      ensures SortedBy(ApiLe, cp)
      ensures multiset(cp) == multiset(MapToApi(Flatten(pipelines, order)))
    {
      cp := [];
      for i := 0 to |order|
        invariant cp == MapToApi(Flatten(pipelines, order[..i]))
      {
        assert order[..i + 1][..i] == order[..i];
        MapToApiAppend(Flatten(pipelines, order[..i]), pipelines[order[i]]);
        cp := cp + MapToApi(pipelines[order[i]]);
      }
      assert order[..|order|] == order;
      ApiLeTotalPreorder();
      SortSorted(ApiLe, cp);
      cp := Sort(ApiLe, cp);
    }
  }

  /** The trimming loop of `AddPipeline` over the condition's columns. */
  method TrimColumns(cs0: seq<string>) returns (cs: seq<string>)
    ensures cs == TrimAll(cs0)
  {
    cs := cs0;
    for i := 0 to |cs|
      invariant |cs| == |cs0|
      invariant forall k :: 0 <= k < i ==> cs[k] == TrimSpace(cs0[k])
      invariant forall k :: i <= k < |cs| ==> cs[k] == cs0[k]
    {
      cs := cs[i := TrimSpace(cs[i])];
    }
  }
}
