/** The event handler `AddPipeline` registers for each pipeline
    (internal/pump/server.go) and its older form without per-stream
    deduplication (pump/server.go). Regular-expression matching is the
    `matches(pattern, text)` parameter, `%v` rendering is `show`, and
    publishing to a stream appends a `Publication` to the output. Which
    mapper `NewMapper()` returns is not visible, so the mapper is a parameter. */
module Handlers {
  import opened Wrappers
  import opened Events
  import opened Mapping
  import opened Filters
  import opened Pipelines

  /** One message sent to an event bus. */
  datatype Publication = Publication(stream: string, event: Emitted)

  /** The schema, table and (when set) type patterns all match the event. */
  predicate Selects(p: Pipeline, matches: (string, string) -> bool, dce: DataChangeEvent) {
    && matches(p.schema, dce.schema)
    && matches(p.table, dce.table)
    && (p.typ == "" || matches(p.typ, dce.typ))
  }

  /** The mapped events that some filter includes, in their original order. */
  function Admitted(fs: seq<Filter>, events: seq<Emitted>): (r: seq<Emitted>)
    ensures |r| <= |events|
  {
    if events == [] then []
    else
      var last := events[|events| - 1];
      var init := events[..|events| - 1];
      Admitted(fs, init) + (if AnyIncludes(fs, last) then [last] else [])
  }

  /** An event is admitted exactly when it is among the input events and some filter includes it. */
  lemma {:induction false} AdmittedMembers(fs: seq<Filter>, events: seq<Emitted>)
    ensures forall e :: e in Admitted(fs, events) <==> e in events && AnyIncludes(fs, e)
    decreases |events|
  {
    if events != [] {
      var last := events[|events| - 1];
      var init := events[..|events| - 1];
      AdmittedMembers(fs, init);
      assert init + [last] == events;
    }
  }

  /** Filtering keeps duplicates: each event occurs in the result exactly as
      often as in the input when some filter includes it, and never otherwise. */
  lemma {:induction false} AdmittedCounts(fs: seq<Filter>, events: seq<Emitted>)
    ensures forall e :: multiset(Admitted(fs, events))[e] == if AnyIncludes(fs, e) then multiset(events)[e] else 0
    decreases |events|
  {
    if events != [] {
      var last := events[|events| - 1];
      var init := events[..|events| - 1];
      AdmittedCounts(fs, init);
      assert init + [last] == events;
    }
  }

  /** Filtering keeps the order: filtering a concatenation concatenates the
      filtered parts, so with `AdmittedOne` this determines `Admitted`. */
  lemma {:induction false} AdmittedAppend(fs: seq<Filter>, a: seq<Emitted>, b: seq<Emitted>)
    ensures Admitted(fs, a + b) == Admitted(fs, a) + Admitted(fs, b)
    decreases |b|
  {
    if b == [] {
      assert a + b == a;
    } else {
      var init := b[..|b| - 1];
      AdmittedAppend(fs, a, init);
      SnocSplit(a, b);
      AdmittedSnoc(fs, a + b);
      AdmittedSnoc(fs, b);
    }
  }

  lemma AdmittedSnoc(fs: seq<Filter>, s: seq<Emitted>)
    requires s != []
    ensures Admitted(fs, s) == Admitted(fs, s[..|s| - 1]) + (if AnyIncludes(fs, s[|s| - 1]) then [s[|s| - 1]] else [])
  {
  }

  lemma SnocSplit(a: seq<Emitted>, b: seq<Emitted>)
    requires b != []
    ensures (a + b)[..|a + b| - 1] == a + b[..|b| - 1]
    ensures (a + b)[|a + b| - 1] == b[|b| - 1]
  {
  }

  /** A single event is kept exactly when some filter includes it. */
  lemma AdmittedOne(fs: seq<Filter>, e: Emitted)
    ensures Admitted(fs, [e]) == if AnyIncludes(fs, e) then [e] else []
  {
    assert [e][..0] == [];
  }

  /** Every event sent to `stream`, in order. */
  function Publish(stream: string, events: seq<Emitted>): (r: seq<Publication>)
    ensures |r| == |events|
    ensures forall i :: 0 <= i < |r| ==> r[i] == Publication(stream, events[i])
  {
    seq(|events|, i requires 0 <= i < |events| => Publication(stream, events[i]))
  }

  /** The handler of `p` on one event: what it publishes, and the streams
      dispatched so far (`StreamDispatched`) after it ran. */
  function Handle(p: Pipeline, mapper: Mapper, matches: (string, string) -> bool, show: Value -> string,
                  dce: DataChangeEvent, dispatched: set<string>): (r: (seq<Publication>, set<string>))
  {
    if !Selects(p, matches, dce) then ([], dispatched)
    else
      var events := MapEvent(mapper, dce, show);
      if p.stream in dispatched then ([], dispatched)
      else
        var out := Admitted(NewFilters(p), events);
        (Publish(p.stream, out), if out == [] then dispatched else dispatched + {p.stream})
  }

  /** The handler's decision: nothing happens unless the patterns match and the
      stream has not been dispatched; then exactly the mapped events some
      filter includes are published on the pipeline's stream, and the stream
      becomes dispatched exactly when something was published. */
  lemma HandleDecision(p: Pipeline, mapper: Mapper, matches: (string, string) -> bool, show: Value -> string,
                       dce: DataChangeEvent, dispatched: set<string>)
    ensures var r := Handle(p, mapper, matches, show, dce, dispatched);
      && (!Selects(p, matches, dce) || p.stream in dispatched ==> r == ([], dispatched))
      && (forall x :: x in r.0 ==> x.stream == p.stream)
      && r.1 == (if r.0 == [] then dispatched else dispatched + {p.stream})
      && (Selects(p, matches, dce) && p.stream !in dispatched ==>
            r.0 == Publish(p.stream, Admitted(NewFilters(p), MapEvent(mapper, dce, show))))
      && (Selects(p, matches, dce) && p.stream !in dispatched ==>
            forall e :: Publication(p.stream, e) in r.0 <==>
              e in MapEvent(mapper, dce, show) && AnyIncludes(NewFilters(p), e))
  {
    var r := Handle(p, mapper, matches, show, dce, dispatched);
    if Selects(p, matches, dce) && p.stream !in dispatched {
      var out := Admitted(NewFilters(p), MapEvent(mapper, dce, show));
      AdmittedMembers(NewFilters(p), MapEvent(mapper, dce, show));
      forall e ensures Publication(p.stream, e) in r.0 <==> e in out {
        if e in out {
          var i :| 0 <= i < |out| && out[i] == e;
          assert r.0[i] == Publication(p.stream, e);
        }
      }
    }
  }

  /** A handler that publishes found its stream undispatched and marks it. */
  lemma HandleMarks(p: Pipeline, mapper: Mapper, matches: (string, string) -> bool, show: Value -> string,
                    dce: DataChangeEvent, dispatched: set<string>)
    ensures var r := Handle(p, mapper, matches, show, dce, dispatched);
      && r.1 == (if r.0 == [] then dispatched else dispatched + {p.stream})
      && (r.0 != [] ==> p.stream !in dispatched)
  {
  }

  /** The handlers of several pipelines run in order on one event, sharing the
      dispatched streams; `r.0[i]` is what pipeline `i` published. */
  function HandleAll(ps: seq<Pipeline>, mapper: Mapper, matches: (string, string) -> bool, show: Value -> string,
                     dce: DataChangeEvent, dispatched: set<string>): (r: (seq<seq<Publication>>, set<string>))
    ensures |r.0| == |ps|
  {
    if ps == [] then ([], dispatched)
    else
      var before := HandleAll(ps[..|ps| - 1], mapper, matches, show, dce, dispatched);
      var last := Handle(ps[|ps| - 1], mapper, matches, show, dce, before.1);
      (before.0 + [last.0], last.1)
  }

  /** Running one more handler appends what it published. */
  lemma HandleAllSnoc(ps: seq<Pipeline>, mapper: Mapper, matches: (string, string) -> bool,
                      show: Value -> string, dce: DataChangeEvent, dispatched: set<string>)
    requires ps != []
    ensures var before := HandleAll(ps[..|ps| - 1], mapper, matches, show, dce, dispatched);
      var last := Handle(ps[|ps| - 1], mapper, matches, show, dce, before.1);
      HandleAll(ps, mapper, matches, show, dce, dispatched) == (before.0 + [last.0], last.1)
  {
  }

  /** The streams some pipeline published on, `pubs[i]` being what `ps[i]` published. */
  function Published(ps: seq<Pipeline>, pubs: seq<seq<Publication>>): (r: set<string>)
    requires |pubs| == |ps|
    ensures forall s :: s in r <==> exists i :: 0 <= i < |ps| && pubs[i] != [] && ps[i].stream == s
  {
    set i | 0 <= i < |ps| && pubs[i] != [] :: ps[i].stream
  }

  lemma PublishedSnoc(ps: seq<Pipeline>, pubs: seq<seq<Publication>>, p: Pipeline, last: seq<Publication>)
    requires |pubs| == |ps|
    ensures Published(ps + [p], pubs + [last]) == Published(ps, pubs) + (if last != [] then {p.stream} else {})
  {
    var ps', pubs' := ps + [p], pubs + [last];
    forall s | s in Published(ps', pubs') ensures s in Published(ps, pubs) + (if last != [] then {p.stream} else {}) {
      var i :| 0 <= i < |ps'| && pubs'[i] != [] && ps'[i].stream == s;
      if i < |ps| {
        assert pubs[i] != [] && ps[i].stream == s;
      }
    }
    forall s | s in Published(ps, pubs) ensures s in Published(ps', pubs') {
      var i :| 0 <= i < |ps| && pubs[i] != [] && ps[i].stream == s;
      assert pubs'[i] != [] && ps'[i].stream == s;
    }
    if last != [] {
      assert pubs'[|ps|] != [] && ps'[|ps|].stream == p.stream;
    }
  }

  /** The streams dispatched after all handlers: those before, plus each stream
      some pipeline published on. */
  lemma {:induction false} HandleAllDispatched(ps: seq<Pipeline>, mapper: Mapper, matches: (string, string) -> bool,
                                               show: Value -> string, dce: DataChangeEvent, dispatched: set<string>)
    ensures var r := HandleAll(ps, mapper, matches, show, dce, dispatched);
      r.1 == dispatched + Published(ps, r.0)
  {
    if ps != [] {
      var n := |ps|;
      var init := ps[..n - 1];
      HandleAllDispatched(init, mapper, matches, show, dce, dispatched);
      var before := HandleAll(init, mapper, matches, show, dce, dispatched);
      var last := Handle(ps[n - 1], mapper, matches, show, dce, before.1);
      HandleMarks(ps[n - 1], mapper, matches, show, dce, before.1);
      HandleAllSnoc(ps, mapper, matches, show, dce, dispatched);
      PublishedSnoc(init, before.0, ps[n - 1], last.0);
      assert init + [ps[n - 1]] == ps;
    }
  }

  /** No pipeline published on a stream dispatched beforehand, and no two
      publishing pipelines share a stream. */
  predicate Deduplicated(ps: seq<Pipeline>, pubs: seq<seq<Publication>>, dispatched: set<string>)
    requires |pubs| == |ps|
  {
    && (forall i :: 0 <= i < |ps| && pubs[i] != [] ==> ps[i].stream !in dispatched)
    && (forall i, j :: 0 <= i < j < |ps| && pubs[i] != [] && pubs[j] != [] ==> ps[i].stream != ps[j].stream)
  }

  /** One more pipeline keeps the streams deduplicated when it publishes only
      on a stream nobody has dispatched yet. */
  lemma DeduplicatedSnoc(ps: seq<Pipeline>, pubs: seq<seq<Publication>>, dispatched: set<string>,
                         p: Pipeline, last: seq<Publication>)
    requires |pubs| == |ps| && Deduplicated(ps, pubs, dispatched)
    requires last != [] ==> p.stream !in dispatched + Published(ps, pubs)
    ensures Deduplicated(ps + [p], pubs + [last], dispatched)
  {
    var ps', pubs' := ps + [p], pubs + [last];
    forall i, j | 0 <= i < j < |ps'| && pubs'[i] != [] && pubs'[j] != [] ensures ps'[i].stream != ps'[j].stream {
      if j == |ps| {
        assert ps[i].stream in Published(ps, pubs);
      } else {
        assert pubs[i] != [] && pubs[j] != [];
      }
    }
    forall i | 0 <= i < |ps'| && pubs'[i] != [] ensures ps'[i].stream !in dispatched {
      if i < |ps| {
        assert pubs[i] != [];
      }
    }
  }

  /** Deduplication per stream: of the pipelines sharing a stream, at most one
      publishes an event, and none does when the stream was already dispatched. */
  lemma {:induction false} HandleAllStreams(ps: seq<Pipeline>, mapper: Mapper, matches: (string, string) -> bool,
                                            show: Value -> string, dce: DataChangeEvent, dispatched: set<string>)
    ensures var r := HandleAll(ps, mapper, matches, show, dce, dispatched);
      Deduplicated(ps, r.0, dispatched)
  {
    if ps != [] {
      var n := |ps|;
      var init := ps[..n - 1];
      HandleAllStreams(init, mapper, matches, show, dce, dispatched);
      HandleAllDispatched(init, mapper, matches, show, dce, dispatched);
      var before := HandleAll(init, mapper, matches, show, dce, dispatched);
      var last := Handle(ps[n - 1], mapper, matches, show, dce, before.1);
      HandleMarks(ps[n - 1], mapper, matches, show, dce, before.1);
      HandleAllSnoc(ps, mapper, matches, show, dce, dispatched);
      DeduplicatedSnoc(init, before.0, dispatched, ps[n - 1], last.0);
      assert init + [ps[n - 1]] == ps;
    }
  }

  /** The handler of pump/server.go: the same gates and filters, no deduplication. */
  function LegacyHandle(p: Pipeline, mapper: Mapper, matches: (string, string) -> bool, show: Value -> string,
                        dce: DataChangeEvent): (r: seq<Publication>)
    ensures !Selects(p, matches, dce) ==> r == []
    ensures forall x :: x in r ==> x.stream == p.stream
    ensures Selects(p, matches, dce) ==>
      r == Publish(p.stream, Admitted(NewFilters(p), MapEvent(mapper, dce, show)))
    ensures Selects(p, matches, dce) ==>
      forall e :: Publication(p.stream, e) in r <==> e in MapEvent(mapper, dce, show) && AnyIncludes(NewFilters(p), e)
  {
    if !Selects(p, matches, dce) then []
    else
      var out := Admitted(NewFilters(p), MapEvent(mapper, dce, show));
      AdmittedMembers(NewFilters(p), MapEvent(mapper, dce, show));
      var r := Publish(p.stream, out);
      assert forall e :: Publication(p.stream, e) in r ==> e in out;
      assert forall e :: e in out ==> Publication(p.stream, e) in r by {
        forall e | e in out ensures Publication(p.stream, e) in r {
          var i :| 0 <= i < |out| && out[i] == e;
          assert r[i] == Publication(p.stream, e);
        }
      }
      r
  }

  /** Both handlers publish the same events while the stream is not yet
      dispatched; the newer one publishes nothing once it is. */
  lemma LegacyAgrees(p: Pipeline, mapper: Mapper, matches: (string, string) -> bool, show: Value -> string,
                     dce: DataChangeEvent, dispatched: set<string>)
    ensures p.stream !in dispatched ==> Handle(p, mapper, matches, show, dce, dispatched).0 == LegacyHandle(p, mapper, matches, show, dce)
    ensures p.stream in dispatched ==> Handle(p, mapper, matches, show, dce, dispatched).0 == []
  {
  }

  /** The mapping step of both handlers. */
  method MapWith(mapper: Mapper, dce: DataChangeEvent, show: Value -> string) returns (events: seq<Emitted>, err: Option<string>)
    ensures err == None
    ensures events == MapEvent(mapper, dce, show)
  {
    match mapper
    case StreamMapper =>
      events, err := StreamMapEvent(dce, show);
    case RawMapper =>
      var r := RawMapEvent(dce);
      events, err := r.0, r.1;
  }

  /** The handler closure of internal/pump/server.go `AddPipeline`. */
  method HandleEvent(p: Pipeline, mapper: Mapper, matches: (string, string) -> bool, show: Value -> string,
                     dce: DataChangeEvent, dispatched: set<string>)
    returns (published: seq<Publication>, dispatched': set<string>, err: Option<string>)
    ensures err == None
    ensures (published, dispatched') == Handle(p, mapper, matches, show, dce, dispatched)
  {
    published, dispatched' := [], dispatched;
    if !matches(p.schema, dce.schema) {
      return published, dispatched', None;
    }
    if !matches(p.table, dce.table) {
      return published, dispatched', None;
    }
    if p.typ != "" && !matches(p.typ, dce.typ) {
      return published, dispatched', None;
    }
    var events;
    events, err := MapWith(mapper, dce, show);
    if p.stream in dispatched {
      return published, dispatched', None;
    }
    published, dispatched' := DispatchEvents(p.stream, NewFilters(p), events, dispatched);
  }

  /** The publishing loop of the newer handler: the stream is marked dispatched
      before each publication. */
  method DispatchEvents(stream: string, filters: seq<Filter>, events: seq<Emitted>, dispatched: set<string>)
    returns (published: seq<Publication>, dispatched': set<string>)
    ensures published == Publish(stream, Admitted(filters, events))
    ensures dispatched' == if published == [] then dispatched else dispatched + {stream}
  {
    published, dispatched' := [], dispatched;
    for i := 0 to |events|
      invariant published == Publish(stream, Admitted(filters, events[..i]))
      invariant dispatched' == if published == [] then dispatched else dispatched + {stream}
    {
      assert events[..i + 1][..i] == events[..i];
      var anyMatch := AnyMatch(filters, events[i]);
      if anyMatch {
        dispatched' := dispatched' + {stream};
        published := published + [Publication(stream, events[i])];
      }
    }
    assert events[..|events|] == events;
  }

  /** The handler closure of pump/server.go `AddPipeline`. */
  method LegacyHandleEvent(p: Pipeline, mapper: Mapper, matches: (string, string) -> bool, show: Value -> string,
                           dce: DataChangeEvent)
    returns (published: seq<Publication>, err: Option<string>)
    ensures err == None
    ensures published == LegacyHandle(p, mapper, matches, show, dce)
  {
    published := [];
    if !matches(p.schema, dce.schema) {
      return published, None;
    }
    if !matches(p.table, dce.table) {
      return published, None;
    }
    if p.typ != "" && !matches(p.typ, dce.typ) {
      return published, None;
    }
    var events;
    events, err := MapWith(mapper, dce, show);
    published := PublishEvents(p.stream, NewFilters(p), events);
  }

  /** The publishing loop of the older handler. */
  method PublishEvents(stream: string, filters: seq<Filter>, events: seq<Emitted>) returns (published: seq<Publication>)
    ensures published == Publish(stream, Admitted(filters, events))
  {
    published := [];
    for i := 0 to |events|
      invariant published == Publish(stream, Admitted(filters, events[..i]))
    {
      assert events[..i + 1][..i] == events[..i];
      var anyMatch := AnyMatch(filters, events[i]);
      if anyMatch {
        published := published + [Publication(stream, events[i])];
      }
    }
    assert events[..|events|] == events;
  }
}
