// main.py without the file reads, the prints and the JSON files: the edits partitioned by
// calendar date, one entity graph per day that has an edge, the aggregation of those graphs
// into events, and the edits exported for each event.

module Pipeline {
  import opened Wrappers
  import opened Text
  import opened EditRecords
  import opened GraphBasics
  import Grouping
  import Calendar
  import IG = ImplicitGraph
  import EG = ExplicitGraph
  import Eca
  import EcaProperties

  // ---- edits_by_date ----

  /** The edits of `edits` whose UTC calendar day is d, in input order. */
  function EditsOn(edits: seq<Edit>, d: int): (r: seq<Edit>)
    ensures forall x :: x in r <==> x in edits && IG.Day(x) == d
    ensures |r| <= |edits|
  {
    if edits == [] then []
    else EditsOn(edits[..|edits| - 1], d) + (if IG.Day(edits[|edits| - 1]) == d then [edits[|edits| - 1]] else [])
  }

  /** Each edit is kept in the list of its own day as often as it occurs in the input. */
  lemma {:induction false} EditsOnCount(edits: seq<Edit>, x: Edit)
    ensures multiset(EditsOn(edits, IG.Day(x)))[x] == multiset(edits)[x]
  {
    if edits != [] {
      var init := edits[..|edits| - 1];
      EditsOnCount(init, x);
      assert edits == init + [edits[|edits| - 1]];
    }
  }

  lemma EditsOnNone(edits: seq<Edit>, d: int)
    requires d !in IG.Days(edits)
    ensures EditsOn(edits, d) == []
  {
  }

  lemma EditsOnSnoc(done: seq<Edit>, x: Edit, d: int)
    ensures EditsOn(done + [x], d) == EditsOn(done, d) + (if IG.Day(x) == d then [x] else [])
  {
    assert (done + [x])[..|done|] == done;
  }

  /** byDate is edits_by_date after the edits of `done`. */
  ghost predicate ByDate(done: seq<Edit>, byDate: map<int, seq<Edit>>)
  {
    byDate.Keys == IG.Days(done) && forall d :: d in byDate ==> byDate[d] == EditsOn(done, d)
  }

  /** The loop `edits_by_date[e['timestamp'].date()].append(e)` over all edits. */
  method PartitionByDate(edits: seq<Edit>) returns (byDate: map<int, seq<Edit>>)
    ensures byDate.Keys == IG.Days(edits)
    ensures forall d :: d in byDate ==> byDate[d] == EditsOn(edits, d)
  {
    byDate := map[];
    for i := 0 to |edits|
      invariant ByDate(edits[..i], byDate)
    {
      assert edits[..i + 1] == edits[..i] + [edits[i]];
      byDate := AppendToDay(byDate, edits[..i], edits[i]);
    }
    assert edits[..|edits|] == edits;
  }

  method AppendToDay(byDate: map<int, seq<Edit>>, ghost done: seq<Edit>, x: Edit) returns (byDate': map<int, seq<Edit>>)
    requires ByDate(done, byDate)
    ensures ByDate(done + [x], byDate')
  {
    var day := IG.Day(x);
    var row;
    if day in byDate {
      row := byDate[day] + [x];
    } else {
      EditsOnNone(done, day);
      row := [x];
    }
    byDate' := byDate[day := row];
    IG.DaysSnoc(done, x);
    forall d | d in byDate'
      ensures byDate'[d] == EditsOn(done + [x], d)
    {
      EditsOnSnoc(done, x, d);
    }
  }

  // ---- temporal_graphs ----

  /** burst_map: the burst days of each entity over all its edits; threshold(e) stands for the
      BURST_PERCENTILE-th percentile of e's daily counts. */
  function BurstMap(edits: seq<Edit>, threshold: Entity -> real): (m: map<Entity, set<int>>)
    ensures m.Keys == Entities(edits)
  {
    map e | e in Entities(edits) :: IG.BurstDays(EditsOf(edits, e), threshold(e))
  }

  /** bursts holds the burst days of the entities of `keys`, each over all its edits. */
  ghost predicate BurstsOf(bursts: map<Entity, set<int>>, keys: set<Entity>, burstsOf: Entity -> set<int>)
  {
    bursts.Keys == keys && forall e :: e in bursts ==> bursts[e] == burstsOf(e)
  }

  /** The burst days of one entity over all its edits. */
  function EntityBursts(edits: seq<Edit>, threshold: Entity -> real): Entity -> set<int>
  {
    e => IG.BurstDays(EditsOf(edits, e), threshold(e))
  }

  /** The dict comprehension that builds burst_map, once, over all edits. */
  method DetectAllBursts(edits: seq<Edit>, threshold: Entity -> real) returns (bursts: map<Entity, set<int>>)
    ensures bursts == BurstMap(edits, threshold)
  {
    var byEntity, order := Grouping.GroupByEntity(edits);
    bursts := map[];
    ghost var done: set<Entity> := {};
    for i := 0 to |order|
      invariant done == Elems(order[..i])
      invariant BurstsOf(bursts, done, EntityBursts(edits, threshold))
    {
      bursts := AddBursts(bursts, done, order[i], byEntity[order[i]], edits, threshold);
      ElemsSnoc(order, i);
      done := done + {order[i]};
    }
    assert order[..|order|] == order;
    BurstsOfAll(bursts, edits, threshold);
  }

  function Elems<T>(s: seq<T>): set<T>
  {
    set x | x in s
  }

  lemma ElemsSnoc<T>(s: seq<T>, i: nat)
    requires i < |s|
    ensures Elems(s[..i + 1]) == Elems(s[..i]) + {s[i]}
  {
    assert s[..i + 1] == s[..i] + [s[i]];
  }

  /** One entry `entity: detect_bursts(edits, BURST_PERCENTILE)`. */
  method AddBursts(bursts: map<Entity, set<int>>, ghost done: set<Entity>, e: Entity, xs: seq<Edit>,
                   ghost edits: seq<Edit>, threshold: Entity -> real) returns (bursts': map<Entity, set<int>>)
    requires BurstsOf(bursts, done, EntityBursts(edits, threshold)) && xs == EditsOf(edits, e)
    ensures BurstsOf(bursts', done + {e}, EntityBursts(edits, threshold))
  {
    var b := IG.DetectBursts(xs, threshold(e));
    bursts' := bursts[e := b];
  }

  lemma BurstsOfAll(bursts: map<Entity, set<int>>, edits: seq<Edit>, threshold: Entity -> real)
    requires BurstsOf(bursts, Entities(edits), EntityBursts(edits, threshold))
    ensures bursts == BurstMap(edits, threshold)
  {
  }

  /** The edge pairs of the graph main.py builds for day d: build_explicit_graph or
      build_implicit_graph on that day's edits. */
  function DayPairs(mode: Eca.Strategy, edits: seq<Edit>, d: int, deltaDays: int,
                    bursts: map<Entity, set<int>>, t: real): set<(Entity, Entity)>
  {
    if mode == Eca.Explicit then EG.ExplicitPairs(EditsOn(edits, d), deltaDays)
    else IG.ImplicitPairs(EditsOn(edits, d), bursts, t)
  }

  /** Every key is the ISO key of a day of `done`, and holds a graph with an edge. */
  ghost predicate KeysFrom(graphs: map<string, Graph>, done: set<int>)
  {
    forall k :: k in graphs ==>
      var date := Calendar.ParseDate(k);
      date.Some? && Calendar.Ordinal(date.value) in done
      && 1 <= Calendar.Ordinal(date.value) <= Calendar.MaxOrdinal && k == Calendar.DayKey(Calendar.Ordinal(date.value))
      && NoEmptyRows(graphs[k]) && graphs[k] != map[]
  }

  /** Each day of `done` has an entry, under its ISO key, iff the day's graph has an edge, and the
      entry has exactly the day's edge pairs. */
  ghost predicate DaysDone(graphs: map<string, Graph>, done: set<int>, pairs: int -> set<(Entity, Entity)>)
  {
    forall d :: d in done && 1 <= d <= Calendar.MaxOrdinal ==>
      (Calendar.DayKey(d) in graphs <==> pairs(d) != {})
      && (Calendar.DayKey(d) in graphs ==> Pairs(graphs[Calendar.DayKey(d)]) == pairs(d))
  }

  /** DayPairs as a function of the day. */
  function PairsByDay(mode: Eca.Strategy, edits: seq<Edit>, deltaDays: int, bursts: map<Entity, set<int>>, t: real)
    : int -> set<(Entity, Entity)>
  {
    d => DayPairs(mode, edits, d, deltaDays, bursts, t)
  }

  predicate ValidEdits(edits: seq<Edit>)
  {
    forall x :: x in edits ==> Calendar.ValidTimestamp(x.timestamp)
  }

  lemma DaysValid(edits: seq<Edit>)
    requires ValidEdits(edits)
    ensures forall d :: d in IG.Days(edits) ==> 1 <= d <= Calendar.MaxOrdinal
  {
    forall d | d in IG.Days(edits)
      ensures 1 <= d <= Calendar.MaxOrdinal
    {
      var x :| x in edits && IG.Day(x) == d;
      Calendar.DayOfValid(x.timestamp);
    }
  }

  /** The explicit or implicit branch of main.py: one graph per day that has an edge, keyed by
      str(day); the burst map is computed once, over all edits. */
  method TemporalGraphs(edits: seq<Edit>, mode: Eca.Strategy, deltaDays: int, threshold: Entity -> real, t: real)
    returns (graphs: map<string, Graph>)
    requires ValidEdits(edits)
    ensures KeysFrom(graphs, IG.Days(edits))
    ensures DaysDone(graphs, IG.Days(edits), PairsByDay(mode, edits, deltaDays, BurstMap(edits, threshold), t))
  {
    var byDate := PartitionByDate(edits);
    DaysValid(edits);
    if mode == Eca.Implicit {
      var bursts := DetectAllBursts(edits, threshold);
      graphs := AddDays(byDate, edits, mode, deltaDays, bursts, t);
    } else {
      graphs := AddDays(byDate, edits, mode, deltaDays, map[], t);
      ExplicitIgnoresBursts(graphs, IG.Days(edits), edits, deltaDays, BurstMap(edits, threshold), t);
    }
  }

  /** The explicit graphs do not depend on the burst map. */
  lemma ExplicitIgnoresBursts(graphs: map<string, Graph>, done: set<int>, edits: seq<Edit>, deltaDays: int,
                              bursts: map<Entity, set<int>>, t: real)
    requires DaysDone(graphs, done, PairsByDay(Eca.Explicit, edits, deltaDays, map[], t))
    ensures DaysDone(graphs, done, PairsByDay(Eca.Explicit, edits, deltaDays, bursts, t))
  {
  }

  /** The loop `for day, edits in edits_by_date.items()`, in any order of the days. */
  method AddDays(byDate: map<int, seq<Edit>>, ghost edits: seq<Edit>, mode: Eca.Strategy, deltaDays: int,
                 bursts: map<Entity, set<int>>, t: real) returns (graphs: map<string, Graph>)
    requires forall d :: d in byDate ==> 1 <= d <= Calendar.MaxOrdinal && byDate[d] == EditsOn(edits, d)
    requires mode == Eca.Implicit ==> forall x :: x in edits ==> x.entity in bursts
    ensures KeysFrom(graphs, byDate.Keys) && DaysDone(graphs, byDate.Keys, PairsByDay(mode, edits, deltaDays, bursts, t))
  {
    graphs := map[];
    var todo := byDate.Keys;
    ghost var done: set<int> := {};
    while todo != {}
      invariant done + todo == byDate.Keys && done !! todo
      invariant KeysFrom(graphs, done) && DaysDone(graphs, done, PairsByDay(mode, edits, deltaDays, bursts, t))
      decreases todo
    {
      var d := Pick(todo);
      graphs := AddDay(graphs, done, byDate[d], d, mode, edits, deltaDays, bursts, t);
      done, todo := done + {d}, todo - {d};
    }
  }

  /** One day of the loop: build the day's graph and keep it when it is non-empty. */
  method AddDay(graphs: map<string, Graph>, ghost done: set<int>, dayEdits: seq<Edit>, d: int, mode: Eca.Strategy,
                ghost edits: seq<Edit>, deltaDays: int, bursts: map<Entity, set<int>>, t: real)
    returns (graphs': map<string, Graph>)
    requires 1 <= d <= Calendar.MaxOrdinal && d !in done && dayEdits == EditsOn(edits, d)
    requires mode == Eca.Implicit ==> forall x :: x in edits ==> x.entity in bursts
    requires KeysFrom(graphs, done) && DaysDone(graphs, done, PairsByDay(mode, edits, deltaDays, bursts, t))
    ensures KeysFrom(graphs', done + {d}) && DaysDone(graphs', done + {d}, PairsByDay(mode, edits, deltaDays, bursts, t))
  {
    var g := DayGraph(dayEdits, d, mode, edits, deltaDays, bursts, t);
    NonEmptyIffEdge(g);
    ghost var pairs := PairsByDay(mode, edits, deltaDays, bursts, t);
    assert Pairs(g) == pairs(d);
    if g != map[] {
      graphs' := graphs[Calendar.DayKey(d) := g];
      KeysFromAdd(graphs, done, d, g);
      DaysDoneInsert(graphs, done, d, g, pairs);
    } else {
      graphs' := graphs;
      KeysFromGrow(graphs, done, d);
      FreshKey(graphs, done, d);
    }
  }

  /** build_explicit_graph(edits, delta_days=DELTA_DAYS) or
      build_implicit_graph(edits, burst_map, SIMILARITY_THRESHOLD) on one day's edits. */
  method DayGraph(dayEdits: seq<Edit>, d: int, mode: Eca.Strategy, ghost edits: seq<Edit>, deltaDays: int,
                  bursts: map<Entity, set<int>>, t: real) returns (g: Graph)
    requires dayEdits == EditsOn(edits, d)
    requires mode == Eca.Implicit ==> forall x :: x in edits ==> x.entity in bursts
    ensures NoEmptyRows(g) && Pairs(g) == DayPairs(mode, edits, d, deltaDays, bursts, t)
  {
    if mode == Eca.Explicit {
      g := EG.BuildExplicitGraph(dayEdits, deltaDays);
    } else {
      g := IG.BuildImplicitGraph(dayEdits, bursts, t);
    }
  }

  lemma KeysFromGrow(graphs: map<string, Graph>, done: set<int>, d: int)
    requires KeysFrom(graphs, done)
    ensures KeysFrom(graphs, done + {d})
  {
  }

  /** A new day's key is not yet taken: keys are the ISO keys of the days done. */
  lemma FreshKey(graphs: map<string, Graph>, done: set<int>, d: int)
    requires KeysFrom(graphs, done) && 1 <= d <= Calendar.MaxOrdinal && d !in done
    ensures Calendar.DayKey(d) !in graphs
  {
    var key := Calendar.DayKey(d);
    if key in graphs {
      var n := Calendar.Ordinal(Calendar.ParseDate(key).value);
      Calendar.DayKeyInjective(n, d);
    }
  }

  lemma KeysFromAdd(graphs: map<string, Graph>, done: set<int>, d: int, g: Graph)
    requires KeysFrom(graphs, done) && 1 <= d <= Calendar.MaxOrdinal
    requires NoEmptyRows(g) && g != map[]
    ensures KeysFrom(graphs[Calendar.DayKey(d) := g], done + {d})
  {
    Calendar.DayKeyRoundTrip(d);
  }

  lemma DaysDoneInsert(graphs: map<string, Graph>, done: set<int>, d: int, g: Graph, pairs: int -> set<(Entity, Entity)>)
    requires 1 <= d <= Calendar.MaxOrdinal && d !in done
    requires KeysFrom(graphs, done) && DaysDone(graphs, done, pairs)
    requires Pairs(g) == pairs(d) && Pairs(g) != {}
    ensures DaysDone(graphs[Calendar.DayKey(d) := g], done + {d}, pairs)
  {
    forall d' | d' in done && 1 <= d' <= Calendar.MaxOrdinal
      ensures Calendar.DayKey(d') != Calendar.DayKey(d)
    {
      Calendar.DayKeyInjective(d', d);
    }
  }

  // ---- the edits of each event ----

  /** One record of event_<id>.json; the timestamp stays in seconds rather than str(ts). */
  datatype Exported = Exported(text: string, timestamp: int, entity: Entity, eventId: nat)

  /** An edit belongs to an event when its entity is in the event, its day lies between the
      start and end days inclusive, and ' '.join of its added lines is not blank. */
  predicate InEvent(x: Edit, entities: set<Entity>, lo: int, hi: int)
  {
    x.entity in entities && lo <= IG.Day(x) <= hi && Strip(Join(x.added, " ")) != []
  }

  function Export(x: Edit, id: nat): Exported
  {
    Exported(Join(x.added, " "), x.timestamp, x.entity, id)
  }

  /** The selected edits of `edits`, exported in input order. */
  function EventEdits(edits: seq<Edit>, entities: set<Entity>, lo: int, hi: int, id: nat): (r: seq<Exported>)
    ensures |r| <= |edits|
    ensures forall x :: x in edits && InEvent(x, entities, lo, hi) ==> Export(x, id) in r
    ensures forall o :: o in r ==> o.eventId == id && o.entity in entities && !IsBlank(o.text)
  {
    if edits == [] then []
    else
      var x := edits[|edits| - 1];
      StripEmptyIffBlank(Join(x.added, " "));
      EventEdits(edits[..|edits| - 1], entities, lo, hi, id) + (if InEvent(x, entities, lo, hi) then [Export(x, id)] else [])
  }

  /** The export keeps the order of all_edits: exporting a concatenation concatenates the parts. */
  lemma {:induction false} EventEditsAppend(a: seq<Edit>, b: seq<Edit>, entities: set<Entity>, lo: int, hi: int, id: nat)
    ensures EventEdits(a + b, entities, lo, hi, id) == EventEdits(a, entities, lo, hi, id) + EventEdits(b, entities, lo, hi, id)
    decreases |b|
  {
    if b == [] {
      assert a + b == a;
    } else {
      var b' := b[..|b| - 1];
      assert (a + b)[..|a + b| - 1] == a + b';
      EventEditsAppend(a, b', entities, lo, hi, id);
    }
  }

  /** Every exported record comes from a selected edit. */
  lemma {:induction false} ExportedFrom(edits: seq<Edit>, entities: set<Entity>, lo: int, hi: int, id: nat, o: Exported)
    returns (x: Edit)
    requires o in EventEdits(edits, entities, lo, hi, id)
    ensures x in edits && InEvent(x, entities, lo, hi) && o == Export(x, id)
  {
    var init, last := edits[..|edits| - 1], edits[|edits| - 1];
    assert edits == init + [last];
    var r0 := EventEdits(init, entities, lo, hi, id);
    assert EventEdits(edits, entities, lo, hi, id) == r0 + (if InEvent(last, entities, lo, hi) then [Export(last, id)] else []);
    if o in r0 {
      x := ExportedFrom(init, entities, lo, hi, id, o);
    } else {
      x := last;
    }
  }

  /** The inner loop of main.py for one event: None when start or end is not a %Y-%m-%d date
      (strptime raises), else the selected edits. */
  method ExportEvent(allEdits: seq<Edit>, e: Eca.EventRec, id: nat) returns (out: Option<seq<Exported>>)
    ensures out.None? <==> Calendar.ParseDate(e.start).None? || Calendar.ParseDate(e.end).None?
    ensures out.Some? ==> out.value == EventEdits(allEdits, e.entities, Calendar.Ordinal(Calendar.ParseDate(e.start).value),
                                                  Calendar.Ordinal(Calendar.ParseDate(e.end).value), id)
  {
    var start := Calendar.ParseDate(e.start);
    var end := Calendar.ParseDate(e.end);
    if start.None? || end.None? {
      return None;
    }
    var lo, hi := Calendar.Ordinal(start.value), Calendar.Ordinal(end.value);
    var eventEdits := [];
    for i := 0 to |allEdits|
      invariant eventEdits == EventEdits(allEdits[..i], e.entities, lo, hi, id)
    {
      var x := allEdits[i];
      EventEditsStep(allEdits, i, e.entities, lo, hi, id);
      if x.entity in e.entities {
        var day := IG.Day(x);
        if lo <= day <= hi {
          var addedText := Join(x.added, " ");
          if Strip(addedText) != [] {
            eventEdits := eventEdits + [Exported(addedText, x.timestamp, x.entity, id)];
          }
        }
      }
    }
    assert allEdits[..|allEdits|] == allEdits;
    out := Some(eventEdits);
  }

  lemma EventEditsStep(edits: seq<Edit>, i: nat, entities: set<Entity>, lo: int, hi: int, id: nat)
    requires i < |edits|
    ensures EventEdits(edits[..i + 1], entities, lo, hi, id)
         == EventEdits(edits[..i], entities, lo, hi, id)
            + (if InEvent(edits[i], entities, lo, hi) then [Export(edits[i], id)] else [])
  {
    assert edits[..i + 1][..i] == edits[..i];
  }

  /** The event's start and end parse as dates. */
  predicate Parses(e: Eca.EventRec)
  {
    Calendar.ParseDate(e.start).Some? && Calendar.ParseDate(e.end).Some?
  }

  /** file is event_<id>.json for event e. */
  predicate FileOf(allEdits: seq<Edit>, e: Eca.EventRec, id: nat, file: seq<Exported>)
  {
    Parses(e)
    && file == EventEdits(allEdits, e.entities, Calendar.Ordinal(Calendar.ParseDate(e.start).value),
                          Calendar.Ordinal(Calendar.ParseDate(e.end).value), id)
  }

  /** The loop over enumerate(events): one file per event, in order, with event_id its index;
      it stops at the first event whose start or end does not parse. */
  method ExportEvents(allEdits: seq<Edit>, events: seq<Eca.EventRec>) returns (files: seq<seq<Exported>>)
    ensures |files| <= |events|
    ensures |files| < |events| ==> !Parses(events[|files|])
    ensures forall i :: 0 <= i < |files| ==> FileOf(allEdits, events[i], i, files[i])
  {
    files := [];
    for id := 0 to |events|
      invariant |files| == id
      invariant forall i :: 0 <= i < id ==> FileOf(allEdits, events[i], i, files[i])
    {
      var out := ExportEvent(allEdits, events[id], id);
      if out.None? {
        return;
      }
      files := files + [out.value];
    }
  }

  // ---- main.py end to end ----

  /** Events aggregated from graphs whose keys are ISO dates always parse: their start and end
      are keys of the graphs. */
  lemma AggregatedEventsParse(graphs: map<string, Graph>, s: Eca.Strategy, gamma: real,
                              cliques: Graph -> seq<set<Entity>>, components: Graph -> seq<set<Entity>>, i: nat)
    requires forall k :: k in graphs ==> Calendar.ParseDate(k).Some?
    requires i < |Eca.Aggregation(graphs, s, gamma, cliques, components)|
    ensures Parses(Eca.Aggregation(graphs, s, gamma, cliques, components)[i])
  {
    var p := EcaProperties.AggregationEvent(graphs, s, gamma, cliques, components, i);
    var keys := Eca.SortedKeys(graphs.Keys);
    assert keys[p] in graphs;
    if p + 1 < |keys| {
      assert keys[p + 1] in graphs;
    }
  }

  /** main.py after loading the edits: the per-day graphs, the events entity_cluster_aggregation
      returns (read back from its event objects), and one export file per event. */
  method RunMain(edits: seq<Edit>, mode: Eca.Strategy, deltaDays: int, threshold: Entity -> real, t: real, gamma: real,
                 cliques: Graph -> seq<set<Entity>>, components: Graph -> seq<set<Entity>>)
    returns (graphs: map<string, Graph>, events: seq<Eca.EventRec>, files: seq<seq<Exported>>)
    requires ValidEdits(edits)
    ensures KeysFrom(graphs, IG.Days(edits))
    ensures DaysDone(graphs, IG.Days(edits), PairsByDay(mode, edits, deltaDays, BurstMap(edits, threshold), t))
    ensures events == Eca.Aggregation(graphs, mode, gamma, cliques, components)
    ensures |files| == |events| && forall i :: 0 <= i < |files| ==> FileOf(edits, events[i], i, files[i])
  {
    graphs := TemporalGraphs(edits, mode, deltaDays, threshold, t);
    var merged := Eca.EntityClusterAggregation(graphs, mode, gamma, cliques, components);
    events := Values(merged, Eca.Aggregation(graphs, mode, gamma, cliques, components));
    files := ExportEvents(edits, events);
    KeysParse(graphs, IG.Days(edits));
    if |files| < |events| {
      AggregatedEventsParse(graphs, mode, gamma, cliques, components, |files|);
    }
  }

  /** The records the event objects hold. */
  method Values(merged: seq<Eca.Event>, ghost vs: seq<Eca.EventRec>) returns (events: seq<Eca.EventRec>)
    requires Eca.Mirrors(merged, vs)
    ensures events == vs
  {
    events := [];
    for i := 0 to |merged|
      invariant events == vs[..i]
    {
      events := events + [merged[i].Value()];
    }
  }

  lemma KeysParse(graphs: map<string, Graph>, done: set<int>)
    requires KeysFrom(graphs, done)
    ensures forall k :: k in graphs ==> Calendar.ParseDate(k).Some?
  {
  }
}
