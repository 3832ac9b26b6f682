// graph/ECA.py: cluster extraction from a period graph and entity_cluster_aggregation, the
// left-to-right fold of the periods' clusters into events.  Merging mutates the event record
// that also sits in the output list, so events are objects; the fold is specified on values
// (EventRec) and the method is proved to compute exactly that specification.

module Eca {
  import opened Wrappers
  import opened Text
  import opened GraphBasics

  // ---- cluster extraction ----

  /** nx.Graph(graph): two distinct entities are adjacent when either lists the other. */
  ghost predicate Adjacent(g: Graph, a: Entity, b: Entity)
  {
    a != b && ((a in g && b in g[a]) || (b in g && a in g[b]))
  }

  ghost predicate IsNode(g: Graph, v: Entity)
  {
    v in g || exists a :: a in g && v in g[a]
  }

  ghost predicate IsClique(g: Graph, c: set<Entity>)
  {
    (forall v :: v in c ==> IsNode(g, v)) && forall a, b :: a in c && b in c && a != b ==> Adjacent(g, a, b)
  }

  /** What nx.find_cliques enumerates: cliques no node can be added to. */
  ghost predicate IsMaximalClique(g: Graph, c: set<Entity>)
  {
    c != {} && IsClique(g, c) && forall v :: IsNode(g, v) && v !in c ==> !IsClique(g, c + {v})
  }

  /** No edge leaves c. */
  ghost predicate Closed(g: Graph, c: set<Entity>)
  {
    forall a, b :: a in c && Adjacent(g, a, b) ==> b in c
  }

  /** What nx.connected_components enumerates: the smallest non-empty node sets no edge leaves. */
  ghost predicate IsComponent(g: Graph, c: set<Entity>)
  {
    c != {} && (forall v :: v in c ==> IsNode(g, v)) && Closed(g, c)
    && forall d :: d < c && d != {} ==> !Closed(g, d)
  }

  /** [set(c) for c in found if len(c) >= min_size] */
  function Filter(found: seq<set<Entity>>, minSize: nat): (r: seq<set<Entity>>)
    ensures forall c :: c in r <==> c in found && |c| >= minSize
    ensures |r| <= |found|
  {
    if found == [] then []
    else Filter(found[..|found| - 1], minSize) + (if |found[|found| - 1]| >= minSize then [found[|found| - 1]] else [])
  }

  const MinSize: nat := 3

  datatype Strategy = Explicit | Implicit

  /** The clusters of one period graph: extract_cliques_from_explicit or
      extract_components_from_implicit with the default min_size.  `cliques` and `components`
      stand for nx.find_cliques and nx.connected_components. */
  function Clusters(s: Strategy, g: Graph, cliques: Graph -> seq<set<Entity>>,
                    components: Graph -> seq<set<Entity>>): (r: seq<set<Entity>>)
    ensures forall i :: 0 <= i < |r| ==> |r[i]| >= MinSize
    ensures NonEmpty(r)
  {
    if s == Explicit then Filter(cliques(g), MinSize) else Filter(components(g), MinSize)
  }

  /** When the enumerations are the maximal cliques and the components, the clusters are exactly
      those with at least MinSize members. */
  lemma ClustersAre(s: Strategy, g: Graph, cliques: Graph -> seq<set<Entity>>,
                    components: Graph -> seq<set<Entity>>, c: set<Entity>)
    requires forall c :: c in cliques(g) <==> IsMaximalClique(g, c)
    requires forall c :: c in components(g) <==> IsComponent(g, c)
    ensures s == Explicit ==> (c in Clusters(s, g, cliques, components) <==> IsMaximalClique(g, c) && |c| >= MinSize)
    ensures s == Implicit ==> (c in Clusters(s, g, cliques, components) <==> IsComponent(g, c) && |c| >= MinSize)
  {
  }

  // ---- jaccard ----

  /** len(set1 & set2) / len(set1 | set2): Python divides by zero when both sets are empty. */
  function Jaccard(s1: set<Entity>, s2: set<Entity>): (r: Ratio)
    requires s1 + s2 != {}
    ensures r.num <= r.den && r.den == |s1 + s2|
  {
    SubsetCard(s1 * s2, s1 + s2);
    Ratio(|s1 * s2|, |s1 + s2|)
  }

  lemma JaccardSymmetric(s1: set<Entity>, s2: set<Entity>)
    requires s1 + s2 != {}
    ensures Jaccard(s1, s2) == Jaccard(s2, s1)
  {
    assert s1 * s2 == s2 * s1 && s1 + s2 == s2 + s1;
  }

  /** The ratio is 1 exactly for equal sets. */
  lemma JaccardOneIff(s1: set<Entity>, s2: set<Entity>)
    requires s1 + s2 != {}
    ensures Jaccard(s1, s2).num == Jaccard(s1, s2).den <==> s1 == s2
  {
    SubsetCard(s1 * s2, s1 + s2);
    if |s1 * s2| == |s1 + s2| {
      assert s1 == s1 + s2 && s2 == s1 + s2;
    }
  }

  /** The ratio is 0 exactly for disjoint sets. */
  lemma JaccardZeroIff(s1: set<Entity>, s2: set<Entity>)
    requires s1 + s2 != {}
    ensures Jaccard(s1, s2).num == 0 <==> s1 * s2 == {}
  {
    if s1 * s2 != {} {
      var x :| x in s1 * s2;
      assert |s1 * s2| > 0;
    }
  }

  // ---- the fold, on values ----

  /** An event record: {'entities': ..., 'start': time, 'end': time}. */
  datatype EventRec = EventRec(entities: set<Entity>, start: string, end: string)

  /** The merge test of one open event against cluster c. */
  predicate Matches(s: Strategy, gamma: real, prev: set<Entity>, c: set<Entity>)
    requires c != {}
  {
    match s
    case Explicit => AtLeast(Jaccard(prev, c), gamma)
    case Implicit => prev * c != {}
  }

  /** Every open index names an event. */
  predicate ValidOpen(events: seq<EventRec>, open: seq<nat>)
  {
    forall j :: 0 <= j < |open| ==> open[j] < |events|
  }

  /** The position in `open`, from k on, of the first event c matches: the `for prev in
      prev_clusters` loop with its `break`. */
  function FirstMatch(events: seq<EventRec>, open: seq<nat>, s: Strategy, gamma: real, c: set<Entity>, k: nat)
    : (r: Option<nat>)
    requires c != {} && ValidOpen(events, open) && k <= |open|
    ensures r.Some? ==> k <= r.value < |open| && Matches(s, gamma, events[open[r.value]].entities, c)
    ensures r.Some? ==> forall j :: k <= j < r.value ==> !Matches(s, gamma, events[open[j]].entities, c)
    ensures r.None? ==> forall j :: k <= j < |open| ==> !Matches(s, gamma, events[open[j]].entities, c)
    decreases |open| - k
  {
    if k == |open| then None
    else if Matches(s, gamma, events[open[k]].entities, c) then Some(k)
    else FirstMatch(events, open, s, gamma, c, k + 1)
  }

  /** The output list so far and the indices of the events created in the current period
      (new_clusters). */
  datatype State = State(events: seq<EventRec>, created: seq<nat>)

  /** One cluster of period `time`: merged into the first matching open event, or a new event. */
  function AddCluster(st: State, open: seq<nat>, s: Strategy, gamma: real, c: set<Entity>, time: string)
    : (r: State)
    requires c != {} && ValidOpen(st.events, open)
    ensures |st.events| <= |r.events| <= |st.events| + 1
  {
    match FirstMatch(st.events, open, s, gamma, c, 0)
    case Some(k) =>
      var i := open[k];
      State(st.events[i := EventRec(st.events[i].entities + c, st.events[i].start, time)], st.created)
    case None =>
      State(st.events + [EventRec(c, time, time)], st.created + [|st.events|])
  }

  predicate NonEmpty(clusters: seq<set<Entity>>)
  {
    forall i :: 0 <= i < |clusters| ==> clusters[i] != {}
  }

  /** The clusters of one period, in order. */
  function AddClusters(st: State, open: seq<nat>, s: Strategy, gamma: real, clusters: seq<set<Entity>>,
                       time: string): (r: State)
    requires NonEmpty(clusters) && ValidOpen(st.events, open)
    ensures |st.events| <= |r.events|
    decreases |clusters|
  {
    if clusters == [] then st
    else
      var last := clusters[|clusters| - 1];
      var mid := AddClusters(st, open, s, gamma, clusters[..|clusters| - 1], time);
      AddCluster(mid, open, s, gamma, last, time)
  }

  /** One period of the fold: its clusters in the order the enumeration gives them. */
  datatype Period = Period(time: string, clusters: seq<set<Entity>>)

  predicate NonEmptyPeriods(ps: seq<Period>)
  {
    forall p :: 0 <= p < |ps| ==> NonEmpty(ps[p].clusters)
  }

  /** The fold over the periods; `created` of the result is prev_clusters after the last one. */
  function Run(ps: seq<Period>, s: Strategy, gamma: real): (r: State)
    requires NonEmptyPeriods(ps)
    ensures ValidOpen(r.events, r.created)
  {
    if ps == [] then State([], [])
    else
      var prev := Run(ps[..|ps| - 1], s, gamma);
      var last := ps[|ps| - 1];
      CreatedValid(State(prev.events, []), prev.created, s, gamma, last.clusters, last.time);
      AddClusters(State(prev.events, []), prev.created, s, gamma, last.clusters, last.time)
  }

  lemma {:induction false} CreatedValid(st: State, open: seq<nat>, s: Strategy, gamma: real,
                                        clusters: seq<set<Entity>>, time: string)
    requires NonEmpty(clusters) && ValidOpen(st.events, open) && ValidOpen(st.events, st.created)
    ensures ValidOpen(AddClusters(st, open, s, gamma, clusters, time).events,
                      AddClusters(st, open, s, gamma, clusters, time).created)
    decreases |clusters|
  {
    if clusters != [] {
      CreatedValid(st, open, s, gamma, clusters[..|clusters| - 1], time);
    }
  }

  // ---- sorted(temporal_graphs.items()) ----

  predicate Ascending(keys: seq<string>)
  {
    forall i, j :: 0 <= i < j < |keys| ==> LexLess(keys[i], keys[j])
  }

  lemma LexLessAsymmetric()
    ensures forall a, b :: LexLess(a, b) ==> !LexLess(b, a)
  {
    forall a, b | LexLess(a, b)
      ensures !LexLess(b, a)
    {
      if LexLess(b, a) {
        LexLessTransitive(a, b, a);
        LexLessIrreflexive(a);
      }
    }
  }

  /** m precedes every other key. */
  predicate IsLeast(m: string, keys: set<string>)
  {
    forall k :: k in keys && k != m ==> LexLess(m, k)
  }

  lemma {:induction false} LeastKey(keys: set<string>) returns (m: string)
    requires keys != {}
    ensures m in keys && IsLeast(m, keys)
    decreases |keys|
  {
    var x :| x in keys;
    if keys == {x} {
      m := x;
    } else {
      var rest := keys - {x};
      var m0 := LeastKey(rest);
      LexLessTotal(x, m0);
      if LexLess(x, m0) {
        BelowLeast(x, m0, rest);
        m := x;
      } else {
        m := m0;
      }
    }
  }

  lemma BelowLeast(x: string, m: string, keys: set<string>)
    requires IsLeast(m, keys) && LexLess(x, m) && m in keys
    ensures forall k :: k in keys ==> LexLess(x, k)
  {
    forall k | k in keys
      ensures LexLess(x, k)
    {
      if k != m {
        LexLessTransitive(x, m, k);
      }
    }
  }

  lemma MinExists(keys: set<string>)
    requires keys != {}
    ensures exists m :: m in keys && IsLeast(m, keys)
  {
    var m := LeastKey(keys);
  }

  /** The smallest key. */
  function MinKey(keys: set<string>): (m: string)
    requires keys != {}
    ensures m in keys && forall k :: k in keys && k != m ==> LexLess(m, k)
  {
    MinExists(keys);
    LexLessAsymmetric();
    var m :| m in keys && IsLeast(m, keys);
    m
  }

  /** The period keys in the order `sorted` visits them. */
  function SortedKeys(keys: set<string>): (r: seq<string>)
    ensures |r| == |keys| && (forall k :: k in r <==> k in keys) && Ascending(r)
    decreases |keys|
  {
    if keys == {} then []
    else
      var m := MinKey(keys);
      var rest := SortedKeys(keys - {m});
      assert forall j :: 0 <= j < |rest| ==> LexLess(m, rest[j]) by {
        forall j | 0 <= j < |rest|
          ensures LexLess(m, rest[j])
        {
          assert rest[j] in keys - {m};
        }
      }
      [m] + rest
  }

  /** The periods the fold visits: each key with the clusters of its graph. */
  function Periods(graphs: map<string, Graph>, keys: seq<string>, s: Strategy,
                   cliques: Graph -> seq<set<Entity>>, components: Graph -> seq<set<Entity>>)
    : (r: seq<Period>)
    requires forall k :: k in keys ==> k in graphs
    ensures |r| == |keys| && NonEmptyPeriods(r)
    ensures forall p :: 0 <= p < |r| ==> r[p] == Period(keys[p], Clusters(s, graphs[keys[p]], cliques, components))
  {
    if keys == [] then []
    else
      var last := keys[|keys| - 1];
      Periods(graphs, keys[..|keys| - 1], s, cliques, components)
      + [Period(last, Clusters(s, graphs[last], cliques, components))]
  }

  /** What entity_cluster_aggregation returns, as values. */
  function Aggregation(graphs: map<string, Graph>, s: Strategy, gamma: real,
                       cliques: Graph -> seq<set<Entity>>, components: Graph -> seq<set<Entity>>)
    : seq<EventRec>
  {
    Run(Periods(graphs, SortedKeys(graphs.Keys), s, cliques, components), s, gamma).events
  }

  // ---- the fold, on objects ----

  /** An event dict: merging updates it in place, through prev_clusters, while it sits in
      merged_events. */
  class Event {
    var entities: set<Entity>
    var start: string
    var end: string

    constructor(c: set<Entity>, time: string)
      ensures entities == c && start == time && end == time
    {
      entities := c;
      start := time;
      end := time;
    }

    function Value(): EventRec
      reads this
    {
      EventRec(entities, start, end)
    }
  }

  /** The objects es hold the records vs. */
  ghost predicate Mirrors(es: seq<Event>, vs: seq<EventRec>)
    reads es
  {
    |es| == |vs| && forall j :: 0 <= j < |es| ==> es[j].Value() == vs[j]
  }

  /** refs[j] is the object at position idx[j] of merged. */
  ghost predicate Aliases(refs: seq<Event>, merged: seq<Event>, idx: seq<nat>)
  {
    |refs| == |idx| && forall j :: 0 <= j < |idx| ==> idx[j] < |merged| && refs[j] == merged[idx[j]]
  }

  /** merged only ever grows at the end. */
  predicate Extends<T(==)>(a: seq<T>, b: seq<T>)
  {
    |a| <= |b| && b[..|a|] == a
  }

  lemma AliasesExtend(refs: seq<Event>, merged: seq<Event>, merged': seq<Event>, idx: seq<nat>)
    requires Aliases(refs, merged, idx) && Extends(merged, merged')
    ensures Aliases(refs, merged', idx)
  {
    forall j | 0 <= j < |idx|
      ensures idx[j] < |merged'| && refs[j] == merged'[idx[j]]
    {
      assert merged'[idx[j]] == merged'[..|merged|][idx[j]];
    }
  }

  /** The objects `merged` hold `events`, no object twice, and refs point at positions idx. */
  ghost predicate Tracks(merged: seq<Event>, events: seq<EventRec>, refs: seq<Event>, idx: seq<nat>)
    reads merged
  {
    Mirrors(merged, events) && Distinct(merged) && Aliases(refs, merged, idx) && ValidOpen(events, idx)
  }

  lemma RefsTracked(merged: seq<Event>, events: seq<EventRec>, refs: seq<Event>, idx: seq<nat>)
    requires Tracks(merged, events, refs, idx)
    ensures forall o :: o in refs ==> o in merged
  {
    forall o | o in refs
      ensures o in merged
    {
      var j :| 0 <= j < |refs| && refs[j] == o;
    }
  }

  /** The body of `for c in clusters`: the scan of prev_clusters, then the merge or the new event. */
  method AddClusterImpl(merged: seq<Event>, prev: seq<Event>, newClusters: seq<Event>,
                        ghost st: State, ghost open: seq<nat>,
                        s: Strategy, gamma: real, c: set<Entity>, time: string)
    returns (merged': seq<Event>, newClusters': seq<Event>)
    requires c != {}
    requires Tracks(merged, st.events, prev, open) && Tracks(merged, st.events, newClusters, st.created)
    modifies set o | o in prev
    ensures Tracks(merged', AddCluster(st, open, s, gamma, c, time).events, prev, open)
    ensures Tracks(merged', AddCluster(st, open, s, gamma, c, time).events, newClusters',
                   AddCluster(st, open, s, gamma, c, time).created)
    ensures forall o :: o in merged' ==> o in merged || fresh(o)
  {
    var k := 0;
    while k < |prev|
      invariant k <= |prev|
      invariant FirstMatch(st.events, open, s, gamma, c, k) == FirstMatch(st.events, open, s, gamma, c, 0)
    {
      if Matches(s, gamma, prev[k].entities, c) {
        break;
      }
      k := k + 1;
    }
    if k < |prev| {
      MergeInto(merged, st.events, prev[k], open[k], c, time);
      merged', newClusters' := merged, newClusters;
    } else {
      var e := NewEvent(merged, st.events, c, time);
      merged', newClusters' := merged + [e], newClusters + [e];
      AliasesExtend(prev, merged, merged', open);
      AliasesExtend(newClusters, merged, merged', st.created);
    }
  }

  /** prev['entities'].update(c); prev['end'] = time */
  method MergeInto(merged: seq<Event>, ghost events: seq<EventRec>, e: Event, ghost i: nat,
                   c: set<Entity>, time: string)
    requires Mirrors(merged, events) && Distinct(merged) && i < |merged| && merged[i] == e
    modifies e
    ensures Mirrors(merged, events[i := EventRec(events[i].entities + c, events[i].start, time)])
  {
    e.entities := e.entities + c;
    e.end := time;
    forall j | 0 <= j < |merged| && j != i
      ensures merged[j] != e
    {
      if j < i { DistinctAt(merged, j, i); } else { DistinctAt(merged, i, j); }
    }
  }

  /** new_cluster = {'entities': set(c), 'start': time, 'end': time} */
  method NewEvent(merged: seq<Event>, ghost events: seq<EventRec>, c: set<Entity>, time: string)
    returns (e: Event)
    requires Mirrors(merged, events) && Distinct(merged)
    ensures fresh(e) && Distinct(merged + [e])
    ensures Mirrors(merged + [e], events + [EventRec(c, time, time)])
  {
    e := new Event(c, time);
    DistinctSnoc(merged, e);
  }

  /** One period: the loop over its clusters, with prev_clusters fixed; returns new_clusters. */
  method AddPeriod(merged: seq<Event>, prev: seq<Event>, ghost events: seq<EventRec>, ghost open: seq<nat>,
                   s: Strategy, gamma: real, clusters: seq<set<Entity>>, time: string)
    returns (merged': seq<Event>, newClusters: seq<Event>)
    requires NonEmpty(clusters) && Tracks(merged, events, prev, open)
    modifies set o | o in prev
    ensures Tracks(merged', AddClusters(State(events, []), open, s, gamma, clusters, time).events, newClusters,
                   AddClusters(State(events, []), open, s, gamma, clusters, time).created)
    ensures forall o :: o in merged' ==> o in merged || fresh(o)
  {
    merged', newClusters := merged, [];
    ghost var st := State(events, []);
    for i := 0 to |clusters|
      invariant st == AddClusters(State(events, []), open, s, gamma, clusters[..i], time)
      invariant Tracks(merged', st.events, prev, open) && Tracks(merged', st.events, newClusters, st.created)
      invariant forall o :: o in merged' ==> o in merged || fresh(o)
    {
      assert clusters[..i + 1][..i] == clusters[..i];
      merged', newClusters := AddClusterImpl(merged', prev, newClusters, st, open, s, gamma, clusters[i], time);
      st := AddCluster(st, open, s, gamma, clusters[i], time);
    }
    assert clusters[..|clusters|] == clusters;
  }

  lemma RunStep(ps: seq<Period>, p: nat, s: Strategy, gamma: real)
    requires NonEmptyPeriods(ps) && p < |ps|
    ensures NonEmptyPeriods(ps[..p]) && NonEmptyPeriods(ps[..p + 1])
    ensures Run(ps[..p + 1], s, gamma)
         == AddClusters(State(Run(ps[..p], s, gamma).events, []), Run(ps[..p], s, gamma).created, s, gamma,
                        ps[p].clusters, ps[p].time)
  {
    assert ps[..p + 1][..p] == ps[..p];
  }

  /** One turn of `for time, graph in sorted(...)`: prev_clusters becomes new_clusters. */
  method AggregatePeriod(merged: seq<Event>, prev: seq<Event>, ghost st: State, ghost ps: seq<Period>, p: nat,
                         s: Strategy, gamma: real, clusters: seq<set<Entity>>, time: string)
    returns (merged': seq<Event>, prev': seq<Event>, ghost st': State)
    requires NonEmptyPeriods(ps) && p < |ps| && ps[p] == Period(time, clusters)
    requires st == Run(ps[..p], s, gamma) && Tracks(merged, st.events, prev, st.created)
    modifies set o | o in prev
    ensures st' == Run(ps[..p + 1], s, gamma) && Tracks(merged', st'.events, prev', st'.created)
    ensures forall o :: o in merged' ==> o in merged || fresh(o)
  {
    RunStep(ps, p, s, gamma);
    merged', prev' := AddPeriod(merged, prev, st.events, st.created, s, gamma, clusters, time);
    st' := AddClusters(State(st.events, []), st.created, s, gamma, clusters, time);
  }

  lemma RunAll(ps: seq<Period>, s: Strategy, gamma: real)
    requires NonEmptyPeriods(ps)
    ensures Run(ps[..|ps|], s, gamma) == Run(ps, s, gamma)
  {
    assert ps[..|ps|] == ps;
  }

  /** entity_cluster_aggregation: the events, in creation order, as the objects it returns. */
  method EntityClusterAggregation(graphs: map<string, Graph>, s: Strategy, gamma: real,
                                  cliques: Graph -> seq<set<Entity>>, components: Graph -> seq<set<Entity>>)
    returns (merged: seq<Event>)
    ensures Mirrors(merged, Aggregation(graphs, s, gamma, cliques, components))
  {
    var keys := SortedKeys(graphs.Keys);
    ghost var ps := Periods(graphs, keys, s, cliques, components);
    merged := [];
    var prev: seq<Event> := [];
    ghost var st := State([], []);
    for p := 0 to |keys|
      invariant st == Run(ps[..p], s, gamma)
      invariant Tracks(merged, st.events, prev, st.created)
      invariant forall o :: o in merged ==> fresh(o)
    {
      var time := keys[p];
      var clusters := Clusters(s, graphs[time], cliques, components);
      RefsTracked(merged, st.events, prev, st.created);
      merged, prev, st := AggregatePeriod(merged, prev, st, ps, p, s, gamma, clusters, time);
    }
    RunAll(ps, s, gamma);
  }
}
