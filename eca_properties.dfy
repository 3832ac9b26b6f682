// What the fold of graph/ECA.py guarantees about the events it returns: first-match merging,
// events that only grow, the open list of one period, the span of every event, and the
// minimum size of every event.

module EcaProperties {
  import opened Wrappers
  import opened Text
  import opened GraphBasics
  import opened Eca

  // ---- one cluster ----

  /** A cluster merges into the first open event it matches: that event gains c and ends at
      `time`, and nothing else in the event list changes. */
  lemma AddClusterMerges(st: State, open: seq<nat>, s: Strategy, gamma: real, c: set<Entity>, time: string, k: nat)
    requires c != {} && ValidOpen(st.events, open) && k < |open|
    requires Matches(s, gamma, st.events[open[k]].entities, c)
    requires forall j :: 0 <= j < k ==> !Matches(s, gamma, st.events[open[j]].entities, c)
    ensures |AddCluster(st, open, s, gamma, c, time).events| == |st.events|
    ensures AddCluster(st, open, s, gamma, c, time).created == st.created
    ensures AddCluster(st, open, s, gamma, c, time).events[open[k]]
         == EventRec(st.events[open[k]].entities + c, st.events[open[k]].start, time)
    ensures forall i :: 0 <= i < |st.events| && i != open[k] ==> AddCluster(st, open, s, gamma, c, time).events[i] == st.events[i]
  {
  }

  /** A cluster that matches no open event becomes a new event starting and ending at `time`,
      and its index joins the events created in this period. */
  lemma AddClusterAppends(st: State, open: seq<nat>, s: Strategy, gamma: real, c: set<Entity>, time: string)
    requires c != {} && ValidOpen(st.events, open)
    requires forall j :: 0 <= j < |open| ==> !Matches(s, gamma, st.events[open[j]].entities, c)
    ensures AddCluster(st, open, s, gamma, c, time) == State(st.events + [EventRec(c, time, time)], st.created + [|st.events|])
  {
  }

  /** In implicit mode a cluster sharing no entity with any open event never merges. */
  lemma ImplicitDisjointIsNew(st: State, open: seq<nat>, gamma: real, c: set<Entity>, time: string)
    requires c != {} && ValidOpen(st.events, open)
    requires forall j :: 0 <= j < |open| ==> st.events[open[j]].entities * c == {}
    ensures AddCluster(st, open, Implicit, gamma, c, time) == State(st.events + [EventRec(c, time, time)], st.created + [|st.events|])
  {
    AddClusterAppends(st, open, Implicit, gamma, c, time);
  }

  // ---- events are never removed and only grow ----

  /** b keeps every event of a at its position, with the same start and at least its entities. */
  ghost predicate Grows(a: seq<EventRec>, b: seq<EventRec>)
  {
    |a| <= |b| && forall i :: 0 <= i < |a| ==> b[i].start == a[i].start && a[i].entities <= b[i].entities
  }

  lemma GrowsTrans(a: seq<EventRec>, b: seq<EventRec>, c: seq<EventRec>)
    requires Grows(a, b) && Grows(b, c)
    ensures Grows(a, c)
  {
  }

  lemma AddClusterGrows(st: State, open: seq<nat>, s: Strategy, gamma: real, c: set<Entity>, time: string)
    requires c != {} && ValidOpen(st.events, open)
    ensures Grows(st.events, AddCluster(st, open, s, gamma, c, time).events)
  {
  }

  lemma {:induction false} AddClustersGrows(st: State, open: seq<nat>, s: Strategy, gamma: real,
                                            clusters: seq<set<Entity>>, time: string)
    requires NonEmpty(clusters) && ValidOpen(st.events, open)
    ensures Grows(st.events, AddClusters(st, open, s, gamma, clusters, time).events)
    decreases |clusters|
  {
    if clusters != [] {
      var init := clusters[..|clusters| - 1];
      AddClustersGrows(st, open, s, gamma, init, time);
      var mid := AddClusters(st, open, s, gamma, init, time);
      AddClusterGrows(mid, open, s, gamma, clusters[|clusters| - 1], time);
      GrowsTrans(st.events, mid.events, AddClusters(st, open, s, gamma, clusters, time).events);
    }
  }

  /** The events after the first q periods are still there at the end, with the same start
      and no fewer entities. */
  lemma {:induction false} RunGrows(ps: seq<Period>, s: Strategy, gamma: real, q: nat)
    requires NonEmptyPeriods(ps) && q <= |ps|
    ensures Grows(Run(ps[..q], s, gamma).events, Run(ps, s, gamma).events)
    decreases |ps|
  {
    if q < |ps| {
      var init := ps[..|ps| - 1];
      assert init[..q] == ps[..q];
      RunGrows(init, s, gamma, q);
      var prev := Run(init, s, gamma);
      AddClustersGrows(State(prev.events, []), prev.created, s, gamma, ps[|ps| - 1].clusters, ps[|ps| - 1].time);
      GrowsTrans(Run(ps[..q], s, gamma).events, prev.events, Run(ps, s, gamma).events);
    } else {
      assert ps[..q] == ps;
    }
  }

  // ---- the open list of a period is exactly the events it created ----

  /** r.created extends st.created with the indices of the events r appended, in order. */
  ghost predicate CreatedTail(st: State, r: State)
  {
    |st.created| <= |r.created| && |r.created| - |st.created| == |r.events| - |st.events|
    && r.created[..|st.created|] == st.created
    && forall j :: |st.created| <= j < |r.created| ==> r.created[j] == |st.events| + (j - |st.created|)
  }

  lemma CreatedTailTrans(a: State, b: State, c: State)
    requires CreatedTail(a, b) && CreatedTail(b, c)
    ensures CreatedTail(a, c)
  {
    assert c.created[..|a.created|] == c.created[..|b.created|][..|a.created|];
  }

  lemma AddClusterCreated(st: State, open: seq<nat>, s: Strategy, gamma: real, c: set<Entity>, time: string)
    requires c != {} && ValidOpen(st.events, open)
    ensures CreatedTail(st, AddCluster(st, open, s, gamma, c, time))
  {
    var r := AddCluster(st, open, s, gamma, c, time);
    if |r.created| > |st.created| {
      assert r.created[..|st.created|] == st.created;
    }
  }

  /** The indices created while folding the clusters of one period are the new tail of the
      event list, in order, one per new event. */
  lemma {:induction false} AddClustersCreated(st: State, open: seq<nat>, s: Strategy, gamma: real,
                                              clusters: seq<set<Entity>>, time: string)
    requires NonEmpty(clusters) && ValidOpen(st.events, open)
    ensures CreatedTail(st, AddClusters(st, open, s, gamma, clusters, time))
    decreases |clusters|
  {
    if clusters != [] {
      AddClustersCreated(st, open, s, gamma, clusters[..|clusters| - 1], time);
      var mid := AddClusters(st, open, s, gamma, clusters[..|clusters| - 1], time);
      AddClusterCreated(mid, open, s, gamma, clusters[|clusters| - 1], time);
      CreatedTailTrans(st, mid, AddClusters(st, open, s, gamma, clusters, time));
    } else {
      assert st.created[..|st.created|] == st.created;
    }
  }

  /** After a period, prev_clusters holds exactly the events that period created: indices
      |before| .. |after| - 1, so the output grows by the number of clusters that matched nothing. */
  lemma RunCreated(ps: seq<Period>, s: Strategy, gamma: real)
    requires NonEmptyPeriods(ps) && ps != []
    ensures |Run(ps, s, gamma).created| == |Run(ps, s, gamma).events| - |Run(ps[..|ps| - 1], s, gamma).events|
    ensures forall j :: 0 <= j < |Run(ps, s, gamma).created| ==>
              Run(ps, s, gamma).created[j] == |Run(ps[..|ps| - 1], s, gamma).events| + j
  {
    var prev := Run(ps[..|ps| - 1], s, gamma);
    AddClustersCreated(State(prev.events, []), prev.created, s, gamma, ps[|ps| - 1].clusters, ps[|ps| - 1].time);
  }

  // ---- every event spans its start period and at most the next one ----

  /** e starts at some period key and ends there or at the next key. */
  ghost predicate Spans(ps: seq<Period>, e: EventRec)
  {
    exists p :: 0 <= p < |ps| && e.start == ps[p].time && (e.end == e.start || (p + 1 < |ps| && e.end == ps[p + 1].time))
  }

  ghost predicate AllSpan(ps: seq<Period>, events: seq<EventRec>)
  {
    forall i :: 0 <= i < |events| ==> Spans(ps, events[i])
  }

  /** The events at positions idx all started at `time`. */
  ghost predicate StartedAt(events: seq<EventRec>, idx: seq<nat>, time: string)
  {
    forall j :: 0 <= j < |idx| ==> idx[j] < |events| && events[idx[j]].start == time
  }

  lemma SpansExtend(ps: seq<Period>, q: nat, e: EventRec)
    requires q <= |ps| && Spans(ps[..q], e)
    ensures Spans(ps, e)
  {
    var p :| 0 <= p < q && e.start == ps[..q][p].time && (e.end == e.start || (p + 1 < q && e.end == ps[..q][p + 1].time));
    assert ps[..q][p] == ps[p];
    if p + 1 < q {
      assert ps[..q][p + 1] == ps[p + 1];
    }
  }

  lemma AllSpanExtend(ps: seq<Period>, events: seq<EventRec>)
    requires ps != [] && AllSpan(ps[..|ps| - 1], events)
    ensures AllSpan(ps, events)
  {
    forall i | 0 <= i < |events|
      ensures Spans(ps, events[i])
    {
      SpansExtend(ps, |ps| - 1, events[i]);
    }
  }

  /** One cluster of the last period q: a merge moves an open event (started at q - 1) to end
      at q; a new event starts and ends at q. */
  lemma AddClusterSpans(ps: seq<Period>, st: State, open: seq<nat>, s: Strategy, gamma: real, c: set<Entity>)
    requires ps != [] && c != {} && ValidOpen(st.events, open)
    requires AllSpan(ps, st.events) && StartedAt(st.events, st.created, ps[|ps| - 1].time)
    requires open != [] ==> |ps| >= 2 && StartedAt(st.events, open, ps[|ps| - 2].time)
    ensures AllSpan(ps, AddCluster(st, open, s, gamma, c, ps[|ps| - 1].time).events)
    ensures StartedAt(AddCluster(st, open, s, gamma, c, ps[|ps| - 1].time).events,
                      AddCluster(st, open, s, gamma, c, ps[|ps| - 1].time).created, ps[|ps| - 1].time)
    ensures open != [] ==> StartedAt(AddCluster(st, open, s, gamma, c, ps[|ps| - 1].time).events, open, ps[|ps| - 2].time)
  {
    var q := |ps| - 1;
    var r := AddCluster(st, open, s, gamma, c, ps[q].time);
    match FirstMatch(st.events, open, s, gamma, c, 0)
    case Some(k) =>
      var i := open[k];
      assert r.events[i].start == ps[q - 1].time && r.events[i].end == ps[q - 1 + 1].time;
      assert Spans(ps, r.events[i]);
    case None =>
      assert r.events[|st.events|] == EventRec(c, ps[q].time, ps[q].time);
      assert Spans(ps, r.events[|st.events|]);
  }

  lemma {:induction false} AddClustersSpans(ps: seq<Period>, st: State, open: seq<nat>, s: Strategy, gamma: real,
                                            clusters: seq<set<Entity>>)
    requires ps != [] && NonEmpty(clusters) && ValidOpen(st.events, open)
    requires AllSpan(ps, st.events) && StartedAt(st.events, st.created, ps[|ps| - 1].time)
    requires open != [] ==> |ps| >= 2 && StartedAt(st.events, open, ps[|ps| - 2].time)
    ensures AllSpan(ps, AddClusters(st, open, s, gamma, clusters, ps[|ps| - 1].time).events)
    ensures StartedAt(AddClusters(st, open, s, gamma, clusters, ps[|ps| - 1].time).events,
                      AddClusters(st, open, s, gamma, clusters, ps[|ps| - 1].time).created, ps[|ps| - 1].time)
    ensures open != [] ==> StartedAt(AddClusters(st, open, s, gamma, clusters, ps[|ps| - 1].time).events, open, ps[|ps| - 2].time)
    decreases |clusters|
  {
    if clusters != [] {
      var time := ps[|ps| - 1].time;
      AddClustersSpans(ps, st, open, s, gamma, clusters[..|clusters| - 1]);
      var mid := AddClusters(st, open, s, gamma, clusters[..|clusters| - 1], time);
      AddClusterSpans(ps, mid, open, s, gamma, clusters[|clusters| - 1]);
    }
  }

  /** Every event starts at a processed period key and ends there or at the next processed key:
      an event merged into in period t is no longer open in period t + 1. */
  lemma {:induction false} RunSpans(ps: seq<Period>, s: Strategy, gamma: real)
    requires NonEmptyPeriods(ps)
    ensures AllSpan(ps, Run(ps, s, gamma).events)
    ensures ps != [] ==> StartedAt(Run(ps, s, gamma).events, Run(ps, s, gamma).created, ps[|ps| - 1].time)
    ensures ps == [] ==> Run(ps, s, gamma).created == []
    decreases |ps|
  {
    if ps != [] {
      var init := ps[..|ps| - 1];
      RunSpans(init, s, gamma);
      var prev := Run(init, s, gamma);
      AllSpanExtend(ps, prev.events);
      if prev.created != [] {
        assert init[|init| - 1] == ps[|ps| - 2];
      }
      AddClustersSpans(ps, State(prev.events, []), prev.created, s, gamma, ps[|ps| - 1].clusters);
    }
  }

  // ---- minimum size ----

  ghost predicate AllAtLeast(events: seq<EventRec>, n: nat)
  {
    forall i :: 0 <= i < |events| ==> |events[i].entities| >= n
  }

  lemma SubsetCardLe(a: set<Entity>, b: set<Entity>)
    requires a <= b
    ensures |a| <= |b|
  {
    SubsetCard(a, b);
  }

  lemma AddClusterAtLeast(st: State, open: seq<nat>, s: Strategy, gamma: real, c: set<Entity>, time: string, n: nat)
    requires c != {} && ValidOpen(st.events, open) && AllAtLeast(st.events, n) && |c| >= n
    ensures AllAtLeast(AddCluster(st, open, s, gamma, c, time).events, n)
  {
    match FirstMatch(st.events, open, s, gamma, c, 0)
    case Some(k) =>
      var i := open[k];
      SubsetCardLe(st.events[i].entities, st.events[i].entities + c);
    case None =>
  }

  lemma {:induction false} AddClustersAtLeast(st: State, open: seq<nat>, s: Strategy, gamma: real,
                                              clusters: seq<set<Entity>>, time: string, n: nat)
    requires NonEmpty(clusters) && ValidOpen(st.events, open) && AllAtLeast(st.events, n)
    requires forall i :: 0 <= i < |clusters| ==> |clusters[i]| >= n
    ensures AllAtLeast(AddClusters(st, open, s, gamma, clusters, time).events, n)
    decreases |clusters|
  {
    if clusters != [] {
      AddClustersAtLeast(st, open, s, gamma, clusters[..|clusters| - 1], time, n);
      var mid := AddClusters(st, open, s, gamma, clusters[..|clusters| - 1], time);
      AddClusterAtLeast(mid, open, s, gamma, clusters[|clusters| - 1], time, n);
    }
  }

  /** When every cluster has at least n entities, so does every event. */
  lemma {:induction false} RunAtLeast(ps: seq<Period>, s: Strategy, gamma: real, n: nat)
    requires NonEmptyPeriods(ps)
    requires forall p, i :: 0 <= p < |ps| && 0 <= i < |ps[p].clusters| ==> |ps[p].clusters[i]| >= n
    ensures AllAtLeast(Run(ps, s, gamma).events, n)
    decreases |ps|
  {
    if ps != [] {
      var init := ps[..|ps| - 1];
      assert forall p :: 0 <= p < |init| ==> init[p] == ps[p];
      RunAtLeast(init, s, gamma, n);
      var prev := Run(init, s, gamma);
      var last := ps[|ps| - 1];
      assert forall i :: 0 <= i < |last.clusters| ==> |last.clusters[i]| >= n;
      AddClustersAtLeast(State(prev.events, []), prev.created, s, gamma, last.clusters, last.time, n);
    }
  }

  // ---- the whole aggregation ----

  /** Every event of a run has at least MinSize entities when every cluster does, and starts
      at a period key and ends there or at the next one. */
  lemma RunEvent(ps: seq<Period>, s: Strategy, gamma: real, i: nat) returns (p: nat)
    requires NonEmptyPeriods(ps) && i < |Run(ps, s, gamma).events|
    requires forall q, j :: 0 <= q < |ps| && 0 <= j < |ps[q].clusters| ==> |ps[q].clusters[j]| >= MinSize
    ensures p < |ps| && |Run(ps, s, gamma).events[i].entities| >= MinSize
    ensures Run(ps, s, gamma).events[i].start == ps[p].time
    ensures Run(ps, s, gamma).events[i].end == ps[p].time || (p + 1 < |ps| && Run(ps, s, gamma).events[i].end == ps[p + 1].time)
  {
    RunAtLeast(ps, s, gamma, MinSize);
    RunSpans(ps, s, gamma);
    var e := Run(ps, s, gamma).events[i];
    assert Spans(ps, e);
    p :| 0 <= p < |ps| && e.start == ps[p].time && (e.end == e.start || (p + 1 < |ps| && e.end == ps[p + 1].time));
  }

  /** Every returned event has at least MinSize entities, starts at the p-th key in ascending
      order and ends there or at key p + 1; in particular start <= end. */
  lemma AggregationEvent(graphs: map<string, Graph>, s: Strategy, gamma: real,
                         cliques: Graph -> seq<set<Entity>>, components: Graph -> seq<set<Entity>>, i: nat)
    returns (p: nat)
    requires i < |Aggregation(graphs, s, gamma, cliques, components)|
    ensures var e := Aggregation(graphs, s, gamma, cliques, components)[i];
      |e.entities| >= MinSize && (e.start == e.end || LexLess(e.start, e.end))
    ensures var e := Aggregation(graphs, s, gamma, cliques, components)[i];
      var keys := SortedKeys(graphs.Keys);
      p < |keys| && e.start == keys[p] && (e.end == e.start || (p + 1 < |keys| && e.end == keys[p + 1]))
  {
    var keys := SortedKeys(graphs.Keys);
    var ps := Periods(graphs, keys, s, cliques, components);
    PeriodsAtLeast(graphs, keys, s, cliques, components);
    p := RunEvent(ps, s, gamma, i);
    PeriodTimes(graphs, keys, s, cliques, components, p);
    if p + 1 < |keys| {
      PeriodTimes(graphs, keys, s, cliques, components, p + 1);
      AscendingNext(keys, p);
    }
  }

  lemma PeriodsAtLeast(graphs: map<string, Graph>, keys: seq<string>, s: Strategy,
                       cliques: Graph -> seq<set<Entity>>, components: Graph -> seq<set<Entity>>)
    requires forall k :: k in keys ==> k in graphs
    ensures forall q, j :: 0 <= q < |keys| && 0 <= j < |Periods(graphs, keys, s, cliques, components)[q].clusters| ==>
              |Periods(graphs, keys, s, cliques, components)[q].clusters[j]| >= MinSize
  {
  }

  lemma PeriodTimes(graphs: map<string, Graph>, keys: seq<string>, s: Strategy,
                    cliques: Graph -> seq<set<Entity>>, components: Graph -> seq<set<Entity>>, p: nat)
    requires (forall k :: k in keys ==> k in graphs) && p < |keys|
    ensures Periods(graphs, keys, s, cliques, components)[p].time == keys[p]
  {
  }

  lemma AscendingNext(keys: seq<string>, p: nat)
    requires Ascending(keys) && p + 1 < |keys|
    ensures LexLess(keys[p], keys[p + 1])
  {
  }

  // ---- a concrete run ----

  /** Entities A, B, C form a cluster on one day and A, B, C, D on the next: with gamma 0.8 the
      Jaccard overlap 3/4 is too small and the run yields two events; with gamma 0.75 it yields
      one event spanning both days. */
  lemma TwoDayCliques()
    ensures var ps := [Period("2024-01-01", [{"A", "B", "C"}]), Period("2024-01-02", [{"A", "B", "C", "D"}])];
      Run(ps, Explicit, 0.8).events
        == [EventRec({"A", "B", "C"}, "2024-01-01", "2024-01-01"), EventRec({"A", "B", "C", "D"}, "2024-01-02", "2024-01-02")]
      && Run(ps, Explicit, 0.75).events == [EventRec({"A", "B", "C", "D"}, "2024-01-01", "2024-01-02")]
  {
    TwoDayRun(0.8);
    TwoDayRun(0.75);
  }

  lemma TwoDayRun(gamma: real)
    ensures var ps := [Period("2024-01-01", [{"A", "B", "C"}]), Period("2024-01-02", [{"A", "B", "C", "D"}])];
      Run(ps, Explicit, gamma).events
        == if 3.0 >= gamma * 4.0 then [EventRec({"A", "B", "C", "D"}, "2024-01-01", "2024-01-02")]
           else [EventRec({"A", "B", "C"}, "2024-01-01", "2024-01-01"), EventRec({"A", "B", "C", "D"}, "2024-01-02", "2024-01-02")]
  {
    var abc: set<Entity> := {"A", "B", "C"};
    var abcd: set<Entity> := {"A", "B", "C", "D"};
    var t1, t2 := "2024-01-01", "2024-01-02";
    var ps := [Period(t1, [abc]), Period(t2, [abcd])];
    var e1 := EventRec(abc, t1, t1);
    FirstDay(ps, gamma);
    assert ps[..|ps| - 1] == ps[..1];
    assert [abcd][..0] == [];
    assert AddClusters(State([e1], []), [0], Explicit, gamma, [abcd], t2)
        == AddCluster(State([e1], []), [0], Explicit, gamma, abcd, t2);
    SecondDay(gamma);
  }

  lemma FirstDay(ps: seq<Period>, gamma: real)
    requires ps == [Period("2024-01-01", [{"A", "B", "C"}]), Period("2024-01-02", [{"A", "B", "C", "D"}])]
    ensures Run(ps[..1], Explicit, gamma) == State([EventRec({"A", "B", "C"}, "2024-01-01", "2024-01-01")], [0])
  {
    var abc: set<Entity> := {"A", "B", "C"};
    assert [abc][..0] == [];
    assert AddClusters(State([], []), [], Explicit, gamma, [abc], "2024-01-01")
        == State([EventRec(abc, "2024-01-01", "2024-01-01")], [0]);
    assert ps[..1] == [ps[0]] && ps[..1][..0] == [];
  }

  lemma SecondDay(gamma: real)
    ensures AddCluster(State([EventRec({"A", "B", "C"}, "2024-01-01", "2024-01-01")], []), [0], Explicit, gamma,
                       {"A", "B", "C", "D"}, "2024-01-02").events
        == if 3.0 >= gamma * 4.0 then [EventRec({"A", "B", "C", "D"}, "2024-01-01", "2024-01-02")]
           else [EventRec({"A", "B", "C"}, "2024-01-01", "2024-01-01"), EventRec({"A", "B", "C", "D"}, "2024-01-02", "2024-01-02")]
  {
    var abc: set<Entity> := {"A", "B", "C"};
    var abcd: set<Entity> := {"A", "B", "C", "D"};
    assert abc * abcd == abc && abc + abcd == abcd;
    assert |abc| == 3 && |abcd| == 4;
    assert Jaccard(abc, abcd) == Ratio(3, 4);
  }
}
