// detect_bursts and build_implicit_graph (graph/build_graphs.py): an entity's burst days are
// the days whose edit count reaches a percentile of its daily counts; two entities are joined
// when they share a burst day on which the token sets of their edits are similar enough.

module ImplicitGraph {
  import opened Text
  import opened EditRecords
  import opened GraphBasics
  import opened Grouping
  import Calendar

  /** e['timestamp'].date(), as a day ordinal. */
  function Day(x: Edit): int
  {
    Calendar.DayOf(x.timestamp)
  }

  // ---- detect_bursts ----

  /** The days that have at least one edit: the keys of daily_counts. */
  function Days(edits: seq<Edit>): set<int>
  {
    set x | x in edits :: Day(x)
  }

  /** daily_counts[day]: the number of edits on that day. */
  function Count(edits: seq<Edit>, day: int): (n: nat)
    ensures n <= |edits|
  {
    if edits == [] then 0
    else Count(edits[..|edits| - 1], day) + (if Day(edits[|edits| - 1]) == day then 1 else 0)
  }

  /** A day has a positive count exactly when some edit falls on it. */
  lemma {:induction false} CountPositive(edits: seq<Edit>, day: int)
    ensures Count(edits, day) > 0 <==> day in Days(edits)
  {
    if edits != [] {
      var init, last := edits[..|edits| - 1], edits[|edits| - 1];
      CountPositive(init, day);
      assert edits == init + [last];
      assert Days(edits) == Days(init) + {Day(last)};
    }
  }

  /** The burst days for a given threshold: {day for day, count in daily_counts.items() if count >= threshold}. */
  function BurstDays(edits: seq<Edit>, threshold: real): set<int>
  {
    set d | d in Days(edits) && Count(edits, d) as real >= threshold
  }

  /** detect_bursts, with the percentile of the daily counts given as `threshold`. */
  method DetectBursts(edits: seq<Edit>, threshold: real) returns (bursts: set<int>)
    ensures bursts == BurstDays(edits, threshold)
    ensures bursts <= Days(edits)
  {
    var counts: map<int, nat> := map[];
    for i := 0 to |edits|
      invariant Counted(edits[..i], counts)
    {
      assert edits[..i + 1] == edits[..i] + [edits[i]];
      counts := Tally(counts, edits[..i], edits[i]);
    }
    assert edits[..|edits|] == edits;
    if counts == map[] {
      return {};
    }
    bursts := set d | d in counts && counts[d] as real >= threshold;
  }

  /** counts maps each day of `done` to its number of edits: the Counter over `done`. */
  ghost predicate Counted(done: seq<Edit>, counts: map<int, nat>)
  {
    counts.Keys == Days(done) && forall d :: d in counts ==> counts[d] == Count(done, d)
  }

  /** One `counts[day] += 1`. */
  method Tally(counts: map<int, nat>, ghost done: seq<Edit>, x: Edit) returns (counts': map<int, nat>)
    requires Counted(done, counts)
    ensures Counted(done + [x], counts')
  {
    var day := Day(x);
    assert (done + [x])[..|done|] == done;
    DaysSnoc(done, x);
    if day !in counts {
      CountPositive(done, day);
    }
    counts' := counts[day := (if day in counts then counts[day] else 0) + 1];
  }

  lemma DaysSnoc(done: seq<Edit>, x: Edit)
    ensures Days(done + [x]) == Days(done) + {Day(x)}
  {
    assert forall y :: y in done + [x] <==> y in done || y == x;
  }


  /** A day with the largest count among the days of xs. */
  function Busiest(edits: seq<Edit>, xs: seq<Edit>): (d: int)
    requires xs != []
    ensures d in Days(xs)
    ensures forall x :: x in xs ==> Count(edits, Day(x)) <= Count(edits, d)
  {
    if |xs| == 1 then Day(xs[0])
    else
      var rest := Busiest(edits, xs[1..]);
      assert forall x :: x in xs ==> x == xs[0] || x in xs[1..];
      if Count(edits, Day(xs[0])) > Count(edits, rest) then Day(xs[0]) else rest
  }

  /** When the threshold is at most the largest daily count, the busiest day is a burst day, so
      an entity with edits always has one (a percentile never exceeds the maximum). */
  lemma BusiestDayIsBurst(edits: seq<Edit>, threshold: real)
    requires edits != [] && threshold <= Count(edits, Busiest(edits, edits)) as real
    ensures Busiest(edits, edits) in BurstDays(edits, threshold)
    ensures forall d :: d in Days(edits) ==> Count(edits, d) <= Count(edits, Busiest(edits, edits))
  {
    var b := Busiest(edits, edits);
    forall d | d in Days(edits)
      ensures Count(edits, d) <= Count(edits, b)
    {
      var x :| x in edits && Day(x) == d;
    }
  }

  /** No edits, no burst days. */
  lemma NoEditsNoBursts(threshold: real)
    ensures BurstDays([], threshold) == {}
  {
  }

  /** With a threshold of 1 every day with an edit is a burst day: the linear percentile of
      counts that are all 1 but one is 1 whenever the high count sits above the percentile. */
  lemma EveryDayBurstsAtOne(edits: seq<Edit>)
    ensures BurstDays(edits, 1.0) == Days(edits)
  {
    forall d | d in Days(edits)
      ensures d in BurstDays(edits, 1.0)
    {
      CountPositive(edits, d);
    }
  }

  // ---- the tokens of a day ----

  /** ' '.join(e.get('added', [])).split(): whitespace tokens, case kept. */
  function EditTokens(x: Edit): set<string>
  {
    set w | w in Split(Join(x.added, " "))
  }

  /** The set a1 (or a2) builds: the tokens of the edits of xs that fall on `day`. */
  function DayTokens(xs: seq<Edit>, day: int): set<string>
  {
    if xs == [] then {}
    else DayTokens(xs[..|xs| - 1], day) + (if Day(xs[|xs| - 1]) == day then EditTokens(xs[|xs| - 1]) else {})
  }

  /** A token belongs to the day's set exactly when an edit of that day adds it. */
  lemma {:induction false} DayTokensMembers(xs: seq<Edit>, day: int, w: string)
    ensures w in DayTokens(xs, day) <==> exists x :: x in xs && Day(x) == day && w in EditTokens(x)
  {
    if xs != [] {
      var init, last := xs[..|xs| - 1], xs[|xs| - 1];
      DayTokensMembers(init, day, w);
      assert xs == init + [last];
      if exists x :: x in xs && Day(x) == day && w in EditTokens(x) {
        var x :| x in xs && Day(x) == day && w in EditTokens(x);
        assert x in init || x == last;
      }
    }
  }

  /** Every token is a non-empty run of non-whitespace characters. */
  lemma TokensAreWords(x: Edit, w: string)
    requires w in EditTokens(x)
    ensures |w| > 0 && forall i :: 0 <= i < |w| ==> !IsSpace(w[i])
  {
    RunsAreRuns(Join(x.added, " "), IsNonSpace);
  }

  /** The tokens are exactly the maximal non-whitespace runs of the joined text, taken
      verbatim: no case folding, so "Vote" and "vote" are different tokens. */
  lemma EditTokensIff(x: Edit, w: string)
    ensures w in EditTokens(x) <==> SliceIsMaximalRun(w, Join(x.added, " "), IsNonSpace)
  {
    var t := Join(x.added, " ");
    assert w in EditTokens(x) <==> w in Runs(t, IsNonSpace);
    RunsIff(t, IsNonSpace, w);
  }

  /** `for e in edits_by_entity[e1]: if e['timestamp'].date() == day: a1.update(...)` */
  method CollectTokens(xs: seq<Edit>, day: int) returns (a: set<string>)
    ensures a == DayTokens(xs, day)
  {
    a := {};
    for k := 0 to |xs|
      invariant a == DayTokens(xs[..k], day)
    {
      assert xs[..k + 1][..k] == xs[..k];
      if Day(xs[k]) == day {
        a := a + EditTokens(xs[k]);
      }
    }
    assert xs[..|xs|] == xs;
  }

  // ---- build_implicit_graph ----

  /** jaccard_similarity(a1, a2) for entities e1, e2 on `day`. */
  function DaySim(edits: seq<Edit>, e1: Entity, e2: Entity, day: int): Ratio
  {
    JaccardSimilarity(DayTokens(EditsOf(edits, e1), day), DayTokens(EditsOf(edits, e2), day))
  }

  /** The reference condition for an implicit edge: the two entities share a burst day on which
      their token similarity reaches the threshold. */
  predicate ImplicitEdge(edits: seq<Edit>, bursts: map<Entity, set<int>>, t: real, e1: Entity, e2: Entity)
  {
    e1 in bursts && e2 in bursts
    && exists d :: d in bursts[e1] * bursts[e2] && AtLeast(DaySim(edits, e1, e2, d), t)
  }

  lemma ImplicitEdgeSymmetric(edits: seq<Edit>, bursts: map<Entity, set<int>>, t: real, e1: Entity, e2: Entity)
    ensures ImplicitEdge(edits, bursts, t, e1, e2) <==> ImplicitEdge(edits, bursts, t, e2, e1)
  {
    forall d ensures DaySim(edits, e1, e2, d) == DaySim(edits, e2, e1, d) {
      JaccardSimilaritySymmetric(DayTokens(EditsOf(edits, e1), d), DayTokens(EditsOf(edits, e2), d));
    }
    if e1 in bursts && e2 in bursts {
      assert bursts[e1] * bursts[e2] == bursts[e2] * bursts[e1];
    }
  }

  /** sim for one shared day: a1 and a2 are collected from the two entities' edits of that day. */
  method DaySimilarity(byEntity: map<Entity, seq<Edit>>, ghost edits: seq<Edit>, e1: Entity, e2: Entity, day: int)
    returns (sim: Ratio)
    requires e1 in byEntity && e2 in byEntity
    requires byEntity[e1] == EditsOf(edits, e1) && byEntity[e2] == EditsOf(edits, e2)
    ensures sim == DaySim(edits, e1, e2, day)
  {
    var a1 := CollectTokens(byEntity[e1], day);
    var a2 := CollectTokens(byEntity[e2], day);
    sim := JaccardSimilarity(a1, a2);
  }

  /** max_sim over the shared burst days, starting from 0: an upper bound of every day's
      similarity that some day reaches. */
  method MaxSimilarity(byEntity: map<Entity, seq<Edit>>, ghost edits: seq<Edit>, e1: Entity, e2: Entity, shared: set<int>)
    returns (m: Ratio)
    requires e1 in byEntity && e2 in byEntity
    requires byEntity[e1] == EditsOf(edits, e1) && byEntity[e2] == EditsOf(edits, e2)
    requires shared != {}
    ensures exists d :: d in shared && RatioLe(m, DaySim(edits, e1, e2, d))
    ensures forall d :: d in shared ==> RatioLe(DaySim(edits, e1, e2, d), m)
  {
    ghost var sims := map d | d in shared :: DaySim(edits, e1, e2, d);
    m := Ratio(0, 1);
    var todo := shared;
    while todo != {}
      invariant todo <= shared
      invariant todo == shared ==> m == Ratio(0, 1)
      invariant todo != shared ==> exists d :: d in shared && d !in todo && RatioLe(m, sims[d])
      invariant forall d :: d in shared && d !in todo ==> RatioLe(sims[d], m)
      decreases |todo|
    {
      var day := Pick(todo);
      var sim := DaySimilarity(byEntity, edits, e1, e2, day);
      assert sim == sims[day];
      if !RatioLe(sim, m) {
        forall d | d in shared && d !in todo
          ensures RatioLe(sims[d], sim)
        {
          RatioLeTrans(sims[d], m, sim);
        }
        m := sim;
      }
      todo := todo - {day};
    }
  }

  /** With at least one shared day, the maximum reaches t exactly when some shared day does:
      the `max_sim >= similarity_threshold` test is the reference condition. */
  lemma MaxReachesIff(edits: seq<Edit>, bursts: map<Entity, set<int>>, t: real, e1: Entity, e2: Entity, m: Ratio)
    requires e1 in bursts && e2 in bursts
    requires exists d :: d in bursts[e1] * bursts[e2] && RatioLe(m, DaySim(edits, e1, e2, d))
    requires forall d :: d in bursts[e1] * bursts[e2] ==> RatioLe(DaySim(edits, e1, e2, d), m)
    ensures AtLeast(m, t) <==> ImplicitEdge(edits, bursts, t, e1, e2)
  {
    if AtLeast(m, t) {
      var d :| d in bursts[e1] * bursts[e2] && RatioLe(m, DaySim(edits, e1, e2, d));
      AtLeastMonotone(DaySim(edits, e1, e2, d), m, t);
    }
    if ImplicitEdge(edits, bursts, t, e1, e2) {
      var d :| d in bursts[e1] * bursts[e2] && AtLeast(DaySim(edits, e1, e2, d), t);
      AtLeastMonotone(m, DaySim(edits, e1, e2, d), t);
    }
  }

  // ---- the pair loop `for i, e1 in enumerate(entities): for e2 in entities[i+1:]` ----

  /** Both directions of the pairs (order[p], order[q]), p < q < hi, that satisfy `edge`: what
      row p of the pair loop adds once it has reached partner hi. */
  function RowEdges(edge: (Entity, Entity) -> bool, order: seq<Entity>, p: int, hi: int): set<(Entity, Entity)>
    requires 0 <= p < |order| && hi <= |order|
    decreases hi
  {
    if hi <= p + 1 then {}
    else
      RowEdges(edge, order, p, hi - 1)
      + (if edge(order[p], order[hi - 1]) then {(order[p], order[hi - 1]), (order[hi - 1], order[p])} else {})
  }

  /** What the first i rows of the pair loop add. */
  function EdgesBefore(edge: (Entity, Entity) -> bool, order: seq<Entity>, i: int): set<(Entity, Entity)>
    requires 0 <= i <= |order|
  {
    if i == 0 then {} else EdgesBefore(edge, order, i - 1) + RowEdges(edge, order, i - 1, |order|)
  }

  lemma {:induction false} RowEdgesMembers(edge: (Entity, Entity) -> bool, order: seq<Entity>, p: int, hi: int,
                                           a: Entity, b: Entity)
    requires 0 <= p < |order| && hi <= |order|
    ensures (a, b) in RowEdges(edge, order, p, hi)
        <==> exists q :: p < q < hi && edge(order[p], order[q])
                         && ((a, b) == (order[p], order[q]) || (a, b) == (order[q], order[p]))
    decreases hi
  {
    if hi > p + 1 {
      RowEdgesMembers(edge, order, p, hi - 1, a, b);
    }
  }

  lemma {:induction false} EdgesBeforeMembers(edge: (Entity, Entity) -> bool, order: seq<Entity>, i: int,
                                              a: Entity, b: Entity)
    requires 0 <= i <= |order|
    ensures (a, b) in EdgesBefore(edge, order, i)
        <==> exists p, q :: 0 <= p < i && p < q < |order| && edge(order[p], order[q])
                            && ((a, b) == (order[p], order[q]) || (a, b) == (order[q], order[p]))
  {
    if i > 0 {
      EdgesBeforeMembers(edge, order, i - 1, a, b);
      RowEdgesMembers(edge, order, i - 1, |order|, a, b);
    }
  }

  /** For a symmetric relation, visiting each pair of a duplicate-free order once and adding both
      directions yields every pair of distinct nodes that satisfies it. */
  lemma AllRows(edge: (Entity, Entity) -> bool, order: seq<Entity>, nodes: set<Entity>)
    requires Distinct(order) && forall e :: e in order <==> e in nodes
    requires forall a, b :: edge(a, b) ==> edge(b, a)
    ensures EdgesBefore(edge, order, |order|) == set a, b | a in nodes && b in nodes && a != b && edge(a, b) :: (a, b)
  {
    var all := set a, b | a in nodes && b in nodes && a != b && edge(a, b) :: (a, b);
    forall pr
      ensures pr in EdgesBefore(edge, order, |order|) <==> pr in all
    {
      var (a, b) := pr;
      EdgesBeforeMembers(edge, order, |order|, a, b);
      if pr in EdgesBefore(edge, order, |order|) {
        var p, q :| 0 <= p < |order| && p < q < |order| && edge(order[p], order[q])
                    && ((a, b) == (order[p], order[q]) || (a, b) == (order[q], order[p]));
        DistinctAt(order, p, q);
        assert edge(a, b);
      }
      if pr in all {
        assert a in order && b in order;
        var p :| 0 <= p < |order| && order[p] == a;
        var q :| 0 <= q < |order| && order[q] == b;
        if p < q {
          assert 0 <= p < |order| && p < q < |order| && edge(order[p], order[q]);
        } else {
          assert q != p && edge(b, a);
          assert 0 <= q < |order| && q < p < |order| && edge(order[q], order[p]);
        }
      }
    }
  }

  // ---- build_implicit_graph ----

  /** The edge set of build_implicit_graph: every pair of distinct entities with edits that
      meets the reference condition. */
  function ImplicitPairs(edits: seq<Edit>, bursts: map<Entity, set<int>>, t: real): set<(Entity, Entity)>
  {
    set a, b | a in Entities(edits) && b in Entities(edits) && a != b && ImplicitEdge(edits, bursts, t, a, b) :: (a, b)
  }

  /** The reference condition as an edge relation. */
  function EdgeOf(edits: seq<Edit>, bursts: map<Entity, set<int>>, t: real): (edge: (Entity, Entity) -> bool)
  {
    (a: Entity, b: Entity) => ImplicitEdge(edits, bursts, t, a, b)
  }

  /** One step of `for e2 in entities[i+1:]`. */
  method AddPair(g: Graph, byEntity: map<Entity, seq<Edit>>, ghost edits: seq<Edit>, bursts: map<Entity, set<int>>,
                 t: real, order: seq<Entity>, i: int, j: int, ghost base: set<(Entity, Entity)>)
    returns (g': Graph)
    requires 0 <= i < j < |order| && forall e :: e in order ==> e in bursts && e in byEntity
    requires RowsOf(edits, byEntity)
    requires NoEmptyRows(g) && Pairs(g) == base + RowEdges(EdgeOf(edits, bursts, t), order, i, j)
    ensures NoEmptyRows(g') && Pairs(g') == base + RowEdges(EdgeOf(edits, bursts, t), order, i, j + 1)
  {
    var linked := Linked(byEntity, edits, bursts, t, order[i], order[j]);
    g' := if linked then InsertBoth(g, order[i], order[j]) else g;
  }

  /** The test applied to one pair: no shared burst day means no edge (`continue`); otherwise
      the maximum similarity over the shared days must reach the threshold. */
  method Linked(byEntity: map<Entity, seq<Edit>>, ghost edits: seq<Edit>, bursts: map<Entity, set<int>>,
                t: real, e1: Entity, e2: Entity)
    returns (linked: bool)
    requires e1 in bursts && e2 in bursts && e1 in byEntity && e2 in byEntity
    requires byEntity[e1] == EditsOf(edits, e1) && byEntity[e2] == EditsOf(edits, e2)
    ensures linked == ImplicitEdge(edits, bursts, t, e1, e2)
  {
    var shared := bursts[e1] * bursts[e2];
    if shared == {} {
      return false;
    }
    var m := MaxSimilarity(byEntity, edits, e1, e2, shared);
    MaxReachesIff(edits, bursts, t, e1, e2, m);
    linked := AtLeast(m, t);
  }

  /** Row i of the pair loop: `for e2 in entities[i+1:]`. */
  method AddRow(g: Graph, byEntity: map<Entity, seq<Edit>>, ghost edits: seq<Edit>, bursts: map<Entity, set<int>>,
                t: real, order: seq<Entity>, i: int)
    returns (g': Graph)
    requires 0 <= i < |order| && forall e :: e in order ==> e in bursts && e in byEntity
    requires RowsOf(edits, byEntity)
    requires NoEmptyRows(g)
    ensures NoEmptyRows(g') && Pairs(g') == Pairs(g) + RowEdges(EdgeOf(edits, bursts, t), order, i, |order|)
  {
    g' := g;
    for j := i + 1 to |order|
      invariant NoEmptyRows(g')
      invariant Pairs(g') == Pairs(g) + RowEdges(EdgeOf(edits, bursts, t), order, i, j)
    {
      g' := AddPair(g', byEntity, edits, bursts, t, order, i, j, Pairs(g));
    }
  }

  /** build_implicit_graph over the edits of one day; every entity needs an entry in the burst
      map, as `burst_map[e1]` would raise otherwise. */
  method BuildImplicitGraph(edits: seq<Edit>, bursts: map<Entity, set<int>>, t: real) returns (g: Graph)
    requires forall x :: x in edits ==> x.entity in bursts
    ensures NoEmptyRows(g)
    ensures Pairs(g) == ImplicitPairs(edits, bursts, t)
    ensures Symmetric(g)
  {
    var byEntity, order := GroupByEntity(edits);
    g := map[];
    for i := 0 to |order|
      invariant NoEmptyRows(g) && Pairs(g) == EdgesBefore(EdgeOf(edits, bursts, t), order, i)
    {
      g := AddRow(g, byEntity, edits, bursts, t, order, i);
    }
    ImplicitPairsOfLoop(edits, bursts, t, order);
    ImplicitSymmetric(edits, bursts, t);
  }

  /** The pair loop over the grouping's key order yields the reference edge set. */
  lemma ImplicitPairsOfLoop(edits: seq<Edit>, bursts: map<Entity, set<int>>, t: real, order: seq<Entity>)
    requires Distinct(order) && forall e :: e in order <==> e in Entities(edits)
    ensures EdgesBefore(EdgeOf(edits, bursts, t), order, |order|) == ImplicitPairs(edits, bursts, t)
  {
    var edge := EdgeOf(edits, bursts, t);
    forall a, b | edge(a, b) ensures edge(b, a) {
      ImplicitEdgeSymmetric(edits, bursts, t, a, b);
    }
    AllRows(edge, order, Entities(edits));
  }

  /** Both directions of every implicit edge are present, and there are no self-loops. */
  lemma ImplicitSymmetric(edits: seq<Edit>, bursts: map<Entity, set<int>>, t: real)
    ensures forall a, b :: (a, b) in ImplicitPairs(edits, bursts, t) ==> (b, a) in ImplicitPairs(edits, bursts, t)
    ensures forall a :: (a, a) !in ImplicitPairs(edits, bursts, t)
  {
    forall a, b | (a, b) in ImplicitPairs(edits, bursts, t)
      ensures (b, a) in ImplicitPairs(edits, bursts, t)
    {
      ImplicitEdgeSymmetric(edits, bursts, t, a, b);
    }
  }

  /** Two entities without a shared burst day are never joined, whatever the threshold. */
  lemma NoSharedBurstNoEdge(edits: seq<Edit>, bursts: map<Entity, set<int>>, t: real, a: Entity, b: Entity)
    requires a in bursts && b in bursts && bursts[a] * bursts[b] == {}
    ensures (a, b) !in ImplicitPairs(edits, bursts, t)
  {
  }
}
