// build_explicit_graph (graph/build_graphs.py): an undirected edge e1-e2 for every e1 edit that
// links e2 and every e2 edit that links e1 back, when the two are at most delta_days apart.

module ExplicitGraph {
  import opened EditRecords
  import opened GraphBasics
  import opened Grouping
  import Calendar

  function Abs(n: int): nat
  {
    if n < 0 then -n else n
  }

  /** abs((ts2 - ts1).days) <= delta_days.  timedelta.days rounds towards minus infinity, which
      Dafny's `/` does for a positive divisor. */
  predicate WithinWindow(ts1: int, ts2: int, deltaDays: int)
  {
    Abs((ts2 - ts1) / Calendar.SecondsPerDay) <= deltaDays
  }

  /** x, an edit of e1, links y's entity e2; y links e1 back; and they fall within the window. */
  predicate Mutual(x: Edit, y: Edit, deltaDays: int)
  {
    y.entity in x.links && x.entity in y.links && WithinWindow(x.timestamp, y.timestamp, deltaDays)
  }

  /** Both directions of every edge contributed by an edit of xs whose entity is in s and an
      edit of ys whose entity is in t. */
  function Contrib(xs: seq<Edit>, ys: seq<Edit>, s: set<Entity>, t: set<Entity>, deltaDays: int): set<(Entity, Entity)>
  {
    (set x, y | x in xs && y in ys && x.entity in s && y.entity in t && Mutual(x, y, deltaDays) :: (x.entity, y.entity))
    + (set x, y | x in xs && y in ys && x.entity in s && y.entity in t && Mutual(x, y, deltaDays) :: (y.entity, x.entity))
  }

  /** The edge set of build_explicit_graph(edits, delta_days), both directions. */
  function ExplicitPairs(edits: seq<Edit>, deltaDays: int): set<(Entity, Entity)>
  {
    Contrib(edits, edits, Entities(edits), Entities(edits), deltaDays)
  }

  // ---- the loops, innermost first ----
  // `keys` is the key set of edits_by_entity: every entity that has an edit.

  /** `for e2_edit in links_by_entity[e2]`: ys are the edits of one entity x links to. */
  method AddMatches(g: Graph, x: Edit, ys: seq<Edit>, ghost s: set<Entity>, ghost t: set<Entity>, deltaDays: int)
    returns (r: Graph)
    requires NoEmptyRows(g)
    requires x.entity in s && forall y :: y in ys ==> y.entity in x.links && y.entity in t
    ensures NoEmptyRows(r)
    ensures Pairs(r) == Pairs(g) + Contrib([x], ys, s, t, deltaDays)
  {
    r := g;
    for k := 0 to |ys|
      invariant NoEmptyRows(r)
      invariant Pairs(r) == Pairs(g) + Contrib([x], ys[..k], s, t, deltaDays)
    {
      var y := ys[k];
      MatchStep(x, ys, k, s, t, deltaDays);
      if WithinWindow(x.timestamp, y.timestamp, deltaDays) && x.entity in y.links {
        r := InsertBoth(r, x.entity, y.entity);
      }
    }
    assert ys[..|ys|] == ys;
  }

  /** One e2 edit adds both directions exactly when it links back within the window. */
  lemma MatchStep(x: Edit, ys: seq<Edit>, k: int, s: set<Entity>, t: set<Entity>, d: int)
    requires 0 <= k < |ys| && x.entity in s && ys[k].entity in x.links && ys[k].entity in t
    ensures Contrib([x], ys[..k + 1], s, t, d)
         == Contrib([x], ys[..k], s, t, d)
            + (if WithinWindow(x.timestamp, ys[k].timestamp, d) && x.entity in ys[k].links
               then {(x.entity, ys[k].entity), (ys[k].entity, x.entity)} else {})
  {
    var y := ys[k];
    assert ys[..k + 1] == ys[..k] + [y];
    ContribSplitYs([x], ys[..k], [y], s, t, d);
    if WithinWindow(x.timestamp, y.timestamp, d) && x.entity in y.links {
      assert Mutual(x, y, d);
      assert Contrib([x], [y], s, t, d) == {(x.entity, y.entity), (y.entity, x.entity)};
    } else {
      assert Contrib([x], [y], s, t, d) == {};
    }
  }

  /** One iteration of `for e2 in e1_edit["links_added"]`: a target without edits adds nothing. */
  method AddTarget(r: Graph, x: Edit, e2: Entity, byEntity: map<Entity, seq<Edit>>, ghost edits: seq<Edit>,
                   ghost keys: set<Entity>, ghost s: set<Entity>, ghost done: set<Entity>,
                   ghost base: set<(Entity, Entity)>, deltaDays: int)
    returns (r': Graph)
    requires NoEmptyRows(r) && x.entity in s && e2 in x.links
    requires Indexed(byEntity, edits, keys)
    requires Pairs(r) == base + Contrib([x], edits, s, done, deltaDays)
    ensures NoEmptyRows(r')
    ensures Pairs(r') == base + Contrib([x], edits, s, done + {e2}, deltaDays)
  {
    TargetStep(x, edits, keys, s, done, e2, deltaDays);
    r' := r;
    if e2 in byEntity {
      r' := AddMatches(r, x, byEntity[e2], s, {e2}, deltaDays);
    }
  }

  /** `for e2 in e1_edit["links_added"]`, skipping targets that have no edits. */
  method AddEditLinks(g: Graph, x: Edit, byEntity: map<Entity, seq<Edit>>, ghost edits: seq<Edit>,
                      ghost keys: set<Entity>, ghost s: set<Entity>, deltaDays: int)
    returns (r: Graph)
    requires NoEmptyRows(g) && x.entity in s
    requires Indexed(byEntity, edits, keys)
    ensures NoEmptyRows(r)
    ensures Pairs(r) == Pairs(g) + Contrib([x], edits, s, keys, deltaDays)
  {
    r := g;
    var todo := x.links;
    ghost var done: set<Entity> := {};
    while todo != {}
      invariant Partition(x.links, done, todo)
      invariant NoEmptyRows(r)
      invariant Pairs(r) == Pairs(g) + Contrib([x], edits, s, done, deltaDays)
      decreases |todo|
    {
      var e2 := Pick(todo);
      r := AddTarget(r, x, e2, byEntity, edits, keys, s, done, Pairs(g), deltaDays);
      PartitionStep(x.links, done, todo, e2);
      done, todo := done + {e2}, todo - {e2};
    }
    assert done == x.links;
    ContribLinksOnly(x, edits, s, keys, deltaDays);
  }

  /** Target e2 contributes what its own edits contribute, and nothing when it has none. */
  lemma TargetStep(x: Edit, edits: seq<Edit>, keys: set<Entity>, s: set<Entity>, done: set<Entity>, e2: Entity, d: int)
    requires forall y :: y in edits ==> y.entity in keys
    ensures Contrib([x], edits, s, done + {e2}, d)
         == Contrib([x], edits, s, done, d) + Contrib([x], EditsOf(edits, e2), s, {e2}, d)
    ensures e2 !in keys ==> Contrib([x], edits, s, done + {e2}, d) == Contrib([x], edits, s, done, d)
  {
    ContribSplitT([x], edits, s, done, {e2}, d);
    ContribFilterYs([x], edits, s, e2, d);
    if e2 !in keys {
      ContribNoTarget([x], edits, s, e2, d);
    }
  }

  /** A target no edit belongs to contributes nothing. */
  lemma ContribNoTarget(xs: seq<Edit>, ys: seq<Edit>, s: set<Entity>, e2: Entity, d: int)
    requires forall y :: y in ys ==> y.entity != e2
    ensures Contrib(xs, ys, s, {e2}, d) == {}
  {
  }

  /** `for e1_edit in e1_edits` */
  method AddEntityEdits(g: Graph, xs: seq<Edit>, byEntity: map<Entity, seq<Edit>>, ghost edits: seq<Edit>,
                        ghost keys: set<Entity>, ghost s: set<Entity>, deltaDays: int)
    returns (r: Graph)
    requires NoEmptyRows(g) && forall x :: x in xs ==> x.entity in s
    requires Indexed(byEntity, edits, keys)
    ensures NoEmptyRows(r)
    ensures Pairs(r) == Pairs(g) + Contrib(xs, edits, s, keys, deltaDays)
  {
    r := g;
    for k := 0 to |xs|
      invariant NoEmptyRows(r)
      invariant Pairs(r) == Pairs(g) + Contrib(xs[..k], edits, s, keys, deltaDays)
    {
      assert xs[..k + 1] == xs[..k] + [xs[k]];
      ContribSplitXs(xs[..k], [xs[k]], edits, s, keys, deltaDays);
      r := AddEditLinks(r, xs[k], byEntity, edits, keys, s, deltaDays);
    }
    assert xs[..|xs|] == xs;
  }

  /** One iteration of `for e1, e1_edits in edits_by_entity.items()`. */
  method AddSource(g: Graph, e1: Entity, byEntity: map<Entity, seq<Edit>>, ghost edits: seq<Edit>,
                   ghost keys: set<Entity>, ghost done: set<Entity>, deltaDays: int)
    returns (g': Graph)
    requires NoEmptyRows(g) && e1 in byEntity
    requires Indexed(byEntity, edits, keys)
    requires Pairs(g) == Contrib(edits, edits, done, keys, deltaDays)
    ensures NoEmptyRows(g')
    ensures Pairs(g') == Contrib(edits, edits, done + {e1}, keys, deltaDays)
  {
    SourceStep(edits, keys, done, e1, deltaDays);
    g' := AddEntityEdits(g, byEntity[e1], byEntity, edits, keys, {e1}, deltaDays);
  }

  /** Source e1 contributes what its own edits contribute. */
  lemma SourceStep(edits: seq<Edit>, keys: set<Entity>, done: set<Entity>, e1: Entity, d: int)
    ensures Contrib(edits, edits, done + {e1}, keys, d)
         == Contrib(edits, edits, done, keys, d) + Contrib(EditsOf(edits, e1), edits, {e1}, keys, d)
  {
    ContribSplitS(edits, edits, done, {e1}, keys, d);
    ContribFilterXs(edits, e1, edits, keys, d);
  }

  /** The outer loop `for e1, e1_edits in edits_by_entity.items()`. */
  method AddSources(byEntity: map<Entity, seq<Edit>>, ghost edits: seq<Edit>, ghost keys: set<Entity>, deltaDays: int)
    returns (g: Graph)
    requires Indexed(byEntity, edits, keys)
    ensures NoEmptyRows(g)
    ensures Pairs(g) == Contrib(edits, edits, keys, keys, deltaDays)
  {
    g := map[];
    var todo := byEntity.Keys;
    ghost var done: set<Entity> := {};
    assert Contrib(edits, edits, done, keys, deltaDays) == {};
    while todo != {}
      invariant Partition(keys, done, todo)
      invariant NoEmptyRows(g)
      invariant Pairs(g) == Contrib(edits, edits, done, keys, deltaDays)
      decreases |todo|
    {
      var e1 := Pick(todo);
      g := AddSource(g, e1, byEntity, edits, keys, done, deltaDays);
      PartitionStep(keys, done, todo, e1);
      done, todo := done + {e1}, todo - {e1};
    }
    assert done == keys;
  }

  /** build_explicit_graph: group the edits by entity, then for each entity e1 and each of its
      edits, add e1-e2 in both directions for every mutual link within the window. */
  method BuildExplicitGraph(edits: seq<Edit>, deltaDays: int) returns (g: Graph)
    ensures NoEmptyRows(g)
    ensures Pairs(g) == ExplicitPairs(edits, deltaDays)
  {
    var byEntity, _ := GroupByEntity(edits);
    g := AddSources(byEntity, edits, byEntity.Keys, deltaDays);
    ExplicitSymmetric(edits, deltaDays);
  }

  // ---- properties of the edge set ----

  /** Both directions of an edge are always present. */
  lemma ExplicitSymmetric(edits: seq<Edit>, d: int)
    ensures forall a, b :: (a, b) in ExplicitPairs(edits, d) ==> (b, a) in ExplicitPairs(edits, d)
  {
    forall a, b | (a, b) in ExplicitPairs(edits, d)
      ensures (b, a) in ExplicitPairs(edits, d)
    {
      var x, y :| x in edits && y in edits && Mutual(x, y, d)
                  && ((a, b) == (x.entity, y.entity) || (a, b) == (y.entity, x.entity));
      assert (x.entity, y.entity) in ExplicitPairs(edits, d) && (y.entity, x.entity) in ExplicitPairs(edits, d);
    }
  }

  /** An edge a-b exists exactly when an a edit and a b edit link each other and fall within the
      window, taking their timestamps in either order.  In particular an entity with no edits,
      however often it is linked, has no edge. */
  lemma ExplicitEdgeIff(edits: seq<Edit>, d: int, a: Entity, b: Entity)
    ensures (a, b) in ExplicitPairs(edits, d) <==> LinkedEdits(edits, d, a, b)
  {
    if (a, b) in ExplicitPairs(edits, d) {
      EdgeHasLinkedEdits(edits, d, a, b);
    }
    if LinkedEdits(edits, d, a, b) {
      LinkedEditsMakeEdge(edits, d, a, b);
    }
  }

  /** An a edit links b, a b edit links a, and they fall within the window taken in either
      order. */
  ghost predicate LinkedEdits(edits: seq<Edit>, d: int, a: Entity, b: Entity)
  {
    exists x, y :: x in edits && y in edits && x.entity == a && y.entity == b
                   && b in x.links && a in y.links
                   && (WithinWindow(x.timestamp, y.timestamp, d) || WithinWindow(y.timestamp, x.timestamp, d))
  }

  lemma EdgeHasLinkedEdits(edits: seq<Edit>, d: int, a: Entity, b: Entity)
    requires (a, b) in ExplicitPairs(edits, d)
    ensures LinkedEdits(edits, d, a, b)
  {
    var x, y :| x in edits && y in edits && Mutual(x, y, d)
                && ((a, b) == (x.entity, y.entity) || (a, b) == (y.entity, x.entity));
    if (a, b) == (x.entity, y.entity) {
      assert x.entity == a && y.entity == b && b in x.links && a in y.links;
    } else {
      assert y.entity == a && x.entity == b && b in y.links && a in x.links;
    }
  }

  lemma LinkedEditsMakeEdge(edits: seq<Edit>, d: int, a: Entity, b: Entity)
    requires LinkedEdits(edits, d, a, b)
    ensures (a, b) in ExplicitPairs(edits, d)
  {
    var x, y :| x in edits && y in edits && x.entity == a && y.entity == b
                && b in x.links && a in y.links
                && (WithinWindow(x.timestamp, y.timestamp, d) || WithinWindow(y.timestamp, x.timestamp, d));
    assert a in Entities(edits) && b in Entities(edits);
    if WithinWindow(x.timestamp, y.timestamp, d) {
      assert Mutual(x, y, d);
    } else {
      assert Mutual(y, x, d);
    }
  }


  /** Trying both orders turns the floored day difference into a plain distance: two timestamps
      are within delta_days in one order or the other exactly when they are less than
      delta_days + 1 whole days apart. */
  lemma WindowEitherOrder(t1: int, t2: int, d: int)
    ensures WithinWindow(t1, t2, d) || WithinWindow(t2, t1, d) <==> Abs(t2 - t1) < (d + 1) * Calendar.SecondsPerDay
  {
    var q := t2 - t1;
    var D := Calendar.SecondsPerDay;
    if q >= 0 {
      assert q / D >= 0;
      if q < (d + 1) * D {
        assert q / D <= d by {
          assert D * (q / D) <= q;
        }
      } else {
        assert q / D >= d + 1 by {
          assert D * (q / D) + q % D == q && q % D < D;
        }
        assert (-q) / D <= -(d + 1) by {
          assert D * ((-q) / D) + (-q) % D == -q && (-q) % D >= 0;
        }
      }
    } else {
      assert (-q) / D >= 0;
      if -q < (d + 1) * D {
        assert (-q) / D <= d by {
          assert D * ((-q) / D) <= -q;
        }
      } else {
        assert (-q) / D >= d + 1 by {
          assert D * ((-q) / D) + (-q) % D == -q && (-q) % D < D;
        }
        assert q / D <= -(d + 1) by {
          assert D * (q / D) + q % D == q && q % D >= 0;
        }
      }
    }
  }

  /** An edit that links its own entity makes a self-loop: nothing in build_explicit_graph
      excludes e1 == e2. */
  lemma SelfLinkMakesSelfLoop(x: Edit, d: int)
    requires x.entity in x.links && d >= 0
    ensures (x.entity, x.entity) in ExplicitPairs([x], d)
  {
    assert Mutual(x, x, d);
    assert x.entity in Entities([x]);
  }

  // ---- how Contrib splits ----

  lemma ContribSplitYs(xs: seq<Edit>, ys1: seq<Edit>, ys2: seq<Edit>, s: set<Entity>, t: set<Entity>, d: int)
    ensures Contrib(xs, ys1 + ys2, s, t, d) == Contrib(xs, ys1, s, t, d) + Contrib(xs, ys2, s, t, d)
  {
    assert forall y :: y in ys1 + ys2 <==> y in ys1 || y in ys2;
  }

  lemma ContribSplitXs(xs1: seq<Edit>, xs2: seq<Edit>, ys: seq<Edit>, s: set<Entity>, t: set<Entity>, d: int)
    ensures Contrib(xs1 + xs2, ys, s, t, d) == Contrib(xs1, ys, s, t, d) + Contrib(xs2, ys, s, t, d)
  {
    assert forall x :: x in xs1 + xs2 <==> x in xs1 || x in xs2;
  }

  lemma ContribSplitT(xs: seq<Edit>, ys: seq<Edit>, s: set<Entity>, t1: set<Entity>, t2: set<Entity>, d: int)
    ensures Contrib(xs, ys, s, t1 + t2, d) == Contrib(xs, ys, s, t1, d) + Contrib(xs, ys, s, t2, d)
  {
  }

  lemma ContribSplitS(xs: seq<Edit>, ys: seq<Edit>, s1: set<Entity>, s2: set<Entity>, t: set<Entity>, d: int)
    ensures Contrib(xs, ys, s1 + s2, t, d) == Contrib(xs, ys, s1, t, d) + Contrib(xs, ys, s2, t, d)
  {
  }

  /** Restricting ys to the edits of e2 changes nothing when only e2 is a target. */
  lemma ContribFilterYs(xs: seq<Edit>, edits: seq<Edit>, s: set<Entity>, e2: Entity, d: int)
    ensures Contrib(xs, EditsOf(edits, e2), s, {e2}, d) == Contrib(xs, edits, s, {e2}, d)
  {
  }

  /** Restricting xs to the edits of e1 changes nothing when only e1 is a source. */
  lemma ContribFilterXs(edits: seq<Edit>, e1: Entity, ys: seq<Edit>, t: set<Entity>, d: int)
    ensures Contrib(EditsOf(edits, e1), ys, {e1}, t, d) == Contrib(edits, ys, {e1}, t, d)
  {
  }

  /** Only targets x links to can contribute. */
  lemma ContribLinksOnly(x: Edit, edits: seq<Edit>, s: set<Entity>, keys: set<Entity>, d: int)
    requires forall y :: y in edits ==> y.entity in keys
    ensures Contrib([x], edits, s, x.links, d) == Contrib([x], edits, s, keys, d)
  {
  }
}
