// What graph/build_graphs.py's two builders share: the adjacency map a `defaultdict(set)`
// becomes, the grouping of edits by entity, and jaccard_similarity.

module GraphBasics {
  import opened EditRecords

  type Entity = string

  /** Adjacency map: a node is a key only once some neighbour was added for it. */
  type Graph = map<Entity, set<Entity>>

  /** The directed pairs (a, b) with b a neighbour of a. */
  function Pairs(g: Graph): set<(Entity, Entity)>
  {
    set a, b | a in g && b in g[a] :: (a, b)
  }

  /** defaultdict(set) never holds an empty row: keys appear through `add`. */
  predicate NoEmptyRows(g: Graph)
  {
    forall a :: a in g ==> g[a] != {}
  }

  predicate Symmetric(g: Graph)
  {
    forall p :: p in Pairs(g) ==> (p.1, p.0) in Pairs(g)
  }

  /** A graph is truthy exactly when it holds an edge. */
  lemma NonEmptyIffEdge(g: Graph)
    requires NoEmptyRows(g)
    ensures g != map[] <==> Pairs(g) != {}
  {
    if g != map[] {
      var a :| a in g;
      var b :| b in g[a];
      assert (a, b) in Pairs(g);
    }
  }

  /** graph[a].add(b) */
  function Insert(g: Graph, a: Entity, b: Entity): (r: Graph)
    ensures NoEmptyRows(g) ==> NoEmptyRows(r)
    ensures Pairs(r) == Pairs(g) + {(a, b)}
  {
    var r := g[a := (if a in g then g[a] else {}) + {b}];
    assert forall p :: p in Pairs(r) <==> p in Pairs(g) + {(a, b)} by {
      forall p | p in Pairs(g) ensures p in Pairs(r) {
        assert p.0 in r && p.1 in r[p.0];
      }
      forall p | p in Pairs(r) ensures p in Pairs(g) + {(a, b)} {
        if p != (a, b) {
          assert p.0 in g && p.1 in g[p.0];
        }
      }
    }
    r
  }

  /** graph[a].add(b); graph[b].add(a) */
  function InsertBoth(g: Graph, a: Entity, b: Entity): (r: Graph)
    ensures NoEmptyRows(g) ==> NoEmptyRows(r)
    ensures Pairs(r) == Pairs(g) + {(a, b), (b, a)}
  {
    Insert(Insert(g, a, b), b, a)
  }

  // ---- grouping edits by entity ----

  /** The edits of entity e, in input order: what `edits_by_entity[e]` holds after the loop. */
  function EditsOf(edits: seq<Edit>, e: Entity): (r: seq<Edit>)
    ensures forall x :: x in r <==> x in edits && x.entity == e
    ensures |r| <= |edits|
  {
    if edits == [] then []
    else EditsOf(edits[..|edits| - 1], e) + (if edits[|edits| - 1].entity == e then [edits[|edits| - 1]] else [])
  }

  function Entities(edits: seq<Edit>): set<Entity>
  {
    set x | x in edits :: x.entity
  }

  /** No element occurs twice; built up the way a list of first occurrences grows. */
  predicate Distinct<T(==)>(s: seq<T>)
  {
    s == [] || (s[|s| - 1] !in s[..|s| - 1] && Distinct(s[..|s| - 1]))
  }

  lemma {:induction false} DistinctAt<T>(s: seq<T>, i: int, j: int)
    requires Distinct(s) && 0 <= i < j < |s|
    ensures s[i] != s[j]
  {
    var init := s[..|s| - 1];
    if j < |s| - 1 {
      DistinctAt(init, i, j);
    } else {
      assert s[i] == init[i];
    }
  }

  lemma EditsOfSnoc(edits: seq<Edit>, x: Edit, e: Entity)
    ensures EditsOf(edits + [x], e) == EditsOf(edits, e) + (if x.entity == e then [x] else [])
  {
    assert (edits + [x])[..|edits|] == edits;
  }

  lemma EditsOfNone(edits: seq<Edit>, e: Entity)
    requires e !in Entities(edits)
    ensures EditsOf(edits, e) == []
  {
  }

  lemma EntitiesSnoc(done: seq<Edit>, x: Edit)
    ensures Entities(done + [x]) == Entities(done) + {x.entity}
  {
    assert forall y :: y in done + [x] <==> y in done || y == x;
  }

  lemma DistinctSnoc<T>(s: seq<T>, v: T)
    requires Distinct(s) && v !in s
    ensures Distinct(s + [v])
  {
    assert (s + [v])[..|s|] == s;
  }

  /** A loop over `keys` has visited `done` and has `todo` left. */
  predicate Partition<T>(keys: set<T>, done: set<T>, todo: set<T>)
  {
    done + todo == keys && done !! todo
  }

  lemma PartitionStep<T>(keys: set<T>, done: set<T>, todo: set<T>, x: T)
    requires Partition(keys, done, todo) && x in todo
    ensures Partition(keys, done + {x}, todo - {x})
  {
  }

  /** Some element of a non-empty set: the next one a `for x in s` loop visits. */
  method Pick<T>(s: set<T>) returns (x: T)
    requires s != {}
    ensures x in s
  {
    x :| x in s;
  }

  // ---- exact fractions ----

  type Pos = n: nat | 0 < n witness 1

  /** A similarity num/den kept exactly: Python's float division is not modelled. */
  datatype Ratio = Ratio(num: nat, den: Pos)

  /** a <= b as numbers. */
  predicate RatioLe(a: Ratio, b: Ratio)
  {
    a.num * b.den <= b.num * a.den
  }

  /** a >= t */
  predicate AtLeast(a: Ratio, t: real)
  {
    a.num as real >= t * a.den as real
  }

  /** a > t */
  predicate Above(a: Ratio, t: real)
  {
    a.num as real > t * a.den as real
  }

  lemma RatioLeTotal(a: Ratio, b: Ratio)
    ensures RatioLe(a, b) || RatioLe(b, a)
  {
  }

  lemma RatioLeTrans(a: Ratio, b: Ratio, c: Ratio)
    requires RatioLe(a, b) && RatioLe(b, c)
    ensures RatioLe(a, c)
  {
    var an, ad, bn, bd, cn, cd := a.num, a.den, b.num, b.den, c.num, c.den;
    MulLe(an * bd, bn * ad, cd);
    MulLe(bn * cd, cn * bd, ad);
    Rearrange(an, bd, cd);
    Rearrange(bn, ad, cd);
    Rearrange(cn, bd, ad);
    MulCancel(an * cd, cn * ad, bd);
  }

  lemma Rearrange(x: int, y: int, z: int)
    ensures x * y * z == x * z * y
  {
  }

  lemma MulLe(x: int, y: int, k: nat)
    requires x <= y
    ensures x * k <= y * k
  {
  }

  lemma MulCancel(x: int, y: int, k: Pos)
    requires x * k <= y * k
    ensures x <= y
  {
    MulPositive(x - y, k);
    assert (x - y) * k == x * k - y * k;
  }

  lemma MulPositive(d: int, k: Pos)
    ensures d > 0 ==> d * k > 0
  {
  }

  /** Reaching a threshold carries up to any value at least as large. */
  lemma AtLeastMonotone(a: Ratio, b: Ratio, t: real)
    requires RatioLe(b, a) && AtLeast(b, t)
    ensures AtLeast(a, t)
  {
    var an, ad, bn, bd := a.num as real, a.den as real, b.num as real, b.den as real;
    assert an * bd >= bn * ad by {
      assert (a.num * b.den) as real == an * bd && (b.num * a.den) as real == bn * ad;
    }
    assert bn * ad >= t * bd * ad by {
      RealMulLe(t * bd, bn, ad);
    }
    assert an * bd >= (t * ad) * bd;
    if an < t * ad {
      RealMulLt(an, t * ad, bd);
    }
  }

  lemma RealMulLe(x: real, y: real, k: real)
    requires x <= y && k >= 0.0
    ensures x * k <= y * k
  {
  }

  lemma RealMulLt(x: real, y: real, k: real)
    requires x < y && k > 0.0
    ensures x * k < y * k
  {
  }

  // ---- jaccard_similarity ----

  /** len(s1 & s2) / len(s1 | s2), with 0 when either set is empty. */
  function JaccardSimilarity(s1: set<string>, s2: set<string>): (r: Ratio)
    ensures r.num <= r.den
  {
    if s1 == {} || s2 == {} then Ratio(0, 1)
    else
      SubsetCard(s1 * s2, s1 + s2);
      Ratio(|s1 * s2|, |s1 + s2|)
  }

  lemma SubsetCard<T>(a: set<T>, b: set<T>)
    requires a <= b
    ensures |a| <= |b|
    ensures |a| == |b| ==> a == b
  {
    if a != {} {
      var x :| x in a;
      SubsetCard(a - {x}, b - {x});
      if |a| == |b| {
        assert a - {x} == b - {x};
        assert a == (a - {x}) + {x} && b == (b - {x}) + {x};
      }
    }
  }

  lemma JaccardSimilaritySymmetric(s1: set<string>, s2: set<string>)
    ensures JaccardSimilarity(s1, s2) == JaccardSimilarity(s2, s1)
  {
    assert s1 * s2 == s2 * s1 && s1 + s2 == s2 + s1;
  }

  /** The similarity is 1 exactly for two equal non-empty sets. */
  lemma JaccardSimilarityOne(s1: set<string>, s2: set<string>)
    ensures JaccardSimilarity(s1, s2).num == JaccardSimilarity(s1, s2).den <==> s1 == s2 && s1 != {}
  {
    if s1 != {} && s2 != {} {
      SubsetCard(s1 * s2, s1 + s2);
      if |s1 * s2| == |s1 + s2| {
        assert s1 == s1 + s2 && s2 == s1 + s2;
      }
    }
  }

  /** The similarity is 0 exactly when a set is empty or the two are disjoint. */
  lemma JaccardSimilarityZero(s1: set<string>, s2: set<string>)
    ensures JaccardSimilarity(s1, s2).num == 0 <==> s1 == {} || s2 == {} || s1 * s2 == {}
  {
    if s1 != {} && s2 != {} && s1 * s2 != {} {
      var x :| x in s1 * s2;
      assert |s1 * s2| > 0;
    }
  }
}
