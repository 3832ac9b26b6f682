// The grouping loop both graph builders of graph/build_graphs.py start with: a
// defaultdict(list) keyed by entity, filled in input order.

module Grouping {
  import opened EditRecords
  import opened GraphBasics

  /** The defaultdict(list) loop `for e in edits: by_entity[e['entity']].append(e)`; `order` is
      the key order of the dict: each entity where it first appears. */
  method GroupByEntity(edits: seq<Edit>) returns (byEntity: map<Entity, seq<Edit>>, order: seq<Entity>)
    ensures byEntity.Keys == Entities(edits)
    ensures forall e :: e in byEntity ==> byEntity[e] == EditsOf(edits, e)
    ensures Distinct(order) && (forall e :: e in order <==> e in byEntity)
  {
    byEntity, order := map[], [];
    for i := 0 to |edits|
      invariant KeysOf(edits[..i], byEntity) && RowsOf(edits[..i], byEntity) && Lists(order, byEntity)
    {
      assert edits[..i + 1] == edits[..i] + [edits[i]];
      byEntity, order := Append(byEntity, order, edits[..i], edits[i]);
    }
    assert edits[..|edits|] == edits;
  }

  /** The keys are the entities of `done`. */
  ghost predicate KeysOf(done: seq<Edit>, byEntity: map<Entity, seq<Edit>>)
  {
    byEntity.Keys == Entities(done)
  }

  /** Each row holds its entity's edits of `done`, in order. */
  ghost predicate RowsOf(done: seq<Edit>, byEntity: map<Entity, seq<Edit>>)
  {
    forall e :: e in byEntity ==> byEntity[e] == EditsOf(done, e)
  }

  /** order lists the keys, each once. */
  ghost predicate Lists(order: seq<Entity>, byEntity: map<Entity, seq<Edit>>)
  {
    Distinct(order) && forall e :: e in order <==> e in byEntity
  }

  /** byEntity is the grouping of `edits`, whose entities all lie in `keys`. */
  ghost predicate Indexed(byEntity: map<Entity, seq<Edit>>, edits: seq<Edit>, keys: set<Entity>)
  {
    byEntity.Keys == keys && RowsOf(edits, byEntity) && forall y :: y in edits ==> y.entity in keys
  }

  /** One `by_entity[e['entity']].append(e)`. */
  method Append(byEntity: map<Entity, seq<Edit>>, order: seq<Entity>, ghost done: seq<Edit>, x: Edit)
    returns (byEntity': map<Entity, seq<Edit>>, order': seq<Entity>)
    requires KeysOf(done, byEntity) && RowsOf(done, byEntity) && Lists(order, byEntity)
    ensures KeysOf(done + [x], byEntity') && RowsOf(done + [x], byEntity') && Lists(order', byEntity')
  {
    var row;
    if x.entity !in byEntity {
      EditsOfNone(done, x.entity);
      row := [x];
      order' := order + [x.entity];
      ListsNew(order, byEntity, x.entity, row);
    } else {
      row := byEntity[x.entity] + [x];
      order' := order;
      ListsOld(order, byEntity, x.entity, row);
    }
    byEntity' := byEntity[x.entity := row];
    KeysSnoc(done, byEntity, x, row);
    RowsSnoc(done, byEntity, x, row);
  }

  lemma KeysSnoc(done: seq<Edit>, byEntity: map<Entity, seq<Edit>>, x: Edit, row: seq<Edit>)
    requires KeysOf(done, byEntity)
    ensures KeysOf(done + [x], byEntity[x.entity := row])
  {
    EntitiesSnoc(done, x);
    assert byEntity[x.entity := row].Keys == byEntity.Keys + {x.entity};
  }

  /** Appending x to the row of its entity keeps every row equal to that entity's edits. */
  lemma RowsSnoc(done: seq<Edit>, byEntity: map<Entity, seq<Edit>>, x: Edit, row: seq<Edit>)
    requires RowsOf(done, byEntity)
    requires row == EditsOf(done, x.entity) + [x]
    ensures RowsOf(done + [x], byEntity[x.entity := row])
  {
    forall e | e in byEntity[x.entity := row]
      ensures byEntity[x.entity := row][e] == EditsOf(done + [x], e)
    {
      EditsOfSnoc(done, x, e);
    }
  }

  lemma ListsNew(order: seq<Entity>, byEntity: map<Entity, seq<Edit>>, k: Entity, row: seq<Edit>)
    requires Lists(order, byEntity) && k !in byEntity
    ensures Lists(order + [k], byEntity[k := row])
  {
    DistinctSnoc(order, k);
  }

  lemma ListsOld(order: seq<Entity>, byEntity: map<Entity, seq<Edit>>, k: Entity, row: seq<Edit>)
    requires Lists(order, byEntity) && k in byEntity
    ensures Lists(order, byEntity[k := row])
  {
  }
}
