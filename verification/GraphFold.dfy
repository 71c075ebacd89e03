/**
 What folding one event does to the stored graph, as a function of the graph and the event.

 A handler that raises keeps what it wrote before raising: the event is set aside and the
 projection goes on to the next one.
 */
module GraphFold {
  import opened Wrappers
  import opened Domain
  import opened AliasForest
  import opened PlanEffect

  type EntityTable = map<EntityId, Entity>

  datatype Graph = Graph(entities: EntityTable, edges: EdgeTable, aliases: AliasTable)

  datatype FoldError = MissingEntity(entity: EntityId) | AliasCycle(entity: EntityId)

  datatype Folded = Folded(graph: Graph, error: Option<FoldError>)

  const EMPTY_GRAPH := Graph(map[], map[], map[])

  // ----- entities

  function UpsertedEntities(entities: EntityTable, es: seq<Entity>): EntityTable {
    if es == [] then entities
    else UpsertedEntities(entities, es[..|es| - 1])[es[|es| - 1].id := es[|es| - 1]]
  }

  function Tombstone(e: Entity): Entity {
    e.(properties := e.properties["_retracted" := True])
  }

  predicate IsRetracted(e: Entity) {
    "_retracted" in e.properties && e.properties["_retracted"] == True
  }

  function WithoutEdgesOn(edges: EdgeTable, e: EntityId): EdgeTable {
    map i | i in edges && !edges[i].Touches(e) :: edges[i]
  }

  function RetractOne(g: Graph, e: EntityId): Graph {
    Graph(if e in g.entities then g.entities[e := Tombstone(g.entities[e])] else g.entities,
          WithoutEdgesOn(g.edges, e), g.aliases)
  }

  function RetractAll(g: Graph, es: seq<EntityId>): Graph {
    if es == [] then g else RetractOne(RetractAll(g, es[..|es| - 1]), es[|es| - 1])
  }

  function ApplyFields(g: Graph, e: EntityId, fields: MergeableFields): Folded {
    if e !in g.entities then Folded(g, Some(MissingEntity(e)))
    else Folded(g.(entities := g.entities[e := g.entities[e].WithFields(fields)]), None)
  }

  // ----- edges

  // The first endpoint, in order, that has no row.
  function FirstMissing(entities: EntityTable, rs: seq<Relationship>): Option<EntityId> {
    if rs == [] then None
    else if rs[0].source !in entities then Some(rs[0].source)
    else if rs[0].target !in entities then Some(rs[0].target)
    else FirstMissing(entities, rs[1..])
  }

  // Writes the whole batch, or none of it if some endpoint has no row.
  function UpsertEdges(g: Graph, rs: seq<Relationship>): Folded {
    match FirstMissing(g.entities, rs)
    case Some(e) => Folded(g, Some(MissingEntity(e)))
    case None => Folded(g.(edges := Upserted(g.edges, rs)), None)
  }

  function Endpoints(rs: seq<Relationship>): seq<EntityId> {
    if rs == [] then [] else [rs[0].source, rs[0].target] + Endpoints(rs[1..])
  }

  // The first requested id whose walk does not end.
  function FirstCycle(m: AliasTable, es: seq<EntityId>): Option<EntityId> {
    if es == [] then None
    else if Walk(m, es[0], |m|).None? then Some(es[0])
    else FirstCycle(m, es[1..])
  }

  function ResolvedEdge(m: AliasTable, r: Relationship): Relationship {
    r.Between(Resolve(m, r.source), Resolve(m, r.target))
  }

  // The stated edges on their canonical endpoints, without those that collapse.
  function LiveEdges(m: AliasTable, rs: seq<Relationship>): seq<Relationship> {
    if rs == [] then []
    else
      var last := ResolvedEdge(m, rs[|rs| - 1]);
      LiveEdges(m, rs[..|rs| - 1]) + if last.IsSelfLoop() then [] else [last]
  }

  function WithoutCollapsed(edges: EdgeTable, m: AliasTable, rs: seq<Relationship>): EdgeTable {
    if rs == [] then edges
    else
      var rest := WithoutCollapsed(edges, m, rs[..|rs| - 1]);
      if ResolvedEdge(m, rs[|rs| - 1]).IsSelfLoop() then rest - {rs[|rs| - 1].id} else rest
  }

  function WriteStatedEdges(g: Graph, rs: seq<Relationship>): Folded {
    match FirstCycle(g.aliases, Endpoints(rs))
    case Some(e) => Folded(g, Some(AliasCycle(e)))
    case None => UpsertEdges(g.(edges := WithoutCollapsed(g.edges, g.aliases, rs)), LiveEdges(g.aliases, rs))
  }

  function Redirected(g: Graph, plan: seq<Redirection>): Folded {
    if plan == [] then Folded(g, None)
    else
      var earlier := Redirected(g, plan[..|plan| - 1]);
      if earlier.error.Some? then earlier
      else
        match plan[|plan| - 1].after
        case None => Folded(earlier.graph.(edges := earlier.graph.edges - {plan[|plan| - 1].before.id}), None)
        case Some(moved) => UpsertEdges(earlier.graph, [moved])
  }

  // ----- the three handlers

  function FoldExtracted(g: Graph, entities: seq<Entity>, rs: seq<Relationship>, retracted: seq<EntityId>): Folded {
    WriteStatedEdges(RetractAll(g.(entities := UpsertedEntities(g.entities, entities)), retracted), rs)
  }

  function FoldMerged(g: Graph, c: EntityId, ds: seq<EntityId>, plan: seq<Redirection>, resolution: Option<Resolution>): Folded {
    var moved := Redirected(g.(aliases := Absorb(g.aliases, c, ds)), plan);
    if moved.error.Some? || resolution.None? then moved
    else ApplyFields(moved.graph, resolution.value.entityId, resolution.value.after)
  }

  function FoldUndone(g: Graph, c: EntityId, ds: seq<EntityId>, restored: seq<Relationship>, fields: Option<MergeableFields>): Folded {
    var put := UpsertEdges(g.(aliases := Release(g.aliases, ds)), restored);
    if put.error.Some? || fields.None? then put
    else ApplyFields(put.graph, c, fields.value)
  }

  function Fold(g: Graph, ev: Event): Folded {
    match ev
    case Extracted(entities, rs, retracted) => FoldExtracted(g, entities, rs, retracted)
    case Merged(_, c, ds, plan, resolution) => FoldMerged(g, c, ds, plan, resolution)
    case Undone(_, c, ds, restored, fields) => FoldUndone(g, c, ds, restored, fields)
  }

  // The store after a whole log; an event whose handler raised leaves what it managed to write.
  function FoldAll(g: Graph, log: seq<Event>): Graph {
    if log == [] then g else Fold(FoldAll(g, log[..|log| - 1]), log[|log| - 1]).graph
  }

  // ----- when a handler does not raise

  ghost predicate EndpointsPresent(entities: EntityTable, rs: seq<Relationship>) {
    forall r :: r in rs ==> r.source in entities && r.target in entities
  }

  lemma {:induction false} NothingMissing(entities: EntityTable, rs: seq<Relationship>)
    ensures FirstMissing(entities, rs).None? <==> EndpointsPresent(entities, rs)
  {
    if rs != [] {
      NothingMissing(entities, rs[1..]);
      assert rs == [rs[0]] + rs[1..];
    }
  }

  lemma {:induction false} NoCycleInForest(m: AliasTable, es: seq<EntityId>)
    requires Forest(m)
    ensures FirstCycle(m, es).None?
  {
    if es != [] {
      NoCycleInForest(m, es[1..]);
    }
  }

  ghost predicate AftersPresent(entities: EntityTable, plan: seq<Redirection>) {
    forall p :: p in plan && p.after.Some? ==> p.after.value.source in entities && p.after.value.target in entities
  }

  lemma UpsertingOne(edges: EdgeTable, r: Relationship)
    ensures Upserted(edges, [r]) == edges[r.id := r]
  {
    assert [r][..0] == [];
  }

  lemma {:induction false} RedirectedSucceeds(g: Graph, plan: seq<Redirection>)
    requires AftersPresent(g.entities, plan)
    ensures Redirected(g, plan) == Folded(g.(edges := ApplyRedirections(g.edges, plan)), None)
  {
    if plan != [] {
      var n := |plan| - 1;
      assert plan[n] in plan;
      RedirectedSucceeds(g, plan[..n]);
      if plan[n].after.Some? {
        var moved := plan[n].after.value;
        NothingMissing(g.entities, [moved]);
        UpsertingOne(ApplyRedirections(g.edges, plan[..n]), moved);
      }
    }
  }

  lemma {:induction false} LiveEdgesAre(m: AliasTable, rs: seq<Relationship>)
    ensures forall r :: r in LiveEdges(m, rs) <==> exists stated :: stated in rs && r == ResolvedEdge(m, stated) && !r.IsSelfLoop()
  {
    if rs != [] {
      var n := |rs| - 1;
      LiveEdgesAre(m, rs[..n]);
      assert rs == rs[..n] + [rs[n]];
    }
  }

  lemma {:induction false} CollapsedAreGone(edges: EdgeTable, m: AliasTable, rs: seq<Relationship>, i: RelationshipId)
    ensures EdgeAt(WithoutCollapsed(edges, m, rs), i) ==
            if exists r :: r in rs && r.id == i && ResolvedEdge(m, r).IsSelfLoop() then None else EdgeAt(edges, i)
  {
    if rs != [] {
      var n := |rs| - 1;
      CollapsedAreGone(edges, m, rs[..n], i);
      assert rs == rs[..n] + [rs[n]];
    }
  }

  lemma {:induction false} UpsertedEntitiesAt(entities: EntityTable, es: seq<Entity>, e: EntityId)
    ensures (forall x :: x in es ==> x.id != e) ==>
              (e in UpsertedEntities(entities, es) <==> e in entities)
              && (e in entities ==> UpsertedEntities(entities, es)[e] == entities[e])
    ensures (exists x :: x in es && x.id == e) ==>
              e in UpsertedEntities(entities, es) && UpsertedEntities(entities, es)[e] in es && UpsertedEntities(entities, es)[e].id == e
  {
    if es != [] {
      var n := |es| - 1;
      UpsertedEntitiesAt(entities, es[..n], e);
      assert es == es[..n] + [es[n]];
    }
  }

  lemma {:induction false} RetractAllAt(g: Graph, es: seq<EntityId>)
    ensures RetractAll(g, es).aliases == g.aliases
    ensures RetractAll(g, es).entities.Keys == g.entities.Keys
    ensures forall e :: e in g.entities ==> RetractAll(g, es).entities[e] == if e in es then Tombstone(g.entities[e]) else g.entities[e]
    ensures forall i :: i in RetractAll(g, es).edges <==> i in g.edges && g.edges[i].source !in es && g.edges[i].target !in es
    ensures forall i :: i in RetractAll(g, es).edges ==> RetractAll(g, es).edges[i] == g.edges[i]
  {
    if es != [] {
      var n := |es| - 1;
      RetractAllAt(g, es[..n]);
      assert es == es[..n] + [es[n]];
    }
  }
}
