/**
 The in-memory graph store, and the projection that folds the event log into it one write
 at a time.  Each handler is proved to leave the store as `GraphFold` says.
 */
module Projection {
  import opened Wrappers
  import opened Domain
  import opened AliasForest
  import opened Planning
  import opened PlanEffect
  import opened GraphFold

  class GraphStore {
    var entities: EntityTable
    var edges: EdgeTable
    var aliases: AliasTable

    ghost function View(): Graph
      reads this
    {
      Graph(entities, edges, aliases)
    }

    constructor ()
      ensures View() == EMPTY_GRAPH
    {
      entities, edges, aliases := map[], map[], map[];
    }

    method UpsertEntities(es: seq<Entity>)
      modifies this`entities
      ensures entities == UpsertedEntities(old(entities), es)
    {
      for i := 0 to |es|
        invariant entities == UpsertedEntities(old(entities), es[..i])
      {
        assert es[..i + 1][..i] == es[..i];
        entities := entities[es[i].id := es[i]];
      }
      assert es[..|es|] == es;
    }

    // Delete every edge touching `e`.
    method DeleteIncident(e: EntityId)
      modifies this`edges
      ensures edges == WithoutEdgesOn(old(edges), e)
    {
      var incident := set i | i in edges && edges[i].Touches(e);
      ghost var all := incident;
      while incident != {}
        invariant incident <= all
        invariant edges == map i | i in old(edges) && i !in all - incident :: old(edges)[i]
      {
        var i :| i in incident;
        edges := edges - {i};
        incident := incident - {i};
      }
    }

    // Every edge touching any of `es`, once each, in no particular order.
    method GetRelationshipsFor(es: seq<EntityId>) returns (rs: seq<Relationship>)
      requires Keyed(edges)
      ensures Unique(rs)
      ensures forall r :: r in rs <==> r in edges.Values && (r.source in es || r.target in es)
    {
      rs := [];
      var left := edges.Keys;
      while left != {}
        invariant left <= edges.Keys
        invariant Unique(rs) && forall r :: r in rs ==> r.id !in left
        invariant forall r :: r in rs <==> r in edges.Values && r.id !in left && (r.source in es || r.target in es)
      {
        var i :| i in left;
        if edges[i].source in es || edges[i].target in es {
          rs := rs + [edges[i]];
        }
        left := left - {i};
      }
    }

    method DeleteRelationship(i: RelationshipId)
      modifies this`edges
      ensures edges == old(edges) - {i}
    {
      edges := edges - {i};
    }

    // No edge is written unless all can be.
    method UpsertRelationships(rs: seq<Relationship>) returns (error: Option<FoldError>)
      modifies this`edges
      ensures UpsertEdges(old(View()), rs) == Folded(View(), error)
    {
      for i := 0 to |rs|
        invariant FirstMissing(entities, rs) == FirstMissing(entities, rs[i..])
        invariant edges == old(edges)
      {
        if rs[i].source !in entities {
          return Some(MissingEntity(rs[i].source));
        }
        if rs[i].target !in entities {
          return Some(MissingEntity(rs[i].target));
        }
      }
      for i := 0 to |rs|
        invariant edges == Upserted(old(edges), rs[..i])
      {
        assert rs[..i + 1][..i] == rs[..i];
        edges := edges[rs[i].id := rs[i]];
      }
      assert rs[..|rs|] == rs;
      return None;
    }

    method UpsertAlias(alias: EntityId, canonical: EntityId)
      modifies this`aliases
      ensures aliases == old(aliases)[alias := canonical]
    {
      aliases := aliases[alias := canonical];
    }

    method RemoveAlias(alias: EntityId)
      modifies this`aliases
      ensures aliases == old(aliases) - {alias}
    {
      aliases := aliases - {alias};
    }

    // Resolve a batch of ids, stopping at the first whose chain is cyclic.
    method ResolveEntityIds(es: seq<EntityId>) returns (r: Result<map<EntityId, EntityId>, FoldError>)
      ensures r.Failure? ==> FirstCycle(aliases, es).Some? && r.error == AliasCycle(FirstCycle(aliases, es).value)
      ensures r.Success? ==> FirstCycle(aliases, es).None? && (forall e :: e in es ==> e in r.value)
      ensures r.Success? ==> forall e :: e in r.value ==> r.value[e] == Resolve(aliases, e)
    {
      var resolved: map<EntityId, EntityId> := map[];
      for i := 0 to |es|
        invariant FirstCycle(aliases, es) == FirstCycle(aliases, es[i..])
        invariant forall e :: e in es[..i] ==> e in resolved
        invariant forall e :: e in resolved ==> resolved[e] == Resolve(aliases, e)
      {
        var canonical := ResolveOne(aliases, es[i]);
        match canonical
        case None => return Failure(AliasCycle(es[i]));
        case Some(c) => resolved := resolved[es[i] := c];
      }
      return Success(resolved);
    }
  }

  class GraphProjection {
    const store: GraphStore

    constructor (store: GraphStore)
      ensures this.store == store
    {
      this.store := store;
    }

    // Fold one event into the store.
    method Handle(ev: Event) returns (error: Option<FoldError>)
      modifies store
      ensures Fold(old(store.View()), ev) == Folded(store.View(), error)
    {
      match ev
      case Extracted(entities, rs, retracted) => error := ApplyExtraction(entities, rs, retracted);
      case Merged(_, c, ds, plan, resolution) => error := ApplyMerge(c, ds, plan, resolution);
      case Undone(_, c, ds, restored, fields) => error := ApplyUndo(c, ds, restored, fields);
    }

    method ApplyExtraction(entities: seq<Entity>, rs: seq<Relationship>, retracted: seq<EntityId>) returns (error: Option<FoldError>)
      modifies store
      ensures FoldExtracted(old(store.View()), entities, rs, retracted) == Folded(store.View(), error)
    {
      store.UpsertEntities(entities);
      ghost var seeded := store.View();
      for i := 0 to |retracted|
        invariant store.View() == RetractAll(seeded, retracted[..i])
      {
        var e := retracted[i];
        assert retracted[..i + 1][..i] == retracted[..i];
        if e in store.entities {
          store.entities := store.entities[e := Tombstone(store.entities[e])];
        }
        store.DeleteIncident(e);
      }
      assert retracted[..|retracted|] == retracted;
      ghost var cleared := store.View();
      var live := Resolved(rs);
      match live
      case Failure(cycle) =>
        error := Some(cycle);
      case Success(edges) =>
        error := store.UpsertRelationships(edges);
        assert UpsertEdges(cleared.(edges := WithoutCollapsed(cleared.edges, cleared.aliases, rs)), edges) == Folded(store.View(), error);
    }

    // The stated edges on their canonical endpoints; an edge that collapses is deleted instead.
    method Resolved(rs: seq<Relationship>) returns (r: Result<seq<Relationship>, FoldError>)
      modifies store`edges
      ensures r.Failure? ==> FirstCycle(store.aliases, Endpoints(rs)).Some?
                             && r.error == AliasCycle(FirstCycle(store.aliases, Endpoints(rs)).value)
                             && store.edges == old(store.edges)
      ensures r.Success? ==> FirstCycle(store.aliases, Endpoints(rs)).None?
                             && r.value == LiveEdges(store.aliases, rs)
                             && store.edges == WithoutCollapsed(old(store.edges), store.aliases, rs)
    {
      var canonical := store.ResolveEntityIds(Endpoints(rs));
      if canonical.Failure? {
        return Failure(canonical.error);
      }
      var resolved := [];
      for i := 0 to |rs|
        invariant resolved == LiveEdges(store.aliases, rs[..i])
        invariant store.edges == WithoutCollapsed(old(store.edges), store.aliases, rs[..i])
      {
        var relationship := rs[i];
        EndpointsInclude(rs, relationship);
        assert rs[..i + 1][..i] == rs[..i];
        var source := canonical.value[relationship.source];
        var target := canonical.value[relationship.target];
        if source == target {
          store.DeleteRelationship(relationship.id);
        } else {
          resolved := resolved + [relationship.Between(source, target)];
        }
      }
      assert rs[..|rs|] == rs;
      return Success(resolved);
    }

    method ApplyMerge(c: EntityId, ds: seq<EntityId>, plan: seq<Redirection>, resolution: Option<Resolution>) returns (error: Option<FoldError>)
      modifies store
      ensures FoldMerged(old(store.View()), c, ds, plan, resolution) == Folded(store.View(), error)
    {
      for i := 0 to |ds|
        invariant store.View() == old(store.View()).(aliases := Absorb(old(store.aliases), c, ds[..i]))
      {
        AbsorbOneMore(old(store.aliases), c, ds, i);
        store.UpsertAlias(ds[i], c);
      }
      assert ds[..|ds|] == ds;
      ghost var aliased := store.View();
      for i := 0 to |plan|
        invariant Redirected(aliased, plan[..i]) == Folded(store.View(), None)
      {
        assert plan[..i + 1][..i] == plan[..i];
        match plan[i].after
        case None =>
          store.DeleteRelationship(plan[i].before.id);
        case Some(moved) =>
          error := store.UpsertRelationships([moved]);
          if error.Some? {
            RedirectionErrorsStop(aliased, plan, i + 1);
            return;
          }
      }
      assert plan[..|plan|] == plan;
      error := None;
      if resolution.Some? {
        error := WriteFields(resolution.value.entityId, resolution.value.after);
      }
    }

    // Replace the three mergeable fields of one entity.
    method WriteFields(e: EntityId, fields: MergeableFields) returns (error: Option<FoldError>)
      modifies store`entities
      ensures ApplyFields(old(store.View()), e, fields) == Folded(store.View(), error)
    {
      if e !in store.entities {
        return Some(MissingEntity(e));
      }
      store.entities := store.entities[e := store.entities[e].WithFields(fields)];
      return None;
    }

    method ApplyUndo(c: EntityId, ds: seq<EntityId>, restored: seq<Relationship>, fields: Option<MergeableFields>) returns (error: Option<FoldError>)
      modifies store
      ensures FoldUndone(old(store.View()), c, ds, restored, fields) == Folded(store.View(), error)
    {
      for i := 0 to |ds|
        invariant store.View() == old(store.View()).(aliases := Release(old(store.aliases), ds[..i]))
      {
        ReleaseOneMore(old(store.aliases), ds, i);
        store.RemoveAlias(ds[i]);
      }
      assert ds[..|ds|] == ds;
      error := store.UpsertRelationships(restored);
      if error.None? && fields.Some? {
        error := WriteFields(c, fields.value);
      }
    }
  }

  lemma {:induction false} EndpointsInclude(rs: seq<Relationship>, r: Relationship)
    requires r in rs
    ensures r.source in Endpoints(rs) && r.target in Endpoints(rs)
  {
    if r != rs[0] {
      EndpointsInclude(rs[1..], r);
    }
  }

  lemma {:induction false} RedirectionErrorsStop(g: Graph, plan: seq<Redirection>, k: nat)
    requires k <= |plan| && Redirected(g, plan[..k]).error.Some?
    ensures Redirected(g, plan) == Redirected(g, plan[..k])
    decreases |plan|
  {
    if k < |plan| {
      var n := |plan| - 1;
      assert plan[..n][..k] == plan[..k];
      RedirectionErrorsStop(g, plan[..n], k);
    } else {
      assert plan[..k] == plan;
    }
  }
}
