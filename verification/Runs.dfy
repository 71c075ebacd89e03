/**
 Whole runs: documents extracted, merges planned on the current store and undos, each
 event appended to the log and folded into the store before the next.
 */
module Runs {
  import opened Wrappers
  import opened Domain
  import opened AliasForest
  import opened MergeLog
  import opened MergeHistory
  import opened Planning
  import opened PlanEffect
  import opened GraphFold

  // ----- what each event is emitted from

  // An extraction names only entities it lists, and no edge joins an entity to itself.
  ghost predicate WellFormedExtraction(entities: seq<Entity>, rs: seq<Relationship>) {
    forall r :: r in rs ==>
      && !r.IsSelfLoop()
      && (exists x :: x in entities && x.id == r.source)
      && (exists x :: x in entities && x.id == r.target)
  }

  // The merge was planned on this very store, whose canonical entity has a row.  What the
  // policy decided for the entity's fields is left open.
  ghost predicate PlannedOn(dumps: Renderer, g: Graph, ev: Event)
    requires ev.Merged?
  {
    && IsPlan(dumps, ev.canonical, ev.merged, g.edges.Values, ev.redirections)
    && ev.canonical in g.entities
    && ev.resolution.Some?
    && ev.resolution.value.entityId == ev.canonical
    && ev.resolution.value.before == g.entities[ev.canonical].Fields()
  }

  // ----- what holds of the store and of the log together

  // Every edge is under its id, joins two different present entities, and neither is an alias.
  ghost predicate Sound(g: Graph) {
    && Keyed(g.edges) && NoSelfLoops(g.edges)
    && (forall i :: i in g.edges ==> g.edges[i].source in g.entities && g.edges[i].target in g.entities)
    && (forall i :: i in g.edges ==> g.edges[i].source !in g.aliases && g.edges[i].target !in g.aliases)
    && (forall a :: a in g.aliases ==> g.aliases[a] in g.entities)
  }

  // An entity is an alias only because of the merge at `i` or one after it.
  ghost predicate AliasedFrom(s: LogState, i: int, e: EntityId) {
    e in s.aliasOf ==> exists k :: k >= i && InEffect(s, k) && e in s.merges[k].merged
  }

  // What the merges in effect could restore: edges between present entities that were not
  // aliases when the merge was planned.
  ghost predicate Restorable(s: LogState, g: Graph) {
    forall i :: InEffect(s, i) ==>
      && s.merges[i].canonical in g.entities
      && UniqueBefore(s.merges[i].redirections)
      && forall p :: p in s.merges[i].redirections ==>
           && !p.before.IsSelfLoop()
           && p.before.source in g.entities && p.before.target in g.entities
           && AliasedFrom(s, i, p.before.source) && AliasedFrom(s, i, p.before.target)
  }

  ghost predicate InStep(s: LogState, g: Graph) {
    Consistent(s) && g.aliases == s.aliasOf && Sound(g) && Restorable(s, g)
  }

  // ----- extraction

  lemma {:induction false} WalkStaysPresent(g: Graph, e: EntityId, k: nat)
    requires e in g.entities && Walk(g.aliases, e, k).Some?
    requires forall a :: a in g.aliases ==> g.aliases[a] in g.entities
    ensures Walk(g.aliases, e, k).value in g.entities
    decreases k
  {
    if e in g.aliases {
      WalkStaysPresent(g, g.aliases[e], k - 1);
    }
  }

  lemma EntityListed(entities: EntityTable, es: seq<Entity>, e: EntityId)
    requires exists x :: x in es && x.id == e
    ensures e in UpsertedEntities(entities, es)
  {
    UpsertedEntitiesAt(entities, es, e);
  }

  lemma EntitiesStay(entities: EntityTable, es: seq<Entity>)
    ensures entities.Keys <= UpsertedEntities(entities, es).Keys
  {
    forall e | e in entities ensures e in UpsertedEntities(entities, es) {
      UpsertedEntitiesAt(entities, es, e);
    }
  }

  // An extraction is never a poison event; this is the store it leaves.
  lemma ExtractionFolds(g: Graph, entities: seq<Entity>, rs: seq<Relationship>, retracted: seq<EntityId>)
    requires Forest(g.aliases) && WellFormedExtraction(entities, rs)
    requires forall a :: a in g.aliases ==> g.aliases[a] in g.entities
    ensures var cleared := RetractAll(g.(entities := UpsertedEntities(g.entities, entities)), retracted);
            FoldExtracted(g, entities, rs, retracted) ==
            Folded(cleared.(edges := Upserted(WithoutCollapsed(cleared.edges, g.aliases, rs), LiveEdges(g.aliases, rs))), None)
    ensures forall r :: r in rs ==>
              var e := ResolvedEdge(g.aliases, r);
              e.source !in g.aliases && e.target !in g.aliases
              && e.source in UpsertedEntities(g.entities, entities) && e.target in UpsertedEntities(g.entities, entities)
  {
    hide RetractAll, UpsertedEntities, LiveEdges, WithoutCollapsed, Upserted, Walk, FirstCycle, Endpoints, FirstMissing;
    var seeded := g.(entities := UpsertedEntities(g.entities, entities));
    var cleared := RetractAll(seeded, retracted);
    RetractAllAt(seeded, retracted);
    EntitiesStay(g.entities, entities);
    NoCycleInForest(g.aliases, Endpoints(rs));
    forall r | r in rs
      ensures var e := ResolvedEdge(g.aliases, r);
              e.source !in g.aliases && e.target !in g.aliases && e.source in seeded.entities && e.target in seeded.entities
    {
      EntityListed(g.entities, entities, r.source);
      EntityListed(g.entities, entities, r.target);
      ResolvesOffTheTable(g.aliases, r.source);
      ResolvesOffTheTable(g.aliases, r.target);
      WalkStaysPresent(seeded, r.source, |g.aliases|);
      WalkStaysPresent(seeded, r.target, |g.aliases|);
    }
    LiveEdgesAre(g.aliases, rs);
    NothingMissing(cleared.entities, LiveEdges(g.aliases, rs));
  }

  // Entities are never removed, so what could be restored still can.
  lemma RestorableInLargerStore(s: LogState, g: Graph, g': Graph)
    requires Restorable(s, g) && g.entities.Keys <= g'.entities.Keys
    ensures Restorable(s, g')
  {
    hide AliasedFrom, UniqueBefore;
    assert forall e :: e in g.entities ==> e in g'.entities;
  }

  lemma ExtractionKeepsSound(g: Graph, entities: seq<Entity>, rs: seq<Relationship>, retracted: seq<EntityId>)
    requires Sound(g) && Forest(g.aliases) && WellFormedExtraction(entities, rs)
    ensures var folded := FoldExtracted(g, entities, rs, retracted);
            folded.error == None && Sound(folded.graph)
            && folded.graph.aliases == g.aliases && g.entities.Keys <= folded.graph.entities.Keys
  {
    hide FoldExtracted, RetractAll, UpsertedEntities, LiveEdges, WithoutCollapsed, Upserted, Forest, WellFormedExtraction, Resolve;
    var seeded := g.(entities := UpsertedEntities(g.entities, entities));
    var cleared := RetractAll(seeded, retracted);
    var live := LiveEdges(g.aliases, rs);
    var kept := WithoutCollapsed(cleared.edges, g.aliases, rs);
    ExtractionFolds(g, entities, rs, retracted);
    RetractAllAt(seeded, retracted);
    EntitiesStay(g.entities, entities);
    LiveEdgesAre(g.aliases, rs);
    var after := Upserted(kept, live);
    forall i | i in after
      ensures after[i].id == i && !after[i].IsSelfLoop()
              && after[i].source in cleared.entities && after[i].target in cleared.entities
              && after[i].source !in g.aliases && after[i].target !in g.aliases
    {
      UpsertedAt(kept, live, i);
      if !(exists r :: r in live && r.id == i) {
        assert EdgeAt(after, i) == EdgeAt(kept, i);
        CollapsedAreGone(cleared.edges, g.aliases, rs, i);
        assert after[i] == g.edges[i];
      }
    }
  }

  lemma ExtractionKeepsStep(s: LogState, g: Graph, entities: seq<Entity>, rs: seq<Relationship>, retracted: seq<EntityId>)
    requires InStep(s, g) && WellFormedExtraction(entities, rs)
    ensures FoldExtracted(g, entities, rs, retracted).error == None
    ensures InStep(s, FoldExtracted(g, entities, rs, retracted).graph)
  {
    hide FoldExtracted, Sound, Restorable;
    ExtractionKeepsSound(g, entities, rs, retracted);
    RestorableInLargerStore(s, g, FoldExtracted(g, entities, rs, retracted).graph);
  }

  // ----- merging

  ghost function MergedGraph(dumps: Renderer, g: Graph, ev: Event): Graph
    requires ev.Merged? && PlannedOn(dumps, g, ev)
  {
    Graph(g.entities[ev.canonical := g.entities[ev.canonical].WithFields(ev.resolution.value.after)],
          PlannedEdges(dumps, ev.canonical, ev.merged, g.edges),
          Absorb(g.aliases, ev.canonical, ev.merged))
  }

  lemma PresentMergeFolds(g: Graph, ev: Event)
    requires ev.Merged? && AftersPresent(g.entities, ev.redirections)
    requires ev.resolution.Some? && ev.resolution.value.entityId == ev.canonical && ev.canonical in g.entities
    ensures Fold(g, ev) ==
            Folded(Graph(g.entities[ev.canonical := g.entities[ev.canonical].WithFields(ev.resolution.value.after)],
                         ApplyRedirections(g.edges, ev.redirections),
                         Absorb(g.aliases, ev.canonical, ev.merged)), None)
  {
    RedirectedSucceeds(g.(aliases := Absorb(g.aliases, ev.canonical, ev.merged)), ev.redirections);
  }

  // A merge planned on the store it is folded into is never a poison event either.
  lemma MergeFolds(dumps: Renderer, g: Graph, ev: Event)
    requires Sound(g) && ev.Merged? && PlannedOn(dumps, g, ev)
    ensures Fold(g, ev) == Folded(MergedGraph(dumps, g, ev), None)
  {
    ApplyingThePlan(dumps, ev.canonical, ev.merged, g.edges, ev.redirections);
    PresentMergeFolds(g, ev);
  }

  lemma MergeKeepsSound(dumps: Renderer, g: Graph, ev: Event)
    requires Sound(g) && ev.Merged? && PlannedOn(dumps, g, ev) && ev.canonical !in g.aliases && ev.canonical !in ev.merged
    ensures Sound(MergedGraph(dumps, g, ev))
  {
    hide IsPlan, Loses;
    PlannedShape(dumps, ev.canonical, ev.merged, g.edges);
  }

  lemma MergeKeepsRestorable(dumps: Renderer, s: LogState, g: Graph, ev: Event)
    requires InStep(s, g) && ev.Merged? && Accepts(s, ev) && PlannedOn(dumps, g, ev)
    ensures Restorable(Apply(s, ev), MergedGraph(dumps, g, ev))
  {
    hide Consistent, PlannedEdges, Coherent, FreshId, Changes, After;
    var s', n := Apply(s, ev), |s.merges|;
    assert s'.merges[n] == RecordOf(ev, false);
    assert forall k :: InEffect(s, k) ==> InEffect(s', k) && s'.merges[k] == s.merges[k];
    assert InEffect(s', n);
    forall i, e | InEffect(s, i) && AliasedFrom(s, i, e) ensures AliasedFrom(s', i, e) {
      if e in s'.aliasOf && e !in ev.merged {
        var k :| k >= i && InEffect(s, k) && e in s.merges[k].merged;
        assert InEffect(s', k);
      }
    }
    forall e | e !in s.aliasOf ensures AliasedFrom(s', n, e) {
    }
  }

  lemma MergeKeepsStep(dumps: Renderer, s: LogState, g: Graph, ev: Event)
    requires InStep(s, g) && ev.Merged? && Accepts(s, ev) && PlannedOn(dumps, g, ev)
    ensures InStep(Apply(s, ev), MergedGraph(dumps, g, ev))
  {
    MergeKeepsConsistent(s, ev);
    MergeKeepsSound(dumps, g, ev);
    MergeKeepsRestorable(dumps, s, g, ev);
  }

  // ----- undoing

  lemma UndoFolds(s: LogState, g: Graph, ev: Event) returns (u: nat)
    requires InStep(s, g) && ev.Undone? && Accepts(s, ev)
    ensures InEffect(s, u) && ev == UndoOf(s.merges[u]) && s.merges[u].eventId == ev.mergeEventId
    ensures forall i :: InEffect(Apply(s, ev), i) <==> InEffect(s, i) && i != u
    ensures Apply(s, ev).merges == s.merges[u := s.merges[u].(undone := true)]
    ensures Fold(g, ev).error == None
    ensures Fold(g, ev).graph.edges == Upserted(g.edges, ev.restored)
    ensures Fold(g, ev).graph.aliases == Release(g.aliases, ev.unmerged)
    ensures Fold(g, ev).graph.entities.Keys == g.entities.Keys
  {
    u := UndoFlagsOneRecord(s, ev);
    forall r | r in ev.restored ensures r.source in g.entities && r.target in g.entities {
      var k :| 0 <= k < |ev.restored| && ev.restored[k] == r;
      assert s.merges[u].redirections[k] in s.merges[u].redirections;
    }
    NothingMissing(g.entities, ev.restored);
    assert ev.canonical in g.entities;
  }

  lemma UndoKeepsRestorable(s: LogState, g: Graph, ev: Event)
    requires InStep(s, g) && ev.Undone? && Accepts(s, ev)
    ensures Restorable(Apply(s, ev), Fold(g, ev).graph)
  {
    var u := UndoFolds(s, g, ev);
    var s' := Apply(s, ev);
    forall i, e | InEffect(s', i) && AliasedFrom(s, i, e) ensures AliasedFrom(s', i, e) {
      if e in s'.aliasOf {
        var k :| k >= i && InEffect(s, k) && e in s.merges[k].merged;
        assert InEffect(s', k);
      }
    }
    assert forall i :: InEffect(s', i) ==> s'.merges[i] == s.merges[i];
  }

  // No merge still in effect after the one at `u` absorbed an endpoint of an edge it displaced.
  ghost predicate NothingAbsorbedSince(s: LogState, u: int)
    requires 0 <= u < |s.merges|
  {
    forall k, p :: k > u && InEffect(s, k) && p in s.merges[u].redirections ==>
      p.before.source !in s.merges[k].merged && p.before.target !in s.merges[k].merged
  }

  // The merge at `u` is the last one in effect.
  ghost predicate LastInEffect(s: LogState, u: int) {
    InEffect(s, u) && forall k :: InEffect(s, k) ==> k <= u
  }

  // An edge of the store after the undo is a restored one or was there already.
  lemma EdgeAfterUndo(plan: seq<Redirection>, edges: EdgeTable, i: RelationshipId)
    requires i in Upserted(edges, Befores(plan))
    ensures var e := Upserted(edges, Befores(plan))[i];
            (exists p :: p in plan && p.before == e && e.id == i) || (i in edges && e == edges[i])
  {
    UpsertedAt(edges, Befores(plan), i);
    if r :| r in Befores(plan) && r.id == i {
      var k :| 0 <= k < |plan| && plan[k].before == Upserted(edges, Befores(plan))[i];
      assert plan[k] in plan;
    } else {
      assert EdgeAt(Upserted(edges, Befores(plan)), i) == EdgeAt(edges, i);
    }
  }

  // A displaced edge is back under its id after the undo.
  lemma DisplacedEdgeIsBack(plan: seq<Redirection>, edges: EdgeTable, p: Redirection)
    requires UniqueBefore(plan) && p in plan
    ensures EdgeAt(Upserted(edges, Befores(plan)), p.before.id) == Some(p.before)
  {
    var j :| 0 <= j < |plan| && plan[j] == p;
    assert Befores(plan)[j] in Befores(plan);
    UpsertedAt(edges, Befores(plan), p.before.id);
    var k :| 0 <= k < |plan| && plan[k].before == Upserted(edges, Befores(plan))[p.before.id];
    assert j == k;
  }

  // An endpoint the merge at `u` displaced is an alias after the undo only by a later merge.
  lemma AliasedAfterUndo(s: LogState, u: int, e: EntityId)
    requires Consistent(s) && InEffect(s, u) && AliasedFrom(s, u, e)
    ensures e in Release(s.aliasOf, s.merges[u].merged) <==> exists k :: k > u && InEffect(s, k) && e in s.merges[k].merged
  {
    if e in Release(s.aliasOf, s.merges[u].merged) {
      var k :| k >= u && InEffect(s, k) && e in s.merges[k].merged;
      assert k > u;
    }
  }

  // Undoing any merge in effect keeps the store sound exactly when no later merge in effect
  // absorbed an endpoint of an edge the undo restores.
  lemma UndoKeepsSoundExactlyWhen(s: LogState, g: Graph, ev: Event) returns (u: nat)
    requires InStep(s, g) && ev.Undone? && Accepts(s, ev)
    ensures InEffect(s, u) && s.merges[u].eventId == ev.mergeEventId
    ensures Sound(Fold(g, ev).graph) <==> NothingAbsorbedSince(s, u)
  {
    u := UndoFolds(s, g, ev);
    if NothingAbsorbedSince(s, u) {
      UndoKeepsSound(s, g, ev, u);
    } else {
      UndoBreaksSound(s, g, ev, u);
    }
  }

  lemma UndoKeepsSound(s: LogState, g: Graph, ev: Event, u: nat)
    requires InStep(s, g) && InEffect(s, u) && ev == UndoOf(s.merges[u]) && NothingAbsorbedSince(s, u)
    requires Fold(g, ev).graph.edges == Upserted(g.edges, ev.restored)
    requires Fold(g, ev).graph.aliases == Release(g.aliases, ev.unmerged)
    requires Fold(g, ev).graph.entities.Keys == g.entities.Keys
    ensures Sound(Fold(g, ev).graph)
  {
    var plan := s.merges[u].redirections;
    assert ev.restored == Befores(plan);
    forall p | p in plan ensures p.before.source !in Release(g.aliases, ev.unmerged) && p.before.target !in Release(g.aliases, ev.unmerged) {
      AliasedAfterUndo(s, u, p.before.source);
      AliasedAfterUndo(s, u, p.before.target);
    }
    forall i | i in Upserted(g.edges, Befores(plan))
      ensures var e := Upserted(g.edges, Befores(plan))[i];
              e.id == i && !e.IsSelfLoop() && e.source in g.entities && e.target in g.entities
              && e.source !in Release(g.aliases, ev.unmerged) && e.target !in Release(g.aliases, ev.unmerged)
    {
      EdgeAfterUndo(plan, g.edges, i);
    }
  }

  lemma UndoBreaksSound(s: LogState, g: Graph, ev: Event, u: nat)
    requires InStep(s, g) && InEffect(s, u) && ev == UndoOf(s.merges[u]) && !NothingAbsorbedSince(s, u)
    requires Fold(g, ev).graph.edges == Upserted(g.edges, ev.restored)
    requires Fold(g, ev).graph.aliases == Release(g.aliases, ev.unmerged)
    ensures !Sound(Fold(g, ev).graph)
  {
    hide Fold, Upserted, Release, Forest, MergesOwnEntries, EntriesHaveMerges, OneMergePerEntity;
    var plan := s.merges[u].redirections;
    assert ev.restored == Befores(plan);
    var k, p :| k > u && InEffect(s, k) && p in plan
                && (p.before.source in s.merges[k].merged || p.before.target in s.merges[k].merged);
    DisplacedEdgeIsBack(plan, g.edges, p);
    AliasedAfterUndo(s, u, p.before.source);
    AliasedAfterUndo(s, u, p.before.target);
  }

  lemma UndoOfLastKeepsStep(s: LogState, g: Graph, ev: Event)
    requires InStep(s, g) && ev.Undone? && Accepts(s, ev)
    requires exists u :: LastInEffect(s, u) && s.merges[u].eventId == ev.mergeEventId
    ensures Fold(g, ev).error == None && InStep(Apply(s, ev), Fold(g, ev).graph)
  {
    var u := UndoKeepsSoundExactlyWhen(s, g, ev);
    assert NothingAbsorbedSince(s, u);
    UndoKeepsConsistent(s, ev);
    UndoKeepsRestorable(s, g, ev);
    var _ := UndoFolds(s, g, ev);
  }
}
