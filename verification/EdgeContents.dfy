/**
 What rows and edges hold, over whole runs: every edge is one some document stated, on other ends
 perhaps, and every row what the last document to list it said, until a merge decides its fields.
 */
module EdgeContents {
  import opened Wrappers
  import opened Domain
  import opened AliasForest
  import opened MergeLog
  import opened Planning
  import opened PlanEffect
  import opened GraphFold
  import opened Runs
  import opened RunClaims

  // The same in everything but its two ends.
  ghost predicate ButForItsEnds(e: Relationship, r: Relationship) {
    e == r.(source := e.source, target := e.target)
  }

  // Some edge of this id was stated so.
  ghost predicate WasStated(stated: set<Relationship>, i: RelationshipId, e: Relationship) {
    exists r :: r in stated && r.id == i && ButForItsEnds(e, r)
  }

  ghost predicate AllWereStated(edges: EdgeTable, stated: set<Relationship>) {
    forall i :: i in edges ==> WasStated(stated, i, edges[i])
  }

  // So was every edge a merge recorded.
  ghost predicate RecordsWereStated(s: LogState, stated: set<Relationship>) {
    forall k, p :: 0 <= k < |s.merges| && p in s.merges[k].redirections ==> WasStated(stated, p.before.id, p.before)
  }

  /** A plan moves an edge's ends to the canonical entity, where they are absorbed, and changes nothing else. */
  lemma PlannedMovesChangeOnlyEnds(dumps: Renderer, c: EntityId, ds: seq<EntityId>, edges: set<Relationship>, plan: seq<Redirection>)
    requires IsPlan(dumps, c, ds, edges, plan)
    ensures forall p :: p in plan && p.after.Some? ==>
              && p.after.value.(source := p.before.source, target := p.before.target) == p.before
              && p.after.value.source == (if p.before.source in ds then c else p.before.source)
              && p.after.value.target == (if p.before.target in ds then c else p.before.target)
  {
    hide Loses;
  }

  lemma MoreStated(edges: EdgeTable, stated: set<Relationship>, more: set<Relationship>)
    requires AllWereStated(edges, stated) && stated <= more
    ensures AllWereStated(edges, more)
  {
    forall i | i in edges ensures WasStated(more, i, edges[i]) {
      var r :| r in stated && r.id == i && ButForItsEnds(edges[i], r);
      assert r in more;
    }
  }

  lemma MoreRecorded(s: LogState, stated: set<Relationship>, more: set<Relationship>)
    requires RecordsWereStated(s, stated) && stated <= more
    ensures RecordsWereStated(s, more)
  {
    forall k, p | 0 <= k < |s.merges| && p in s.merges[k].redirections ensures WasStated(more, p.before.id, p.before) {
      assert WasStated(stated, p.before.id, p.before);
      var r :| r in stated && r.id == p.before.id && ButForItsEnds(p.before, r);
      assert r in more;
    }
  }

  // A stated edge is written on its canonical ends and is otherwise what was stated.
  lemma ResolvingChangesOnlyEnds(m: AliasTable, r: Relationship)
    ensures ButForItsEnds(ResolvedEdge(m, r), r) && ResolvedEdge(m, r).id == r.id
    ensures ResolvedEdge(m, r).source == Resolve(m, r.source) && ResolvedEdge(m, r).target == Resolve(m, r.target)
  {
  }

  lemma UpsertsOfStated(edges: EdgeTable, rs: seq<Relationship>, stated: set<Relationship>)
    requires AllWereStated(edges, stated) && forall r :: r in rs ==> WasStated(stated, r.id, r)
    ensures AllWereStated(Upserted(edges, rs), stated)
  {
    hide WasStated;
    forall i | i in Upserted(edges, rs) ensures WasStated(stated, i, Upserted(edges, rs)[i]) {
      UpsertedAt(edges, rs, i);
      if !(exists r :: r in rs && r.id == i) {
        assert EdgeAt(Upserted(edges, rs), i) == EdgeAt(edges, i);
      }
    }
  }

  lemma ExtractionWasStated(g: Graph, entities: seq<Entity>, rs: seq<Relationship>, retracted: seq<EntityId>, stated: set<Relationship>)
    requires AllWereStated(g.edges, stated)
    ensures AllWereStated(FoldExtracted(g, entities, rs, retracted).graph.edges, stated + set r | r in rs)
  {
    hide RetractAll, UpsertedEntities, LiveEdges, WithoutCollapsed, Upserted, FirstCycle, Endpoints, FirstMissing, ResolvedEdge, Resolve;
    var more := stated + set r | r in rs;
    var seeded := g.(entities := UpsertedEntities(g.entities, entities));
    var cleared := RetractAll(seeded, retracted);
    RetractAllAt(seeded, retracted);
    MoreStated(g.edges, stated, more);
    assert AllWereStated(cleared.edges, more);
    var kept := WithoutCollapsed(cleared.edges, cleared.aliases, rs);
    forall i | i in kept ensures WasStated(more, i, kept[i]) {
      CollapsedAreGone(cleared.edges, cleared.aliases, rs, i);
      assert EdgeAt(kept, i) == EdgeAt(cleared.edges, i);
    }
    LiveEdgesAre(cleared.aliases, rs);
    forall r | r in LiveEdges(cleared.aliases, rs) ensures WasStated(more, r.id, r) {
      var was :| was in rs && r == ResolvedEdge(cleared.aliases, was);
      ResolvingChangesOnlyEnds(cleared.aliases, was);
    }
    UpsertsOfStated(kept, LiveEdges(cleared.aliases, rs), more);
  }

  lemma {:induction false} RedirectionsOfStated(g: Graph, plan: seq<Redirection>, stated: set<Relationship>)
    requires AllWereStated(g.edges, stated)
    requires forall p :: p in plan && p.after.Some? ==> WasStated(stated, p.after.value.id, p.after.value)
    ensures AllWereStated(Redirected(g, plan).graph.edges, stated)
  {
    hide WasStated, FirstMissing;
    if plan != [] {
      var n := |plan| - 1;
      assert plan[n] in plan;
      RedirectionsOfStated(g, plan[..n], stated);
      var earlier := Redirected(g, plan[..n]).graph;
      if plan[n].after.Some? {
        UpsertingOne(earlier.edges, plan[n].after.value);
      }
    }
  }

  lemma MergeWasStated(dumps: Renderer, g: Graph, ev: Event, stated: set<Relationship>)
    requires ev.Merged? && PlannedOn(dumps, g, ev) && AllWereStated(g.edges, stated)
    ensures AllWereStated(Fold(g, ev).graph.edges, stated)
    ensures forall p :: p in ev.redirections ==> WasStated(stated, p.before.id, p.before)
  {
    hide IsPlan, Redirected, ApplyFields;
    var plan := ev.redirections;
    PlannedMovesChangeOnlyEnds(dumps, ev.canonical, ev.merged, g.edges.Values, plan);
    forall p | p in plan ensures WasStated(stated, p.before.id, p.before) {
      PlansStoredEdges(dumps, ev.canonical, ev.merged, g.edges, plan, p);
      var i :| i in g.edges && g.edges[i] == p.before;
      var r :| r in stated && r.id == i && ButForItsEnds(p.before, r);
    }
    forall p | p in plan && p.after.Some? ensures WasStated(stated, p.after.value.id, p.after.value) {
      var r :| r in stated && r.id == p.before.id && ButForItsEnds(p.before, r);
      assert ButForItsEnds(p.after.value, r);
    }
    var aliased := g.(aliases := Absorb(g.aliases, ev.canonical, ev.merged));
    RedirectionsOfStated(aliased, plan, stated);
    FieldsLeaveEdges(Redirected(aliased, plan).graph, ev.resolution);
  }

  lemma PlansStoredEdges(dumps: Renderer, c: EntityId, ds: seq<EntityId>, edges: EdgeTable, plan: seq<Redirection>, p: Redirection)
    requires IsPlan(dumps, c, ds, edges.Values, plan) && p in plan
    ensures exists i :: i in edges && edges[i] == p.before
  {
    hide Changes, After;
    assert p.before in edges.Values;
  }

  lemma FieldsLeaveEdges(g: Graph, resolution: Option<Resolution>)
    ensures resolution.Some? ==> ApplyFields(g, resolution.value.entityId, resolution.value.after).graph.edges == g.edges
  {
  }

  lemma UndoWasStated(s: LogState, g: Graph, ev: Event, stated: set<Relationship>)
    requires ev.Undone? && Accepts(s, ev) && AllWereStated(g.edges, stated) && RecordsWereStated(s, stated)
    ensures AllWereStated(Fold(g, ev).graph.edges, stated)
    ensures RecordsWereStated(Apply(s, ev), stated)
  {
    hide WasStated, FirstMissing, Upserted, Release;
    var i :| InEffect(s, i) && s.merges[i].eventId == ev.mergeEventId && ev == UndoOf(s.merges[i]);
    forall r | r in ev.restored ensures WasStated(stated, r.id, r) {
      var k :| 0 <= k < |ev.restored| && ev.restored[k] == r;
      assert s.merges[i].redirections[k] in s.merges[i].redirections;
    }
    UpsertsOfStated(g.edges, ev.restored, stated);
    forall k ensures 0 <= k < |s.merges| ==> Apply(s, ev).merges[k].redirections == s.merges[k].redirections {
    }
  }

  lemma {:induction false} StoredAndRecorded(dumps: Renderer, log: seq<Event>)
    requires Run(dumps, log)
    ensures AllWereStated(StoreAfter(log).edges, Stated(log)) && RecordsWereStated(Replay(log), Stated(log))
    decreases |log|
  {
    hide AllWereStated, RecordsWereStated, Fold, Accepts, Apply, PlannedOn;
    if log == [] {
      NothingStored();
    } else {
      var n := |log| - 1;
      var before, ev := log[..n], log[n];
      StoredAndRecorded(dumps, before);
      OneEventWasStated(dumps, before, ev, Stated(before), Stated(log));
    }
  }

  lemma NothingStored()
    ensures AllWereStated(EMPTY_GRAPH.edges, {}) && RecordsWereStated(EMPTY_STATE, {})
  {
  }

  lemma OneEventWasStated(dumps: Renderer, before: seq<Event>, ev: Event, stated: set<Relationship>, more: set<Relationship>)
    requires MayFollow(dumps, before, ev) && AllWereStated(StoreAfter(before).edges, stated) && RecordsWereStated(Replay(before), stated)
    requires more == stated + if ev.Extracted? then set r | r in ev.relationships else {}
    ensures AllWereStated(Fold(StoreAfter(before), ev).graph.edges, more) && RecordsWereStated(Apply(Replay(before), ev), more)
  {
    hide AllWereStated, StoreAfter, Replay, FoldExtracted, FoldMerged, FoldUndone, PlannedOn, WasStated, WellFormedExtraction;
    var s, g := Replay(before), StoreAfter(before);
    match ev
    case Extracted(entities, rs, retracted) =>
      ExtractionWasStated(g, entities, rs, retracted, stated);
      MoreRecorded(s, stated, more);
    case Merged(_, _, _, _, _) =>
      MergeWasStated(dumps, g, ev, stated);
      assert more == stated;
    case Undone(_, _, _, _, _) =>
      UndoWasStated(s, g, ev, stated);
      assert more == stated;
  }

  /**
   After any run, merges undone in any order included, every stored edge is one that was stated under
   its id: the same type, document, properties and confidence, on other ends perhaps.
   */
  lemma EveryEdgeWasStated(dumps: Renderer, log: seq<Event>, i: RelationshipId)
    requires Run(dumps, log) && i in StoreAfter(log).edges
    ensures var e := StoreAfter(log).edges[i];
            exists r :: r in Stated(log) && r.id == i && e == r.(source := e.source, target := e.target)
  {
    hide Run, StoreAfter, Stated;
    StoredAndRecorded(dumps, log);
    assert WasStated(Stated(log), i, StoreAfter(log).edges[i]);
  }

  ghost predicate States(ev: Event, i: RelationshipId) {
    ev.Extracted? && exists r :: r in ev.relationships && r.id == i
  }

  // One extraction writes what it states, or leaves what was there.
  lemma EdgeAfterExtraction(g: Graph, ev: Event, i: RelationshipId)
    requires ev.Extracted? && i in Fold(g, ev).graph.edges && Fold(g, ev).error == None
    ensures var edges := Fold(g, ev).graph.edges;
            if States(ev, i) then exists r :: r in ev.relationships && r.id == i && ButForItsEnds(edges[i], r)
            else i in g.edges && edges[i] == g.edges[i]
  {
    hide RetractAll, UpsertedEntities, LiveEdges, WithoutCollapsed, Upserted, FirstCycle, Endpoints, FirstMissing, ResolvedEdge, Resolve;
    var rs := ev.relationships;
    var seeded := g.(entities := UpsertedEntities(g.entities, ev.entities));
    var cleared := RetractAll(seeded, ev.retracted);
    RetractAllAt(seeded, ev.retracted);
    var kept, live := WithoutCollapsed(cleared.edges, cleared.aliases, rs), LiveEdges(cleared.aliases, rs);
    CollapsedAreGone(cleared.edges, cleared.aliases, rs, i);
    LiveEdgesAre(cleared.aliases, rs);
    UpsertedAt(kept, live, i);
    forall r | r in rs ensures ButForItsEnds(ResolvedEdge(cleared.aliases, r), r) && ResolvedEdge(cleared.aliases, r).id == r.id {
      ResolvingChangesOnlyEnds(cleared.aliases, r);
    }
    if l :| l in live && l.id == i {
      var r :| r in rs && Upserted(kept, live)[i] == ResolvedEdge(cleared.aliases, r);
    } else {
      assert EdgeAt(Upserted(kept, live), i) == EdgeAt(kept, i);
    }
  }

  // One merge moves an edge or leaves it.
  lemma EdgeAfterMerge(dumps: Renderer, g: Graph, ev: Event, i: RelationshipId)
    requires Sound(g) && ev.Merged? && PlannedOn(dumps, g, ev) && i in Fold(g, ev).graph.edges
    ensures i in g.edges && ButForItsEnds(Fold(g, ev).graph.edges[i], g.edges[i])
  {
    hide Fold, IsPlan, Absorb, Loses;
    MergeFolds(dumps, g, ev);
  }

  /**
   Until something is undone, a stored edge is what the last document to state it said, but for its ends.
   */
  lemma {:induction false} EdgeIsAsLastStated(dumps: Renderer, log: seq<Event>, p: nat, i: RelationshipId)
    requires Run(dumps, log) && UndoesLatestFirst(log) && p < |log| && States(log[p], i)
    requires forall q :: p < q < |log| ==> !States(log[q], i) && !log[q].Undone?
    requires i in StoreAfter(log).edges
    ensures exists r :: r in log[p].relationships && r.id == i && ButForItsEnds(StoreAfter(log).edges[i], r)
    decreases |log|
  {
    hide States, Fold, PlannedOn, Accepts, InStep, ButForItsEnds;
    var n := |log| - 1;
    var g, ev := StoreAfter(log[..n]), log[n];
    RunsKeepStep(dumps, log[..n]);
    InStepIsSound(Replay(log[..n]), g);
    OneEventKeepsStep(dumps, log[..n], ev);
    StatesOnlyIfExtracted(log[p], i);
    if p == n {
      EdgeAfterExtraction(g, ev, i);
    } else {
      if ev.Extracted? {
        EdgeAfterExtraction(g, ev, i);
      } else {
        EdgeAfterMerge(dumps, g, ev, i);
      }
      EdgeIsAsLastStated(dumps, log[..n], p, i);
      var r :| r in log[p].relationships && r.id == i && ButForItsEnds(g.edges[i], r);
      EndsAlone(StoreAfter(log).edges[i], g.edges[i], r);
    }
  }

  lemma StatesOnlyIfExtracted(ev: Event, i: RelationshipId)
    requires States(ev, i)
    ensures ev.Extracted?
  {
  }

  lemma InStepIsSound(s: LogState, g: Graph)
    requires InStep(s, g)
    ensures Sound(g)
  {
  }

  lemma EndsAlone(a: Relationship, b: Relationship, c: Relationship)
    requires (a == b || ButForItsEnds(a, b)) && ButForItsEnds(b, c)
    ensures ButForItsEnds(a, c)
  {
  }

  // ----- rows

  lemma {:induction false} RedirectionsLeaveRows(g: Graph, plan: seq<Redirection>)
    ensures Redirected(g, plan).graph.entities == g.entities
  {
    hide FirstMissing, Upserted;
    if plan != [] {
      RedirectionsLeaveRows(g, plan[..|plan| - 1]);
    }
  }

  /** A folded merge gives its canonical entity the three fields it decided, and changes nothing else of any row. */
  lemma MergeSetsTheThreeFields(dumps: Renderer, g: Graph, ev: Event)
    requires Sound(g) && ev.Merged? && PlannedOn(dumps, g, ev)
    ensures var c, fields := ev.canonical, ev.resolution.value.after;
            Fold(g, ev).graph.entities ==
            g.entities[c := g.entities[c].(description := fields.description, externalIds := fields.externalIds,
                                           properties := fields.properties)]
  {
    hide Fold, IsPlan, PlannedEdges, Absorb;
    MergeFolds(dumps, g, ev);
  }

  ghost predicate Lists(ev: Event, e: EntityId) {
    ev.Extracted? && exists x :: x in ev.entities && x.id == e
  }

  ghost predicate Retracts(ev: Event, e: EntityId) {
    ev.Extracted? && e in ev.retracted
  }

  // The event sets the mergeable fields of `e`.
  ghost predicate Decides(ev: Event, e: EntityId) {
    || (ev.Merged? && ev.resolution.Some? && ev.resolution.value.entityId == e)
    || (ev.Undone? && ev.restoredFields.Some? && ev.canonical == e)
  }

  // The row is what was listed, its three mergeable fields aside.
  ghost predicate ButForItsFields(row: Entity, x: Entity) {
    row == x.(description := row.description, externalIds := row.externalIds, properties := row.properties)
  }

  // The row is what was listed, flagged if it was retracted.
  ghost predicate ButForTheFlag(row: Entity, x: Entity, retracted: bool) {
    row == if retracted then x.(properties := x.properties["_retracted" := True]) else x
  }

  lemma RowAfterEvent(g: Graph, ev: Event, e: EntityId)
    requires Lists(ev, e) || e in g.entities
    ensures var rows := Fold(g, ev).graph.entities;
            && e in rows
            && (Lists(ev, e) ==> exists x :: x in ev.entities && x.id == e && ButForTheFlag(rows[e], x, Retracts(ev, e)))
            && (!Lists(ev, e) && !Decides(ev, e) ==> ButForTheFlag(rows[e], g.entities[e], Retracts(ev, e)))
            && (!Lists(ev, e) ==> ButForItsFields(rows[e], g.entities[e]))
  {
    hide RetractAll, UpsertedEntities, LiveEdges, WithoutCollapsed, Upserted, FirstCycle, Endpoints, FirstMissing, Redirected, Absorb, Release;
    match ev
    case Extracted(entities, _, retracted) =>
      var seeded := g.(entities := UpsertedEntities(g.entities, entities));
      RetractAllAt(seeded, retracted);
      UpsertedEntitiesAt(g.entities, entities, e);
    case Merged(_, c, ds, plan, _) =>
      RedirectionsLeaveRows(g.(aliases := Absorb(g.aliases, c, ds)), plan);
    case Undone(_, _, _, _, _) =>
  }

  ghost predicate RetractedSince(log: seq<Event>, p: nat, e: EntityId) {
    exists q :: p <= q < |log| && Retracts(log[q], e)
  }

  /**
   A row is what the last document to list it said, but for its mergeable fields; and those too are
   as listed until a merge or an undo decides them, save for the flag of a retraction.
   */
  lemma {:induction false} RowIsAsLastListed(log: seq<Event>, p: nat, e: EntityId)
    requires p < |log| && Lists(log[p], e) && forall q :: p < q < |log| ==> !Lists(log[q], e)
    ensures e in StoreAfter(log).entities && log[p].Extracted?
    ensures exists x :: x in log[p].entities && x.id == e
                        && ButForItsFields(StoreAfter(log).entities[e], x)
                        && ((forall q :: p < q < |log| ==> !Decides(log[q], e)) ==>
                              ButForTheFlag(StoreAfter(log).entities[e], x, RetractedSince(log, p, e)))
    decreases |log|
  {
    hide Fold, Decides, Retracts;
    var n := |log| - 1;
    var g, ev := StoreAfter(log[..n]), log[n];
    if p == n {
      RowAfterEvent(g, ev, e);
    } else {
      RowIsAsLastListed(log[..n], p, e);
      RowAfterEvent(g, ev, e);
      var x :| x in log[p].entities && x.id == e && ButForItsFields(g.entities[e], x)
               && ((forall q :: p < q < n ==> !Decides(log[..n][q], e)) ==> ButForTheFlag(g.entities[e], x, RetractedSince(log[..n], p, e)));
      RetractedOneMore(log, p, e);
      if forall q :: p < q < |log| ==> !Decides(log[q], e) {
        FlaggedTwice(StoreAfter(log).entities[e], g.entities[e], x, Retracts(ev, e), RetractedSince(log[..n], p, e));
      }
    }
  }

  lemma RetractedOneMore(log: seq<Event>, p: nat, e: EntityId)
    requires p < |log| - 1
    ensures RetractedSince(log, p, e) <==> RetractedSince(log[..|log| - 1], p, e) || Retracts(log[|log| - 1], e)
  {
    var n := |log| - 1;
    if q :| p <= q < n && Retracts(log[..n][q], e) {
      assert Retracts(log[q], e);
    }
    if q :| p <= q < |log| && Retracts(log[q], e) {
      assert q < n ==> Retracts(log[..n][q], e);
    }
  }

  lemma FlaggedTwice(a: Entity, b: Entity, c: Entity, now: bool, before: bool)
    requires ButForTheFlag(a, b, now) && ButForTheFlag(b, c, before)
    ensures ButForTheFlag(a, c, now || before)
  {
  }

  lemma NoRowIsMadeUp(g: Graph, ev: Event, e: EntityId)
    requires e in Fold(g, ev).graph.entities
    ensures e in g.entities || Lists(ev, e)
  {
    hide RetractAll, UpsertedEntities, LiveEdges, WithoutCollapsed, Upserted, FirstCycle, Endpoints, FirstMissing, Redirected, Absorb, Release;
    match ev
    case Extracted(entities, _, retracted) =>
      RetractAllAt(g.(entities := UpsertedEntities(g.entities, entities)), retracted);
      UpsertedEntitiesAt(g.entities, entities, e);
    case Merged(_, c, ds, plan, _) =>
      RedirectionsLeaveRows(g.(aliases := Absorb(g.aliases, c, ds)), plan);
    case Undone(_, _, _, _, _) =>
  }

  /** An entity has a row exactly when some document listed it: nothing else adds one, and nothing takes one away. */
  lemma {:induction false} RowsAreThoseListed(log: seq<Event>, e: EntityId)
    ensures e in StoreAfter(log).entities <==> exists p :: 0 <= p < |log| && Lists(log[p], e)
    decreases |log|
  {
    hide Fold, Lists;
    if log != [] {
      var n := |log| - 1;
      var g, ev := StoreAfter(log[..n]), log[n];
      RowsAreThoseListed(log[..n], e);
      if e in g.entities || Lists(ev, e) {
        RowAfterEvent(g, ev, e);
      } else if e in StoreAfter(log).entities {
        NoRowIsMadeUp(g, ev, e);
      }
      assert forall p :: 0 <= p < n ==> log[..n][p] == log[p];
    }
  }
}
