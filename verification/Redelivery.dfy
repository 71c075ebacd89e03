/**
 Redelivery: a feed that replays a contiguous suffix of the log over the final store
 changes nothing, because the last write of each row is the same write again.
 */
module Redelivery {
  import opened Wrappers
  import opened Domain
  import opened AliasForest
  import opened MergeLog
  import opened MergeHistory
  import opened Planning
  import opened PlanEffect
  import opened GraphFold
  import opened Runs
  import opened RunClaims

  // ----- which rows an event writes

  ghost predicate WritesEdge(ev: Event, i: RelationshipId) {
    (ev.Extracted? && exists r :: r in ev.relationships && r.id == i)
    || (ev.Merged? && exists p :: p in ev.redirections && p.before.id == i)
  }

  ghost predicate WritesEntity(ev: Event, e: EntityId) {
    ev.Extracted? && exists x :: x in ev.entities && x.id == e
  }

  ghost predicate WritesFields(ev: Event, e: EntityId) {
    WritesEntity(ev, e) || (ev.Merged? && ev.canonical == e)
  }

  ghost predicate EdgeWrittenFrom(log: seq<Event>, k: nat, i: RelationshipId) {
    exists j :: k <= j < |log| && WritesEdge(log[j], i)
  }

  ghost predicate EntityWrittenFrom(log: seq<Event>, k: nat, e: EntityId) {
    exists j :: k <= j < |log| && WritesEntity(log[j], e)
  }

  ghost predicate FieldsWrittenFrom(log: seq<Event>, k: nat, e: EntityId) {
    exists j :: k <= j < |log| && WritesFields(log[j], e)
  }

  // The two entities differ at most in the mergeable fields.
  ghost predicate SameButFields(a: Entity, b: Entity) {
    a.WithFields(b.Fields()) == b
  }

  // ----- one position of a run

  // A log of the kind redelivery is harmless for.
  ghost predicate Replayable(dumps: Renderer, log: seq<Event>) {
    Run(dumps, log) && Plain(log) && IdsFixClaims(Stated(log))
  }

  lemma DroppingTheLast(dumps: Renderer, log: seq<Event>)
    requires Replayable(dumps, log) && log != []
    ensures Replayable(dumps, log[..|log| - 1])
  {
    forall ev | ev in log[..|log| - 1] ensures ev in log {
    }
  }

  lemma {:induction false} PrefixReplayable(dumps: Renderer, log: seq<Event>, k: nat)
    requires Replayable(dumps, log) && k <= |log|
    ensures Replayable(dumps, log[..k])
    decreases |log|
  {
    if k == |log| {
      assert log[..k] == log;
    } else {
      var shorter := log[..|log| - 1];
      DroppingTheLast(dumps, log);
      PrefixReplayable(dumps, shorter, k);
      assert shorter[..k] == log[..k];
    }
  }

  lemma AtPosition(dumps: Renderer, log: seq<Event>, k: nat)
    requires Replayable(dumps, log) && k < |log|
    ensures InStep(Replay(log[..k]), StoreAfter(log[..k])) && MayFollow(dumps, log[..k], log[k])
    ensures StoreAfter(log[..k + 1]) == Fold(StoreAfter(log[..k]), log[k]).graph
    ensures Fold(StoreAfter(log[..k]), log[k]).error == None
    ensures Replay(log[..k + 1]) == Apply(Replay(log[..k]), log[k])
    ensures !log[k].Undone? && (log[k].Extracted? ==> log[k].retracted == [])
    ensures log[k].Extracted? ==> IdsFixClaims(set r | r in log[k].relationships)
  {
    PrefixReplayable(dumps, log, k + 1);
    PrefixReplayable(dumps, log, k);
    var before := log[..k + 1];
    assert before[..k] == log[..k] && before[k] == log[k];
    StoreSaysWhatWasStated(dumps, log[..k]);
    assert log[k] in log;
    OneEventKeepsStep(dumps, log[..k], log[k]);
  }

  // ----- what one event leaves in a row

  ghost function WrittenBy(m: AliasTable, r: Relationship): Option<Relationship> {
    if ResolvedEdge(m, r).IsSelfLoop() then None else Some(ResolvedEdge(m, r))
  }

  lemma {:induction false} LiveEdgesEndWithLastStated(edges: EdgeTable, m: AliasTable, rs: seq<Relationship>, i: RelationshipId)
    requires LastStated(rs, i).Some? && !ResolvedEdge(m, LastStated(rs, i).value).IsSelfLoop()
    ensures EdgeAt(Upserted(edges, LiveEdges(m, rs)), i) == Some(ResolvedEdge(m, LastStated(rs, i).value))
  {
    var n := |rs| - 1;
    var last, live := ResolvedEdge(m, rs[n]), LiveEdges(m, rs[..n]);
    assert live + [] == live && (live + [last])[..|live|] == live;
    if rs[n].id == i {
      assert Upserted(edges, live + [last]) == Upserted(edges, live)[last.id := last];
    } else {
      LiveEdgesEndWithLastStated(edges, m, rs[..n], i);
      assert Upserted(edges, live + [last]) == Upserted(edges, live)[last.id := last];
    }
  }

  // An extraction leaves under a stated id its last statement, resolved, or nothing when that collapses.
  lemma ExtractionWrites(edges: EdgeTable, m: AliasTable, rs: seq<Relationship>, i: RelationshipId)
    requires IdsFixClaims(set r | r in rs) && LastStated(rs, i).Some?
    ensures EdgeAt(Upserted(WithoutCollapsed(edges, m, rs), LiveEdges(m, rs)), i) == WrittenBy(m, LastStated(rs, i).value)
  {
    LastStatedIsStated(rs, i);
    var last := LastStated(rs, i).value;
    if ResolvedEdge(m, last).IsSelfLoop() {
      forall r | r in rs && r.id == i ensures ResolvedEdge(m, r).IsSelfLoop() {
        SameIdSameReading(m, (set x | x in rs), r, last);
      }
      LiveEdgesAre(m, rs);
      CollapsedAreGone(edges, m, rs, i);
      UpsertedAt(WithoutCollapsed(edges, m, rs), LiveEdges(m, rs), i);
    } else {
      LiveEdgesEndWithLastStated(WithoutCollapsed(edges, m, rs), m, rs, i);
    }
  }

  // The last of an event's entities with this id.
  ghost function LastListed(es: seq<Entity>, e: EntityId): Option<Entity> {
    if es == [] then None
    else if es[|es| - 1].id == e then Some(es[|es| - 1])
    else LastListed(es[..|es| - 1], e)
  }

  lemma {:induction false} UpsertedEntitiesEndWithLastListed(entities: EntityTable, es: seq<Entity>, e: EntityId)
    ensures LastListed(es, e).Some? <==> exists x :: x in es && x.id == e
    ensures LastListed(es, e).Some? ==> e in UpsertedEntities(entities, es) && UpsertedEntities(entities, es)[e] == LastListed(es, e).value
  {
    if es != [] {
      var n := |es| - 1;
      UpsertedEntitiesEndWithLastListed(entities, es[..n], e);
      assert es == es[..n] + [es[n]];
    }
  }

  // ----- what the original run left, seen from a later position

  lemma EdgeUnwrittenByEvent(dumps: Renderer, log: seq<Event>, k: nat, i: RelationshipId)
    requires Replayable(dumps, log) && k < |log| && !WritesEdge(log[k], i)
    ensures EdgeAt(StoreAfter(log[..k + 1]).edges, i) == EdgeAt(StoreAfter(log[..k]).edges, i)
  {
    AtPosition(dumps, log, k);
    var g, ev := StoreAfter(log[..k]), log[k];
    match ev
    case Extracted(entities, rs, _) =>
      ExtractionFolds(g, entities, rs, []);
      EdgeAfterExtraction(g.edges, g.aliases, rs, i);
    case Merged(_, c, ds, plan, _) =>
      MergeFolds(dumps, g, ev);
      ApplyingThePlan(dumps, c, ds, g.edges, plan);
      RedirectionsLeaveOthers(g.edges, plan, i);
  }

  lemma {:induction false} EdgeUnwrittenFrom(dumps: Renderer, log: seq<Event>, k: nat, i: RelationshipId)
    requires Replayable(dumps, log) && k <= |log| && !EdgeWrittenFrom(log, k, i)
    ensures EdgeAt(StoreAfter(log).edges, i) == EdgeAt(StoreAfter(log[..k]).edges, i)
    decreases |log| - k
  {
    if k == |log| {
      assert log[..k] == log;
    } else {
      EdgeUnwrittenByEvent(dumps, log, k, i);
      EdgeUnwrittenFrom(dumps, log, k + 1, i);
    }
  }

  // ----- the alias table of an undo-free run only grows

  lemma {:induction false} RunsAreLegal(dumps: Renderer, log: seq<Event>)
    requires Run(dumps, log)
    ensures Legal(log)
    decreases |log|
  {
    if log != [] {
      RunsAreLegal(dumps, log[..|log| - 1]);
    }
  }

  lemma SameResolutionAfter(m: AliasTable, ev: Event, x: EntityId, y: EntityId)
    requires Forest(m) && Resolve(m, x) == Resolve(m, y) && !ev.Undone?
    requires ev.Merged? ==> ev.canonical !in m && ev.canonical !in ev.merged && forall d :: d in ev.merged ==> d !in m
    ensures var m' := if ev.Merged? then Absorb(m, ev.canonical, ev.merged) else m;
            Resolve(m', x) == Resolve(m', y)
  {
    if ev.Merged? {
      AbsorbKeepsForest(m, ev.canonical, ev.merged);
    }
  }

  lemma {:induction false} ResolvingTwiceIsResolvingLast(dumps: Renderer, log: seq<Event>, k: nat, e: EntityId)
    requires Run(dumps, log) && Plain(log) && k <= |log|
    ensures Resolve(Replay(log).aliasOf, Resolve(Replay(log[..k]).aliasOf, e)) == Resolve(Replay(log).aliasOf, e)
    decreases |log|
  {
    RunsAreLegal(dumps, log);
    if k == |log| {
      assert log[..k] == log;
      LegalLogsAreConsistent(log);
      ResolvesOffTheTable(Replay(log).aliasOf, e);
      ResolvesOffTheTable(Replay(log).aliasOf, Resolve(Replay(log).aliasOf, e));
    } else {
      var before, ev := log[..|log| - 1], log[|log| - 1];
      assert ev in log && (forall x :: x in before ==> x in log) && before[..k] == log[..k];
      LegalLogsAreConsistent(before);
      ResolvingTwiceIsResolvingLast(dumps, before, k, e);
      SameResolutionAfter(Replay(before).aliasOf, ev, Resolve(Replay(log[..k]).aliasOf, e), e);
    }
  }

  lemma MergesStand(dumps: Renderer, log: seq<Event>, k: nat, d: EntityId)
    requires Replayable(dumps, log) && k < |log| && log[k].Merged? && d in log[k].merged
    ensures d in Replay(log).aliasOf && Replay(log).aliasOf[d] == log[k].canonical
  {
    RunsAreLegal(dumps, log);
    assert forall q :: 0 <= q < |log| ==> log[q] in log;
    assert StandsAt(log, k);
    AliasesAreTheMergesNotUndone(log, d, log[k].canonical);
  }

  // ----- redelivering

  // Replaying from position `k` onwards, every edge whose last write is behind is already
  // what it finally was.
  ghost predicate EdgesCaughtUp(log: seq<Event>, k: nat, edges: EdgeTable) {
    forall i :: !EdgeWrittenFrom(log, k, i) ==> EdgeAt(edges, i) == EdgeAt(StoreAfter(log).edges, i)
  }

  // One entity row: its last full write fixes all but the mergeable fields, its last write those too.
  ghost predicate RowCaughtUp(log: seq<Event>, k: nat, e: EntityId, row: Entity, final: Entity) {
    && (!EntityWrittenFrom(log, k, e) ==> SameButFields(row, final))
    && (!FieldsWrittenFrom(log, k, e) ==> row.Fields() == final.Fields())
  }

  ghost predicate EntitiesCaughtUp(log: seq<Event>, k: nat, entities: EntityTable) {
    && entities.Keys == StoreAfter(log).entities.Keys
    && forall e :: e in entities ==> RowCaughtUp(log, k, e, entities[e], StoreAfter(log).entities[e])
  }

  ghost predicate CaughtUp(log: seq<Event>, k: nat, g: Graph) {
    g.aliases == StoreAfter(log).aliases && EdgesCaughtUp(log, k, g.edges) && EntitiesCaughtUp(log, k, g.entities)
  }

  // The last extraction to state an edge resolved it to where the final aliases put it: had a
  // later merge moved it, that merge would have been the last to write it.
  lemma LastReadingIsFinal(dumps: Renderer, log: seq<Event>, k: nat, r: Relationship)
    requires Replayable(dumps, log) && k < |log| && log[k].Extracted? && r in log[k].relationships
    requires EdgeAt(StoreAfter(log).edges, r.id) == WrittenBy(Replay(log[..k]).aliasOf, r)
    ensures WrittenBy(Replay(log).aliasOf, r) == WrittenBy(Replay(log[..k]).aliasOf, r)
  {
    StoreSaysWhatWasStated(dumps, log);
    ResolvingTwiceIsResolvingLast(dumps, log, k, r.source);
    ResolvingTwiceIsResolvingLast(dumps, log, k, r.target);
    ResolvesOffTheTable(Replay(log).aliasOf, Resolve(Replay(log[..k]).aliasOf, r.source));
    ResolvesOffTheTable(Replay(log).aliasOf, Resolve(Replay(log[..k]).aliasOf, r.target));
  }

  lemma StatedEdgeIsFinal(dumps: Renderer, log: seq<Event>, k: nat, i: RelationshipId)
    requires Replayable(dumps, log) && k < |log| && log[k].Extracted? && WritesEdge(log[k], i)
    requires !EdgeWrittenFrom(log, k + 1, i)
    ensures LastStated(log[k].relationships, i).Some?
    ensures EdgeAt(StoreAfter(log).edges, i) == WrittenBy(Replay(log).aliasOf, LastStated(log[k].relationships, i).value)
  {
    var rs, g := log[k].relationships, StoreAfter(log[..k]);
    AtPosition(dumps, log, k);
    LastStatedIsStated(rs, i);
    ExtractionFolds(g, log[k].entities, rs, []);
    ExtractionWrites(g.edges, g.aliases, rs, i);
    EdgeUnwrittenFrom(dumps, log, k + 1, i);
    LastReadingIsFinal(dumps, log, k, LastStated(rs, i).value);
  }

  lemma RedirectedEdgeIsFinal(dumps: Renderer, log: seq<Event>, k: nat, p: Redirection)
    requires Replayable(dumps, log) && k < |log| && log[k].Merged? && p in log[k].redirections
    requires !EdgeWrittenFrom(log, k + 1, p.before.id)
    ensures EdgeAt(StoreAfter(log).edges, p.before.id) == p.after
  {
    var g, ev := StoreAfter(log[..k]), log[k];
    AtPosition(dumps, log, k);
    MergeFolds(dumps, g, ev);
    ApplyingThePlan(dumps, ev.canonical, ev.merged, g.edges, ev.redirections);
    var j :| 0 <= j < |ev.redirections| && ev.redirections[j] == p;
    RedirectionsWrite(g.edges, ev.redirections, j);
    EdgeUnwrittenFrom(dumps, log, k + 1, p.before.id);
  }

  // ----- entities: a row's last full write fixes all but the mergeable fields, its last write those too

  lemma EntitiesAfterEvent(dumps: Renderer, log: seq<Event>, k: nat, e: EntityId)
    requires Replayable(dumps, log) && k < |log| && e in StoreAfter(log[..k]).entities
    ensures e in StoreAfter(log[..k + 1]).entities
    ensures !WritesEntity(log[k], e) ==> SameButFields(StoreAfter(log[..k]).entities[e], StoreAfter(log[..k + 1]).entities[e])
    ensures !WritesFields(log[k], e) ==> StoreAfter(log[..k]).entities[e].Fields() == StoreAfter(log[..k + 1]).entities[e].Fields()
  {
    AtPosition(dumps, log, k);
    var g, ev := StoreAfter(log[..k]), log[k];
    match ev
    case Extracted(entities, rs, _) =>
      ExtractionFolds(g, entities, rs, []);
      UpsertedEntitiesAt(g.entities, entities, e);
    case Merged(_, _, _, _, _) =>
      MergeFolds(dumps, g, ev);
  }

  lemma {:induction false} EntitiesFrom(dumps: Renderer, log: seq<Event>, k: nat, e: EntityId)
    requires Replayable(dumps, log) && k <= |log| && e in StoreAfter(log[..k]).entities
    ensures e in StoreAfter(log).entities
    ensures !EntityWrittenFrom(log, k, e) ==> SameButFields(StoreAfter(log[..k]).entities[e], StoreAfter(log).entities[e])
    ensures !FieldsWrittenFrom(log, k, e) ==> StoreAfter(log[..k]).entities[e].Fields() == StoreAfter(log).entities[e].Fields()
    decreases |log| - k
  {
    if k == |log| {
      assert log[..k] == log;
    } else {
      EntitiesAfterEvent(dumps, log, k, e);
      EntitiesFrom(dumps, log, k + 1, e);
    }
  }

  // ----- replaying one event over a store that has caught up

  // A listed entity's row finally holds the last listing, up to later writes.
  lemma ListedEntityIsFinal(dumps: Renderer, log: seq<Event>, k: nat, e: EntityId)
    requires Replayable(dumps, log) && k < |log| && log[k].Extracted?
    ensures LastListed(log[k].entities, e).Some? <==> WritesEntity(log[k], e)
    ensures var last := LastListed(log[k].entities, e);
            last.Some? ==>
              e in StoreAfter(log).entities
              && (!EntityWrittenFrom(log, k + 1, e) ==> SameButFields(last.value, StoreAfter(log).entities[e]))
              && (!FieldsWrittenFrom(log, k + 1, e) ==> last.value.Fields() == StoreAfter(log).entities[e].Fields())
  {
    var g := StoreAfter(log[..k]);
    AtPosition(dumps, log, k);
    ExtractionFolds(g, log[k].entities, log[k].relationships, []);
    UpsertedEntitiesEndWithLastListed(g.entities, log[k].entities, e);
    if LastListed(log[k].entities, e).Some? {
      EntitiesFrom(dumps, log, k + 1, e);
    }
  }

  // The canonical entity finally holds what the merge decided, up to later writes.
  lemma MergedFieldsAreFinal(dumps: Renderer, log: seq<Event>, k: nat)
    requires Replayable(dumps, log) && k < |log| && log[k].Merged?
    ensures log[k].canonical in StoreAfter(log).entities && log[k].resolution.Some?
    ensures !FieldsWrittenFrom(log, k + 1, log[k].canonical) ==>
              log[k].resolution.value.after == StoreAfter(log).entities[log[k].canonical].Fields()
  {
    AtPosition(dumps, log, k);
    MergeFolds(dumps, StoreAfter(log[..k]), log[k]);
    EntitiesFrom(dumps, log, k + 1, log[k].canonical);
  }

  lemma RowAfterOneMore(log: seq<Event>, k: nat, e: EntityId, row: Entity, final: Entity)
    requires k < |log| && RowCaughtUp(log, k, e, row, final)
    ensures !WritesFields(log[k], e) ==> RowCaughtUp(log, k + 1, e, row, final)
    ensures !WritesEntity(log[k], e) && !EntityWrittenFrom(log, k + 1, e) ==> SameButFields(row, final)
  {
  }

  lemma RedeliverStatedEdge(dumps: Renderer, log: seq<Event>, k: nat, edges: EdgeTable, i: RelationshipId)
    requires Replayable(dumps, log) && k < |log| && log[k].Extracted? && EdgesCaughtUp(log, k, edges) && !EdgeWrittenFrom(log, k + 1, i)
    ensures var m, rs := Replay(log).aliasOf, log[k].relationships;
            EdgeAt(Upserted(WithoutCollapsed(edges, m, rs), LiveEdges(m, rs)), i) == EdgeAt(StoreAfter(log).edges, i)
  {
    var m, rs := Replay(log).aliasOf, log[k].relationships;
    if WritesEdge(log[k], i) {
      AtPosition(dumps, log, k);
      StatedEdgeIsFinal(dumps, log, k, i);
      ExtractionWrites(edges, m, rs, i);
    } else {
      EdgeAfterExtraction(edges, m, rs, i);
      assert !EdgeWrittenFrom(log, k, i);
    }
  }

  lemma RedeliverListedEntities(dumps: Renderer, log: seq<Event>, k: nat, entities: EntityTable)
    requires Replayable(dumps, log) && k < |log| && log[k].Extracted? && EntitiesCaughtUp(log, k, entities)
    ensures EntitiesCaughtUp(log, k + 1, UpsertedEntities(entities, log[k].entities))
  {
    var later, final := UpsertedEntities(entities, log[k].entities), StoreAfter(log).entities;
    forall e ensures e in later <==> e in final {
      ListedEntityIsFinal(dumps, log, k, e);
      UpsertedEntitiesAt(entities, log[k].entities, e);
    }
    forall e | e in later ensures RowCaughtUp(log, k + 1, e, later[e], final[e]) {
      ListedEntityIsFinal(dumps, log, k, e);
      UpsertedEntitiesEndWithLastListed(entities, log[k].entities, e);
      UpsertedEntitiesAt(entities, log[k].entities, e);
      if !WritesEntity(log[k], e) {
        RowAfterOneMore(log, k, e, entities[e], final[e]);
      }
    }
  }

  lemma RedeliverExtraction(dumps: Renderer, log: seq<Event>, k: nat, g: Graph)
    requires Replayable(dumps, log) && k < |log| && CaughtUp(log, k, g) && log[k].Extracted?
    ensures Fold(g, log[k]).error == None && CaughtUp(log, k + 1, Fold(g, log[k]).graph)
  {
    AtPosition(dumps, log, k);
    StoreSaysWhatWasStated(dumps, log);
    ExtractionFolds(g, log[k].entities, log[k].relationships, []);
    forall i | !EdgeWrittenFrom(log, k + 1, i) {
      RedeliverStatedEdge(dumps, log, k, g.edges, i);
    }
    RedeliverListedEntities(dumps, log, k, g.entities);
  }

  lemma RedeliverRedirectedEdge(dumps: Renderer, log: seq<Event>, k: nat, edges: EdgeTable, i: RelationshipId)
    requires Replayable(dumps, log) && k < |log| && log[k].Merged? && EdgesCaughtUp(log, k, edges) && !EdgeWrittenFrom(log, k + 1, i)
    requires MovesKeepIds(log[k].redirections) && UniqueBefore(log[k].redirections)
    ensures EdgeAt(ApplyRedirections(edges, log[k].redirections), i) == EdgeAt(StoreAfter(log).edges, i)
  {
    var plan := log[k].redirections;
    if j :| 0 <= j < |plan| && plan[j].before.id == i {
      RedirectedEdgeIsFinal(dumps, log, k, plan[j]);
      RedirectionsWrite(edges, plan, j);
    } else {
      RedirectionsLeaveOthers(edges, plan, i);
      assert !EdgeWrittenFrom(log, k, i);
    }
  }

  lemma RedeliverFields(dumps: Renderer, log: seq<Event>, k: nat, entities: EntityTable)
    requires Replayable(dumps, log) && k < |log| && log[k].Merged? && EntitiesCaughtUp(log, k, entities)
    ensures log[k].canonical in entities && log[k].resolution.Some?
    ensures var c, fields := log[k].canonical, log[k].resolution.value.after;
            EntitiesCaughtUp(log, k + 1, entities[c := entities[c].WithFields(fields)])
  {
    hide Replayable, StoreAfter, EntityWrittenFrom, FieldsWrittenFrom;
    MergedFieldsAreFinal(dumps, log, k);
    var c, final := log[k].canonical, StoreAfter(log).entities;
    var later := entities[c := entities[c].WithFields(log[k].resolution.value.after)];
    forall e | e in later ensures RowCaughtUp(log, k + 1, e, later[e], final[e]) {
      RowAfterOneMore(log, k, e, entities[e], final[e]);
    }
  }

  // The redirections of a planned merge can be applied to any store with the entities of the run's end.
  lemma RedirectionsStillApply(dumps: Renderer, log: seq<Event>, k: nat)
    requires Replayable(dumps, log) && k < |log| && log[k].Merged?
    ensures MovesKeepIds(log[k].redirections) && UniqueBefore(log[k].redirections)
    ensures AftersPresent(StoreAfter(log).entities, log[k].redirections)
    ensures log[k].resolution.Some? && log[k].resolution.value.entityId == log[k].canonical
  {
    var ev, at := log[k], StoreAfter(log[..k]);
    AtPosition(dumps, log, k);
    ApplyingThePlan(dumps, ev.canonical, ev.merged, at.edges, ev.redirections);
    EntitiesFrom(dumps, log, k, ev.canonical);
    forall p | p in ev.redirections && p.after.Some?
      ensures p.after.value.source in StoreAfter(log).entities && p.after.value.target in StoreAfter(log).entities
    {
      EntitiesFrom(dumps, log, k, p.before.source);
      EntitiesFrom(dumps, log, k, p.before.target);
    }
  }

  lemma AliasesInStep(dumps: Renderer, log: seq<Event>)
    requires Replayable(dumps, log)
    ensures StoreAfter(log).aliases == Replay(log).aliasOf
  {
    StoreSaysWhatWasStated(dumps, log);
  }

  lemma RedeliverMerge(dumps: Renderer, log: seq<Event>, k: nat, g: Graph)
    requires Replayable(dumps, log) && k < |log| && CaughtUp(log, k, g) && log[k].Merged?
    ensures Fold(g, log[k]).error == None && CaughtUp(log, k + 1, Fold(g, log[k]).graph)
  {
    var ev := log[k];
    RedirectionsStillApply(dumps, log, k);
    AliasesInStep(dumps, log);
    forall d | d in ev.merged ensures d in g.aliases && g.aliases[d] == ev.canonical {
      MergesStand(dumps, log, k, d);
    }
    assert Absorb(g.aliases, ev.canonical, ev.merged) == g.aliases;
    RedeliverFields(dumps, log, k, g.entities);
    PresentMergeFolds(g, ev);
    forall i | !EdgeWrittenFrom(log, k + 1, i) {
      RedeliverRedirectedEdge(dumps, log, k, g.edges, i);
    }
  }

  lemma RedeliverOne(dumps: Renderer, log: seq<Event>, k: nat, g: Graph, n: nat, g': Graph)
    requires Replayable(dumps, log) && k < |log| && CaughtUp(log, k, g)
    requires n == k + 1 && g' == Fold(g, log[k]).graph
    ensures CaughtUp(log, n, g')
  {
    AtPosition(dumps, log, k);
    if log[k].Extracted? {
      RedeliverExtraction(dumps, log, k, g);
    } else {
      RedeliverMerge(dumps, log, k, g);
    }
  }

  lemma FoldAllOneMore(g: Graph, log: seq<Event>, k: nat, n: nat)
    requires k < n <= |log|
    ensures FoldAll(g, log[k..n]) == Fold(FoldAll(g, log[k..n - 1]), log[n - 1]).graph
  {
    var suffix := log[k..n];
    assert suffix[..|suffix| - 1] == log[k..n - 1] && suffix[|suffix| - 1] == log[n - 1];
  }

  lemma TheFinalStoreHasCaughtUp(log: seq<Event>, k: nat, g: Graph)
    requires k <= |log| && g == StoreAfter(log)
    ensures CaughtUp(log, k, FoldAll(g, log[k..k]))
  {
  }

  lemma {:induction false} RedeliverFrom(dumps: Renderer, log: seq<Event>, k: nat, n: nat, start: Graph)
    requires Replayable(dumps, log) && k <= n <= |log| && start == StoreAfter(log)
    ensures CaughtUp(log, n, FoldAll(start, log[k..n]))
    decreases n
  {
    hide CaughtUp, Fold, FoldAll;
    if k == n {
      TheFinalStoreHasCaughtUp(log, n, start);
    } else {
      RedeliverFrom(dumps, log, k, n - 1, start);
      FoldAllOneMore(start, log, k, n);
      RedeliverOne(dumps, log, n - 1, FoldAll(start, log[k..n - 1]), n, FoldAll(start, log[k..n]));
    }
  }

  lemma CaughtUpAtTheEnd(log: seq<Event>, g: Graph)
    requires CaughtUp(log, |log|, g)
    ensures g == StoreAfter(log)
  {
    var final := StoreAfter(log);
    assert forall i :: !EdgeWrittenFrom(log, |log|, i);
    SameEdgesSameTable(g.edges, final.edges);
    forall e | e in g.entities ensures g.entities[e] == final.entities[e] {
      assert RowCaughtUp(log, |log|, e, g.entities[e], final.entities[e]);
    }
    assert g.entities == final.entities;
  }

  /** Replaying any contiguous suffix of the log over the final store leaves it as it was. */
  lemma RedeliveryIsHarmless(dumps: Renderer, log: seq<Event>, k: nat)
    requires Run(dumps, log) && Plain(log) && IdsFixClaims(Stated(log)) && k <= |log|
    ensures FoldAll(StoreAfter(log), log[k..]) == StoreAfter(log)
  {
    RedeliverFrom(dumps, log, k, |log|, StoreAfter(log));
    assert log[k..|log|] == log[k..];
    CaughtUpAtTheEnd(log, FoldAll(StoreAfter(log), log[k..]));
  }
}
