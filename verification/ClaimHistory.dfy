/**
 Runs with retractions: which statements still stand, and what a retraction leaves behind when
 the entity it names has been absorbed.

 A retraction deletes the edges on the very id it names.  It does not look for the entity that
 id was merged into, so the edges a merge moved away stay.
 */
module ClaimHistory {
  import opened Domain
  import opened AliasForest
  import opened MergeLog
  import opened Planning
  import opened PlanEffect
  import opened GraphFold
  import opened Runs
  import opened RunClaims

  ghost predicate UndoFree(log: seq<Event>) {
    forall ev :: ev in log ==> !ev.Undone?
  }

  // Neither end of the edge, read through the aliases of the moment, is being retracted.
  ghost predicate Spared(m: AliasTable, retracted: seq<EntityId>, r: Relationship) {
    Resolve(m, r.source) !in retracted && Resolve(m, r.target) !in retracted
  }

  ghost function SparedBy(m: AliasTable, retracted: seq<EntityId>, stated: set<Relationship>): set<Relationship> {
    set r | r in stated && Spared(m, retracted, r)
  }

  // The statements no later retraction has taken back.
  ghost function Standing(log: seq<Event>): set<Relationship> {
    if log == [] then {}
    else
      var before, ev := log[..|log| - 1], log[|log| - 1];
      if ev.Extracted? then SparedBy(Replay(before).aliasOf, ev.retracted, Standing(before)) + set r | r in ev.relationships
      else Standing(before)
  }

  // ----- a standing statement, by position in the log

  ghost predicate StatedAt(log: seq<Event>, k: int, r: Relationship) {
    0 <= k < |log| && log[k].Extracted? && r in log[k].relationships
  }

  ghost predicate SparedAt(log: seq<Event>, j: nat, r: Relationship)
    requires j < |log|
  {
    log[j].Extracted? ==> Spared(Replay(log[..j]).aliasOf, log[j].retracted, r)
  }

  ghost predicate Stands(log: seq<Event>, k: int, r: Relationship) {
    StatedAt(log, k, r) && forall j :: k < j < |log| ==> SparedAt(log, j, r)
  }

  lemma StandsEarlier(log: seq<Event>, k: int, r: Relationship)
    requires |log| > 0
    ensures var n := |log| - 1; k < n ==> (Stands(log, k, r) <==> Stands(log[..n], k, r) && SparedAt(log, n, r))
  {
    var n := |log| - 1;
    forall j | 0 <= j < n ensures log[..n][..j] == log[..j] {
    }
    if k < n && Stands(log[..n], k, r) && SparedAt(log, n, r) {
      forall j | k < j < |log| ensures SparedAt(log, j, r) {
        assert j < n ==> SparedAt(log[..n], j, r);
      }
    }
    if k < n && Stands(log, k, r) {
      assert SparedAt(log, n, r);
      forall j | k < j < n ensures SparedAt(log[..n], j, r) {
        assert SparedAt(log, j, r);
      }
    }
  }

  // A statement stands if and only if some extraction made it and every later one spared it.
  lemma {:induction false} StandingExactlyWhen(log: seq<Event>, r: Relationship)
    ensures r in Standing(log) <==> exists k :: Stands(log, k, r)
    decreases |log|
  {
    if log != [] {
      var n := |log| - 1;
      StandingExactlyWhen(log[..n], r);
      if r in Standing(log) {
        if StatedAt(log, n, r) {
          assert Stands(log, n, r);
        } else {
          var k :| Stands(log[..n], k, r);
          StandsEarlier(log, k, r);
        }
      }
      if k :| Stands(log, k, r) {
        StandsEarlier(log, k, r);
      }
    }
  }

  lemma {:induction false} StandingWasStated(log: seq<Event>)
    ensures Standing(log) <= Stated(log)
    decreases |log|
  {
    if log != [] {
      StandingWasStated(log[..|log| - 1]);
    }
  }

  // ----- what the store says

  lemma RetractionSaysWhatStands(g: Graph, stated: set<Relationship>, retracted: seq<EntityId>)
    requires SaysWhatWasStated(g, stated)
    ensures SaysWhatWasStated(RetractAll(g, retracted), SparedBy(g.aliases, retracted, stated))
  {
    var cleared, left := RetractAll(g, retracted), SparedBy(g.aliases, retracted, stated);
    RetractAllAt(g, retracted);
    forall i | i in cleared.edges
      ensures exists r :: r in left && r.id == i && cleared.edges[i].Says() == ResolvedEdge(g.aliases, r).Says()
    {
      var r :| r in stated && r.id == i && g.edges[i].Says() == ResolvedEdge(g.aliases, r).Says();
      assert r in left;
    }
    forall r | r in left && !ResolvedEdge(g.aliases, r).IsSelfLoop() ensures ResolvedEdge(g.aliases, r).Says() in Claims(cleared.edges) {
      var i := ReadingIsStored(g, stated, r);
      assert i in cleared.edges;
    }
  }

  lemma ExtractionSaysWhatStands(g: Graph, stated: set<Relationship>, entities: seq<Entity>, rs: seq<Relationship>, retracted: seq<EntityId>)
    requires SaysWhatWasStated(g, stated) && Sound(g) && Forest(g.aliases) && WellFormedExtraction(entities, rs)
    requires IdsFixClaims(stated + set r | r in rs)
    ensures SaysWhatWasStated(FoldExtracted(g, entities, rs, retracted).graph, SparedBy(g.aliases, retracted, stated) + set r | r in rs)
  {
    hide IdsFixClaims, FoldExtracted, WellFormedExtraction, SaysWhatWasStated, RetractAll;
    var seeded := g.(entities := UpsertedEntities(g.entities, entities));
    var cleared := RetractAll(seeded, retracted);
    var left := SparedBy(g.aliases, retracted, stated);
    ExtractionFolds(g, entities, rs, retracted);
    RetractAllAt(seeded, retracted);
    SameEdgesSayTheSame(g, seeded, stated);
    RetractionSaysWhatStands(seeded, stated, retracted);
    FewerIdsFixClaims(stated + (set r | r in rs), left + set r | r in rs);
    var after := FoldExtracted(g, entities, rs, retracted).graph;
    ExtractionSaysWhatWasStated(cleared, left, rs, after.edges);
    SameEdgesSayTheSame(cleared.(edges := after.edges), after, left + set r | r in rs);
  }

  lemma SameEdgesSayTheSame(g: Graph, g': Graph, stated: set<Relationship>)
    requires SaysWhatWasStated(g, stated) && g'.edges == g.edges && g'.aliases == g.aliases
    ensures SaysWhatWasStated(g', stated)
  {
  }

  lemma FewerIdsFixClaims(stated: set<Relationship>, fewer: set<Relationship>)
    requires IdsFixClaims(stated) && fewer <= stated
    ensures IdsFixClaims(fewer)
  {
  }

  lemma EmptySaysNothing()
    ensures SaysWhatWasStated(EMPTY_GRAPH, {})
  {
  }

  lemma OneEventKeepsWhatStands(dumps: Renderer, before: seq<Event>, ev: Event, stated: set<Relationship>)
    requires InStep(Replay(before), StoreAfter(before)) && MayFollow(dumps, before, ev) && !ev.Undone?
    requires SaysWhatWasStated(StoreAfter(before), stated)
    requires ev.Extracted? ==> IdsFixClaims(stated + set r | r in ev.relationships)
    ensures SaysWhatWasStated(Fold(StoreAfter(before), ev).graph,
                              if ev.Extracted? then SparedBy(Replay(before).aliasOf, ev.retracted, stated) + set r | r in ev.relationships
                              else stated)
  {
    hide IdsFixClaims, SaysWhatWasStated, Sound, Forest, Restorable, Replay, StoreAfter, SparedBy, FoldExtracted, FoldMerged;
    var g := StoreAfter(before);
    match ev
    case Extracted(entities, rs, retracted) => ExtractionSaysWhatStands(g, stated, entities, rs, retracted);
    case Merged(_, c, ds, _, _) =>
      MergeFolds(dumps, g, ev);
      MergeSaysWhatWasStated(dumps, g, stated, c, ds, MergedGraph(dumps, g, ev));
  }

  lemma {:induction false} StoreKeepsWhatStands(dumps: Renderer, log: seq<Event>)
    requires Run(dumps, log) && UndoFree(log) && IdsFixClaims(Stated(log))
    ensures SaysWhatWasStated(StoreAfter(log), Standing(log)) && InStep(Replay(log), StoreAfter(log))
    decreases |log|
  {
    hide IdsFixClaims, SaysWhatWasStated, InStep, SparedBy, Accepts;
    if log == [] {
      EmptyIsInStep();
      EmptySaysNothing();
    } else {
      var n := |log| - 1;
      var before, ev := log[..n], log[n];
      assert ev in log && forall e :: e in before ==> e in log;
      FewerIdsFixClaims(Stated(log), Stated(before));
      StoreKeepsWhatStands(dumps, before);
      OneEventKeepsStep(dumps, before, ev);
      StandingWasStated(before);
      if ev.Extracted? {
        FewerIdsFixClaims(Stated(log), Standing(before) + set r | r in ev.relationships);
      }
      OneEventKeepsWhatStands(dumps, before, ev, Standing(before));
    }
  }

  /** After any run without undos the store makes exactly the claims that still stand. */
  lemma StoreSaysWhatStands(dumps: Renderer, log: seq<Event>)
    requires Run(dumps, log) && UndoFree(log) && IdsFixClaims(Stated(log))
    ensures Claims(StoreAfter(log).edges) == ReadThrough(Replay(log).aliasOf, Standing(log))
  {
    StoreKeepsWhatStands(dumps, log);
    StoreAndReadingAgree(StoreAfter(log), Standing(log));
  }

  // ----- retracting an entity that has been absorbed

  // Retracting aliases takes back no statement.
  lemma RetractingAliasesTakesBackNothing(log: seq<Event>, ev: Event)
    requires Forest(Replay(log).aliasOf) && ev.Extracted? && forall e :: e in ev.retracted ==> e in Replay(log).aliasOf
    ensures Standing(log + [ev]) == Standing(log) + set r | r in ev.relationships
  {
    hide Replay, Forest, Resolve;
    assert (log + [ev])[..|log|] == log;
    forall r | r in Standing(log) ensures Spared(Replay(log).aliasOf, ev.retracted, r) {
      ResolvesOffTheTable(Replay(log).aliasOf, r.source);
      ResolvesOffTheTable(Replay(log).aliasOf, r.target);
    }
  }

  lemma AliasesHaveNoEdges(g: Graph, retracted: seq<EntityId>)
    requires Sound(g) && forall e :: e in retracted ==> e in g.aliases
    ensures RetractAll(g, retracted).edges == g.edges
  {
    RetractAllAt(g, retracted);
    forall i | i in g.edges ensures i in RetractAll(g, retracted).edges {
    }
  }

  lemma OnlyTheEdgesAreCleared(g: Graph, h: Graph, retracted: seq<EntityId>)
    requires h.edges == g.edges
    ensures RetractAll(h, retracted).edges == RetractAll(g, retracted).edges
  {
    RetractAllAt(g, retracted);
    RetractAllAt(h, retracted);
  }

  // Once an entity is absorbed its retraction deletes no edge: the extraction leaves the edges it
  // would have left without it, what the merge moved stays on the canonical entity, and every
  // statement stands that would have stood.
  lemma AbsorbedEntitiesKeepTheirEdges(dumps: Renderer, log: seq<Event>, ev: Event)
    requires Run(dumps, log) && UndoesLatestFirst(log) && ev.Extracted? && MayFollow(dumps, log, ev)
    requires forall e :: e in ev.retracted ==> e in Replay(log).aliasOf
    ensures StoreAfter(log + [ev]).edges == StoreAfter(log + [ev.(retracted := [])]).edges
    ensures Standing(log + [ev]) == Standing(log + [ev.(retracted := [])])
  {
    hide Run, UndoesLatestFirst, Restorable, FoldExtracted, RetractAll, Sound, Forest, WellFormedExtraction, Upserted, WithoutCollapsed, LiveEdges;
    var g := StoreAfter(log);
    RunsKeepStep(dumps, log);
    assert (log + [ev])[..|log|] == (log + [ev.(retracted := [])])[..|log|] == log;
    SoundStoreFolds(g, ev.entities, ev.relationships, ev.retracted);
    SoundStoreFolds(g, ev.entities, ev.relationships, []);
    AliasesHaveNoEdges(g, ev.retracted);
    AliasesHaveNoEdges(g, []);
    RetractingAliasesTakesBackNothing(log, ev);
    RetractingAliasesTakesBackNothing(log, ev.(retracted := []));
  }

  lemma SoundStoreFolds(g: Graph, entities: seq<Entity>, rs: seq<Relationship>, retracted: seq<EntityId>)
    requires Sound(g) && Forest(g.aliases) && WellFormedExtraction(entities, rs)
    ensures FoldExtracted(g, entities, rs, retracted).graph.edges ==
            Upserted(WithoutCollapsed(RetractAll(g, retracted).edges, g.aliases, rs), LiveEdges(g.aliases, rs))
  {
    hide FoldExtracted, RetractAll, Forest, WellFormedExtraction, Upserted, WithoutCollapsed, LiveEdges;
    ExtractionFolds(g, entities, rs, retracted);
    OnlyTheEdgesAreCleared(g, g.(entities := UpsertedEntities(g.entities, entities)), retracted);
  }

  // A retraction before a merge takes back what stood on the ids it names; after the merge, what
  // stands on those of them that are no alias, which includes what the merge moved there.
  lemma RetractionsAndMergesDoNotCommute(log: seq<Event>, merge: Event, planned: Event, ev: Event, r: Relationship)
    requires Forest(Replay(log).aliasOf) && ev.Extracted? && merge.Merged? && planned.Merged?
    requires MayMerge(Replay(log), merge.canonical, merge.merged) && merge.canonical !in merge.merged
    requires r in Standing(log) && r !in ev.relationships
    ensures var m := Replay(log).aliasOf;
            var e, c, ds := ResolvedEdge(m, r), merge.canonical, merge.merged;
            && (r in Standing(log + [ev, planned]) <==> e.source !in ev.retracted && e.target !in ev.retracted)
            && (r in Standing(log + [merge, ev]) <==>
                  Redirect(c, ds, e.source) !in ev.retracted && Redirect(c, ds, e.target) !in ev.retracted)
  {
    hide Replay, Forest, Resolve;
    var m := Replay(log).aliasOf;
    assert (log + [ev, planned])[..|log| + 1] == log + [ev] && (log + [ev])[..|log|] == log;
    assert (log + [merge, ev])[..|log| + 1] == log + [merge] && (log + [merge])[..|log|] == log;
    AbsorbKeepsForest(m, merge.canonical, merge.merged);
    AppendedMerge(log, merge);
  }

  lemma AppendedMerge(log: seq<Event>, merge: Event)
    requires merge.Merged?
    ensures Replay(log + [merge]).aliasOf == Absorb(Replay(log).aliasOf, merge.canonical, merge.merged)
  {
    assert (log + [merge])[..|log|] == log;
  }
}
