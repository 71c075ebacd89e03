/**
 Over whole runs: no event is poison, no edge touches an alias, and the store says exactly
 what the documents said, read through the final aliases.
 */
module RunClaims {
  import opened Wrappers
  import opened Domain
  import opened AliasForest
  import opened MergeLog
  import opened Planning
  import opened PlanEffect
  import opened GraphFold
  import opened Runs

  ghost function StoreAfter(log: seq<Event>): Graph { FoldAll(EMPTY_GRAPH, log) }

  // What may be appended after `log` when every event is folded before the next is emitted.
  ghost predicate MayFollow(dumps: Renderer, log: seq<Event>, ev: Event) {
    match ev
    case Extracted(entities, rs, _) => WellFormedExtraction(entities, rs)
    case Merged(_, _, _, _, _) => Accepts(Replay(log), ev) && PlannedOn(dumps, StoreAfter(log), ev)
    case Undone(_, _, _, _, _) => Accepts(Replay(log), ev)
  }

  ghost predicate Run(dumps: Renderer, log: seq<Event>) {
    log == [] || (Run(dumps, log[..|log| - 1]) && MayFollow(dumps, log[..|log| - 1], log[|log| - 1]))
  }

  // Each undo reverses the latest merge then in effect.
  ghost predicate UndoesLatestFirst(log: seq<Event>) {
    log == [] || (UndoesLatestFirst(log[..|log| - 1]) && UndoesLatest(Replay(log[..|log| - 1]), log[|log| - 1]))
  }

  ghost predicate UndoesLatest(s: LogState, ev: Event) {
    ev.Undone? ==> exists u :: LastInEffect(s, u) && s.merges[u].eventId == ev.mergeEventId
  }

  // No handler raised while the log was folded.
  ghost predicate NothingPoisoned(log: seq<Event>) {
    log == [] || (NothingPoisoned(log[..|log| - 1]) && Fold(StoreAfter(log[..|log| - 1]), log[|log| - 1]).error == None)
  }

  lemma EmptyIsInStep()
    ensures InStep(EMPTY_STATE, EMPTY_GRAPH)
  {
  }

  lemma OneEventKeepsStep(dumps: Renderer, log: seq<Event>, ev: Event)
    requires InStep(Replay(log), StoreAfter(log)) && MayFollow(dumps, log, ev)
    requires UndoesLatest(Replay(log), ev)
    ensures Fold(StoreAfter(log), ev).error == None
    ensures InStep(Apply(Replay(log), ev), Fold(StoreAfter(log), ev).graph)
  {
    match ev
    case Extracted(entities, rs, retracted) => ExtractionKeepsStep(Replay(log), StoreAfter(log), entities, rs, retracted);
    case Merged(_, _, _, _, _) =>
      MergeFolds(dumps, StoreAfter(log), ev);
      MergeKeepsStep(dumps, Replay(log), StoreAfter(log), ev);
    case Undone(_, _, _, _, _) => UndoOfLastKeepsStep(Replay(log), StoreAfter(log), ev);
  }

  // In every such run no edge touches an alias, no edge is a self-loop, the store's aliases are
  // the log's, and no event is set aside.
  lemma {:induction false} RunsKeepStep(dumps: Renderer, log: seq<Event>)
    requires Run(dumps, log) && UndoesLatestFirst(log)
    ensures InStep(Replay(log), StoreAfter(log)) && NothingPoisoned(log)
    decreases |log|
  {
    if log == [] {
      EmptyIsInStep();
    } else {
      var n := |log| - 1;
      RunsKeepStep(dumps, log[..n]);
      OneEventKeepsStep(dumps, log[..n], log[n]);
    }
  }

  // ----- claims

  // Every edge the documents in the log stated, as they stated it.
  ghost function Stated(log: seq<Event>): set<Relationship> {
    if log == [] then {}
    else
      var ev := log[|log| - 1];
      Stated(log[..|log| - 1]) + if ev.Extracted? then set r | r in ev.relationships else {}
  }

  // An edge's id is a hash of its stated endpoints and type.
  ghost predicate IdsFixClaims(stated: set<Relationship>) {
    forall a, b :: a in stated && b in stated && a.id == b.id ==> a.Says() == b.Says()
  }

  // What was stated, read through the aliases, without what collapses to a self-loop.
  ghost function ReadThrough(m: AliasTable, stated: set<Relationship>): set<Claim> {
    set r | r in stated && !ResolvedEdge(m, r).IsSelfLoop() :: ResolvedEdge(m, r).Says()
  }

  // A log of extractions without retractions and merges without undos.
  ghost predicate Plain(log: seq<Event>) {
    forall ev :: ev in log ==> !ev.Undone? && (ev.Extracted? ==> ev.retracted == [])
  }

  // Each stored edge is a stated one on its canonical endpoints.
  ghost predicate EdgesWereStated(g: Graph, stated: set<Relationship>) {
    forall i :: i in g.edges ==> exists r :: r in stated && r.id == i && g.edges[i].Says() == ResolvedEdge(g.aliases, r).Says()
  }

  ghost predicate SaysWhatWasStated(g: Graph, stated: set<Relationship>) {
    EdgesWereStated(g, stated) && ReadThrough(g.aliases, stated) <= Claims(g.edges)
  }

  lemma StoreAndReadingAgree(g: Graph, stated: set<Relationship>)
    requires SaysWhatWasStated(g, stated) && NoSelfLoops(g.edges)
    ensures Claims(g.edges) == ReadThrough(g.aliases, stated)
  {
    forall i | i in g.edges ensures g.edges[i].Says() in ReadThrough(g.aliases, stated) {
      var r :| r in stated && r.id == i && g.edges[i].Says() == ResolvedEdge(g.aliases, r).Says();
      assert !ResolvedEdge(g.aliases, r).IsSelfLoop();
    }
  }

  lemma ReadingIsStored(g: Graph, stated: set<Relationship>, r: Relationship) returns (i: RelationshipId)
    requires SaysWhatWasStated(g, stated) && r in stated && !ResolvedEdge(g.aliases, r).IsSelfLoop()
    ensures i in g.edges && g.edges[i].Says() == ResolvedEdge(g.aliases, r).Says()
  {
    assert ResolvedEdge(g.aliases, r).Says() in Claims(g.edges);
    i :| i in g.edges && g.edges[i].Says() == ResolvedEdge(g.aliases, r).Says();
  }

  // Two statements of one edge resolve to one claim.
  lemma SameIdSameReading(m: AliasTable, stated: set<Relationship>, a: Relationship, b: Relationship)
    requires IdsFixClaims(stated) && a in stated && b in stated && a.id == b.id
    ensures ResolvedEdge(m, a).Says() == ResolvedEdge(m, b).Says()
    ensures ResolvedEdge(m, a).IsSelfLoop() <==> ResolvedEdge(m, b).IsSelfLoop()
  {
    assert a.Says() == b.Says();
  }

  // Where each edge of the store after an extraction comes from.
  lemma EdgeAfterExtraction(edges: EdgeTable, m: AliasTable, rs: seq<Relationship>, i: RelationshipId)
    ensures var after := Upserted(WithoutCollapsed(edges, m, rs), LiveEdges(m, rs));
            i in after ==> (exists r :: r in rs && r.id == i && after[i] == ResolvedEdge(m, r)) || (i in edges && after[i] == edges[i])
    ensures var after := Upserted(WithoutCollapsed(edges, m, rs), LiveEdges(m, rs));
            (exists r :: r in rs && r.id == i && !ResolvedEdge(m, r).IsSelfLoop()) ==>
              i in after && exists r :: r in rs && r.id == i && after[i] == ResolvedEdge(m, r)
    ensures var after := Upserted(WithoutCollapsed(edges, m, rs), LiveEdges(m, rs));
            (forall r :: r in rs ==> r.id != i) ==> EdgeAt(after, i) == EdgeAt(edges, i)
  {
    LiveEdgesAre(m, rs);
    CollapsedAreGone(edges, m, rs, i);
    UpsertedAt(WithoutCollapsed(edges, m, rs), LiveEdges(m, rs), i);
    var live := LiveEdges(m, rs);
    if stated :| stated in rs && stated.id == i && !ResolvedEdge(m, stated).IsSelfLoop() {
      assert ResolvedEdge(m, stated) in live;
    }
  }

  // An edge not stated again, or stated again to the same effect, still makes its claim.
  lemma ClaimOutlivesExtraction(g: Graph, more: set<Relationship>, rs: seq<Relationship>, i: RelationshipId, r0: Relationship)
    requires IdsFixClaims(more) && (forall r :: r in rs ==> r in more) && r0 in more && r0.id == i
    requires i in g.edges && !g.edges[i].IsSelfLoop() && g.edges[i].Says() == ResolvedEdge(g.aliases, r0).Says()
    ensures var after := Upserted(WithoutCollapsed(g.edges, g.aliases, rs), LiveEdges(g.aliases, rs));
            i in after && after[i].Says() == g.edges[i].Says()
  {
    var m := g.aliases;
    EdgeAfterExtraction(g.edges, m, rs, i);
    if r1 :| r1 in rs && r1.id == i {
      SameIdSameReading(m, more, r0, r1);
      assert !ResolvedEdge(m, r1).IsSelfLoop();
      var r2 :| r2 in rs && r2.id == i && Upserted(WithoutCollapsed(g.edges, m, rs), LiveEdges(m, rs))[i] == ResolvedEdge(m, r2);
      SameIdSameReading(m, more, r0, r2);
    }
  }

  lemma ExtractionSaysWhatWasStated(g: Graph, stated: set<Relationship>, rs: seq<Relationship>, after: EdgeTable)
    requires SaysWhatWasStated(g, stated) && NoSelfLoops(g.edges)
    requires IdsFixClaims(stated + set r | r in rs)
    requires after == Upserted(WithoutCollapsed(g.edges, g.aliases, rs), LiveEdges(g.aliases, rs))
    ensures SaysWhatWasStated(g.(edges := after), stated + set r | r in rs)
  {
    hide Upserted, WithoutCollapsed, LiveEdges, ResolvedEdge;
    var m, more := g.aliases, stated + set r | r in rs;
    forall i | i in after ensures exists r :: r in more && r.id == i && after[i].Says() == ResolvedEdge(m, r).Says() {
      EdgeAfterExtraction(g.edges, m, rs, i);
    }
    forall r | r in more && !ResolvedEdge(m, r).IsSelfLoop() ensures ResolvedEdge(m, r).Says() in Claims(after) {
      if r in rs {
        EdgeAfterExtraction(g.edges, m, rs, r.id);
        var r' :| r' in rs && r'.id == r.id && after[r.id] == ResolvedEdge(m, r');
        SameIdSameReading(m, more, r, r');
      } else {
        var i := ReadingIsStored(g, stated, r);
        var r0 :| r0 in stated && r0.id == i && g.edges[i].Says() == ResolvedEdge(m, r0).Says();
        ClaimOutlivesExtraction(g, more, rs, i, r0);
        assert after[i].Says() in Claims(after);
      }
    }
  }

  // After a merge, an edge resolves to what its old reading moves to.
  lemma ReadingMoves(m: AliasTable, c: EntityId, ds: seq<EntityId>, r: Relationship)
    requires Forest(m) && c !in m && c !in ds && forall d :: d in ds ==> d !in m
    ensures ResolvedEdge(Absorb(m, c, ds), r) == Moved(c, ds, ResolvedEdge(m, r))
  {
    AbsorbKeepsForest(m, c, ds);
  }

  lemma MergedEdgesWereStated(dumps: Renderer, g: Graph, stated: set<Relationship>, c: EntityId, ds: seq<EntityId>, merged: Graph)
    requires EdgesWereStated(g, stated) && Forest(g.aliases)
    requires c !in g.aliases && c !in ds && forall d :: d in ds ==> d !in g.aliases
    requires merged.edges == PlannedEdges(dumps, c, ds, g.edges) && merged.aliases == Absorb(g.aliases, c, ds)
    ensures EdgesWereStated(merged, stated)
  {
    hide Absorb, Forest, ResolvedEdge, Loses;
    forall i | i in merged.edges
      ensures exists r :: r in stated && r.id == i && merged.edges[i].Says() == ResolvedEdge(merged.aliases, r).Says()
    {
      var r :| r in stated && r.id == i && g.edges[i].Says() == ResolvedEdge(g.aliases, r).Says();
      ReadingMoves(g.aliases, c, ds, r);
      assert Relevant(c, ds, g.edges[i]) || Moved(c, ds, g.edges[i]) == g.edges[i];
      assert merged.edges[i].Says() == Moved(c, ds, g.edges[i]).Says();
    }
  }

  lemma MergedReadingIsStored(dumps: Renderer, g: Graph, stated: set<Relationship>, c: EntityId, ds: seq<EntityId>, merged: Graph, r: Relationship)
    requires SaysWhatWasStated(g, stated) && Sound(g) && Forest(g.aliases)
    requires c !in g.aliases && c !in ds && forall d :: d in ds ==> d !in g.aliases
    requires merged.edges == PlannedEdges(dumps, c, ds, g.edges) && merged.aliases == Absorb(g.aliases, c, ds)
    requires r in stated && !ResolvedEdge(merged.aliases, r).IsSelfLoop()
    ensures ResolvedEdge(merged.aliases, r).Says() in Claims(merged.edges)
  {
    hide Absorb, Forest, ResolvedEdge, PlannedEdges;
    PlannedClaims(dumps, c, ds, g.edges);
    ReadingMoves(g.aliases, c, ds, r);
    var i := ReadingIsStored(g, stated, r);
    assert Moved(c, ds, g.edges[i]).Says() == ResolvedEdge(merged.aliases, r).Says();
    assert !Moved(c, ds, g.edges[i]).IsSelfLoop();
  }

  lemma MergeSaysWhatWasStated(dumps: Renderer, g: Graph, stated: set<Relationship>, c: EntityId, ds: seq<EntityId>, merged: Graph)
    requires SaysWhatWasStated(g, stated) && Sound(g) && Forest(g.aliases)
    requires c !in g.aliases && c !in ds && forall d :: d in ds ==> d !in g.aliases
    requires merged.edges == PlannedEdges(dumps, c, ds, g.edges) && merged.aliases == Absorb(g.aliases, c, ds)
    ensures SaysWhatWasStated(merged, stated)
  {
    hide Absorb, Forest, ResolvedEdge, PlannedEdges, EdgesWereStated, Sound;
    MergedEdgesWereStated(dumps, g, stated, c, ds, merged);
    forall r | r in stated && !ResolvedEdge(merged.aliases, r).IsSelfLoop() {
      MergedReadingIsStored(dumps, g, stated, c, ds, merged, r);
    }
  }

  /** The store says exactly what the documents said, read through the final aliases. */
  lemma {:induction false} StoreSaysWhatWasStated(dumps: Renderer, log: seq<Event>)
    requires Run(dumps, log) && Plain(log) && IdsFixClaims(Stated(log))
    ensures Claims(StoreAfter(log).edges) == ReadThrough(Replay(log).aliasOf, Stated(log))
    ensures SaysWhatWasStated(StoreAfter(log), Stated(log)) && InStep(Replay(log), StoreAfter(log))
    decreases |log|
  {
    if log == [] {
      EmptyIsInStep();
    } else {
      var n := |log| - 1;
      var before, ev := log[..n], log[n];
      assert ev in log && forall e :: e in before ==> e in log;
      StoreSaysWhatWasStated(dumps, before);
      OneEventKeepsStep(dumps, before, ev);
      var g := StoreAfter(before);
      match ev
      case Extracted(entities, rs, _) =>
        ExtractionFolds(g, entities, rs, []);
        ExtractionSaysWhatWasStated(g, Stated(before), rs, StoreAfter(log).edges);
      case Merged(_, c, ds, _, _) =>
        MergeFolds(dumps, g, ev);
        MergeSaysWhatWasStated(dumps, g, Stated(before), c, ds, StoreAfter(log));
    }
    StoreAndReadingAgree(StoreAfter(log), Stated(log));
  }

  // Extracting before a merge or after it makes no difference to what the store says.
  lemma OrderOfMergesAndExtractionsIsIrrelevant(dumps: Renderer, one: seq<Event>, other: seq<Event>)
    requires Run(dumps, one) && Plain(one) && Run(dumps, other) && Plain(other)
    requires Stated(one) == Stated(other) && IdsFixClaims(Stated(one))
    requires forall e :: Resolve(Replay(one).aliasOf, e) == Resolve(Replay(other).aliasOf, e)
    ensures Claims(StoreAfter(one).edges) == Claims(StoreAfter(other).edges)
  {
    hide Run, Plain, Stated, IdsFixClaims, StoreAfter, Replay, InStep, SaysWhatWasStated, Resolve;
    StoreSaysWhatWasStated(dumps, one);
    StoreSaysWhatWasStated(dumps, other);
    assert forall r :: ResolvedEdge(Replay(one).aliasOf, r) == ResolvedEdge(Replay(other).aliasOf, r);
  }
}
