/**
 One document's aggregate: which runs it has recorded, what a re-extraction retracts, and
 what its events leave in the graph when no merge has touched its entities.
 */
module Document {
  import opened Sequences
  import opened Wrappers
  import opened Domain
  import opened AliasForest
  import opened PlanEffect
  import opened GraphFold
  import Runs

  // The aggregate's events.  The extraction's payload is kept; vectors and passages are not.
  datatype DocumentEvent =
    | DocumentExtracted(modelVersion: string, entities: seq<Entity>, relationships: seq<Relationship>, retracted: seq<EntityId>)
    | EntitiesEmbedded(embeddingModel: string)
    | DocumentChunked(chunkingSignature: string)

  datatype DocumentState = DocumentState(
    extractionModelVersions: seq<string>, embeddingModels: seq<string>,
    chunkingSignatures: seq<string>, lastExtractedEntityIds: seq<EntityId>)

  const INITIAL_STATE := DocumentState([], [], [], [])

  function Ids(entities: seq<Entity>): (ids: seq<EntityId>)
    ensures forall e :: e in ids <==> exists x :: x in entities && x.id == e
  {
    if entities == [] then []
    else
      var n := |entities| - 1;
      assert entities == entities[..n] + [entities[n]];
      Ids(entities[..n]) + [entities[n].id]
  }

  // The ids of `last` that are not in `current`, in order.
  function Gone(last: seq<EntityId>, current: seq<EntityId>): (gone: seq<EntityId>)
    ensures forall e :: e in gone <==> e in last && e !in current
  {
    if last == [] then []
    else
      var n := |last| - 1;
      assert last == last[..n] + [last[n]];
      Gone(last[..n], current) + if last[n] in current then [] else [last[n]]
  }

  // ----- state as a fold of the stream

  function Apply(s: DocumentState, ev: DocumentEvent): DocumentState {
    match ev
    case DocumentExtracted(version, entities, _, _) =>
      s.(extractionModelVersions := s.extractionModelVersions + [version], lastExtractedEntityIds := Ids(entities))
    case EntitiesEmbedded(model) => s.(embeddingModels := s.embeddingModels + [model])
    case DocumentChunked(signature) => s.(chunkingSignatures := s.chunkingSignatures + [signature])
  }

  function Replay(log: seq<DocumentEvent>): DocumentState {
    if log == [] then INITIAL_STATE else Apply(Replay(log[..|log| - 1]), log[|log| - 1])
  }

  // What the three record methods would emit in state `s`.
  predicate Recordable(s: DocumentState, ev: DocumentEvent) {
    match ev
    case DocumentExtracted(version, entities, _, retracted) =>
      version !in s.extractionModelVersions && retracted == Gone(s.lastExtractedEntityIds, Ids(entities))
    case EntitiesEmbedded(model) => model !in s.embeddingModels
    case DocumentChunked(signature) => signature !in s.chunkingSignatures
  }

  predicate Recorded(log: seq<DocumentEvent>) {
    log == [] || (Recorded(log[..|log| - 1]) && Recordable(Replay(log[..|log| - 1]), log[|log| - 1]))
  }

  // Two events that a retry could confuse: same kind, same key.
  predicate SameRun(a: DocumentEvent, b: DocumentEvent) {
    match (a, b)
    case (DocumentExtracted(v, _, _, _), DocumentExtracted(w, _, _, _)) => v == w
    case (EntitiesEmbedded(m), EntitiesEmbedded(n)) => m == n
    case (DocumentChunked(p), DocumentChunked(q)) => p == q
    case _ => false
  }

  /** The aggregate, rehydrated from its stream. */
  class Document {
    var extractionModelVersions: seq<string>
    var embeddingModels: seq<string>
    var chunkingSignatures: seq<string>
    var lastExtractedEntityIds: seq<EntityId>
    ghost var log: seq<DocumentEvent>

    ghost function State(): DocumentState
      reads this
    {
      DocumentState(extractionModelVersions, embeddingModels, chunkingSignatures, lastExtractedEntityIds)
    }

    ghost predicate Valid()
      reads this
    {
      Recorded(log) && State() == Replay(log)
    }

    constructor ()
      ensures Valid() && log == []
    {
      extractionModelVersions, embeddingModels, chunkingSignatures, lastExtractedEntityIds := [], [], [], [];
      log := [];
    }

    // Record what one extraction found, unless this model version has already been recorded.
    method RecordExtraction(modelVersion: string, entities: seq<Entity>, relationships: seq<Relationship>)
      returns (event: Option<DocumentEvent>)
      requires Valid()
      modifies this
      ensures Valid()
      ensures event.None? <==> modelVersion in old(extractionModelVersions)
      ensures event.None? ==> log == old(log)
      ensures event.Some? ==>
                var retracted := Gone(old(lastExtractedEntityIds), Ids(entities));
                event.value == DocumentExtracted(modelVersion, entities, relationships, retracted)
                && log == old(log) + [event.value]
    {
      if modelVersion in extractionModelVersions {
        return None;
      }
      var current := Ids(entities);
      var retracted := [];
      for i := 0 to |lastExtractedEntityIds|
        invariant retracted == Gone(lastExtractedEntityIds[..i], current)
        invariant State() == old(State()) && log == old(log)
      {
        assert lastExtractedEntityIds[..i + 1][..i] == lastExtractedEntityIds[..i];
        if lastExtractedEntityIds[i] !in current {
          retracted := retracted + [lastExtractedEntityIds[i]];
        }
      }
      assert lastExtractedEntityIds[..|lastExtractedEntityIds|] == lastExtractedEntityIds;
      var ev := DocumentExtracted(modelVersion, entities, relationships, retracted);
      ApplyEvent(ev);
      return Some(ev);
    }

    method RecordEmbeddings(embeddingModel: string) returns (event: Option<DocumentEvent>)
      requires Valid()
      modifies this
      ensures Valid()
      ensures event == if embeddingModel in old(embeddingModels) then None else Some(EntitiesEmbedded(embeddingModel))
      ensures log == if event.None? then old(log) else old(log) + [event.value]
    {
      if embeddingModel in embeddingModels {
        return None;
      }
      ApplyEvent(EntitiesEmbedded(embeddingModel));
      return Some(EntitiesEmbedded(embeddingModel));
    }

    method RecordChunking(chunkingSignature: string) returns (event: Option<DocumentEvent>)
      requires Valid()
      modifies this
      ensures Valid()
      ensures event == if chunkingSignature in old(chunkingSignatures) then None else Some(DocumentChunked(chunkingSignature))
      ensures log == if event.None? then old(log) else old(log) + [event.value]
    {
      if chunkingSignature in chunkingSignatures {
        return None;
      }
      ApplyEvent(DocumentChunked(chunkingSignature));
      return Some(DocumentChunked(chunkingSignature));
    }

    method ApplyEvent(ev: DocumentEvent)
      requires Valid() && Recordable(State(), ev)
      modifies this
      ensures Valid() && log == old(log) + [ev]
    {
      hide Ids, Recordable, Recorded, Replay;
      match ev {
        case DocumentExtracted(version, entities, _, _) =>
          extractionModelVersions := extractionModelVersions + [version];
          lastExtractedEntityIds := Ids(entities);
        case EntitiesEmbedded(model) =>
          embeddingModels := embeddingModels + [model];
        case DocumentChunked(signature) =>
          chunkingSignatures := chunkingSignatures + [signature];
      }
      Appended(log, ev);
      log := log + [ev];
    }
  }

  lemma Appended(log: seq<DocumentEvent>, ev: DocumentEvent)
    requires Recorded(log) && Recordable(Replay(log), ev)
    ensures Recorded(log + [ev]) && Replay(log + [ev]) == Apply(Replay(log), ev)
  {
    hide Recordable, Apply;
    assert (log + [ev])[..|log|] == log;
  }

  // ----- at most one event per run

  lemma {:induction false} KeysAreRemembered(log: seq<DocumentEvent>, i: nat)
    requires i < |log|
    ensures var s := Replay(log);
            match log[i]
            case DocumentExtracted(version, _, _, _) => version in s.extractionModelVersions
            case EntitiesEmbedded(model) => model in s.embeddingModels
            case DocumentChunked(signature) => signature in s.chunkingSignatures
  {
    if i < |log| - 1 {
      KeysAreRemembered(log[..|log| - 1], i);
    }
  }

  /** A stream holds at most one event of each kind per model version, embedding model or signature. */
  lemma {:induction false} OneEventPerRun(log: seq<DocumentEvent>, i: nat, j: nat)
    requires Recorded(log) && i < j < |log|
    ensures !SameRun(log[i], log[j])
  {
    hide Ids, Gone;
    var n := |log| - 1;
    if j < n {
      OneEventPerRun(log[..n], i, j);
    } else {
      KeysAreRemembered(log[..n], i);
    }
  }

  // ----- what the stream leaves in the graph

  // The graph ignores embeddings and passages.
  function Fold1(g: Graph, ev: DocumentEvent): Graph {
    match ev
    case DocumentExtracted(_, entities, rs, retracted) => FoldExtracted(g, entities, rs, retracted).graph
    case _ => g
  }

  function Projected(log: seq<DocumentEvent>): Graph {
    if log == [] then EMPTY_GRAPH else Fold1(Projected(log[..|log| - 1]), log[|log| - 1])
  }

  // Extracted entities arrive without the tombstone, and edges join entities of the same extraction.
  ghost predicate Extracts(ev: DocumentEvent) {
    ev.DocumentExtracted? ==>
      && Runs.WellFormedExtraction(ev.entities, ev.relationships)
      && forall x :: x in ev.entities ==> !IsRetracted(x)
  }

  ghost predicate AllExtract(log: seq<DocumentEvent>) {
    forall i :: 0 <= i < |log| ==> Extracts(log[i])
  }

  // The rows without a tombstone.
  ghost function Live(g: Graph): set<EntityId> {
    set e | e in g.entities && !IsRetracted(g.entities[e])
  }

  // Every edge is under its id and joins two different untombstoned rows.
  ghost predicate EdgesAreLive(g: Graph) {
    forall i :: i in g.edges ==>
      && g.edges[i].id == i && !g.edges[i].IsSelfLoop()
      && g.edges[i].source in Live(g) && g.edges[i].target in Live(g)
  }

  // No merges, so every id stands for itself.
  lemma NoAliases(e: EntityId)
    ensures Resolve(map[], e) == e && Forest(map[])
  {
    var none: AliasTable := map[];
    forall x: EntityId ensures Walk(none, x, |none|) == Some(x) {
    }
  }

  lemma Unresolved(r: Relationship)
    ensures ResolvedEdge(map[], r) == r
  {
    NoAliases(r.source);
    NoAliases(r.target);
  }

  lemma LiveEdgesStep(rs: seq<Relationship>, earlier: seq<Relationship>, last: Relationship)
    requires rs == earlier + [last] && LiveEdges(map[], earlier) == earlier && !last.IsSelfLoop()
    ensures LiveEdges(map[], rs) == rs
  {
    hide ResolvedEdge;
    Unresolved(last);
    assert rs[..|rs| - 1] == earlier;
  }

  lemma {:induction false} StatedEdgesAreLive(rs: seq<Relationship>)
    requires forall k :: 0 <= k < |rs| ==> !rs[k].IsSelfLoop()
    ensures LiveEdges(map[], rs) == rs
  {
    hide ResolvedEdge;
    if rs == [] {
    } else {
      var n := |rs| - 1;
      var earlier := rs[..n];
      StatedEdgesAreLive(earlier);
      LiveEdgesStep(rs, earlier, rs[n]);
    }
  }

  lemma {:induction false} NoStatedEdgeCollapses(edges: EdgeTable, rs: seq<Relationship>)
    requires forall k :: 0 <= k < |rs| ==> !rs[k].IsSelfLoop()
    ensures WithoutCollapsed(edges, map[], rs) == edges
  {
    hide ResolvedEdge;
    if rs == [] {
    } else {
      NoStatedEdgeCollapses(edges, rs[..|rs| - 1]);
      Unresolved(rs[|rs| - 1]);
    }
  }

  // The row of `e` after an extraction that follows one which left the rows `last` live.
  lemma RowAfter(g: Graph, ev: DocumentEvent, last: seq<EntityId>, e: EntityId)
    requires ev.DocumentExtracted? && Extracts(ev) && Live(g) == Elements(last)
    requires ev.retracted == Gone(last, Ids(ev.entities))
    ensures var cleared := RetractAll(g.(entities := UpsertedEntities(g.entities, ev.entities)), ev.retracted);
            if e in Ids(ev.entities) then
              e in cleared.entities && cleared.entities[e] in ev.entities && cleared.entities[e].id == e && e in Live(cleared)
            else
              (e in cleared.entities <==> e in g.entities) && e !in Live(cleared)
  {
    hide RetractAll, UpsertedEntities;
    var seeded := g.(entities := UpsertedEntities(g.entities, ev.entities));
    UpsertedEntitiesAt(g.entities, ev.entities, e);
    RetractAllAt(seeded, ev.retracted);
    if e in Live(g) {
      assert e in last;
    }
  }

  // What an event states under an edge id, and whether it found an entity.
  function Stated(ev: DocumentEvent, i: RelationshipId): Option<Relationship> {
    if ev.DocumentExtracted? then LastStated(ev.relationships, i) else None
  }

  predicate Finds(ev: DocumentEvent, r: Relationship) {
    ev.DocumentExtracted? ==> r.source in Ids(ev.entities) && r.target in Ids(ev.entities)
  }

  // The edge under `i` after an extraction: the last one stated, else the one already there
  // if both its ends were found again.
  ghost predicate EdgeAfterIs(edges: EdgeTable, ev: DocumentEvent, after: EdgeTable, i: RelationshipId) {
    EdgeAt(after, i) ==
    if Stated(ev, i).Some? then Stated(ev, i)
    else if i in edges && Finds(ev, edges[i]) then Some(edges[i])
    else None
  }

  lemma EdgeAfter(g: Graph, ev: DocumentEvent, last: seq<EntityId>, i: RelationshipId)
    requires ev.DocumentExtracted? && Extracts(ev) && EdgesAreLive(g) && Live(g) == Elements(last)
    requires ev.retracted == Gone(last, Ids(ev.entities))
    ensures var cleared := RetractAll(g.(entities := UpsertedEntities(g.entities, ev.entities)), ev.retracted);
            EdgeAfterIs(g.edges, ev, Upserted(WithoutCollapsed(cleared.edges, map[], ev.relationships), LiveEdges(map[], ev.relationships)), i)
  {
    hide RetractAll, UpsertedEntities, WithoutCollapsed, LiveEdges, Upserted, LastStated;
    var seeded := g.(entities := UpsertedEntities(g.entities, ev.entities));
    var cleared := RetractAll(seeded, ev.retracted);
    RetractAllAt(seeded, ev.retracted);
    StatedEdgesAreLive(ev.relationships);
    NoStatedEdgeCollapses(cleared.edges, ev.relationships);
    TheLastStatedIsWritten(cleared.edges, ev.relationships, i);
    if i in g.edges {
      assert g.edges[i].source in Elements(last) && g.edges[i].target in Elements(last);
    }
  }

  lemma EdgesStayLive(g: Graph, ev: DocumentEvent, later: Graph)
    requires ev.DocumentExtracted? && Extracts(ev) && EdgesAreLive(g)
    requires Live(later) == Elements(Ids(ev.entities))
    requires forall i :: EdgeAfterIs(g.edges, ev, later.edges, i)
    ensures EdgesAreLive(later)
  {
    hide Live, Ids, LastStated;
    forall i | i in later.edges
      ensures later.edges[i].id == i && !later.edges[i].IsSelfLoop()
              && later.edges[i].source in Live(later) && later.edges[i].target in Live(later)
    {
      assert EdgeAfterIs(g.edges, ev, later.edges, i);
      TheLastStatedIsWritten(map[], ev.relationships, i);
    }
  }

  // What one more extraction does to a graph in which exactly `last` is live.
  ghost predicate Replaces(g: Graph, ev: DocumentEvent, later: Graph)
    requires ev.DocumentExtracted?
  {
    && later.aliases == map[] && EdgesAreLive(later)
    && Live(later) == Elements(Ids(ev.entities))
    && later.entities.Keys == g.entities.Keys + Live(later)
    && (forall e :: e in Live(later) ==> later.entities[e] in ev.entities)
    && (forall i :: EdgeAfterIs(g.edges, ev, later.edges, i))
  }

  lemma ExtractionReplacesTheLast(g: Graph, ev: DocumentEvent, last: seq<EntityId>)
    requires ev.DocumentExtracted? && Extracts(ev) && g.aliases == map[] && EdgesAreLive(g) && Live(g) == Elements(last)
    requires ev.retracted == Gone(last, Ids(ev.entities))
    ensures var folded := FoldExtracted(g, ev.entities, ev.relationships, ev.retracted);
            folded.error.None? && Replaces(g, ev, folded.graph)
  {
    hide FoldExtracted, RetractAll, UpsertedEntities, WithoutCollapsed, LiveEdges, Upserted, Resolve, Walk, Gone, Ids, EdgeAfterIs;
    NoAliases(0);
    Runs.ExtractionFolds(g, ev.entities, ev.relationships, ev.retracted);
    var seeded := g.(entities := UpsertedEntities(g.entities, ev.entities));
    var cleared := RetractAll(seeded, ev.retracted);
    var later := FoldExtracted(g, ev.entities, ev.relationships, ev.retracted).graph;
    RetractAllAt(seeded, ev.retracted);
    assert later.entities == cleared.entities && later.aliases == map[];
    forall e
      ensures e in Live(later) <==> e in Ids(ev.entities)
      ensures e in later.entities <==> e in g.entities || e in Live(later)
      ensures e in Live(later) ==> later.entities[e] in ev.entities
    {
      RowAfter(g, ev, last, e);
    }
    forall i ensures EdgeAfterIs(g.edges, ev, later.edges, i) {
      EdgeAfter(g, ev, last, i);
    }
    EdgesStayLive(g, ev, later);
  }

  // ----- whole streams

  function LastExtraction(log: seq<DocumentEvent>): Option<DocumentEvent> {
    if log == [] then None
    else if log[|log| - 1].DocumentExtracted? then Some(log[|log| - 1])
    else LastExtraction(log[..|log| - 1])
  }

  // `r` was stated at `k`; no extraction since has stated its id again or missed one of its ends.
  ghost predicate StillStands(log: seq<DocumentEvent>, k: nat, r: Relationship) {
    && k < |log| && Stated(log[k], r.id) == Some(r)
    && forall j :: k < j < |log| ==> Stated(log[j], r.id).None? && Finds(log[j], r)
  }

  /**
   However often entities vanish and come back: the rows without a tombstone are exactly those
   of the last recorded extraction, as it extracted them, and no edge touches any other row.
   */
  lemma {:induction false} OnlyTheLastExtractionIsLive(log: seq<DocumentEvent>)
    requires Recorded(log) && AllExtract(log)
    ensures var g := Projected(log);
            && g.aliases == map[] && EdgesAreLive(g)
            && match LastExtraction(log)
               case None => g == EMPTY_GRAPH && Replay(log).lastExtractedEntityIds == []
               case Some(ev) =>
                 && ev.DocumentExtracted? && Replay(log).lastExtractedEntityIds == Ids(ev.entities)
                 && Live(g) == Elements(Ids(ev.entities))
                 && forall e :: e in Live(g) ==> g.entities[e] in ev.entities
  {
    hide FoldExtracted, Ids, Gone, EdgeAfterIs, Extracts;
    if log != [] {
      var n := |log| - 1;
      assert AllExtract(log[..n]) by {
        assert forall i :: 0 <= i < n ==> log[..n][i] == log[i];
      }
      OnlyTheLastExtractionIsLive(log[..n]);
      if log[n].DocumentExtracted? {
        assert Extracts(log[n]);
        ExtractionReplacesTheLast(Projected(log[..n]), log[n], Replay(log[..n]).lastExtractedEntityIds);
      }
    }
  }

  // The row is what some extraction found, or that with the tombstone set and nothing else touched.
  ghost predicate Remembered(log: seq<DocumentEvent>, e: EntityId, row: Entity) {
    exists k: nat, x :: FoundAs(log, k, x, e, row)
  }

  ghost predicate FoundAs(log: seq<DocumentEvent>, k: nat, x: Entity, e: EntityId, row: Entity) {
    && k < |log| && log[k].DocumentExtracted? && x in log[k].entities && x.id == e
    && (row == x || row == x.(properties := x.properties["_retracted" := True]))
  }

  lemma RowsAfterExtraction(g: Graph, ev: DocumentEvent, e: EntityId)
    requires ev.DocumentExtracted? && e in Fold1(g, ev).entities
    ensures var row := Fold1(g, ev).entities[e];
            || (row in ev.entities && row.id == e)
            || (exists x :: x in ev.entities && x.id == e && row == Tombstone(x))
            || (e in g.entities && (row == g.entities[e] || row == Tombstone(g.entities[e])))
  {
    hide RetractAll, UpsertedEntities, WithoutCollapsed, LiveEdges, Upserted, FirstCycle, FirstMissing, Endpoints;
    var seeded := g.(entities := UpsertedEntities(g.entities, ev.entities));
    UpsertedEntitiesAt(g.entities, ev.entities, e);
    RetractAllAt(seeded, ev.retracted);
    assert Fold1(g, ev).entities == RetractAll(seeded, ev.retracted).entities;
  }

  /** No row is ever lost or altered: one that is not live still says what was last found, tombstoned. */
  lemma {:induction false} VanishedRowsAreRemembered(log: seq<DocumentEvent>, e: EntityId)
    requires e in Projected(log).entities
    ensures Remembered(log, e, Projected(log).entities[e])
  {
    hide FoldExtracted, Remembered;
    var n := |log| - 1;
    var g := Projected(log[..n]);
    if log[n].DocumentExtracted? {
      RowsAfterExtraction(g, log[n], e);
    }
    if e in g.entities {
      VanishedRowsAreRemembered(log[..n], e);
    }
    RememberedOneMore(log, e, Projected(log).entities[e]);
  }

  lemma RememberedOneMore(log: seq<DocumentEvent>, e: EntityId, row: Entity)
    requires log != []
    requires var n := |log| - 1;
             || (log[n].DocumentExtracted? && row in log[n].entities && row.id == e)
             || (log[n].DocumentExtracted? && exists x :: x in log[n].entities && x.id == e && row == Tombstone(x))
             || Remembered(log[..n], e, row)
             || (exists before :: Remembered(log[..n], e, before) && row == Tombstone(before))
    ensures Remembered(log, e, row)
  {
    var n := |log| - 1;
    if log[n].DocumentExtracted? && row in log[n].entities && row.id == e {
      assert FoundAs(log, n, row, e, row);
    } else if x :| log[n].DocumentExtracted? && x in log[n].entities && x.id == e && row == Tombstone(x) {
      assert FoundAs(log, n, x, e, row);
    } else {
      var before := if Remembered(log[..n], e, row) then row else
                    var before :| Remembered(log[..n], e, before) && row == Tombstone(before); before;
      var k: nat, x :| FoundAs(log[..n], k, x, e, before);
      var flagged := x.properties["_retracted" := True];
      assert flagged["_retracted" := True] == flagged;
      assert FoundAs(log, k, x, e, row);
    }
  }

  lemma StandsOneMore(log: seq<DocumentEvent>, k: nat, r: Relationship)
    requires log != []
    ensures var n := |log| - 1;
            StillStands(log, k, r) <==>
            if k == n then Stated(log[n], r.id) == Some(r)
            else StillStands(log[..n], k, r) && Stated(log[n], r.id).None? && Finds(log[n], r)
  {
    hide Stated, Finds;
    var n := |log| - 1;
    assert forall j :: 0 <= j < n ==> log[..n][j] == log[j];
    if k < n && StillStands(log[..n], k, r) && Stated(log[n], r.id).None? && Finds(log[n], r) {
      forall j | k < j < |log| ensures Stated(log[j], r.id).None? && Finds(log[j], r) {
        if j < n {
          assert Stated(log[..n][j], r.id).None?;
        }
      }
    }
  }

  ghost predicate Stands(log: seq<DocumentEvent>, r: Relationship) {
    exists k: nat :: StillStands(log, k, r)
  }

  lemma StandsStep(log: seq<DocumentEvent>, r: Relationship)
    requires log != []
    ensures var n := |log| - 1;
            Stands(log, r) <==>
            Stated(log[n], r.id) == Some(r) || (Stands(log[..n], r) && Stated(log[n], r.id).None? && Finds(log[n], r))
  {
    hide Stated, Finds, StillStands;
    var n := |log| - 1;
    if Stands(log, r) {
      var k: nat :| StillStands(log, k, r);
      StandsOneMore(log, k, r);
    }
    if Stated(log[n], r.id) == Some(r) {
      StandsOneMore(log, n, r);
    } else if Stands(log[..n], r) {
      var k: nat :| StillStands(log[..n], k, r);
      StandsOneMore(log, k, r);
      BeforeTheEnd(log[..n], k, r);
    }
  }

  lemma BeforeTheEnd(log: seq<DocumentEvent>, k: nat, r: Relationship)
    requires StillStands(log, k, r)
    ensures k < |log|
  {
  }

  /** An edge is in the graph exactly when its last statement still stands. */
  lemma {:induction false} EdgesAreTheStatementsThatStand(log: seq<DocumentEvent>, r: Relationship)
    requires Recorded(log) && AllExtract(log)
    ensures r in Projected(log).edges.Values <==> Stands(log, r)
  {
    if log == [] {
      assert forall k: nat :: !StillStands(log, k, r);
    } else {
      hide FoldExtracted, Ids, Gone, EdgeAfterIs, Extracts, Finds, Stated, Stands, Recordable;
      var n := |log| - 1;
      assert AllExtract(log[..n]) by {
        assert forall i :: 0 <= i < n ==> log[..n][i] == log[i];
      }
      EdgesAreTheStatementsThatStand(log[..n], r);
      StandsStep(log, r);
      EdgeStep(log, r);
    }
  }

  lemma EdgeStep(log: seq<DocumentEvent>, r: Relationship)
    requires log != [] && Recorded(log) && AllExtract(log)
    ensures var n := |log| - 1;
            r in Projected(log).edges.Values <==>
            Stated(log[n], r.id) == Some(r)
            || (r in Projected(log[..n]).edges.Values && Stated(log[n], r.id).None? && Finds(log[n], r))
  {
    hide FoldExtracted, Ids, Gone, Extracts, LastStated;
    var n := |log| - 1;
    assert AllExtract(log[..n]) by {
      assert forall i :: 0 <= i < n ==> log[..n][i] == log[i];
    }
    OnlyTheLastExtractionIsLive(log[..n]);
    OnlyTheLastExtractionIsLive(log);
    var g, later := Projected(log[..n]), Projected(log);
    ByTheirIds(g, r);
    ByTheirIds(later, r);
    if log[n].DocumentExtracted? {
      assert Extracts(log[n]);
      ExtractionReplacesTheLast(g, log[n], Replay(log[..n]).lastExtractedEntityIds);
      assert EdgeAfterIs(g.edges, log[n], later.edges, r.id);
    }
  }

  lemma ByTheirIds(g: Graph, r: Relationship)
    requires EdgesAreLive(g)
    ensures r in g.edges.Values <==> EdgeAt(g.edges, r.id) == Some(r)
  {
  }
}
