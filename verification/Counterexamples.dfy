/**
 Two families of inputs on which the graph stops being sound: plans made before a pass and
 projected after it, and merges undone out of order.
 */
module Counterexamples {
  import opened Wrappers
  import opened Domain
  import opened AliasForest
  import opened MergeLog
  import opened Planning
  import opened PlanEffect
  import opened GraphFold
  import opened Runs
  import opened RunClaims
  import opened ResolveMany
  import opened PassEdges
  import Document

  // A store with this one edge and no aliases on it, and a merge of one entity planned on it.
  ghost predicate AbsorbsAnEnd(dumps: Renderer, g: Graph, r: Relationship, ev: Event) {
    && ev.Merged? && |ev.merged| == 1
    && g.edges == map[r.id := r] && r.source != r.target
    && ev.canonical != r.source && ev.canonical != r.target && r.Touches(ev.merged[0])
    && r.source in g.entities && r.target in g.entities
    && PlannedOn(dumps, g, ev)
  }

  lemma ListedOnce(plan: seq<Redirection>, only: Redirection)
    requires SortedById(plan) && plan != [] && plan[0] == only && (|plan| > 1 ==> plan[1] == only)
    ensures plan == [only]
  {
  }

  // The only plan moves the only edge.
  lemma TheEdgeMoves(dumps: Renderer, c: EntityId, d: EntityId, r: Relationship, plan: seq<Redirection>)
    requires r.source != r.target && c != r.source && c != r.target && r.Touches(d)
    requires IsPlan(dumps, c, [d], {r}, plan)
    ensures plan == [Redirection(r, Some(Moved(c, [d], r)))]
  {
    BelowIsTotal(dumps, r, r);
    var moved := Redirection(r, Some(Moved(c, [d], r)));
    assert After(dumps, c, [d], {r}, r) == moved.after;
    assert moved in plan;
    assert forall p :: p in plan ==> p == moved;
    forall k | 0 <= k < |plan| ensures plan[k] == moved {
      assert plan[k] in plan;
    }
    ListedOnce(plan, moved);
  }

  // Folding a merge whose plan moves one edge.
  lemma OneMoveFolds(g: Graph, ev: Event, before: Relationship, moved: Relationship)
    requires ev.Merged? && ev.redirections == [Redirection(before, Some(moved))]
    requires moved.source in g.entities && moved.target in g.entities
    requires ev.resolution.Some? && ev.resolution.value.entityId in g.entities
    ensures var later := Fold(g, ev).graph;
            && later.edges == g.edges[moved.id := moved]
            && later.aliases == Absorb(g.aliases, ev.canonical, ev.merged)
            && later.entities.Keys == g.entities.Keys
  {
    var aliased := g.(aliases := Absorb(g.aliases, ev.canonical, ev.merged));
    assert ev.redirections[..0] == [];
    RedirectedSucceeds(aliased, ev.redirections);
  }

  lemma MergeMovesTheEdge(dumps: Renderer, g: Graph, r: Relationship, ev: Event)
    requires AbsorbsAnEnd(dumps, g, r, ev)
    ensures var moved := Moved(ev.canonical, ev.merged, r);
            && ev.redirections == [Redirection(r, Some(moved))]
            && moved.source in g.entities && moved.target in g.entities && moved.id == r.id && r.source != r.target
            && r.source in g.entities && r.target in g.entities
            && ev.resolution.Some? && ev.resolution.value.entityId in g.entities
            && Folds(g, ev, map[r.id := moved])
  {
    hide IsPlan, Fold;
    assert ev.merged == [ev.merged[0]];
    var moved := Moved(ev.canonical, ev.merged, r);
    assert g.edges[r.id] == r;
    assert g.edges.Values == {r};
    TheEdgeMoves(dumps, ev.canonical, ev.merged[0], r, ev.redirections);
    OneMoveFolds(g, ev, r, moved);
    assert g.edges[r.id := moved] == map[r.id := moved];
  }

  // What is left after folding a merge.
  ghost predicate Folds(g: Graph, ev: Event, edges: EdgeTable)
    requires ev.Merged?
  {
    var later := Fold(g, ev).graph;
    && later.edges == edges
    && later.aliases == Absorb(g.aliases, ev.canonical, ev.merged)
    && later.entities.Keys == g.entities.Keys
  }

  lemma TouchesAnAlias(g: Graph, i: RelationshipId)
    requires i in g.edges && (g.edges[i].source in g.aliases || g.edges[i].target in g.aliases)
    ensures !Sound(g)
  {
  }

  /**
   Two merges planned on the same store, each absorbing one end of the store's edge: folded one
   after the other, the second puts back the end that the first moved, so the edge touches an alias.
   */
  lemma PlansMadeBeforeThePassOverwriteEachOther(dumps: Renderer, g: Graph, r: Relationship, first: Event, second: Event)
    requires first.Merged? && AbsorbsAnEnd(dumps, g, r, first) && second.Merged? && AbsorbsAnEnd(dumps, g, r, second)
    requires first.merged == [r.source] && second.merged == [r.target]
    ensures var later := Fold(Fold(g, first).graph, second).graph;
            && later.edges == map[r.id := r.Between(r.source, second.canonical)]
            && r.source in later.aliases && !Sound(later)
  {
    hide AbsorbsAnEnd, Fold, Sound, Moved;
    MergeMovesTheEdge(dumps, g, r, first);
    MergeMovesTheEdge(dumps, g, r, second);
    var between := Fold(g, first).graph;
    var moved := Moved(second.canonical, second.merged, r);
    OneMoveFolds(between, second, r, moved);
    SecondMoveWins(dumps, g, r, first, second, between, Fold(between, second).graph);
  }

  lemma SecondMoveWins(dumps: Renderer, g: Graph, r: Relationship, first: Event, second: Event, between: Graph, later: Graph)
    requires first.Merged? && second.Merged? && first.merged == [r.source] && second.merged == [r.target] && r.source != r.target
    requires between.edges.Keys == {r.id} && between.aliases == Absorb(g.aliases, first.canonical, first.merged)
    requires later.edges == between.edges[r.id := Moved(second.canonical, second.merged, r)]
    requires later.aliases == Absorb(between.aliases, second.canonical, second.merged)
    ensures later.edges == map[r.id := r.Between(r.source, second.canonical)] && r.source in later.aliases && !Sound(later)
  {
    hide Sound;
    assert later.edges == map[r.id := r.Between(r.source, second.canonical)];
    TouchesAnAlias(later, r.id);
  }

  /**
   One end of the edge is absorbed, then the other, each merge planned on the store as it then
   was; undoing the first merge puts the edge back on the entity the second absorbed.
   */
  lemma UndoOutOfOrderRestoresOntoAnAlias(dumps: Renderer, g: Graph, r: Relationship, first: Event, second: Event)
    requires first.Merged? && AbsorbsAnEnd(dumps, g, r, first) && first.merged == [r.source] && second.Merged?
    requires AbsorbsAnEnd(dumps, Fold(g, first).graph, Moved(first.canonical, first.merged, r), second)
    requires second.merged == [r.target]
    ensures var later := Fold(Fold(Fold(g, first).graph, second).graph, UndoOf(RecordOf(first, false))).graph;
            && later.edges == map[r.id := r] && r.target in later.aliases && !Sound(later)
  {
    hide AbsorbsAnEnd, Fold, Sound, UndoOf, Moved;
    var moved := Moved(first.canonical, first.merged, r);
    MergeMovesTheEdge(dumps, g, r, first);
    var between := Fold(g, first).graph;
    MergeMovesTheEdge(dumps, between, moved, second);
    var after := Fold(between, second).graph;
    OneEdgeIsPutBack(after, first, r);
    PutBackOnAnAlias(r, between, second, after, first, Fold(after, UndoOf(RecordOf(first, false))).graph);
  }

  lemma PutBackOnAnAlias(r: Relationship, between: Graph, second: Event, after: Graph, first: Event, later: Graph)
    requires first.Merged? && second.Merged? && first.merged == [r.source] && second.merged == [r.target] && r.source != r.target
    requires after.edges.Keys == {r.id} && after.aliases == Absorb(between.aliases, second.canonical, second.merged)
    requires later.edges == after.edges[r.id := r] && later.aliases == Release(after.aliases, first.merged)
    ensures later.edges == map[r.id := r] && r.target in later.aliases && !Sound(later)
  {
    hide Sound;
    assert later.edges == map[r.id := r];
    TouchesAnAlias(later, r.id);
  }

  lemma OneEdgeIsPutBack(g: Graph, merge: Event, r: Relationship)
    requires merge.Merged? && |merge.redirections| == 1 && merge.redirections[0].before == r
    requires r.source in g.entities && r.target in g.entities
    ensures var later := Fold(g, UndoOf(RecordOf(merge, false))).graph;
            later.edges == g.edges[r.id := r] && later.aliases == Release(g.aliases, merge.merged)
  {
    var restored := UndoOf(RecordOf(merge, false)).restored;
    assert restored == [r];
    NothingMissing(g.entities, restored);
    UpsertingOne(g.edges, r);
  }

  // ----- both, on one document

  function Row(id: EntityId): Entity {
    Entity(id, "name", "name", "type", None, None, map[], map[], Provenance(0.5, "doc", "llm", None, 0), None, None)
  }

  const NO_FIELDS := MergeableFields(None, map[], map[])

  // Four entities and one edge between the second and the fourth.
  const STATED := Relationship(10, 2, 4, "knows", None, map[], 0.5)

  const DOCUMENT := Extracted([Row(1), Row(2), Row(3), Row(4)], [STATED], [])

  const ROWS: EntityTable := map[1 := Row(1), 2 := Row(2), 3 := Row(3), 4 := Row(4)]

  const STORE := Graph(ROWS, map[10 := STATED], map[])

  // The merge of `d` into `c`, planned on a store whose one edge is `r`.
  function PlannedMerge(id: EventId, c: EntityId, d: EntityId, r: Relationship): Event {
    Merged(id, c, [d], [Redirection(r, Some(Moved(c, [d], r)))], Some(Resolution(c, NO_FIELDS, NO_FIELDS)))
  }

  lemma OneEdgePlan(dumps: Renderer, c: EntityId, d: EntityId, r: Relationship)
    requires r.source != r.target && c != r.source && c != r.target && r.Touches(d)
    ensures IsPlan(dumps, c, [d], {r}, [Redirection(r, Some(Moved(c, [d], r)))])
  {
    BelowIsTotal(dumps, r, r);
  }

  lemma PlannedMergeAbsorbs(dumps: Renderer, g: Graph, id: EventId, c: EntityId, d: EntityId, r: Relationship)
    requires g.edges == map[r.id := r] && r.source != r.target && r.source in g.entities && r.target in g.entities
    requires c in g.entities && g.entities[c].Fields() == NO_FIELDS && c != r.source && c != r.target && r.Touches(d)
    ensures AbsorbsAnEnd(dumps, g, r, PlannedMerge(id, c, d, r))
  {
    hide IsPlan;
    OneEdgePlan(dumps, c, d, r);
    assert g.edges[r.id] == r;
    assert g.edges.Values == {r};
  }

  lemma OneMoreEntity(entities: EntityTable, es: seq<Entity>, e: Entity)
    ensures UpsertedEntities(entities, es + [e]) == UpsertedEntities(entities, es)[e.id := e]
  {
    assert (es + [e])[..|es|] == es;
  }

  lemma TheRowsAreWritten()
    ensures UpsertedEntities(map[], DOCUMENT.entities) == ROWS
  {
    OneMoreEntity(map[], [], Row(1));
    OneMoreEntity(map[], [Row(1)], Row(2));
    OneMoreEntity(map[], [Row(1), Row(2)], Row(3));
    OneMoreEntity(map[], [Row(1), Row(2), Row(3)], Row(4));
    assert [] + [Row(1)] == [Row(1)];
    assert [Row(1)] + [Row(2)] == [Row(1), Row(2)];
    assert [Row(1), Row(2)] + [Row(3)] == [Row(1), Row(2), Row(3)];
    assert [Row(1), Row(2), Row(3)] + [Row(4)] == DOCUMENT.entities;
  }

  lemma TheDocumentIsWellFormed()
    ensures WellFormedExtraction(DOCUMENT.entities, DOCUMENT.relationships)
  {
    assert Row(2) in DOCUMENT.entities && Row(4) in DOCUMENT.entities;
  }

  lemma TheDocumentFolds()
    ensures Fold(EMPTY_GRAPH, DOCUMENT).graph == STORE
  {
    hide UpsertedEntities, FoldExtracted, LiveEdges, WithoutCollapsed, WellFormedExtraction, Walk, Resolve;
    TheRowsAreWritten();
    TheDocumentIsWellFormed();
    Document.NoAliases(0);
    ExtractionFolds(EMPTY_GRAPH, DOCUMENT.entities, [STATED], []);
    Document.StatedEdgesAreLive([STATED]);
    Document.NoStatedEdgeCollapses(map[], [STATED]);
    UpsertingOne(map[], STATED);
  }

  lemma OneMoreEvent(dumps: Renderer, log: seq<Event>, ev: Event)
    requires Run(dumps, log) && MayFollow(dumps, log, ev)
    ensures Run(dumps, log + [ev])
    ensures StoreAfter(log + [ev]) == Fold(StoreAfter(log), ev).graph && Replay(log + [ev]) == Apply(Replay(log), ev)
  {
    hide MayFollow, Fold, Apply;
    assert (log + [ev])[..|log|] == log && (log + [ev])[|log|] == ev;
  }

  // The run of that one document.
  lemma TheDocumentRuns(dumps: Renderer)
    ensures Run(dumps, [DOCUMENT]) && StoreAfter([DOCUMENT]) == STORE && Replay([DOCUMENT]) == EMPTY_STATE
  {
    hide Fold;
    TheDocumentFolds();
    TheDocumentIsWellFormed();
    OneMoreEvent(dumps, [], DOCUMENT);
    assert [] + [DOCUMENT] == [DOCUMENT];
  }

  // After the first merge there is still one edge, with its source moved.
  lemma AfterTheFirstMerge(dumps: Renderer, first: Event, log: seq<Event>)
    requires first == PlannedMerge(0, 1, 2, STATED) && log == [DOCUMENT, first]
    ensures AbsorbsAnEnd(dumps, STORE, STATED, first)
    ensures Run(dumps, log) && StoreAfter(log) == Fold(STORE, first).graph
    ensures Replay(log) == LogState([RecordOf(first, false)], map[2 := 1])
    ensures Folds(STORE, first, map[10 := Moved(1, [2], STATED)])
  {
    hide Fold, IsPlan, AbsorbsAnEnd;
    TheDocumentRuns(dumps);
    PlannedMergeAbsorbs(dumps, STORE, 0, 1, 2, STATED);
    MergeMovesTheEdge(dumps, STORE, STATED, first);
    IsPlanned(dumps, STORE, STATED, first);
    OneMoreEvent(dumps, [DOCUMENT], first);
    assert [DOCUMENT] + [first] == log;
    assert Absorb(map[], 1, [2]) == map[2 := 1];
  }

  lemma IsPlanned(dumps: Renderer, g: Graph, r: Relationship, ev: Event)
    requires AbsorbsAnEnd(dumps, g, r, ev)
    ensures ev.Merged? && PlannedOn(dumps, g, ev)
  {
  }

  /** A run of four events whose last, an undo the log accepts, puts the edge back on what a later merge absorbed. */
  lemma ARunThatUndoesOutOfOrder(dumps: Renderer) returns (log: seq<Event>)
    ensures Run(dumps, log) && |log| == 4 && log[3].Undone? && !Sound(StoreAfter(log))
  {
    hide Fold, IsPlan, AbsorbsAnEnd, Sound;
    var moved := Moved(1, [2], STATED);
    var first, second := PlannedMerge(0, 1, 2, STATED), PlannedMerge(1, 3, 4, moved);
    var undo := UndoOf(RecordOf(first, false));
    var two := [DOCUMENT, first];
    AfterTheFirstMerge(dumps, first, two);
    var between := StoreAfter(two);
    FieldsAreUntouched(first, 3);
    PlannedMergeAbsorbs(dumps, between, 1, 3, 4, moved);
    IsPlanned(dumps, between, moved, second);
    OneMoreEvent(dumps, two, second);
    var three := two + [second];
    var s := Replay(three);
    assert s.merges[0] == RecordOf(first, false) && InEffect(s, 0);
    OneMoreEvent(dumps, three, undo);
    UndoOutOfOrderRestoresOntoAnAlias(dumps, STORE, STATED, first, second);
    log := three + [undo];
  }

  lemma FieldsAreUntouched(merge: Event, e: EntityId)
    requires merge == PlannedMerge(0, 1, 2, STATED) && e in ROWS
    ensures e in Fold(STORE, merge).graph.entities && Fold(STORE, merge).graph.entities[e].Fields() == NO_FIELDS
  {
    var plan := merge.redirections;
    assert AftersPresent(ROWS, plan);
    PresentMergeFolds(STORE, merge);
  }

  /** A pass that emits two merges planned on one sound store, and so leaves an edge on an alias. */
  lemma APassThatBreaksAnEdge(dumps: Renderer) returns (decisions: seq<Decision>, plans: seq<Plan>)
    ensures |plans| == |decisions| && Sound(STORE) && Run(dumps, [DOCUMENT]) && StoreAfter([DOCUMENT]) == STORE
    ensures var pass := EmitAll(Replay([DOCUMENT]), ROWS.Keys, decisions, plans, 0);
            && pass.error.None? && |pass.events| == 2 && OnePass(dumps, Replay([DOCUMENT]), STORE, pass.events)
            && !Sound(FoldAll(STORE, pass.events))
  {
    hide OnePass, FoldAll, EmitAll, Sound;
    var first, second := PlannedMerge(0, 1, 2, STATED), PlannedMerge(1, 3, 4, STATED);
    decisions := [Decision(1, [2]), Decision(3, [4])];
    plans := [Plan(first.redirections, first.resolution), Plan(second.redirections, second.resolution)];
    TheDocumentRuns(dumps);
    TheStoreIsSound();
    TheTwoMergesAreEmitted(decisions, plans, first, second);
    TheTwoMergesAreOnePass(dumps, first, second, [first, second]);
  }

  lemma TwoEvents(g: Graph, first: Event, second: Event)
    ensures FoldAll(g, [first, second]) == Fold(Fold(g, first).graph, second).graph
  {
    hide Fold;
    OneMoreFold(g, [], first);
    OneMoreFold(g, [first], second);
    assert [] + [first] == [first] && [first] + [second] == [first, second];
  }

  lemma OneMoreFold(g: Graph, log: seq<Event>, ev: Event)
    ensures FoldAll(g, log + [ev]) == Fold(FoldAll(g, log), ev).graph
  {
    hide Fold;
    assert (log + [ev])[..|log|] == log && (log + [ev])[|log|] == ev;
  }

  lemma TheTwoMergesAreOnePass(dumps: Renderer, first: Event, second: Event, evs: seq<Event>)
    requires first == PlannedMerge(0, 1, 2, STATED) && second == PlannedMerge(1, 3, 4, STATED) && evs == [first, second]
    ensures OnePass(dumps, EMPTY_STATE, STORE, evs) && !Sound(FoldAll(STORE, evs))
  {
    hide Fold, IsPlan, AbsorbsAnEnd, Sound, Accepts, StateAfter, FoldAll;
    PlannedMergeAbsorbs(dumps, STORE, 0, 1, 2, STATED);
    PlannedMergeAbsorbs(dumps, STORE, 1, 3, 4, STATED);
    IsPlanned(dumps, STORE, STATED, first);
    IsPlanned(dumps, STORE, STATED, second);
    PlansMadeBeforeThePassOverwriteEachOther(dumps, STORE, STATED, first, second);
    TwoEvents(STORE, first, second);
    AcceptedInTurn(first, second, evs);
  }

  lemma TheStoreIsSound()
    ensures Sound(STORE)
  {
  }

  lemma AcceptedInTurn(first: Event, second: Event, evs: seq<Event>)
    requires first == PlannedMerge(0, 1, 2, STATED) && second == PlannedMerge(1, 3, 4, STATED) && evs == [first, second]
    ensures Accepts(StateAfter(EMPTY_STATE, evs[..0]), first) && Accepts(StateAfter(EMPTY_STATE, evs[..1]), second)
  {
    assert evs[..0] == [] && evs[..1] == [first] && evs[..1][..0] == [];
  }

  lemma TheTwoMergesAreEmitted(decisions: seq<Decision>, plans: seq<Plan>, first: Event, second: Event)
    requires first == PlannedMerge(0, 1, 2, STATED) && second == PlannedMerge(1, 3, 4, STATED)
    requires decisions == [Decision(1, [2]), Decision(3, [4])]
    requires plans == [Plan(first.redirections, first.resolution), Plan(second.redirections, second.resolution)]
    ensures EmitAll(EMPTY_STATE, ROWS.Keys, decisions, plans, 0)
            == Pass(LogState([RecordOf(first, false), RecordOf(second, false)], map[2 := 1, 4 := 3]), [first, second], None)
  {
    hide EmitOne;
    var none, begun := Pass(EMPTY_STATE, [], None), Pass(LogState([RecordOf(first, false)], map[2 := 1]), [first], None);
    EmitsTheMerge(none, ROWS.Keys, 1, 2, plans[0], 0);
    EmitsTheMerge(begun, ROWS.Keys, 3, 4, plans[1], 1);
    assert Absorb(map[], 1, [2]) == map[2 := 1];
    assert Absorb(map[2 := 1], 3, [4]) == map[2 := 1, 4 := 3];
    assert EmitFirst(EMPTY_STATE, ROWS.Keys, decisions, plans, 0, 0) == none;
    assert EmitFirst(EMPTY_STATE, ROWS.Keys, decisions, plans, 0, 1) == begun;
  }

  lemma EmitsTheMerge(pass: Pass, rows: set<EntityId>, c: EntityId, d: EntityId, plan: Plan, id: EventId)
    requires pass.error.None? && c in rows && c != d && c !in pass.state.aliasOf && d !in pass.state.aliasOf
    requires plan.resolution.Some? && plan.resolution.value.entityId == c
    ensures var ev := Merged(id, c, [d], plan.redirections, plan.resolution);
            EmitOne(pass, rows, Decision(c, [d]), plan, id) == Pass(Apply(pass.state, ev), pass.events + [ev], None)
  {
    OneStanding(pass.state.aliasOf, d);
  }

  lemma OneStanding(m: AliasTable, e: EntityId)
    requires e !in m
    ensures NotAliases(m, [e]) == [e]
  {
    var one := [e];
    assert one[..|one| - 1] == [];
  }
}
