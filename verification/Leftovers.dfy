/**
 Three runs on one document: an edge an undo leaves behind, one it brings back though it was taken back,
 and an edge a retraction leaves behind.
 */
module Leftovers {
  import opened Wrappers
  import opened Domain
  import opened AliasForest
  import opened MergeLog
  import opened Planning
  import opened PlanEffect
  import opened GraphFold
  import opened Runs
  import opened RunClaims
  import opened ClaimHistory
  import opened Meanwhile
  import opened LaterUndo
  import opened Counterexamples
  import Document

  const MERGE := PlannedMerge(0, 1, 2, STATED)

  // An edge first stated after the merge, on the absorbed entity.
  const ADDED := Relationship(11, 2, 3, "knows", None, map[], 0.5)

  const ADDITION := Extracted([Row(2), Row(3)], [ADDED], [])

  lemma TheAdditionIsWellFormed()
    ensures WellFormedExtraction(ADDITION.entities, ADDITION.relationships) && LastWord([ADDITION], 11) == Some(ADDED)
  {
    assert Row(2) in ADDITION.entities && Row(3) in ADDITION.entities;
    assert LastStated(ADDITION.relationships, 11) == Some(ADDED);
  }

  lemma StatedByOne(ev: Event, r: Relationship)
    requires ev.Extracted? && ev.relationships == [r]
    ensures Stated([ev]) == {r}
  {
    assert [ev][..0] == [];
    assert Stated([ev]) == set r | r in ev.relationships;
  }

  lemma OnlyTheTwoAreStated()
    ensures Stated([DOCUMENT]) == {STATED} && Stated([ADDITION]) == {ADDED}
    ensures IdsFixClaims(Stated([DOCUMENT]) + Stated([ADDITION]))
  {
    StatedByOne(DOCUMENT, STATED);
    StatedByOne(ADDITION, ADDED);
  }

  lemma TheMergeFollows(dumps: Renderer)
    ensures Run(dumps, [DOCUMENT]) && UndoFree([DOCUMENT]) && StoreAfter([DOCUMENT]) == STORE && Replay([DOCUMENT]) == EMPTY_STATE
    ensures MayFollow(dumps, [DOCUMENT], MERGE)
  {
    hide IsPlan;
    TheDocumentRuns(dumps);
    PlannedMergeAbsorbs(dumps, STORE, 0, 1, 2, STATED);
    IsPlanned(dumps, STORE, STATED, MERGE);
  }

  // The merge, then one document, then the undo.
  lemma OneDocumentMeanwhile(dumps: Renderer, ev: Event)
    requires ev.Extracted? && WellFormedExtraction(ev.entities, ev.relationships)
    requires IdsFixClaims(Stated([DOCUMENT]) + Stated([ev]))
    ensures MergedMeanwhile(dumps, [DOCUMENT], MERGE, [ev])
  {
    hide Run, StoreAfter, IsPlan, IdsFixClaims, Stated, Accepts, PlannedOn, WellFormedExtraction;
    TheMergeFollows(dumps);
    RunGoesOn(dumps, [DOCUMENT], MERGE);
    RunGoesOn(dumps, [DOCUMENT] + [MERGE], ev);
    assert forall e :: !Elsewhere([ev], e);
  }

  /** The undo leaves a new edge of the released entity on the entity that had absorbed it. */
  lemma AnUndoLeavesAnEdgeBehind(dumps: Renderer)
    ensures MergedMeanwhile(dumps, [DOCUMENT], MERGE, [ADDITION]) && LeftBehind([DOCUMENT], MERGE, [ADDITION], 11)
    ensures SaysAt(StoreAfter([DOCUMENT] + [ADDITION]).edges, 11) == Some(Claim(2, 3, "knows"))
    ensures SaysAt(StoreAfter(UndoneLater([DOCUMENT], MERGE, [ADDITION])).edges, 11) == Some(Claim(1, 3, "knows"))
  {
    hide Run, StoreAfter, IdsFixClaims, Stated, Resolve, MergedMeanwhile, UndoneLater, LastWord, Kept;
    TheAdditionIsWellFormed();
    OnlyTheTwoAreStated();
    OneDocumentMeanwhile(dumps, ADDITION);
    TheMergeFollows(dumps);
    Document.NoAliases(2);
    Document.NoAliases(3);
    assert Reading([DOCUMENT], ADDED) == ADDED;
    NothingTakenBack([ADDITION], 11, 2, 3, false);
    NothingTakenBack([ADDITION], 11, 1, 3, false);
    SaidOfANewEdge(dumps, [DOCUMENT], MERGE, [ADDITION], 11);
  }

  const FAREWELL := Extracted([], [], [4])

  /** The undo brings back the edge it recorded, though an end of it has been retracted since. */
  lemma AnUndoBringsBackARetractedEdge(dumps: Renderer)
    ensures MergedMeanwhile(dumps, [DOCUMENT], MERGE, [FAREWELL]) && RestoredThoughRetracted([DOCUMENT], MERGE, [FAREWELL], 10)
    ensures SaysAt(StoreAfter([DOCUMENT] + [FAREWELL]).edges, 10) == None
    ensures SaysAt(StoreAfter(UndoneLater([DOCUMENT], MERGE, [FAREWELL])).edges, 10) == Some(Claim(2, 4, "knows"))
  {
    hide Run, StoreAfter, IdsFixClaims, Stated, Resolve, MergedMeanwhile, UndoneLater;
    OnlyTheDocumentStates();
    OneDocumentMeanwhile(dumps, FAREWELL);
    TheMergeFollows(dumps);
    assert MERGE.redirections[0] in MERGE.redirections;
    assert [FAREWELL][..0] == [] && 4 in FAREWELL.retracted;
    SaidOfAChangedEdge(dumps, [DOCUMENT], MERGE, [FAREWELL], 10);
  }

  lemma OnlyTheDocumentStates()
    ensures IdsFixClaims(Stated([DOCUMENT]) + Stated([FAREWELL]))
  {
    StatedByOne(DOCUMENT, STATED);
    assert [FAREWELL][..0] == [];
    assert Stated([FAREWELL]) == {};
  }

  // ----- retracting an absorbed entity

  const RETRACTION := Extracted([], [], [2])

  lemma TheRetractionClears(g: Graph)
    ensures FoldExtracted(g, [], [], [2]).graph.edges == WithoutEdgesOn(g.edges, 2)
  {
    assert RetractAll(g, [2][..0]) == g;
    assert [2][..|[2]| - 1] == [];
  }

  /** Retracted before the merge an entity loses its edge; retracted after it, the edge stays. */
  lemma ARetractionLeavesAnEdgeBehind(dumps: Renderer)
    ensures Run(dumps, [DOCUMENT, RETRACTION]) && Claims(StoreAfter([DOCUMENT, RETRACTION]).edges) == {}
    ensures Run(dumps, [DOCUMENT, MERGE, RETRACTION])
    ensures Claims(StoreAfter([DOCUMENT, MERGE, RETRACTION]).edges) == {Claim(1, 4, "knows")}
  {
    hide FoldExtracted, FoldMerged, MayFollow;
    var merged := [DOCUMENT, MERGE];
    TheMergeFollows(dumps);
    AfterTheFirstMerge(dumps, MERGE, merged);
    TheRetractionMayFollow(dumps);
    OneMoreEvent(dumps, [DOCUMENT], RETRACTION);
    OneMoreEvent(dumps, merged, RETRACTION);
    assert [DOCUMENT] + [RETRACTION] == [DOCUMENT, RETRACTION] && merged + [RETRACTION] == [DOCUMENT, MERGE, RETRACTION];
    TheRetractionClears(STORE);
    TheRetractionClears(StoreAfter(merged));
    var moved := Moved(1, [2], STATED);
    assert WithoutEdgesOn(map[10 := STATED], 2) == map[];
    assert WithoutEdgesOn(map[10 := moved], 2) == map[10 := moved];
    assert map[10 := moved][10].Says() == Claim(1, 4, "knows");
  }

  lemma TheRetractionMayFollow(dumps: Renderer)
    ensures forall log :: MayFollow(dumps, log, RETRACTION)
  {
  }
}
