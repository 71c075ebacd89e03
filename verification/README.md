# Redstring, modelled in Dafny

Redstring builds a knowledge graph from documents: a model extracts entities and edges
from each chunk, the answers are folded into one event per document, a projection folds
events into a graph store, and duplicates are merged, and unmerged, by events of their own.
This project models the parts of it whose correctness spans several functions or a whole
run, and proves what those parts are for.

`dafny verify dfyconfig.toml` checks everything.

## How it is laid out

- **Merges.** `Domain` has the entities, edges and events. `AliasForest` follows aliases.
  `MergeLog` is the consolidation log with its refusal rules, `MergeHistory` what holds of
  every log it can reach. `Planning` is the edge planner, `PlanEffect` what its plans do,
  `Survivors` which edges they leave; `FieldMerge` plans the fields, `FieldChoices` says whose
  value each strategy keeps.
- **The graph.** `GraphFold` says what folding an event does, as a function; `Projection` is
  the store and the handlers that do it write by write. `Runs` and `RunClaims` are about whole
  runs, `EdgeContents` about what rows and edges hold after them, `ClaimHistory` about runs with
  retractions, `UndoInverse`, `Meanwhile` and `LaterUndo` about undo, `Redelivery` about folding a
  suffix again. `Counterexamples`, `Leftovers` and `Overlaps` are inputs on which the graph breaks,
  an edge is left behind or a claim is lost.
- **Driving it.** `ServiceProtocol` is the read, plan, load, append and retry protocol, with
  any number of calls interleaved, `Attempts` how often a call tries; `Consolidation` the driver
  that folds each event before the next call; `ResolveMany` the serial emit phase of a whole-corpus
  pass, `PassMerges` what such a pass merges and `PassEdges` what it leaves in the graph.
- **Communities.** `Network`, `LocalMoving` and `Convergence` hold the arithmetic and the
  potential, `CommunityPass`, `CommunityNetwork` and `Community` the loops over arrays, `EdgeSums` what the
  network and its communities are in terms of the edges, `Ties` a network on which a tie moves a node.
- **Extraction.** `Document` is a document's aggregate and what its stream leaves in the
  graph. `Preference`, `BestById`, `Mapping` and `Merging` are the orders and the folds over
  chunks, `MappedEdges` and `KeptMentions` what they keep of an answer and of its mentions,
  `MappedAnswers` and `Combining` what holds of mapped answers and of two answers joined,
  `Carryover` and `Pipeline` the batched loop, `RunContents` what it asks and what it returns,
  `Corpus` the stored passages.
- **Calls to models.** `Policy` batches adjudication questions; `RateLimiter` is the
  sliding window.

`Wrappers` and `Sequences` are shared. Code that changes things step by step is a method or a
class with `modifies` clauses, proved against a function of the old state; what the code promises
is then proved of the function.

## What the code does differently from what it says

- `domain/community.py` lines 43-45 and 84-88 say a tie never moves a node and every move
  strictly raises modularity. Line 217 puts the node's own community first only when it is
  otherwise empty, so a tie can move a node (`Ties.ATieMovesANode`); it does exactly
  when a tying community has a smaller smallest member (`Convergence.TieMovesExactlyWhen`).
  The passes still end, by the second half of the potential.
- `detect_communities` returns the empty list for no nodes before it looks at any edge, so a bad
  edge is then not reported.
- `llm/rate_limiter.py` lines 59-61 say a caller sleeping for `retry_after` will succeed. At
  exactly that moment the inclusive window still counts the oldest hit; any later retry succeeds
  (`RateLimiter.RetrySucceedsExactlyAfter`).
- `consolidation/service.py` line 210 is reached, by calls with `max_retries` of zero or less
  and by no others (`ServiceProtocol.ReachableSystemsAreSafe`).
- `consolidation/planning.py` lines 30-33 say merge-then-undo reproduces the graph exactly. It does
  for nested merges and undos; out of order it keeps the graph sound exactly under the condition
  of `Runs.UndoKeepsSoundExactlyWhen`.
- `consolidation/service.py` lines 437-452 say an undo reproduces the state before the merge, over
  whatever was written since. It does for the edges and fields the merge changed, even those
  retracted since; an edge first stated in between about an absorbed entity stays with the
  canonical one (`LaterUndo.LaterUndoTakesTheMergeBackExactlyWhen`).
- `projections/graph.py` lines 148-150 delete the edges of a retracted entity by its own id. Once
  it has been absorbed there are none under that id, and its edges stay on the canonical entity
  (`ClaimHistory.AbsorbedEntitiesKeepTheirEdges`).
- `composition/build_graph.py` lines 941-950 fold a pass after its last merge was planned. Where
  one merge absorbs an end another has moved, the edge is left on an alias
  (`PassEdges.PassKeepsSoundExactlyWhen`).
- `consolidation/planning.py` line 58 counts seven fields of a relationship; there are eight. The order
  it argues for is total all the same, because it ends in the id (`Planning.BelowIsTotal`).
- `extraction/gleaning.py` lines 113-118 say the order of two combined answers does not matter
  at all. It does not for entities; it can for an edge, because an endpoint is the first listed type
  under which its name was accepted (`Combining.CombiningOrderCanMoveAnEdge`). For one edge
  `Combining.OneEdgeIgnoresCombiningOrderExactlyWhen` says exactly when.
- `extraction/mapping.py` lines 8-9 say a bad row is dropped and counted and does not fail the run.
  An edge whose text cannot be stored or hashed raises instead
  (`Mapping.MappingRaisesExactlyWhen`), and skipping failed chunks does not skip that chunk
  (`Pipeline.OneBadEdgeFailsTheDocument`). So does any row of a document whose id cannot be stored
  (`Mapping.AnUnstorableDocumentFailsTheAnswer`).
- `extraction/pipeline.py` lines 435-437 name a failed model call as what `extract` raises, and
  `domain/source.py` accepts any text that is not blank. A NUL in the text or in a chunk's metadata
  raises when the passages are built, after every call has been made (`Pipeline.ANulFailsTheDocument`).
- `projections/graph.py` lines 131-147 mark a retracted entity in its properties, and merges treat
  that mark as any property: absorbing a tombstoned entity retracts a live one
  (`FieldMerge.AbsorbingATombstoneRetracts`), and undoing a merge removes a retraction of its
  canonical entity made since (`LaterUndo.RowsAfterTheUndo`).
- `consolidation/policy.py` refuses thresholds that are the wrong way round so that the band cannot
  silently disappear. Equal thresholds leave no band and are accepted
  (`Policy.TheBandIsOpenExactlyWhen`).
- `domain/merge_strategy.py` lines 264-273 take the canonical entity's claim to come first. Where that
  entity is silent another does, and preferring the merged then passes over the first absorbed entity
  that speaks (`FieldChoices.PreferringTheMergedKeepsTheFirstExactlyWhen`).
- `extraction/pipeline.py` lines 565-566 say the second number gleaning returns is how many passes
  returned something. The pass that finds nothing and so ends it is counted too
  (`RunContents.WhatGleaningFound`).
- `events/document.py` lines 22-25 say a re-extraction that finds fewer entities cannot express the
  removal. It can and does, through `retracted_entity_ids`.

## Model

| member | source | states |
|---|---|---|
| `AliasForest.ResolveOne` | `src/redstring/graph/adapters/memory.py:163-187` | The loop that follows one alias chain returns the end of the chain within as many hops as there are aliases, and nothing only when the chain is longer than that. |
| `AliasForest.EndingWalksFitTheBound` | `src/redstring/ports/graph_store.py:203-213` | A chain that ends at all ends within as many hops as there are aliases, so the bound only ever reports real cycles. |
| `AliasForest.AbsorbKeepsForest` | `src/redstring/aggregates/consolidation_log.py:187-199` | Absorbing non-aliases into a non-alias leaves every chain ending, and afterwards exactly the ids that resolved into the absorbed group resolve to the canonical one. |
| `AliasForest.ReleaseKeepsForest` | `src/redstring/aggregates/consolidation_log.py:201-224` | Removing any set of aliases leaves every chain ending. |
| `MergeLog.ConsolidationLog.Merge` | `src/redstring/aggregates/consolidation_log.py:114-154` | Succeeds exactly when neither the canonical nor any absorbed entity is an alias and the event is coherent; otherwise nothing changes and the error is the first the rules give, in their order. |
| `MergeLog.ConsolidationLog.UndoMerge` | `src/redstring/aggregates/consolidation_log.py:156-173` | Succeeds exactly when a merge with that id is in effect, and the event restores that record's own edges and fields. |
| `MergeLog.ConsolidationLog.MergeInEffect` | `src/redstring/aggregates/consolidation_log.py:175-179` | Finds a merge with that id that has not been undone, and fails exactly when there is none. |
| `MergeLog.ConsolidationLog.ApplyMerged` | `src/redstring/aggregates/consolidation_log.py:187-199` | Appends the record and points every absorbed entity at the canonical one. |
| `MergeLog.ConsolidationLog.ApplyUndone` | `src/redstring/aggregates/consolidation_log.py:201-224` | Flags every record of that id and pops the entries of the released entities. |
| `MergeHistory.LegalLogsAreConsistent` | `src/redstring/aggregates/consolidation_log.py:130-144` | In every reachable state merges own their entries, no entity is under two merges in effect, and the alias table is an acyclic forest. |
| `MergeHistory.AliasesAreTheMergesNotUndone` | `src/redstring/aggregates/consolidation_log.py:187-224` | The alias table is exactly the union, over the log itself, of the merges with no later undo. |
| `MergeHistory.OneParentPerAlias` | `src/redstring/aggregates/consolidation_log.py:130-144` | Two standing merges that absorbed one entity are the same merge. |
| `MergeHistory.ResolutionTerminates` | `src/redstring/ports/graph_store.py:193-213` | Over the aliases of any legal log, resolution ends on a non-alias within as many hops as there are aliases. |
| `MergeHistory.TheRemovedGuardWasUnreachable` | `src/redstring/aggregates/consolidation_log.py:201-224` | An undo only ever pops entries that still point at its own canonical entity, so popping under a guard for that would change nothing. |
| `MergeHistory.RecordsMirrorHistory` | `src/redstring/aggregates/consolidation_log.py:187-224` | The records are the log's merges in order, flagged exactly when the log undoes them later. |
| `Planning.BelowIsTotal` | `src/redstring/consolidation/planning.py:115-125` | Of two edges with different ids exactly one is preferred, whatever the rendering of their properties. |
| `Planning.Winner` | `src/redstring/consolidation/planning.py:115-125` | Picks the one edge preferred to every other of those competing for a signature. |
| `Planning.PlanRedirections` | `src/redstring/consolidation/planning.py:136-209` | The plan lists, once and in id order, exactly the edges the merge changes, each with what it becomes: moved, or dropped as a self-loop or as a beaten duplicate. Which of two duplicates is beaten, and what a moved edge is, the next rows say. |
| `EdgeContents.PlannedMovesChangeOnlyEnds` | `src/redstring/consolidation/planning.py:184-207` | A moved edge is the edge there was, with an absorbed end replaced by the canonical entity and nothing else changed. |
| `Survivors.EdgeIsLeftExactlyWhen` | `src/redstring/consolidation/planning.py:115-209` | An edge touching the group is left if and only if its ends stay apart and no edge that comes to join the same two entities in the same way is more confident; at equal confidence says more; then is rendered later; then has the larger id. Any other edge is left as it is. |
| `Survivors.DroppedEdgesHaveSurvivors` | `src/redstring/consolidation/planning.py:162-165` | Every edge whose ends stay apart leaves its claim, between the same two entities, on an edge that is no worse in that order. |
| `Planning.Contests` | `src/redstring/consolidation/planning.py:167-190` | Splits the edges touching the group into self-loops and non-empty contests keyed by redirected claim, losing none. |
| `Planning.Settle` | `src/redstring/consolidation/planning.py:188-206` | Of one contest, lists exactly the losers as dropped and the winner as moved if it moves at all. |
| `PlanEffect.PlanIsUnique` | `src/redstring/consolidation/planning.py:136-209` | Two plans over stores that agree on the edges touching the group are the same list, whatever order the edges were read in. |
| `PlanEffect.ApplyingThePlan` | `src/redstring/projections/graph.py:190-229` | Applying the plan one redirection at a time gives the edge set it describes. |
| `PlanEffect.PlannedClaims` | `src/redstring/consolidation/planning.py:136-209` | The claims afterwards are exactly the redirected claims that are not self-loops. |
| `PlanEffect.PlannedShape` | `src/redstring/consolidation/planning.py:136-209` | No edge is left on an absorbed entity, none is a self-loop, and an edge touching nobody in the group is untouched. |
| `PlanEffect.OneEdgePerClaim` | `src/redstring/consolidation/planning.py:127-134` | At the canonical entity at most one edge carries each claim. |
| `PlanEffect.ClaimSurvives` | `src/redstring/consolidation/planning.py:115-125` | The edge that carries a claim afterwards is one no competitor is preferred to. |
| `PlanEffect.RestoringThePlan` | `src/redstring/consolidation/planning.py:30-33` | Writing back the recorded edges after applying a plan gives the edge set from before it, exactly. |
| `FieldMerge.PlanProperties` | `src/redstring/consolidation/planning.py:212-241` | The loops over the group's keys settle each key once, in all three fields, or raise. |
| `FieldChoices.PickedIsKept` | `src/redstring/domain/merge_strategy.py:259-293` | Preferring the canonical keeps the value of the first of the group to have one, the canonical entity being listed first; preferring the merged that of the second, or of the only one; the most recent that of an entity observed no earlier than any other, at one instant no less surely, and last by its id. |
| `FieldChoices.StrategyIs` | `src/redstring/domain/merge_strategy.py:187-195` | The strategy of a path is the one given for it, else the one given for its field, else the default. |
| `FieldChoices.DescriptionIsKept` | `src/redstring/consolidation/planning.py:245-258` | The planned description is there if and only if some entity of the group has one, and is the one its strategy keeps. |
| `FieldChoices.ExternalIdsAreKept` | `src/redstring/consolidation/planning.py:261-276` | The planned external ids are those some entity of the group has, each the one its strategy keeps. |
| `FieldChoices.PropertiesAreKept` | `src/redstring/consolidation/planning.py:261-276` | The planned properties are those some entity of the group has, each the value its strategy keeps or, united, every item any of them has, once. |
| `FieldChoices.TheDefaultOnlyAdds` | `src/redstring/domain/merge_strategy.py:163-164` | Under the default policy planning never raises, and nothing the canonical entity says is changed. |
| `FieldChoices.PreferringTheMergedKeepsTheFirstExactlyWhen` | `src/redstring/domain/merge_strategy.py:287-288` | What preferring the merged keeps is said by the first absorbed entity to speak if and only if the canonical entity speaks too, or no other absorbed one does. |
| `FieldMerge.PlanningRaisesExactlyWhen` | `src/redstring/domain/merge_strategy.py:259-293` | Planning the fields raises if and only if some entity claims a path whose strategy is the deep merge; there is always a claim to choose from. |
| `FieldMerge.MostRecentIgnoresOrder` | `src/redstring/domain/merge_strategy.py:213-240` | What was most recently observed does not depend on the order the merged entities are listed in. |
| `FieldMerge.UnionHoldsEachItemOnce` | `src/redstring/domain/merge_strategy.py:296-318` | A union holds every item of every value, once. |
| `FieldMerge.UnionOfUnions` | `src/redstring/domain/merge_strategy.py:309-312` | Taking the union of a union and more is taking it all at once. |
| `FieldMerge.AMergeRetractsExactlyWhen` | `src/redstring/consolidation/planning.py:260-276` | The planned properties carry the tombstone flag if and only if some entity of the group does; it is true, except that uniting properties makes it a list. |
| `FieldMerge.AbsorbingATombstoneRetracts` | `src/redstring/projections/graph.py:190-260` | After a merge is folded its canonical entity is retracted if and only if it was, or some absorbed entity was, and properties are not united; no other row changes. |
| `Projection.GraphStore.UpsertRelationships` | `src/redstring/graph/adapters/memory.py:227-244` | All or nothing: an edge with a missing endpoint is reported and nothing is written. |
| `Projection.GraphStore.GetRelationshipsFor` | `src/redstring/graph/adapters/memory.py:272-299` | Every edge touching any of the ids, once each. |
| `Projection.GraphStore.ResolveEntityIds` | `src/redstring/graph/adapters/memory.py:163-187` | Every requested id mapped to what it resolves to, or the first whose chain does not end. |
| `Projection.GraphProjection.ApplyExtraction` | `src/redstring/projections/graph.py:125-151` | Writes entities, tombstones and disconnects the retracted, then writes the resolved edges; with which writes stand when one is refused. |
| `Projection.GraphProjection.Resolved` | `src/redstring/projections/graph.py:153-188` | The stated edges on their canonical endpoints and otherwise as stated; an edge that collapses is deleted under its id instead. |
| `EdgeContents.ResolvingChangesOnlyEnds` | `src/redstring/projections/graph.py:176-187` | A resolved edge is the stated one but for its ends, which are what those of the stated one resolve to. |
| `Projection.GraphProjection.ApplyMerge` | `src/redstring/projections/graph.py:190-229` | Aliases, then redirections in order, then the decided fields; with which writes stand when one is refused. |
| `Projection.GraphProjection.ApplyUndo` | `src/redstring/projections/graph.py:262-283` | Releases the aliases, writes back the edges, then the fields. |
| `Projection.GraphProjection.Handle` | `src/redstring/projections/graph.py:122-283` | Any event leaves the store as the fold says, error and partial writes included. |
| `Runs.ExtractionFolds` | `src/redstring/projections/graph.py:125-188` | An extraction is never a poison event, and every edge it writes lands on present non-aliases. |
| `Runs.ExtractionKeepsStep` | `src/redstring/projections/graph.py:125-188` | An extraction, retractions included, keeps the store sound and in step with the log. |
| `Runs.MergeFolds` | `src/redstring/projections/graph.py:190-229` | A merge planned on the current store is never a poison event and leaves the planned edges. |
| `Runs.MergeKeepsStep` | `src/redstring/projections/graph.py:190-229` | A merge planned on the current store keeps the store sound, in step, and every standing merge restorable. |
| `Runs.UndoKeepsSoundExactlyWhen` | `src/redstring/projections/graph.py:262-283` | Undoing any standing merge keeps the store sound if and only if no later standing merge absorbed an endpoint of an edge the undo restores. |
| `Runs.UndoOfLastKeepsStep` | `src/redstring/projections/graph.py:262-283` | Undoing the latest standing merge always keeps the store sound and in step. |
| `RunClaims.RunsKeepStep` | `src/redstring/projections/graph.py:125-283` | In every run of extractions, merges planned on the current store and undos of the latest standing merge: no event is poison, no edge touches an alias, none is a self-loop, and the store's aliases are the log's. |
| `RunClaims.StoreSaysWhatWasStated` | `src/redstring/projections/graph.py:153-188` | After any interleaving of extractions and merges, the store's claims are exactly all claims ever stated, read through the final aliases, without those that collapse. |
| `RunClaims.OrderOfMergesAndExtractionsIsIrrelevant` | `src/redstring/projections/graph.py:153-188` | Two such runs that state the same edges and resolve alike end with the same claims, whichever merges came before which extractions. |
| `EdgeContents.EveryEdgeWasStated` | `src/redstring/projections/graph.py:122-283` | After any run, merges undone in any order included, every stored edge is one some document stated under its id: the same type, document, properties and confidence, on other ends perhaps. |
| `EdgeContents.EdgeIsAsLastStated` | `src/redstring/projections/graph.py:176-188` | In a run whose undos each reverse the latest standing merge, and until the next undo, it is what the last document to state it said. |
| `EdgeContents.RowIsAsLastListed` | `src/redstring/projections/graph.py:125-147` | After any log, a row is what the last document to list it said; its three mergeable fields too, until a merge or an undo decides them, save for the tombstone flag, which it has if and only if it was retracted since. |
| `EdgeContents.RowsAreThoseListed` | `src/redstring/projections/graph.py:122-283` | An entity has a row if and only if some document listed it. |
| `EdgeContents.MergeSetsTheThreeFields` | `src/redstring/projections/graph.py:228-260` | A folded merge replaces the three mergeable fields of its canonical entity by the decided ones and changes nothing else of any row. |
| `ClaimHistory.StoreSaysWhatStands` | `src/redstring/projections/graph.py:125-188` | After any interleaving of extractions, retractions included, and merges, the store makes exactly the claims of the statements that still stand, read through the final aliases, without those that collapse. |
| `ClaimHistory.StandingExactlyWhen` | `src/redstring/projections/graph.py:129-150` | A statement stands if and only if some extraction made it and no later one retracts the entity either of its ends then resolved to. |
| `ClaimHistory.AbsorbedEntitiesKeepTheirEdges` | `src/redstring/projections/graph.py:129-150` | Retracting an entity that has been absorbed deletes no edge and takes back no statement: the extraction leaves exactly what it would leave without the retraction. |
| `ClaimHistory.RetractionsAndMergesDoNotCommute` | `src/redstring/projections/graph.py:129-150` | Retracted before the merge, a statement is taken back if and only if an end of it stands on a retracted id; after the merge, if and only if an end stands on one once redirected. |
| `Leftovers.ARetractionLeavesAnEdgeBehind` | `src/redstring/projections/graph.py:129-150` | Two runs of one document: retracted before the merge an entity loses its edge, retracted after it the edge stays on the canonical entity. |
| `Redelivery.RedeliveryIsHarmless` | `src/redstring/projections/graph.py:55-63` | Folding any suffix of such a log into the final store again changes nothing in it. |
| `UndoInverse.UndoReversesMerge` | `src/redstring/projections/graph.py:262-283` | A planned merge followed by its undo gives back the graph exactly: entities with their three fields, edges and aliases. |
| `UndoInverse.NestedMergesAndUndosRestore` | `src/redstring/consolidation/planning.py:30-33` | Any properly nested sequence of merges and undos, of any depth, gives back the store and the aliases it started from. |
| `UndoInverse.MergeThenUndoRestores` | `src/redstring/aggregates/consolidation_log.py:156-173` | After any run, a merge and its undo restore the store, and the log accepts that undo. |
| `LaterUndo.LaterUndoTakesTheMergeBackExactlyWhen` | `src/redstring/consolidation/service.py:437-444` | A merge, then extractions, retractions and other merges that keep to themselves, then the undo of that merge: under each id the store says what it would have said without the merge if and only if the undo neither restores an edge taken back since nor leaves behind one first stated since about an absorbed entity. |
| `LaterUndo.SaidOfAChangedEdge` | `src/redstring/consolidation/service.py:437-444` | An edge the merge changed says after the undo what it said before the merge; without the merge it would say so only if no extraction since has taken it back. |
| `LaterUndo.SaidOfANewEdge` | `src/redstring/projections/graph.py:262-278` | An edge first stated since about an absorbed entity stays, for as long as it is kept, where the merge moved it, or is gone when that makes it a self-loop; without the merge it would be where it was stated. |
| `LaterUndo.SaidOfAnyOther` | `src/redstring/projections/graph.py:262-278` | Every edge the merge neither changed nor would have moved is the very edge there would be without it. |
| `LaterUndo.WithoutRetractions` | `src/redstring/projections/graph.py:262-278` | With nothing retracted since, no edge comes back wrongly, and those left behind are all that were first stated since about an absorbed entity. |
| `LaterUndo.TheRestRunsWithoutTheMerge` | `src/redstring/consolidation/planning.py:136-209` | Everything since, other merges' plans included, would have been made just so without the merge. |
| `Meanwhile.StaySideBySide` | `src/redstring/projections/graph.py:122-260` | Through any such events the run with the merge and the run without it differ only in aliases and edges the merge concerns and in the mergeable fields of its canonical entity. |
| `LaterUndo.EdgeAfterTheUndo` | `src/redstring/consolidation/service.py:437-444` | After such an undo an edge the merge changed is the very edge from before the merge, whatever has happened since; any other is as it was before the undo. |
| `LaterUndo.RowsAfterTheUndo` | `src/redstring/projections/graph.py:246-253` | Such an undo writes the canonical entity's three fields from before the merge over whatever came since, a retraction included, and leaves every other row as it would be without the merge; so the rows are those exactly if nothing changed those fields. |
| `LaterUndo.TheUndoIsAccepted` | `src/redstring/consolidation/service.py:454-460` | The log accepts such an undo, no write of it is refused, and store and log are in step after it. |
| `LaterUndo.StatingAgainRepairs` | `src/redstring/projections/graph.py:153-188` | If only documents came since, extracting them again after the undo gives exactly the edges there would be without the merge. |
| `Leftovers.AnUndoLeavesAnEdgeBehind` | `src/redstring/projections/graph.py:262-283` | A run whose undo leaves a new edge of the released entity on the entity that had absorbed it. |
| `Leftovers.AnUndoBringsBackARetractedEdge` | `src/redstring/projections/graph.py:262-283` | A run whose undo restores an edge an end of which has been retracted since the merge. |
| `Overlaps.AnUndoneMergeCanCostAClaim` | `src/redstring/consolidation/service.py:437-444` | Two runs of one document: merge, a second merge whose group meets an edge of the first, and the undo of the first leave one claim fewer than the second merge alone. |
| `Counterexamples.UndoOutOfOrderRestoresOntoAnAlias` | `src/redstring/projections/graph.py:262-283` | Absorbing one end of an edge, then the other, then undoing the first merge puts the edge back on an alias. |
| `Counterexamples.ARunThatUndoesOutOfOrder` | `src/redstring/projections/graph.py:262-283` | Such a run from the empty store: a document, two merges each planned on the store as it was, and an undo the log accepts, after which an edge touches an alias. |
| `Counterexamples.PlansMadeBeforeThePassOverwriteEachOther` | `src/redstring/composition/build_graph.py:941-950` | Two merges planned on one store that absorb the two ends of an edge leave it, folded after the pass, touching an alias. |
| `Counterexamples.APassThatBreaksAnEdge` | `src/redstring/composition/build_graph.py:941-950` | A store reached from one document, and decisions for which the emit phase emits such a pair without an error, after which the folded store is not sound. |
| `PassEdges.PassFolds` | `src/redstring/composition/build_graph.py:941-950` | The merges of a pass, all planned on one store and folded after it, raise nothing, and leave the edges and aliases the plans and batches write in order. |
| `PassEdges.TheLastWordIsKept` | `src/redstring/composition/build_graph.py:941-950` | An edge some plan of the pass lists ends as the last plan listing it says. |
| `PassEdges.PassKeepsSoundExactlyWhen` | `src/redstring/composition/build_graph.py:941-950` | A pass planned on one sound store and folded after it leaves a sound store if and only if no event absorbs an end that another event's plan, the last to list the edge, gives it. |
| `PassEdges.EmittedPassKeepsSoundExactlyWhen` | `src/redstring/consolidation/resolve_many.py:128-142` | The same if and only if for whatever the emit phase emits, when its plans were made on the store it began with. |
| `ServiceProtocol.ReachableSystemsAreSafe` | `src/redstring/consolidation/service.py:163-210` | With any number of interleaved calls and arbitrarily stale graph reads every reachable log is legal, and the error after the attempts is raised exactly by calls allowed none. |
| `ServiceProtocol.EachCallAppendsAtMostOnce` | `src/redstring/consolidation/service.py:193-210` | A call that returns appended exactly the event it returned; a call that raised or is still running appended nothing. |
| `ServiceProtocol.LegalHistory` | `src/redstring/aggregates/consolidation_log.py:130-179` | Legality spelled out: no merge into or of a standing alias, and every undo reverses a merge that stands. |
| `Attempts.GivesUpExactlyWhen` | `src/redstring/consolidation/service.py:153-210` | A merge raises the lock error if and only if it has lost as many appends as it may make attempts, and never loses more; an undo if and only if it has lost its one. |
| `Attempts.LosersWereOvertaken` | `src/redstring/consolidation/service.py:191-209` | An append is lost only to another call, which appended at the version loaded. |
| `Attempts.CallsHoldTheirOwn` | `src/redstring/consolidation/service.py:153-206` | What a call appends and returns merges the entities it was asked to merge, or undoes the merge it was asked to undo, and its plan is what the graph read of the same attempt gave. |
| `Attempts.StartsOverExactlyWhen` | `src/redstring/consolidation/service.py:353-376` | A load starts a call from `resolve` over, around what its subject resolves to now, if and only if its canonical entity has become an alias and it has not started over before. |
| `Attempts.AliasesAreReportedSecond` | `src/redstring/consolidation/service.py:258-262` | Such a call never tells its caller that its subject is an alias the first time. |
| `Consolidation.Consolidator.Merge` | `src/redstring/composition/build_graph.py:823-853` | Plans edges and fields on the current store, emits and folds; succeeds exactly when the canonical entity has a row, the policy settles every field and the log's rules allow the merge, fails with the missing row, the unimplemented strategy or the refusal those rules give, and leaves store and log in step either way. |
| `Consolidation.Consolidator.Undo` | `src/redstring/composition/build_graph.py:952-974` | Emits and folds the undo; store and log stay in step if and only if nothing the undo touches was absorbed since. |
| `ResolveMany.StillMergeable` | `src/redstring/consolidation/resolve_many.py:31-59` | Filtering by stored aliases plus those absorbed earlier in the pass filters by the log's own aliases. |
| `ResolveMany.Execute` | `src/redstring/consolidation/resolve_many.py:120-140` | The loop over decisions, filtering by the store's aliases and the pass's own, does what asking the log itself would, and the log never refuses an emit for an alias. What it merges, the `PassMerges` rows say. |
| `ResolveMany.PassesStayLegal` | `src/redstring/consolidation/resolve_many.py:128-142` | The emitted events extend a legal log to a legal log. |
| `ResolveMany.OnlyIncoherentMergesAreRefused` | `src/redstring/consolidation/resolve_many.py:128-142` | The only refusal a pass can meet is the event's own validation. |
| `PassMerges.ATurn` | `src/redstring/consolidation/resolve_many.py:125-139` | A decision passes when its subject is an alias or everything it confirmed is; otherwise one event is emitted and recorded in which its subject absorbs, in the order confirmed, every entity confirmed that is no alias, each once, by its own plan; it fails exactly when that cannot be merged. |
| `PassMerges.EveryConfirmedIsAbsorbed` | `src/redstring/consolidation/resolve_many.py:125-139` | After a pass without an error every entity confirmed with a subject that stood at its turn is an alias: of that subject, unless it was one already. |
| `PassMerges.OnlyConfirmedAreAbsorbed` | `src/redstring/consolidation/resolve_many.py:125-139` | Whatever a pass absorbed, some decision confirmed with the subject it is now under. |
| `PassMerges.EveryEventIsADecisions` | `src/redstring/consolidation/resolve_many.py:125-139` | Every event of a pass is the merge of one decision, with the aliases known at its turn. |
| `PassMerges.PassFailsExactlyWhen` | `src/redstring/consolidation/service.py:153-186` | A pass fails if and only if some decision has entities to merge, and its subject has no row, is itself confirmed, an entity that is no alias is confirmed twice, or its plan decides another entity's fields. |
| `Network.MoveChangesModularity` | `src/redstring/domain/community.py:214-225` | Moving a node changes modularity, scaled by twice the total weight, by twice the difference of the two gains the pass compares; so modularity itself by that difference over the total weight. |
| `LocalMoving.MovingIsBetter` | `src/redstring/domain/community.py:202-229` | Every move raises modularity, or keeps it and strictly lowers, in lexicographic order by node, the smallest member of each node's community. |
| `LocalMoving.BestIsUnique` | `src/redstring/domain/community.py:212-222` | The candidate chosen is unique, so the order links were met in cannot matter. |
| `Convergence.NoPartitionComesBack` | `src/redstring/domain/community.py:175-180` | A pass that moves a node never brings back a partition seen before it. |
| `Convergence.PassesEnd` | `src/redstring/domain/community.py:175-180` | The passes reach a fixed point by themselves, without a bound on their number. |
| `Convergence.NobodyGainsBySwitching` | `src/redstring/domain/community.py:79-88` | When a pass moves nobody, no node raises modularity by joining a neighbour's community. |
| `Convergence.TieMovesExactlyWhen` | `src/redstring/domain/community.py:212-222` | Where no candidate beats staying, a node moves if and only if a candidate ties and has a smaller smallest member. |
| `Ties.ATieMovesANode` | `src/redstring/domain/community.py:43-45` | In the second pass from singletons over a five-node network a tie, of 1/4 to 1/4, moves a node, and modularity stays the same. |
| `Ties.TheEdgesBuildTheNetwork` | `src/redstring/domain/community.py:142-166` | That network is what four unit edges build. |
| `Ties.TheFirstPass` | `src/redstring/domain/community.py:187-229` | The labels the first pass over it leaves. |
| `Ties.GainsAreEighths` | `src/redstring/domain/community.py:217-222` | Every gain on it is a whole number of eighths, at most ten, which floating point computes exactly; so the tie is one in the program's arithmetic too. |
| `CommunityPass.Links` | `src/redstring/domain/community.py:207-210` | The candidates are the node's own community and its neighbours', each with the total weight of the links into it. |
| `CommunityPass.Choose` | `src/redstring/domain/community.py:212-222` | The loop over candidates returns the best one under gain, then smallest member. |
| `CommunityPass.VisitNode` | `src/redstring/domain/community.py:202-228` | One visit moves the node to its best candidate and keeps member sets and degree sums consistent with the labels. |
| `CommunityPass.Pass` | `src/redstring/domain/community.py:187-229` | One pass visits every node in order in place, keeps the bookkeeping consistent, and reports whether a label changed. |
| `Community.BuildNetwork` | `src/redstring/domain/community.py:142-166` | Builds the network from the edges or names the first bad one: its weight, else the endpoint that is not a node. What it holds, the `EdgeSums` rows say. |
| `EdgeSums.NetworkIsItsLinks` | `src/redstring/domain/community.py:142-166` | Two different nodes are neighbours if and only if some link joins them, as heavily as all that do together; a node's degree is the weight of the link ends at it, two for a loop; and the total is that of all links. |
| `EdgeSums.NetworkIsItsEdges` | `src/redstring/domain/community.py:137-166` | The same of the edges the caller listed, entity by entity. |
| `EdgeSums.ModularityOfLinks` | `src/redstring/domain/community.py:217-222` | Modularity is twice the weight of the links inside communities, loops apart, less the resolution times the products of each node's degree and its community's over twice the total weight. |
| `EdgeSums.ResolutionScalesTheNullModel` | `src/redstring/domain/community.py:220-221` | Raising the resolution takes off the modularity of one labelling in proportion to those products. |
| `EdgeSums.DetectionIsNoWorseThanSingletons` | `src/redstring/domain/community.py:168-180` | The labelling detection ends with has at least the modularity of leaving every node alone. |
| `EdgeSums.DetectionSettles` | `src/redstring/domain/community.py:172-177` | Detection ends where no node gains by switching to the community of a neighbour, unless each of a hundred passes moves a node. |
| `EdgeSums.CommunitiesStayConnected` | `src/redstring/domain/community.py:205-229` | A set of entities that no edge leaves holds each community whole or not at all. |
| `CommunityNetwork.BuiltNetworkIsValid` | `src/redstring/domain/community.py:142-166` | The adjacency built is symmetric and its total is positive as soon as there is an edge. |
| `CommunityNetwork.DegreesSumToTwiceTheTotal` | `src/redstring/domain/community.py:158-166` | Degrees, self-loops counted twice, sum to twice the total weight. |
| `CommunityNetwork.OrderDoesNotMatter` | `src/redstring/domain/community.py:147-166` | Any permutation of the edges builds the same network. |
| `CommunityNetwork.AddingUndirected` | `src/redstring/domain/community.py:163-166` | Flipping edges builds the same network. |
| `Community.Converge` | `src/redstring/domain/community.py:171-180` | The loop leaves the labels that many passes give, with the member sets matching them. |
| `Community.DetectCommunities` | `src/redstring/domain/community.py:114-184` | Fails exactly for a negative resolution, or with the error of the first bad edge when there are nodes; otherwise every node is in exactly one community, once, each ascending and listed by first member. |
| `Community.CommunitiesPartition` | `src/redstring/domain/community.py:182-184` | Whatever labels the passes leave, grouping the ids by them puts each node in exactly one community and nothing else in any. |
| `Community.ListingIsUnique` | `src/redstring/domain/community.py:182-184` | A partition has one listing, whatever its labels. |
| `Community.DetectionIgnoresOrder` | `src/redstring/domain/community.py:114-184` | Any permutation of nodes and edges, repeated nodes and flipped edges included, gives the same result. |
| `Document.Document.RecordExtraction` | `src/redstring/aggregates/document.py:104-136` | Nothing exactly when this model version was recorded; otherwise an event that retracts, in order, the last extraction's ids not found again. |
| `Document.Document.RecordEmbeddings` | `src/redstring/aggregates/document.py:138-155` | Nothing exactly when this embedding model was recorded, in a key space of its own. |
| `Document.Document.RecordChunking` | `src/redstring/aggregates/document.py:157-178` | Nothing exactly when this signature was recorded, in a key space of its own. |
| `Document.Document.ApplyEvent` | `src/redstring/aggregates/document.py:180-187` | The state is the fold of the stream, and the stream stays one the record methods could have written. |
| `Document.OneEventPerRun` | `src/redstring/aggregates/document.py:120-121` | A stream holds at most one event of each kind per model version, embedding model or signature. |
| `Document.ExtractionReplacesTheLast` | `src/redstring/projections/graph.py:125-151` | One more extraction never poisons and replaces what is live: rows, tombstones, and edge by edge. |
| `Document.OnlyTheLastExtractionIsLive` | `src/redstring/projections/graph.py:125-151` | Over any unmerged stream the rows without a tombstone are exactly those of the last extraction, as extracted, and no edge touches any other, however often entities vanish and return. |
| `Document.VanishedRowsAreRemembered` | `src/redstring/projections/graph.py:129-147` | No row is ever lost: each is an entity as some extraction found it, or that with the tombstone set and nothing else touched. |
| `Document.EdgesAreTheStatementsThatStand` | `src/redstring/projections/graph.py:125-151` | An edge is stored if and only if some extraction stated it last under its id and every later one found both its ends. |
| `Mapping.EndpointsAreFoundByName` | `src/redstring/extraction/mapping.py:308-342` | However it is spelt, and unless looking it up raises, an endpoint is found exactly when an entity of that normalised name was accepted, and is then such an entity. |
| `Mapping.EndpointsExactlyWhen` | `src/redstring/extraction/mapping.py:327-342` | Going down the rows of a name, a look-up raises exactly when text that cannot be hashed comes before the first type an accepted row of the name has; otherwise it finds exactly that row's entity. |
| `Mapping.AcceptedRowsAreBuilt` | `src/redstring/extraction/mapping.py:206-272` | A row whose name is not blank and whose text can be stored is in the answer with what it said. |
| `Mapping.AcceptedRowsAndNoOthersAreBuilt` | `src/redstring/extraction/mapping.py:231-272` | Exactly the rows that are not blank and can be stored are built, one entity each and in their order; every other row is refused. |
| `Mapping.EveryEdgeIsAccountedFor` | `src/redstring/extraction/mapping.py:344-382` | Unless one raises, every stated edge is mapped, counted as unresolved or counted as a self-loop. |
| `Mapping.MappingRaisesExactlyWhen` | `src/redstring/extraction/mapping.py:170-203` | Mapping an answer raises if and only if a stated edge between two different entities it finds cannot be stored, or names one whose look-up raises, or some row is accepted and the document's id or the model's name cannot be recorded. |
| `Mapping.AnUnstorableDocumentFailsTheAnswer` | `src/redstring/domain/provenance.py:107-115` | A document whose id cannot be stored fails every answer with an accepted row, by its hash or by its provenance. |
| `Mapping.OneUnstorableEdgeFailsTheAnswer` | `src/redstring/domain/relationship.py:41-48` | One edge with unstorable text between two accepted entities fails the whole answer. |
| `Mapping.NamingAnUnencodableRowFailsTheAnswer` | `src/redstring/extraction/mapping.py:334-342` | So does an edge that names a row which was dropped because its name has no encoding. |
| `Mapping.StorableAnswersMap` | `src/redstring/extraction/mapping.py:344-382` | Where the document and the model can be recorded, an answer never raises when its edges are storable and the rows they name can be encoded. |
| `Mapping.MapExtraction` | `src/redstring/extraction/mapping.py:170-203` | The loops compute the preferred mention of each id and the counters, or the error of the first row or edge that raises. |
| `Mapping.MapRelationships` | `src/redstring/extraction/mapping.py:326-383` | The loop computes the kept edges and the two counters, or the first error. Which edges those are, the `MappedEdges` rows say. |
| `MappedEdges.EverythingMappedWasSaid` | `src/redstring/extraction/mapping.py:326-383` | Every edge of a mapped answer is one the answer stated, from the entity its source name finds to the one its target name finds, with its type, properties, confidence, document and derived id; every entity is one of its usable rows. |
| `MappedEdges.EveryStatedEdgeIsMapped` | `src/redstring/extraction/mapping.py:326-383` | What a stated edge claims of two different entities it finds is in the mapped answer, said no worse. |
| `MappedEdges.EveryUsableRowIsMapped` | `src/redstring/extraction/mapping.py:170-193` | Every usable row is in the mapped answer under its id, as itself or as a mention that is no worse. |
| `MappedEdges.CountersCount` | `src/redstring/extraction/mapping.py:194-203` | The counters are the numbers of rows that cannot be used, of rows used without the date they gave, of stated edges with an end not found and of stated edges from an entity to itself. |
| `MappedEdges.EverythingMappedIsStorable` | `src/redstring/domain/json_safety.py:79-97` | Whatever maps can be stored: names, types, descriptions, properties, the document's id and the model's name. |
| `MappedAnswers.MappedEdgesStayWithin` | `src/redstring/extraction/mapping.py:334-382` | A mapped answer lists each id once, and its edges join two different entities of it. |
| `MappedAnswers.MappedPartsAreComparable` | `src/redstring/domain/preference.py:88-117` | Mentions mapped by one run under one id differ only in fields the preference order compares. |
| `MappedAnswers.ChunksOfOneRunMerge` | `src/redstring/extraction/merging.py:79-133` | Whatever the model answered, the merge of what was mapped holds the preferred mention of every id, orphans no edge, and does not depend on the order or grouping of the chunks. |
| `Combining.EntitiesIgnoreCombiningOrder` | `src/redstring/extraction/gleaning.py:110-128` | Which of two answers came first never changes the entities. |
| `Combining.EndpointIgnoresCombiningOrderExactlyWhen` | `src/redstring/extraction/gleaning.py:110-128` | An endpoint is found alike either way round if and only if at most one of the two answers' rows settles it, or both settle it alike; and each order takes whichever settles it first. |
| `Combining.AnswersIgnoreCombiningOrderWhenEndpointsDo` | `src/redstring/extraction/gleaning.py:110-128` | When every endpoint the stated edges use is found alike, the two orders map to the same entities, edges and counters, or both raise. |
| `Combining.OneEdgeIgnoresCombiningOrderExactlyWhen` | `src/redstring/extraction/gleaning.py:110-128` | Two answers that state one edge between them map alike in both orders if and only if both its ends are found alike, or an end is not found, or it is a self-loop in both. |
| `Combining.AMovedEdgeShows` | `src/redstring/extraction/gleaning.py:113-118` | If an edge says in one order what no edge says in the other, the two orders map to different edges. |
| `Combining.CombiningOrderCanMoveAnEdge` | `src/redstring/extraction/gleaning.py:113-118` | One answer lists a name as a person and states an edge from it, the other lists it as a work: the two orders map to different edges. |
| `Preference.PreferenceIsTotal` | `src/redstring/domain/preference.py:154-163` | Of two different mentions of one entity exactly one is preferred. |
| `Preference.EdgePreferenceIsTotal` | `src/redstring/domain/preference.py:198-220` | Of two different statements of one edge exactly one is preferred. |
| `Preference.AboveIsTransitive` | `src/redstring/domain/preference.py:154-163` | The entity order is transitive. |
| `BestById.KeptExactlyTheBest` | `src/redstring/extraction/merging.py:106-116` | Keep-if-better leaves, for each id, exactly the mention that beats every other. |
| `BestById.KeptIgnoresOrder` | `src/redstring/extraction/merging.py:35-46` | What is kept depends on which mentions there are and not on their order or repetition. |
| `BestById.KeptRegroups` | `src/redstring/extraction/merging.py:35-46` | Folding two folds keeps what folding everything at once would. |
| `Merging.MergeExtractions` | `src/redstring/extraction/merging.py:79-133` | The nested loops compute the fold of all parts, in first-written order, with the counters summed. |
| `Merging.MergeKeepsTheBest` | `src/redstring/extraction/merging.py:104-116` | An entity or edge is in the merge if and only if it is the preferred mention of its id. |
| `KeptMentions.KeptEntityIsNoWorse` | `src/redstring/domain/preference.py:154-163` | Of the mentions of an id one is kept that none beats: none is more confident; of those none is dated where it is not; then none has a longer description; then none has one where it has not; and then the text decides. |
| `KeptMentions.KeptEdgeIsNoWorse` | `src/redstring/domain/preference.py:198-220` | Of the statements of an edge one is kept that none beats on confidence, then on how many properties it has, then on their rendering. |
| `KeptMentions.MergedEntityIsNoWorse` | `src/redstring/extraction/merging.py:106-110` | A merge holds, for every entity of every part, a mention that is no worse, whatever the parts. |
| `KeptMentions.MergedEdgeIsNoWorse` | `src/redstring/extraction/merging.py:111-116` | And for every edge of every part. |
| `KeptMentions.MergedWasMentioned` | `src/redstring/extraction/merging.py:124-127` | Nothing in a merge is made up, and no id is in it twice. |
| `KeptMentions.MergedCountersAddUp` | `src/redstring/extraction/merging.py:117-122` | Each counter of a merge is the sum of that counter over the parts. |
| `Merging.MergeIgnoresOrder` | `src/redstring/extraction/merging.py:35-46` | Any permutation of the parts merges to the same entities, edges and counters. |
| `Merging.MergeRegroups` | `src/redstring/extraction/merging.py:79-133` | Merging two merges is merging everything at once. |
| `Merging.NoEdgeIsOrphaned` | `src/redstring/extraction/merging.py:90-95` | Parts whose edges stay within them merge into an extraction whose edges do. |
| `Merging.MentionCounts` | `src/redstring/extraction/merging.py:136-176` | The loop computes the occurrence count of every id. |
| `Merging.EveryMentionIsCounted` | `src/redstring/extraction/merging.py:163-171` | The counts have exactly the merge's ids, and each is the number of parts that report that id. |
| `Carryover.FirstSpellingStays` | `src/redstring/extraction/carryover.py:130-141` | Nothing remembered moves, is respelt or forgotten; one slot per normalised name and type, new ones after it. |
| `Carryover.Carryover.RememberEntities` | `src/redstring/extraction/carryover.py:130-141` | The loop appends the first spelling of every name and type not seen before. |
| `Carryover.Carryover.Mentions` | `src/redstring/extraction/carryover.py:143-147` | The most recently first-seen mentions, at most the limit, none when it is zero. |
| `Pipeline.Glean` | `src/redstring/extraction/pipeline.py:560-596` | The loop stops at a provider error, an empty pass or the budget, counting each. |
| `Pipeline.GleaningOnlyAdds` | `src/redstring/extraction/pipeline.py:560-596` | Gleaning keeps everything the first answer found, stays within its budget, and a provider error during it never fails the chunk. |
| `RunContents.WhatGleaningFound` | `src/redstring/extraction/pipeline.py:581-596` | The gleaned answer is the first one followed by what every later pass found, pass after pass, each asked with everything found before it; it ends when the budget is spent, a pass finds nothing, a provider error is counted, or any other error is raised. |
| `RunContents.ChunkAnswers` | `src/redstring/extraction/pipeline.py:547-558` | A chunk's outcome is the mapping of its gleaned answer with the passes and failures of its gleaning, or the provider's error. |
| `Pipeline.Extract` | `src/redstring/extraction/pipeline.py:439-529` | The batched loop, the two passes over each batch, the final folds and the passages compute the batched run and its result, or the error of the chunk or passage that raises first. |
| `Pipeline.BatchesAreSerial` | `src/redstring/extraction/pipeline.py:454-504` | A batched run is a one-at-a-time run in which every chunk of a batch had the batch's prompt. |
| `RunContents.PromptsCarryNamesOver` | `src/redstring/extraction/pipeline.py:456-461` | Every chunk is asked under the system prompt and the most recently first seen names, up to the limit, of those the chunks before its batch produced: one slot to a normalised name and type, none missing. |
| `RunContents.NamesSeen` | `src/redstring/extraction/pipeline.py:494-502` | Names seen keep their places and spellings as chunks are added. |
| `Pipeline.ConcurrencyDoesNotMatter` | `src/redstring/extraction/pipeline.py:454-504` | With carryover off every concurrency gives the same result or raises the same first error. |
| `Pipeline.SucceedsExactlyWhenNothingRaises` | `src/redstring/extraction/pipeline.py:469-476` | The loop over chunks ends without an error if and only if no chunk raises: each gives an answer, or fails in a way that is skipped. |
| `Pipeline.RunSucceedsExactlyWhen` | `src/redstring/extraction/pipeline.py:439-529` | A run succeeds if and only if every chunk survives, and every text, the metadata of the first chunk with each text and the document's id can be stored with the passages. |
| `Pipeline.LoopSucceedsExactlyWhen` | `src/redstring/extraction/pipeline.py:469-476` | A chunk survives if and only if its first call fails in a way that is skipped, or succeeds and neither its gleaning nor the mapping of its answer raises; the loop succeeds if and only if all do. |
| `Pipeline.ChunkErrorsComeFirst` | `src/redstring/extraction/pipeline.py:469-511` | A failing run raises the error of the first chunk, in document order, that raises, whatever the passages hold; and if none does, that of the passages. |
| `Pipeline.ANulFailsTheDocument` | `src/redstring/domain/chunk.py:168-172` | A document with a NUL in it fails though its call succeeded and was mapped. |
| `Pipeline.ChunkRaisesExactlyWhen` | `src/redstring/extraction/pipeline.py:531-558` | The same of one chunk, in terms of its calls and its answer's own rows. |
| `Pipeline.OneBadEdgeFailsTheDocument` | `src/redstring/extraction/pipeline.py:475-476` | One edge that cannot be stored fails the document although its call succeeded and failed chunks are skipped. |
| `Pipeline.TheFirstErrorIsRaised` | `src/redstring/extraction/pipeline.py:469-476` | Otherwise the loop raises the error of the first such chunk in document order. |
| `Pipeline.EachChunkKeepsItsEntities` | `src/redstring/extraction/pipeline.py:441-486` | However many earlier chunks failed, the entities filed under a chunk are its own call's, and every chunk is a part or counted as failed. |
| `Pipeline.PassagesHaveTheirOwnEntities` | `src/redstring/extraction/pipeline.py:505-511` | A stored passage is linked to an entity if and only if a call made for a chunk with that text named it. |
| `RunContents.ResultHolds` | `src/redstring/extraction/pipeline.py:504-529` | The result is the merge of the answers that came, in document order, with the numbers of failed calls, of all chunks, of gleaning passes and of failed gleanings, and the counts of mentions over those answers. |
| `RunContents.EveryRowReachesTheResult` | `src/redstring/extraction/pipeline.py:402-529` | Every usable row any chunk was answered with, first asked or gleaned, is in the result: itself or a mention that is no worse. |
| `RunContents.EveryEdgeReachesTheResult` | `src/redstring/extraction/pipeline.py:402-529` | Whatever any chunk's answer states of two different entities it lists is in the result, said no worse. |
| `Corpus.DigestInput` | `src/redstring/extraction/corpus.py:43-59` | The bytes fed to the digest chunk by chunk are the preimage of the split. |
| `Corpus.DecimalRoundTrips` | `src/redstring/extraction/corpus.py:55-57` | The digits written for a number read back as that number. |
| `Corpus.PreimageIsUniquelyDecodable` | `src/redstring/extraction/corpus.py:43-59` | Two splits have the same preimage if and only if they agree on every index, offset and text. |
| `Corpus.StoredChunks` | `src/redstring/extraction/corpus.py:62-143` | The two dictionaries compute one record per first occurrence with the union of links, or the error of the first text that cannot be hashed or else of a record that cannot be stored. |
| `Corpus.StoringFailsExactlyWhen` | `src/redstring/extraction/corpus.py:118-143` | Building the passages raises if and only if there are any and the document's id has no encoding, or a text cannot be stored, or the metadata of the first chunk with some text cannot; and as a hash does exactly when the id or some text has no encoding. |
| `Corpus.PassagesAreFaithful` | `src/redstring/extraction/corpus.py:85-96` | One record per distinct text, carrying its first occurrence and exactly the entities linked to any occurrence, once each. |
| `Policy.Adjudicator.InBatches` | `src/redstring/consolidation/policy.py:179-198` | The loop over batches asks every question once, in order. |
| `Policy.Adjudicator.OneBatch` | `src/redstring/consolidation/policy.py:200-231` | Every verdict of a batch by position, or None for every pair when the call failed or the count disagrees. |
| `Policy.EachAnswerIsItsOwn` | `src/redstring/consolidation/policy.py:185-193` | The verdict on a pair is its own position's in the one answer to its batch, and None exactly when that batch failed or was misaligned. |
| `Policy.FlatIsSliced` | `src/redstring/consolidation/policy.py:259-277` | The cursor's slice for a subject is exactly the questions about that subject. |
| `Policy.Adjudicator.AdjudicateMany` | `src/redstring/consolidation/policy.py:233-277` | One list per subject, as long as its candidates, cut from the flat verdicts; the cursor mismatch never happens. |
| `Policy.ManyIsEach` | `src/redstring/consolidation/policy.py:233-277` | With a model that judges each pair on its own and never fails, asking about many subjects tells each what asking about it alone would, for any two batch sizes. |
| `RateLimiter.MemoryCache.CountHits` | `src/redstring/llm/cache/memory.py:117-126` | Counts exactly the hits at or after `since`, dropping only older ones, and forgets an expired series. |
| `RateLimiter.MemoryCache.OldestHit` | `src/redstring/llm/cache/memory.py:128-131` | The earliest live hit at or after `since`, or none exactly when there is none. |
| `RateLimiter.MemoryCache.RecordHit` | `src/redstring/llm/cache/memory.py:100-105` | Inserts the hit in time order into its own series, wherever it falls, with a new deadline, and touches no other. |
| `RateLimiter.RateLimiter.Acquire` | `src/redstring/llm/rate_limiter.py:119-146` | Grants exactly when fewer than `rpm` grants are in the window, records exactly the grants, and otherwise says how long until the oldest leaves it. |
| `RateLimiter.RateLimiter.Remaining` | `src/redstring/llm/rate_limiter.py:148-152` | `rpm` less the grants in the window, positive exactly when a call would be granted. |
| `RateLimiter.AtMostRpmInAnyWindow` | `src/redstring/llm/rate_limiter.py:69-70` | No closed interval of the window's width holds more than `rpm` grants. |
| `RateLimiter.NoTenantExceedsItsRate` | `src/redstring/llm/rate_limiter.py:69-70` | So of any tenant of any limiter after any calls. |
| `RateLimiter.RetrySucceedsExactlyAfter` | `src/redstring/llm/rate_limiter.py:57-62` | After a refusal and no other calls a retry is granted if and only if it waits strictly longer than `retry_after`. |

## Left out

- Tenants: everything belongs to one tenant, so the checks that a payload belongs to its event's tenant are not modelled.
- Hashing (uuid5, SHA-256) and JSON rendering: parameters; injective where a property needs it, arbitrary elsewhere.
- Ids are numbers: the canonical hyphenated form of a UUID orders as the number does.
- Floating point: confidences, weights, gains, modularity and times are exact reals; an edge weight is never infinite or not a number.
- FieldMerge.PlanProperties: the order of keys, which is presentation; JSON values that Python calls equal across types, such as 1 and true, are told apart.
- Runs.MergeKeepsStep: what becomes of the fields is left open there and in every theorem on runs, which so hold for any policy.
- Alias names, timestamps, merge reasons, logging and prompt wording: presentation data; the alias table is a map from id to canonical id.
- Event ids are fresh by assumption; snapshots and the event store itself are reduced to compare the version, then append.
- ServiceProtocol: candidate search, scoring and banding, and the model's verdicts, only decide which calls are made; any calls may be.
- ResolveMany.Execute: plans are arguments, and no other writer interferes.
- PassEdges.PassKeepsSoundExactlyWhen: every plan of the pass is made on the one store the pass began with, as it is when nothing is folded meanwhile.
- Redelivery.RedeliveryIsHarmless: logs without retractions and undos, as those are not fixed points of redelivery.
- RunClaims.StoreSaysWhatWasStated: logs without retractions and undos, and edge ids that fix what the edge states, which `_relationship_id_for` provides. `ClaimHistory` lifts the first restriction.
- LaterUndo.LaterUndoTakesTheMergeBackExactlyWhen: no undo before the merge or between it and its own, and the other merges in between have no entity of this merge's in their group and no end of an edge it changed or would have moved; where groups meet, `Overlaps.AnUndoneMergeCanCostAClaim` shows that a claim can be lost.
- EdgeContents.EdgeIsAsLastStated: says nothing once a merge has been undone, as the undo writes the edge back as it was recorded, whatever was stated since.
- Document.OnlyTheLastExtractionIsLive: streams of one document with no merges, whose extracted entities do not carry the tombstone flag themselves.
- Mapping.MapExtraction: starts after date-nodes have been lifted out of the answer; date parsing, name normalisation and which texts can be stored or hashed are parameters, none of which raises, observation times have a time zone, and the check that a method matches a model is not modelled.
- Pipeline.Extract: the model is a function of text and prompt, so that nothing is said of calls that answer differently when repeated, of cancellation, or of the call limiter; the chunker's output is the argument.
- Corpus.StoredChunks: metadata is a value, so copying it deeply or not is the same and never fails.
- RateLimiter.RateLimiter.Acquire: calls are sequential and one clock, which never goes back, is read for both the window and expiry; the limiter starts on an empty cache; several processes sharing a cache are not modelled.
- Chunkers, embeddings, retrieval, domains, vocabularies, schema.org mapping, blocking keys, scoring, temporal parsing, adapters for databases and models, the circuit breaker, and command-line and bench code.
