/**
 The one-at-a-time driver: read, plan, emit, then fold the event into the store before the
 next call.  This is what makes every merge planned on the current store.
 */
module Consolidation {
  import opened Wrappers
  import opened Domain
  import opened MergeLog
  import opened MergeHistory
  import opened Planning
  import opened PlanEffect
  import opened GraphFold
  import opened Projection
  import opened Runs
  import opened FieldMerge

  class Consolidator {
    const log: ConsolidationLog
    const store: GraphStore
    const projection: GraphProjection

    ghost predicate Valid()
      reads log, store
    {
      projection.store == store && InStep(log.State(), store.View())
    }

    constructor (log: ConsolidationLog, store: GraphStore)
      requires InStep(log.State(), store.View())
      ensures this.log == log && this.store == store && Valid()
    {
      this.log, this.store := log, store;
      projection := new GraphProjection(store);
    }

    // Absorb `merged` into `canonical`, whose fields become what `policy` makes of the group's rows.
    // `id` is fresh.
    method Merge(dumps: Renderer, id: EventId, canonical: EntityId, merged: seq<EntityId>, policy: Policy)
      returns (r: Result<Event, ServiceError>)
      requires Valid() && FreshId(log.State(), id)
      modifies log, store
      ensures Valid()
      ensures r.Success? <==>
              && canonical in old(store.entities)
              && PlannedFields(policy, [old(store.entities)[canonical]] + RowsOf(old(store.entities), merged)).Some?
              && MayMerge(old(log.State()), canonical, merged)
              && Coherent(canonical, merged, None)
      ensures r.Success? ==>
              && r.value.Merged? && r.value.canonical == canonical && r.value.merged == merged
              && Accepts(old(log.State()), r.value) && PlannedOn(dumps, old(store.View()), r.value)
              && DecidedBy(policy, old(store.View()), r.value)
              && log.State() == Apply(old(log.State()), r.value)
              && store.View() == MergedGraph(dumps, old(store.View()), r.value)
      ensures r.Failure? ==> log.State() == old(log.State()) && store.View() == old(store.View())
      ensures r.Failure? ==>
              if canonical !in old(store.entities) then r.error == MissingCanonical(canonical)
              else if PlannedFields(policy, [old(store.entities)[canonical]] + RowsOf(old(store.entities), merged)).None? then
                r.error == NotImplemented
              else r.error.Refused? && Refusal(old(log.State()), canonical, merged, r.error.refusal)
    {
      hide PlannedFields, RowsOf, Refusal, MergedGraph, IsPlan;
      var relationships := store.GetRelationshipsFor([canonical] + merged);
      var redirections := PlanRedirections(dumps, canonical, merged, relationships);
      ReadingTheGroupIsEnough(dumps, canonical, merged, store.edges.Values, relationships, redirections);
      if canonical !in store.entities {
        return Failure(MissingCanonical(canonical));
      }
      var row := store.entities[canonical];
      var after := PlanProperties(policy, row, RowsOf(store.entities, merged));
      if after.None? {
        return Failure(NotImplemented);
      }
      var resolution := Resolution(canonical, row.Fields(), after.value.after);
      var event := log.Merge(id, canonical, merged, redirections, Some(resolution));
      match event
      case Failure(refusal) =>
        r := Failure(Refused(refusal));
      case Success(ev) =>
        MergeFolds(dumps, old(store.View()), ev);
        MergeKeepsStep(dumps, old(log.State()), old(store.View()), ev);
        var error := projection.Handle(ev);
        r := Success(ev);
    }

    // Reverse the merge `id` recorded.  The system stays in step exactly when no later merge in
    // effect absorbed an endpoint of an edge the undo restores.
    method Undo(id: EventId) returns (r: Result<Event, ServiceError>)
      requires Valid()
      modifies log, store
      ensures r.Success? <==> exists i :: InEffect(old(log.State()), i) && old(log.merges)[i].eventId == id
      ensures r.Success? ==>
              && Accepts(old(log.State()), r.value) && r.value.Undone? && r.value.mergeEventId == id
              && log.State() == Apply(old(log.State()), r.value)
              && Fold(old(store.View()), r.value) == Folded(store.View(), None)
      ensures r.Success? ==>
              exists u :: InEffect(old(log.State()), u) && old(log.merges)[u].eventId == id
                          && (Valid() <==> NothingAbsorbedSince(old(log.State()), u))
      ensures r.Failure? ==> r.error == Refused(UnknownMerge(id)) && Valid()
                             && log.State() == old(log.State()) && store.View() == old(store.View())
    {
      var event := log.UndoMerge(id);
      match event
      case Failure(refusal) =>
        r := Failure(Refused(refusal));
      case Success(ev) =>
        ghost var s, g := old(log.State()), old(store.View());
        ghost var u := UndoKeepsSoundExactlyWhen(s, g, ev);
        ghost var _ := UndoFolds(s, g, ev);
        UndoKeepsConsistent(s, ev);
        UndoKeepsRestorable(s, g, ev);
        var error := projection.Handle(ev);
        r := Success(ev);
    }
  }

  // Planning on the edges touching the group is planning on the whole store.
  lemma ReadingTheGroupIsEnough(dumps: Renderer, c: EntityId, ds: seq<EntityId>, edges: set<Relationship>,
                                read: seq<Relationship>, plan: seq<Redirection>)
    requires forall r :: r in read <==> r in edges && (r.source in [c] + ds || r.target in [c] + ds)
    requires IsPlan(dumps, c, ds, (set r | r in read), plan)
    ensures IsPlan(dumps, c, ds, edges, plan)
  {
    PlanIgnoresOtherEdges(dumps, c, ds, (set r | r in read), edges, plan);
  }
}
