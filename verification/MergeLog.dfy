/**
 The `ConsolidationLog` aggregate of a single tenant: its state as a fold of its events, and
 the rules under which it refuses to merge or to undo.
 */
module MergeLog {
  import opened Wrappers
  import opened Domain
  import opened AliasForest

  datatype MergeRecord = MergeRecord(
    eventId: EventId, canonical: EntityId, merged: seq<EntityId>,
    redirections: seq<Redirection>, resolution: Option<Resolution>, undone: bool)

  datatype LogState = LogState(merges: seq<MergeRecord>, aliasOf: AliasTable)

  datatype LogError =
    | MergeIntoAlias(alias: EntityId, canonicalOf: EntityId)
    | DoubleMerge(entity: EntityId, canonicalOf: EntityId)
    | UnknownMerge(eventId: EventId)
    | IncoherentMerge

  // What a call on the consolidation service may raise.
  datatype ServiceError =
    | Refused(refusal: LogError)
    | MissingCanonical(entity: EntityId)
    | NotImplemented
    | OptimisticLock
    | Unreachable

  // ----- what the event types themselves refuse

  // `EntitiesMerged` refuses an empty batch, a self-merge, a repeated id and a resolution
  // that names another entity.
  predicate Coherent(canonical: EntityId, merged: seq<EntityId>, resolution: Option<Resolution>) {
    && |merged| > 0
    && canonical !in merged
    && (forall i, j :: 0 <= i < j < |merged| ==> merged[i] != merged[j])
    && (resolution.Some? ==> resolution.value.entityId == canonical)
  }

  // ----- the fold

  const EMPTY_STATE := LogState([], map[])

  function RecordOf(ev: Event, undone: bool): MergeRecord
    requires ev.Merged?
  {
    MergeRecord(ev.eventId, ev.canonical, ev.merged, ev.redirections, ev.resolution, undone)
  }

  function MarkUndone(merges: seq<MergeRecord>, id: EventId): seq<MergeRecord> {
    seq(|merges|, i requires 0 <= i < |merges| =>
      if merges[i].eventId == id then merges[i].(undone := true) else merges[i])
  }

  function Apply(s: LogState, ev: Event): LogState {
    match ev
    case Extracted(_, _, _) => s
    case Merged(_, c, ds, _, _) => LogState(s.merges + [RecordOf(ev, false)], Absorb(s.aliasOf, c, ds))
    case Undone(id, _, ds, _, _) => LogState(MarkUndone(s.merges, id), Release(s.aliasOf, ds))
  }

  function Replay(log: seq<Event>): LogState {
    if log == [] then EMPTY_STATE else Apply(Replay(log[..|log| - 1]), log[|log| - 1])
  }

  // The undo of a recorded merge: everything it restores comes from the record.
  function UndoOf(r: MergeRecord): Event {
    Undone(r.eventId, r.canonical, r.merged,
           seq(|r.redirections|, i requires 0 <= i < |r.redirections| => r.redirections[i].before),
           if r.resolution.Some? then Some(r.resolution.value.before) else None)
  }

  // ----- the rules

  ghost predicate InEffect(s: LogState, i: int) {
    0 <= i < |s.merges| && !s.merges[i].undone
  }

  ghost predicate MayMerge(s: LogState, canonical: EntityId, merged: seq<EntityId>) {
    canonical !in s.aliasOf && forall d :: d in merged ==> d !in s.aliasOf
  }

  // Which error a refused merge raises: the canonical entity is checked first, then the
  // batch in order, and the event's own validation last.
  ghost predicate Refusal(s: LogState, canonical: EntityId, merged: seq<EntityId>, error: LogError) {
    if canonical in s.aliasOf then error == MergeIntoAlias(canonical, s.aliasOf[canonical])
    else if MayMerge(s, canonical, merged) then error == IncoherentMerge
    else exists i :: 0 <= i < |merged| && merged[i] in s.aliasOf
                     && error == DoubleMerge(merged[i], s.aliasOf[merged[i]])
                     && forall j :: 0 <= j < i ==> merged[j] !in s.aliasOf
  }

  ghost predicate FreshId(s: LogState, id: EventId) {
    forall i :: 0 <= i < |s.merges| ==> s.merges[i].eventId != id
  }

  // What a legal history may append next.
  ghost predicate Accepts(s: LogState, ev: Event) {
    match ev
    case Extracted(_, _, _) => true
    case Merged(id, c, ds, _, resolution) => MayMerge(s, c, ds) && Coherent(c, ds, resolution) && FreshId(s, id)
    case Undone(id, _, _, _, _) => exists i :: InEffect(s, i) && s.merges[i].eventId == id && ev == UndoOf(s.merges[i])
  }

  ghost predicate Legal(log: seq<Event>) {
    log == [] || (Legal(log[..|log| - 1]) && Accepts(Replay(log[..|log| - 1]), log[|log| - 1]))
  }

  /** The aggregate: what it remembers, and the events it has created and not yet saved. */
  class ConsolidationLog {
    var merges: seq<MergeRecord>
    var aliasOf: AliasTable
    var uncommitted: seq<Event>

    ghost function State(): LogState
      reads this
    {
      LogState(merges, aliasOf)
    }

    constructor ()
      ensures State() == EMPTY_STATE && uncommitted == []
    {
      merges, aliasOf, uncommitted := [], map[], [];
    }

    // Absorb `merged` into `canonical`, or refuse.  Event ids are fresh by construction.
    method Merge(id: EventId, canonical: EntityId, merged: seq<EntityId>,
                 redirections: seq<Redirection>, resolution: Option<Resolution>)
      returns (r: Result<Event, LogError>)
      modifies this
      ensures r.Success? <==> old(MayMerge(State(), canonical, merged)) && Coherent(canonical, merged, resolution)
      ensures r.Success? ==>
                && r.value == Merged(id, canonical, merged, redirections, resolution)
                && State() == Apply(old(State()), r.value)
                && uncommitted == old(uncommitted) + [r.value]
      ensures r.Failure? ==> State() == old(State()) && uncommitted == old(uncommitted)
      ensures r.Failure? ==> Refusal(old(State()), canonical, merged, r.error)
    {
      if canonical in aliasOf {
        return Failure(MergeIntoAlias(canonical, aliasOf[canonical]));
      }
      for i := 0 to |merged|
        invariant forall j :: 0 <= j < i ==> merged[j] !in aliasOf
      {
        if merged[i] in aliasOf {
          return Failure(DoubleMerge(merged[i], aliasOf[merged[i]]));
        }
      }
      if !Coherent(canonical, merged, resolution) {
        return Failure(IncoherentMerge);
      }
      var ev := Merged(id, canonical, merged, redirections, resolution);
      ApplyMerged(ev);
      uncommitted := uncommitted + [ev];
      return Success(ev);
    }

    method UndoMerge(id: EventId) returns (r: Result<Event, LogError>)
      modifies this
      ensures r.Success? <==> exists i :: InEffect(old(State()), i) && old(merges)[i].eventId == id
      ensures r.Success? ==>
                && Accepts(old(State()), r.value)
                && r.value.Undone? && r.value.mergeEventId == id
                && State() == Apply(old(State()), r.value)
                && uncommitted == old(uncommitted) + [r.value]
      ensures r.Failure? ==> r.error == UnknownMerge(id) && State() == old(State()) && uncommitted == old(uncommitted)
    {
      var i := MergeInEffect(id);
      if i.None? {
        return Failure(UnknownMerge(id));
      }
      var ev := UndoOf(merges[i.value]);
      assert InEffect(State(), i.value);
      ApplyUndone(ev);
      uncommitted := uncommitted + [ev];
      return Success(ev);
    }

    // The first record with this id that is not undone.
    method MergeInEffect(id: EventId) returns (r: Option<nat>)
      ensures r.Some? ==> InEffect(State(), r.value) && merges[r.value].eventId == id
      ensures r.None? ==> forall i :: InEffect(State(), i) ==> merges[i].eventId != id
    {
      for i := 0 to |merges|
        invariant forall j :: 0 <= j < i && InEffect(State(), j) ==> merges[j].eventId != id
      {
        if merges[i].eventId == id && !merges[i].undone {
          return Some(i);
        }
      }
      return None;
    }

    method ApplyMerged(ev: Event)
      requires ev.Merged?
      modifies this`merges, this`aliasOf
      ensures State() == Apply(old(State()), ev)
    {
      merges := merges + [RecordOf(ev, false)];
      for i := 0 to |ev.merged|
        invariant merges == old(merges) + [RecordOf(ev, false)]
        invariant aliasOf == Absorb(old(aliasOf), ev.canonical, ev.merged[..i])
      {
        AbsorbOneMore(old(aliasOf), ev.canonical, ev.merged, i);
        aliasOf := aliasOf[ev.merged[i] := ev.canonical];
      }
      assert ev.merged[..|ev.merged|] == ev.merged;
    }

    method ApplyUndone(ev: Event)
      requires ev.Undone?
      modifies this`merges, this`aliasOf
      ensures State() == Apply(old(State()), ev)
    {
      for i := 0 to |merges|
        invariant |merges| == |old(merges)|
        invariant forall j :: 0 <= j < i ==> merges[j] == MarkUndone(old(merges), ev.mergeEventId)[j]
        invariant forall j :: i <= j < |merges| ==> merges[j] == old(merges)[j]
        invariant aliasOf == old(aliasOf)
      {
        if merges[i].eventId == ev.mergeEventId {
          merges := merges[i := merges[i].(undone := true)];
        }
      }
      for i := 0 to |ev.unmerged|
        invariant merges == MarkUndone(old(merges), ev.mergeEventId)
        invariant aliasOf == Release(old(aliasOf), ev.unmerged[..i])
      {
        ReleaseOneMore(old(aliasOf), ev.unmerged, i);
        aliasOf := aliasOf - {ev.unmerged[i]};
      }
      assert ev.unmerged[..|ev.unmerged|] == ev.unmerged;
    }
  }
}
