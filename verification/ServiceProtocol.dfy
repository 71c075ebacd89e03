/**
 Any number of concurrent consolidation calls over one tenant's stream: each reads the
 graph, plans, loads the log, asks it for an event and appends at the version it loaded,
 retrying a merge that lost the race.  A system is advanced one step of one call at a time.
 */
module ServiceProtocol {
  import opened Wrappers
  import opened Domain
  import opened AliasForest
  import opened MergeLog
  import opened MergeHistory

  type CallId = nat

  // `retryIntoCanonical`: a call from `resolve`, which tries once more, around whatever its
  // subject now resolves to, when the log answers that the subject is an alias.
  datatype Call =
    | MergeCall(canonical: EntityId, merged: seq<EntityId>, maxRetries: int, retryIntoCanonical: bool)
    | UndoCall(mergeEventId: EventId)

  datatype Phase =
    | Reading(attempt: nat)
    | Loading(attempt: nat, redirections: seq<Redirection>, resolution: Option<Resolution>)
    | LoadingUndo
    | Appending(attempt: nat, event: Event, version: nat)
    | Returned(event: Event)
    | Raised(error: ServiceError)

  datatype CallState = CallState(call: Call, phase: Phase)

  // `authors` says which call appended each event; `nextId` is the source of fresh event ids.
  datatype System = System(log: seq<Event>, authors: seq<CallId>, calls: map<CallId, CallState>, nextId: EventId)

  // What a graph read gave the planner.  The read may be arbitrarily stale, so nothing is
  // assumed about it; None is a canonical entity without a row.
  type GraphRead = Option<(seq<Redirection>, Option<Resolution>)>

  datatype Step =
    | Start(id: CallId, call: Call)
    | ReadGraph(id: CallId, read: GraphRead)
    | Load(id: CallId, subjectNow: Result<EntityId, EntityId>)
    | Append(id: CallId)

  ghost predicate Init(sys: System) {
    sys.log == [] && sys.authors == [] && sys.calls == map[]
  }

  function WithPhase(sys: System, id: CallId, phase: Phase): System
    requires id in sys.calls
  {
    sys.(calls := sys.calls[id := sys.calls[id].(phase := phase)])
  }

  // `merge` enters its loop of attempts, or falls through it.
  function FirstAttempt(maxRetries: int): Phase {
    if maxRetries <= 0 then Raised(Unreachable) else Reading(0)
  }

  // ----- the steps

  ghost predicate Started(sys: System, id: CallId, call: Call, sys': System) {
    && id !in sys.calls
    && sys' == sys.(calls := sys.calls[id := CallState(call, if call.MergeCall? then FirstAttempt(call.maxRetries) else LoadingUndo)])
  }

  ghost predicate GraphWasRead(sys: System, id: CallId, read: GraphRead, sys': System) {
    && id in sys.calls && sys.calls[id].call.MergeCall? && sys.calls[id].phase.Reading?
    && sys' == WithPhase(sys, id,
                 match read
                 case None => Raised(MissingCanonical(sys.calls[id].call.canonical))
                 case Some((redirections, resolution)) => Loading(sys.calls[id].phase.attempt, redirections, resolution))
  }

  // A refused merge raises, unless it came from `resolve` and its subject turned out to be an
  // alias: then it starts over, once, around the entity the subject resolves to now.
  ghost predicate MergeWasRefused(sys: System, id: CallId, subjectNow: Result<EntityId, EntityId>, error: LogError, sys': System)
    requires id in sys.calls && sys.calls[id].call.MergeCall?
  {
    var call := sys.calls[id].call;
    if error.MergeIntoAlias? && call.retryIntoCanonical then
      match subjectNow
      case Failure(missing) => sys' == WithPhase(sys, id, Raised(MissingCanonical(missing)))
      case Success(c) =>
        sys' == sys.(calls := sys.calls[id := CallState(MergeCall(c, call.merged, call.maxRetries, false), FirstAttempt(call.maxRetries))])
    else
      sys' == WithPhase(sys, id, Raised(Refused(error)))
  }

  ghost predicate MergeWasLoaded(sys: System, id: CallId, subjectNow: Result<EntityId, EntityId>, sys': System) {
    && id in sys.calls && sys.calls[id].call.MergeCall? && sys.calls[id].phase.Loading?
    && var s, call, at := Replay(sys.log), sys.calls[id].call, sys.calls[id].phase;
       if MayMerge(s, call.canonical, call.merged) && Coherent(call.canonical, call.merged, at.resolution) then
         var ev := Merged(sys.nextId, call.canonical, call.merged, at.redirections, at.resolution);
         sys' == WithPhase(sys, id, Appending(at.attempt, ev, |sys.log|)).(nextId := sys.nextId + 1)
       else
         exists error :: Refusal(s, call.canonical, call.merged, error) && MergeWasRefused(sys, id, subjectNow, error, sys')
  }

  ghost predicate UndoWasLoaded(sys: System, id: CallId, sys': System) {
    && id in sys.calls && sys.calls[id].call.UndoCall? && sys.calls[id].phase.LoadingUndo?
    && var s, merge := Replay(sys.log), sys.calls[id].call.mergeEventId;
       if i :| InEffect(s, i) && s.merges[i].eventId == merge then
         sys' == WithPhase(sys, id, Appending(0, UndoOf(s.merges[i]), |sys.log|))
       else
         sys' == WithPhase(sys, id, Raised(Refused(UnknownMerge(merge))))
  }

  // Append succeeds only at the version that was loaded; a merge that lost re-reads and
  // re-plans while it has attempts left, an undo does not.
  ghost predicate WasAppended(sys: System, id: CallId, sys': System) {
    && id in sys.calls && sys.calls[id].phase.Appending?
    && var call, at := sys.calls[id].call, sys.calls[id].phase;
       if at.version == |sys.log| then
         sys' == WithPhase(sys, id, Returned(at.event)).(log := sys.log + [at.event], authors := sys.authors + [id])
       else if call.MergeCall? && at.attempt + 1 < call.maxRetries then
         sys' == WithPhase(sys, id, Reading(at.attempt + 1))
       else
         sys' == WithPhase(sys, id, Raised(OptimisticLock))
  }

  ghost predicate Next(sys: System, step: Step, sys': System) {
    match step
    case Start(id, call) => Started(sys, id, call, sys')
    case ReadGraph(id, read) => GraphWasRead(sys, id, read, sys')
    case Load(id, subjectNow) => MergeWasLoaded(sys, id, subjectNow, sys') || UndoWasLoaded(sys, id, sys')
    case Append(id) => WasAppended(sys, id, sys')
  }

  ghost predicate CanReach(sys: System, sys': System) {
    exists step :: Next(sys, step, sys')
  }

  // A behaviour: systems reached one step at a time from an empty log and no calls.
  ghost predicate Behaviour(run: seq<System>) {
    && |run| > 0 && Init(run[0])
    && forall i, j :: 0 <= i < j < |run| && j == i + 1 ==> CanReach(run[i], run[j])
  }

  // ----- what every reachable system satisfies

  // An event waiting to be appended was accepted by the log at the version it was loaded at.
  ghost predicate PendingAreAccepted(sys: System) {
    forall id :: id in sys.calls && sys.calls[id].phase.Appending? ==>
      var at := sys.calls[id].phase;
      at.version <= |sys.log| && Accepts(Replay(sys.log[..at.version]), at.event)
  }

  ghost predicate IdsAreFresh(sys: System) {
    && (forall i :: 0 <= i < |Replay(sys.log).merges| ==> Replay(sys.log).merges[i].eventId < sys.nextId)
    && (forall id :: id in sys.calls && sys.calls[id].phase.Appending? && sys.calls[id].phase.event.Merged? ==>
          sys.calls[id].phase.event.eventId < sys.nextId)
  }

  // Every event was appended by one call, which returned it; a call that returned appended
  // exactly one event, and any other appended none.
  ghost predicate OneEventPerReturn(sys: System) {
    && |sys.authors| == |sys.log|
    && (forall n :: 0 <= n < |sys.log| ==> sys.authors[n] in sys.calls && sys.calls[sys.authors[n]].phase == Returned(sys.log[n]))
    && (forall n, m :: 0 <= n < m < |sys.log| ==> sys.authors[n] != sys.authors[m])
    && (forall id :: id in sys.calls && sys.calls[id].phase.Returned? ==> id in sys.authors)
  }

  // The error after the loop of attempts is raised exactly when there was no attempt to make.
  ghost predicate UnreachableExactlyWithoutAttempts(sys: System) {
    forall id :: id in sys.calls && sys.calls[id].call.MergeCall? ==>
      (sys.calls[id].phase == Raised(Unreachable) <==> sys.calls[id].call.maxRetries <= 0)
  }

  ghost predicate Inv(sys: System) {
    && Legal(sys.log) && PendingAreAccepted(sys) && IdsAreFresh(sys) && OneEventPerReturn(sys)
    && UnreachableExactlyWithoutAttempts(sys)
  }

  // A step that appends nothing keeps the invariant if what it leaves pending was accepted now.
  lemma QuietStepKeepsInv(sys: System, id: CallId, next: CallState, nextId: EventId)
    requires Inv(sys) && !next.phase.Returned? && id !in sys.authors && sys.nextId <= nextId
    requires next.phase.Appending? ==>
               next.phase.version == |sys.log| && Accepts(Replay(sys.log), next.phase.event)
               && (next.phase.event.Merged? ==> next.phase.event.eventId < nextId)
    requires next.call.MergeCall? ==> (next.phase == Raised(Unreachable) <==> next.call.maxRetries <= 0)
    ensures Inv(sys.(calls := sys.calls[id := next], nextId := nextId))
  {
    assert sys.log[..|sys.log|] == sys.log;
  }

  lemma NotYetReturned(sys: System, id: CallId)
    requires Inv(sys) && (id in sys.calls ==> !sys.calls[id].phase.Returned?)
    ensures id !in sys.authors
  {
  }

  lemma {:induction false} MarkingKeepsIds(merges: seq<MergeRecord>, id: EventId)
    ensures |MarkUndone(merges, id)| == |merges|
    ensures forall i :: 0 <= i < |merges| ==> MarkUndone(merges, id)[i].eventId == merges[i].eventId
  {
  }

  lemma AppendedLogIsLegal(sys: System, id: CallId, sys': System)
    requires Legal(sys.log) && PendingAreAccepted(sys) && WasAppended(sys, id, sys')
    requires sys.calls[id].phase.version == |sys.log|
    ensures Legal(sys'.log) && Replay(sys'.log) == Apply(Replay(sys.log), sys.calls[id].phase.event)
  {
    var at := sys.calls[id].phase;
    assert sys.log[..at.version] == sys.log && sys'.log[..|sys.log|] == sys.log;
  }

  lemma AppendedIdsAreFresh(sys: System, id: CallId, sys': System)
    requires IdsAreFresh(sys) && WasAppended(sys, id, sys') && sys.calls[id].phase.version == |sys.log|
    requires Replay(sys'.log) == Apply(Replay(sys.log), sys.calls[id].phase.event)
    ensures IdsAreFresh(sys')
  {
    hide Replay, Absorb, Release;
    var ev := sys.calls[id].phase.event;
    if ev.Undone? {
      MarkingKeepsIds(Replay(sys.log).merges, ev.mergeEventId);
    }
  }

  lemma AppendKeepsInv(sys: System, id: CallId, sys': System)
    requires Inv(sys) && WasAppended(sys, id, sys')
    ensures Inv(sys')
  {
    hide Accepts, Coherent, Replay, Legal;
    NotYetReturned(sys, id);
    if sys.calls[id].phase.version == |sys.log| {
      AppendedLogIsLegal(sys, id, sys');
      AppendedIdsAreFresh(sys, id, sys');
      forall other | other in sys'.calls && sys'.calls[other].phase.Appending?
        ensures sys'.log[..sys'.calls[other].phase.version] == sys.log[..sys'.calls[other].phase.version]
      {
      }
      assert sys'.authors[|sys.log|] == id;
    } else {
      QuietStepKeepsInv(sys, id, sys'.calls[id], sys.nextId);
    }
  }

  lemma LoadKeepsInv(sys: System, id: CallId, subjectNow: Result<EntityId, EntityId>, sys': System)
    requires Inv(sys) && (MergeWasLoaded(sys, id, subjectNow, sys') || UndoWasLoaded(sys, id, sys'))
    ensures Inv(sys')
  {
    hide Legal, PendingAreAccepted, OneEventPerReturn, Coherent, Replay;
    NotYetReturned(sys, id);
    QuietStepKeepsInv(sys, id, sys'.calls[id], sys'.nextId);
  }

  lemma StepKeepsInv(sys: System, step: Step, sys': System)
    requires Inv(sys) && Next(sys, step, sys')
    ensures Inv(sys')
  {
    match step
    case Start(id, call) =>
      NotYetReturned(sys, id);
      QuietStepKeepsInv(sys, id, sys'.calls[id], sys.nextId);
    case ReadGraph(id, read) =>
      NotYetReturned(sys, id);
      QuietStepKeepsInv(sys, id, sys'.calls[id], sys.nextId);
    case Load(id, subjectNow) => LoadKeepsInv(sys, id, subjectNow, sys');
    case Append(id) => AppendKeepsInv(sys, id, sys');
  }

  /** Whatever the interleaving and however stale the graph reads, every reachable log is legal. */
  lemma {:induction false} ReachableSystemsAreSafe(run: seq<System>, n: nat)
    requires Behaviour(run) && n < |run|
    ensures Inv(run[n])
    decreases n
  {
    if n > 0 {
      ReachableSystemsAreSafe(run, n - 1);
      var step :| Next(run[n - 1], step, run[n]);
      StepKeepsInv(run[n - 1], step, run[n]);
    }
  }

  // The positions of the log that one call appended.
  ghost function AppendedBy(sys: System, id: CallId): set<int> {
    set n | 0 <= n < |sys.authors| && sys.authors[n] == id
  }

  /** A call appends one event if it returns and none otherwise, and returns what it appended. */
  lemma EachCallAppendsAtMostOnce(run: seq<System>, i: nat, id: CallId)
    requires Behaviour(run) && i < |run| && id in run[i].calls
    ensures !run[i].calls[id].phase.Returned? ==> AppendedBy(run[i], id) == {}
    ensures run[i].calls[id].phase.Returned? ==>
              exists n :: 0 <= n < |run[i].log| && AppendedBy(run[i], id) == {n} && run[i].log[n] == run[i].calls[id].phase.event
  {
    ReachableSystemsAreSafe(run, i);
    var sys := run[i];
    if sys.calls[id].phase.Returned? {
      var n :| 0 <= n < |sys.authors| && sys.authors[n] == id;
      assert forall m :: m in AppendedBy(sys, id) ==> m == n;
      assert AppendedBy(sys, id) == {n};
    } else {
      NotYetReturned(sys, id);
    }
  }

  // A legal history, spelled out: a merge names no entity a standing merge absorbed, and an
  // undo names a merge that stands and releases what that merge absorbed.
  lemma LegalHistory(log: seq<Event>, n: nat)
    requires Legal(log) && n < |log|
    ensures log[n].Merged? ==>
              forall p, e :: StandsAt(log[..n], p) && e in log[..n][p].merged ==> e != log[n].canonical && e !in log[n].merged
    ensures log[n].Undone? ==>
              exists p :: StandsAt(log[..n], p) && log[..n][p].eventId == log[n].mergeEventId
                          && log[..n][p].canonical == log[n].canonical && log[..n][p].merged == log[n].unmerged
  {
    var before := log[..n];
    AcceptedAt(log, n);
    if log[n].Merged? {
      forall p, e | StandsAt(before, p) && e in before[p].merged ensures e != log[n].canonical && e !in log[n].merged {
        AliasesAreTheMergesNotUndone(before, e, before[p].canonical);
      }
    }
    if log[n].Undone? {
      var s := Replay(before);
      var i :| InEffect(s, i) && s.merges[i].eventId == log[n].mergeEventId && log[n] == UndoOf(s.merges[i]);
      RecordsMirrorHistory(before);
      assert s.merges[i] in s.merges;
      var p :| 0 <= p < |before| && before[p].Merged? && s.merges[i] == RecordOf(before[p], UndoneLater(before, p));
      assert StandsAt(before, p);
    }
  }

  lemma {:induction false} AcceptedAt(log: seq<Event>, n: nat)
    requires Legal(log) && n < |log|
    ensures Legal(log[..n]) && Accepts(Replay(log[..n]), log[n])
    decreases |log|
  {
    var last := |log| - 1;
    if n < last {
      AcceptedAt(log[..last], n);
      assert log[..last][..n] == log[..n];
    }
  }
}
