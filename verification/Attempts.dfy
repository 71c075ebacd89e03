/**
 How often a consolidation call tries: what each call has lost so far, over any interleaving, and
 when losing makes it give up.
 */
module Attempts {
  import Wrappers
  import opened Domain
  import opened MergeLog
  import opened ServiceProtocol

  // Between these two systems the call's event was given up without being appended.
  ghost predicate LosesAppend(before: CallState, after: CallState) {
    before.phase.Appending? && !after.phase.Appending? && !after.phase.Returned?
  }

  // The appends a call has lost by `n`, counted anew when it starts over around another entity.
  ghost function Losses(run: seq<System>, n: nat, id: CallId): nat
    requires n < |run|
  {
    if n == 0 || id !in run[n - 1].calls || id !in run[n].calls then 0
    else
      var before, after := run[n - 1].calls[id], run[n].calls[id];
      if after.call != before.call then 0
      else Losses(run, n - 1, id) + if LosesAppend(before, after) then 1 else 0
  }

  // A call that has lost `losses` appends is where it should be.
  ghost predicate Tallies(c: CallState, losses: nat) {
    match c.call
    case MergeCall(_, _, maxRetries, _) =>
      (match c.phase
       case Reading(attempt) => attempt == losses < maxRetries
       case Loading(attempt, _, _) => attempt == losses < maxRetries
       case Appending(attempt, _, _) => attempt == losses < maxRetries
       case LoadingUndo => false
       case Returned(_) => losses < maxRetries
       case Raised(error) =>
         if error == OptimisticLock then losses == maxRetries && losses >= 1
         else if error == Unreachable then losses == 0 && maxRetries <= 0
         else losses < maxRetries)
    case UndoCall(_) =>
      (match c.phase
       case Reading(_) => false
       case Loading(_, _, _) => false
       case Raised(OptimisticLock) => losses == 1
       case _ => losses == 0)
  }

  lemma OtherCallsStay(sys: System, step: Step, sys': System, id: CallId)
    requires Next(sys, step, sys') && id != step.id && id in sys.calls
    ensures id in sys'.calls && sys'.calls[id] == sys.calls[id]
  {
    hide Replay, Refusal, Accepts, Coherent;
  }

  lemma OwnStepTallies(sys: System, step: Step, sys': System, id: CallId, losses: nat)
    requires Next(sys, step, sys') && id == step.id && id in sys.calls && Tallies(sys.calls[id], losses)
    ensures id in sys'.calls
    ensures var before, after := sys.calls[id], sys'.calls[id];
            Tallies(after, if after.call != before.call then 0 else losses + if LosesAppend(before, after) then 1 else 0)
  {
    hide Replay, Refusal, Accepts, Coherent, MayMerge;
  }

  lemma StartTallies(sys: System, step: Step, sys': System, id: CallId)
    requires Next(sys, step, sys') && id !in sys.calls && id in sys'.calls
    ensures Tallies(sys'.calls[id], 0)
  {
    hide Replay, Refusal, Accepts, Coherent;
  }

  lemma {:induction false} EveryCallTallies(run: seq<System>, n: nat, id: CallId)
    requires Behaviour(run) && n < |run| && id in run[n].calls
    ensures Tallies(run[n].calls[id], Losses(run, n, id))
    decreases n
  {
    if n > 0 {
      assert CanReach(run[n - 1], run[n]);
      var step :| Next(run[n - 1], step, run[n]);
      hide Tallies, Next;
      if id !in run[n - 1].calls {
        StartTallies(run[n - 1], step, run[n], id);
      } else {
        EveryCallTallies(run, n - 1, id);
        if id == step.id {
          OwnStepTallies(run[n - 1], step, run[n], id, Losses(run, n - 1, id));
        } else {
          OtherCallsStay(run[n - 1], step, run[n], id);
        }
      }
    }
  }

  /**
   A merge raises the lock error exactly when it has lost as many appends as it may try, and never
   loses more; an undo exactly when it has lost its one append.
   */
  lemma GivesUpExactlyWhen(run: seq<System>, n: nat, id: CallId)
    requires Behaviour(run) && n < |run| && id in run[n].calls
    ensures var c, losses := run[n].calls[id], Losses(run, n, id);
            && (c.call.MergeCall? ==>
                  && (c.phase == Raised(OptimisticLock) <==> losses == c.call.maxRetries && losses >= 1)
                  && (losses <= c.call.maxRetries || losses == 0))
            && (c.call.UndoCall? ==> (c.phase == Raised(OptimisticLock) <==> losses == 1) && losses <= 1)
  {
    EveryCallTallies(run, n, id);
  }

  // A call from `resolve` whose subject has become an alias starts over around another entity.
  ghost predicate StartsOver(before: CallState, after: CallState, around: EntityId) {
    && before.call.MergeCall? && before.call.retryIntoCanonical
    && after == CallState(MergeCall(around, before.call.merged, before.call.maxRetries, false), Reading(0))
  }

  /**
   A load starts the call over exactly when it came from `resolve`, has not started over before and
   its canonical entity is an alias by now; and then around the entity its subject resolves to.
   */
  lemma StartsOverExactlyWhen(sys: System, id: CallId, subject: EntityId, sys': System)
    requires Inv(sys) && Next(sys, Load(id, Wrappers.Success(subject)), sys') && sys.calls[id].call.MergeCall?
    ensures var before, after := sys.calls[id], sys'.calls[id];
            && (StartsOver(before, after, subject) <==> before.call.retryIntoCanonical && before.call.canonical in Replay(sys.log).aliasOf)
            && (!StartsOver(before, after, subject) ==> after.call == before.call)
  {
    hide Replay, Accepts, Coherent, Legal, PendingAreAccepted, IdsAreFresh, OneEventPerReturn;
  }

  /** So a call from `resolve` tells its caller that its subject is an alias only if it has started over once. */
  lemma {:induction false} AliasesAreReportedSecond(run: seq<System>, n: nat, id: CallId)
    requires Behaviour(run) && n < |run| && id in run[n].calls
    ensures var c := run[n].calls[id];
            c.call.MergeCall? && c.phase.Raised? && c.phase.error.Refused? && c.phase.error.refusal.MergeIntoAlias? ==>
              !c.call.retryIntoCanonical
    decreases n
  {
    if n > 0 {
      assert CanReach(run[n - 1], run[n]);
      var step :| Next(run[n - 1], step, run[n]);
      if id in run[n - 1].calls {
        AliasesAreReportedSecond(run, n - 1, id);
      }
      AliasIsReported(run[n - 1], step, run[n], id);
    }
  }

  lemma AliasIsReported(sys: System, step: Step, sys': System, id: CallId)
    requires Next(sys, step, sys') && id in sys'.calls
    ensures var c := sys'.calls[id];
            c.call.MergeCall? && c.phase.Raised? && c.phase.error.Refused? && c.phase.error.refusal.MergeIntoAlias? ==>
              (id in sys.calls && sys.calls[id] == c) || !c.call.retryIntoCanonical
  {
    hide Replay, Accepts, Coherent, MayMerge;
    if id != step.id && id in sys.calls {
      OtherCallsStay(sys, step, sys', id);
    }
  }

  // The event a call holds is the one it was asked for.
  ghost predicate HoldsItsOwn(c: CallState) {
    c.phase.Appending? || c.phase.Returned? ==>
      match c.call
      case MergeCall(canonical, merged, _, _) =>
        c.phase.event.Merged? && c.phase.event.canonical == canonical && c.phase.event.merged == merged
      case UndoCall(id) => c.phase.event.Undone? && c.phase.event.mergeEventId == id
  }

  // The plan of a merge came from the graph read of the same attempt.
  ghost predicate PlannedAt(run: seq<System>, k: int, id: CallId, attempt: nat, event: Event) {
    && 0 <= k < |run| && id in run[k].calls && event.Merged?
    && run[k].calls[id].phase == Loading(attempt, event.redirections, event.resolution)
  }

  lemma StepHoldsItsOwn(sys: System, step: Step, sys': System, id: CallId)
    requires Next(sys, step, sys') && id in sys'.calls && (id in sys.calls ==> HoldsItsOwn(sys.calls[id]))
    ensures HoldsItsOwn(sys'.calls[id])
    ensures sys'.calls[id].phase.Appending? && sys'.calls[id].call.MergeCall? ==>
              && id in sys.calls
              && var was, now := sys.calls[id].phase, sys'.calls[id].phase;
                 was == now || was == Loading(now.attempt, now.event.redirections, now.event.resolution)
  {
    hide Replay, Refusal, Accepts, Coherent, MayMerge;
    if id != step.id && id in sys.calls {
      OtherCallsStay(sys, step, sys', id);
    }
  }

  /** What a call appends and returns is what it was asked for, planned on what its own attempt read. */
  lemma {:induction false} CallsHoldTheirOwn(run: seq<System>, n: nat, id: CallId)
    requires Behaviour(run) && n < |run| && id in run[n].calls
    ensures HoldsItsOwn(run[n].calls[id])
    ensures var c := run[n].calls[id];
            c.call.MergeCall? && c.phase.Appending? ==> exists k :: 0 <= k < n && PlannedAt(run, k, id, c.phase.attempt, c.phase.event)
    decreases n
  {
    if n > 0 {
      assert CanReach(run[n - 1], run[n]);
      var step :| Next(run[n - 1], step, run[n]);
      hide HoldsItsOwn, Next;
      if id in run[n - 1].calls {
        CallsHoldTheirOwn(run, n - 1, id);
      }
      StepHoldsItsOwn(run[n - 1], step, run[n], id);
      var c := run[n].calls[id];
      if c.call.MergeCall? && c.phase.Appending? {
        ItsPlanWasRead(run, n, id);
      }
    }
  }

  lemma ItsPlanWasRead(run: seq<System>, n: nat, id: CallId)
    requires 0 < n < |run| && id in run[n].calls && run[n].calls[id].call.MergeCall? && run[n].calls[id].phase.Appending?
    requires HoldsItsOwn(run[n].calls[id]) && id in run[n - 1].calls
    requires var was, now := run[n - 1].calls[id].phase, run[n].calls[id].phase;
             || was == Loading(now.attempt, now.event.redirections, now.event.resolution)
             || (was == now && exists k :: 0 <= k < n - 1 && PlannedAt(run, k, id, was.attempt, was.event))
    ensures var now := run[n].calls[id].phase; exists k :: 0 <= k < n && PlannedAt(run, k, id, now.attempt, now.event)
  {
    var was, now := run[n - 1].calls[id].phase, run[n].calls[id].phase;
    if was == now {
      var k :| 0 <= k < n - 1 && PlannedAt(run, k, id, was.attempt, was.event);
    } else {
      assert PlannedAt(run, n - 1, id, now.attempt, now.event);
    }
  }

  /** A call loses an append only to another call, which appended at the version it had loaded. */
  lemma LosersWereOvertaken(run: seq<System>, n: nat, id: CallId)
    requires Behaviour(run) && n + 1 < |run| && id in run[n].calls && id in run[n + 1].calls
    requires LosesAppend(run[n].calls[id], run[n + 1].calls[id])
    ensures var version := run[n].calls[id].phase.version;
            version < |run[n].log| == |run[n].authors| && run[n].authors[version] != id
  {
    ReachableSystemsAreSafe(run, n);
    assert CanReach(run[n], run[n + 1]);
    var step :| Next(run[n], step, run[n + 1]);
    hide Replay, Refusal, Accepts, Coherent, Legal, MayMerge;
    if id != step.id {
      OtherCallsStay(run[n], step, run[n + 1], id);
    }
    NotYetReturned(run[n], id);
  }
}
