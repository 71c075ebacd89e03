/**
 The serial phase of a whole-corpus pass: merges are emitted one decision after another
 while the store still shows the aliases from before the pass.  What an earlier emit of the
 same pass absorbed is remembered beside it.
 */
module ResolveMany {
  import opened Wrappers
  import opened Domain
  import opened AliasForest
  import opened MergeLog

  // One subject and everything decided to be the same as it.
  datatype Decision = Decision(subject: EntityId, confirmed: seq<EntityId>)

  // What planning on the unchanged graph gave for one decision.
  datatype Plan = Plan(redirections: seq<Redirection>, resolution: Option<Resolution>)

  // A pass so far: the log, the events emitted, and the error that ended it.
  datatype Pass = Pass(state: LogState, events: seq<Event>, error: Option<ServiceError>)

  function NotAliases(m: AliasTable, es: seq<EntityId>): seq<EntityId> {
    if es == [] then []
    else NotAliases(m, es[..|es| - 1]) + if es[|es| - 1] in m then [] else [es[|es| - 1]]
  }

  // One decision, judged against the log itself rather than against the store.
  function EmitOne(pass: Pass, rows: set<EntityId>, d: Decision, plan: Plan, id: EventId): Pass {
    var m := pass.state.aliasOf;
    var standing := NotAliases(m, d.confirmed);
    if pass.error.Some? || d.subject in m || standing == [] then pass
    else if d.subject !in rows then pass.(error := Some(MissingCanonical(d.subject)))
    else if !Coherent(d.subject, standing, plan.resolution) then pass.(error := Some(Refused(IncoherentMerge)))
    else
      var ev := Merged(id, d.subject, standing, plan.redirections, plan.resolution);
      Pass(Apply(pass.state, ev), pass.events + [ev], None)
  }

  // The first `n` decisions.
  function EmitFirst(s: LogState, rows: set<EntityId>, decisions: seq<Decision>, plans: seq<Plan>, firstId: EventId, n: nat): Pass
    requires |plans| == |decisions| && n <= |decisions|
  {
    if n == 0 then Pass(s, [], None)
    else EmitOne(EmitFirst(s, rows, decisions, plans, firstId, n - 1), rows, decisions[n - 1], plans[n - 1], firstId + n - 1)
  }

  function EmitAll(s: LogState, rows: set<EntityId>, decisions: seq<Decision>, plans: seq<Plan>, firstId: EventId): Pass
    requires |plans| == |decisions|
  {
    EmitFirst(s, rows, decisions, plans, firstId, |decisions|)
  }

  lemma {:induction false} NotAliasesAreNot(m: AliasTable, es: seq<EntityId>)
    ensures forall e :: e in NotAliases(m, es) <==> e in es && e !in m
  {
    if es != [] {
      var n := |es| - 1;
      NotAliasesAreNot(m, es[..n]);
      assert es == es[..n] + [es[n]];
    }
  }

  // Whether an entity was merged away, asked of the store and of this pass's own emits.
  method IsAlias(stored: AliasTable, inPass: AliasTable, e: EntityId) returns (yes: bool)
    requires Forest(stored)
    ensures yes <==> e in stored || e in inPass
  {
    var canonical := ResolveOne(stored, e);
    ResolvesOffTheTable(stored, e);
    yes := canonical != Some(e) || e in inPass;
  }

  // What is left of a decision after the emits before it, if its subject is left at all.
  method StillMergeable(stored: AliasTable, inPass: AliasTable, d: Decision, ghost logged: AliasTable)
    returns (standing: Option<seq<EntityId>>)
    requires Forest(stored) && logged == stored + inPass
    ensures standing.None? <==> d.subject in logged
    ensures standing.Some? ==> standing.value == NotAliases(logged, d.confirmed)
  {
    var gone := IsAlias(stored, inPass, d.subject);
    if gone {
      return None;
    }
    var kept := [];
    for i := 0 to |d.confirmed|
      invariant kept == NotAliases(logged, d.confirmed[..i])
    {
      assert d.confirmed[..i + 1][..i] == d.confirmed[..i];
      var skip := IsAlias(stored, inPass, d.confirmed[i]);
      if !skip {
        kept := kept + [d.confirmed[i]];
      }
    }
    assert d.confirmed[..|d.confirmed|] == d.confirmed;
    return Some(kept);
  }

  lemma {:induction false} ErrorsEndThePass(s: LogState, rows: set<EntityId>, decisions: seq<Decision>, plans: seq<Plan>, firstId: EventId, n: nat, k: nat)
    requires |plans| == |decisions| && n <= k <= |decisions|
    requires EmitFirst(s, rows, decisions, plans, firstId, n).error.Some?
    ensures EmitFirst(s, rows, decisions, plans, firstId, k) == EmitFirst(s, rows, decisions, plans, firstId, n)
    decreases k
  {
    if n < k {
      ErrorsEndThePass(s, rows, decisions, plans, firstId, n, k - 1);
    }
  }

  // Remember what an emit absorbed.
  method Remember(inPass: AliasTable, c: EntityId, ds: seq<EntityId>) returns (later: AliasTable)
    ensures later == Absorb(inPass, c, ds)
  {
    later := inPass;
    for i := 0 to |ds|
      invariant later == Absorb(inPass, c, ds[..i])
    {
      AbsorbOneMore(inPass, c, ds, i);
      later := later[ds[i] := c];
    }
    assert ds[..|ds|] == ds;
  }

  lemma RefusedWithoutAliases(s: LogState, c: EntityId, ds: seq<EntityId>, error: LogError)
    requires MayMerge(s, c, ds) && Refusal(s, c, ds, error)
    ensures error == IncoherentMerge
  {
  }

  lemma AbsorbedBeside(s: LogState, ev: Event, stored: AliasTable, inPass: AliasTable)
    requires ev.Merged? && s.aliasOf == stored + inPass
    ensures Apply(s, ev).aliasOf == stored + Absorb(inPass, ev.canonical, ev.merged)
  {
  }

  // One iteration of the emit phase.
  method EmitDecision(log: ConsolidationLog, stored: AliasTable, inPass: AliasTable, rows: set<EntityId>,
                      d: Decision, plan: Plan, id: EventId, ghost earlier: seq<Event>)
    returns (later: AliasTable, emitted: seq<Event>, error: Option<ServiceError>)
    requires Forest(stored) && log.aliasOf == stored + inPass
    modifies log
    ensures log.aliasOf == stored + later
    ensures Pass(log.State(), earlier + emitted, error) == EmitOne(Pass(old(log.State()), earlier, None), rows, d, plan, id)
  {
    hide Coherent, Refusal, Apply, Absorb;
    later, emitted, error := inPass, [], None;
    assert earlier + [] == earlier;
    NotAliasesAreNot(log.aliasOf, d.confirmed);
    if d.confirmed == [] {
      return;
    }
    var standing := StillMergeable(stored, inPass, d, log.aliasOf);
    if standing.None? || standing.value == [] {
      return;
    }
    if d.subject !in rows {
      error := Some(MissingCanonical(d.subject));
      return;
    }
    var r := log.Merge(id, d.subject, standing.value, plan.redirections, plan.resolution);
    match r
    case Failure(refusal) =>
      RefusedWithoutAliases(old(log.State()), d.subject, standing.value, refusal);
      error := Some(Refused(refusal));
    case Success(ev) =>
      emitted := [ev];
      later := Remember(inPass, ev.canonical, ev.merged);
      AbsorbedBeside(old(log.State()), ev, stored, inPass);
  }

  /**
   The emit phase.  With no other writer, the store's aliases and the pass's own always add up
   to the log's, so the pass does what it would do asking the log directly, and the log never
   refuses an emit as a double merge or a merge into an alias.
   */
  method Execute(log: ConsolidationLog, stored: AliasTable, rows: set<EntityId>,
                 decisions: seq<Decision>, plans: seq<Plan>, firstId: EventId)
    returns (events: seq<Event>, inPass: AliasTable, error: Option<ServiceError>)
    requires |plans| == |decisions|
    requires Forest(stored) && log.aliasOf == stored
    modifies log
    ensures log.aliasOf == stored + inPass
    ensures Pass(log.State(), events, error) == EmitAll(old(log.State()), rows, decisions, plans, firstId)
    ensures error.Some? && error.value.Refused? ==> error.value.refusal == IncoherentMerge
  {
    hide EmitOne, Forest;
    events, inPass, error := [], map[], None;
    for n := 0 to |decisions|
      invariant log.aliasOf == stored + inPass
      invariant error == None
      invariant Pass(log.State(), events, None) == EmitFirst(old(log.State()), rows, decisions, plans, firstId, n)
    {
      var emitted;
      inPass, emitted, error := EmitDecision(log, stored, inPass, rows, decisions[n], plans[n], firstId + n, events);
      events := events + emitted;
      if error.Some? {
        ErrorsEndThePass(old(log.State()), rows, decisions, plans, firstId, n + 1, |decisions|);
        OnlyIncoherentMergesAreRefused(old(log.State()), rows, decisions, plans, firstId, |decisions|);
        return;
      }
    }
  }

  lemma {:induction false} OnlyIncoherentMergesAreRefused(s: LogState, rows: set<EntityId>, decisions: seq<Decision>, plans: seq<Plan>, firstId: EventId, n: nat)
    requires |plans| == |decisions| && n <= |decisions|
    ensures var error := EmitFirst(s, rows, decisions, plans, firstId, n).error;
            error.Some? && error.value.Refused? ==> error.value.refusal == IncoherentMerge
  {
    if n > 0 {
      OnlyIncoherentMergesAreRefused(s, rows, decisions, plans, firstId, n - 1);
    }
  }

  // The events of a pass extend a history legally, and their ids stay below `bound`.
  ghost predicate Extends(log: seq<Event>, pass: Pass, bound: EventId) {
    && Legal(log + pass.events)
    && Replay(log + pass.events) == pass.state
    && forall i :: 0 <= i < |pass.state.merges| ==> pass.state.merges[i].eventId < bound
  }

  lemma EmittingExtends(log: seq<Event>, pass: Pass, rows: set<EntityId>, d: Decision, plan: Plan, id: EventId, later: Pass, bound: EventId)
    requires Extends(log, pass, id) && later == EmitOne(pass, rows, d, plan, id) && bound == id + 1
    ensures Extends(log, later, bound)
  {
    hide Apply, Replay, Legal, Extends, NotAliases, Coherent;
    NotAliasesAreNot(pass.state.aliasOf, d.confirmed);
    if |later.events| > |pass.events| {
      var ev := Merged(id, d.subject, NotAliases(pass.state.aliasOf, d.confirmed), plan.redirections, plan.resolution);
      assert later == Pass(Apply(pass.state, ev), pass.events + [ev], None);
      OneMoreMergeExtends(log, pass, ev, later, bound);
    } else {
      LaterBound(log, pass, later, id, bound);
    }
  }

  lemma LaterBound(log: seq<Event>, pass: Pass, later: Pass, id: EventId, bound: EventId)
    requires Extends(log, pass, id) && later.state == pass.state && later.events == pass.events && bound >= id
    ensures Extends(log, later, bound)
  {
  }

  lemma OneMoreMergeExtends(log: seq<Event>, pass: Pass, ev: Event, later: Pass, bound: EventId)
    requires ev.Merged? && Extends(log, pass, ev.eventId) && bound == ev.eventId + 1
    requires MayMerge(pass.state, ev.canonical, ev.merged) && Coherent(ev.canonical, ev.merged, ev.resolution)
    requires later.state == Apply(pass.state, ev) && later.events == pass.events + [ev]
    ensures Extends(log, later, bound)
  {
    hide Absorb, Coherent, MayMerge;
    var before := log + pass.events;
    var after := log + later.events;
    assert after == before + [ev] && after[..|after| - 1] == before && after[|after| - 1] == ev;
  }

  // Every event of a pass is one the log accepts, so a legal history stays legal.
  lemma {:induction false} PassesStayLegal(log: seq<Event>, rows: set<EntityId>, decisions: seq<Decision>, plans: seq<Plan>, firstId: EventId, n: nat)
    requires |plans| == |decisions| && n <= |decisions| && Legal(log)
    requires forall i :: 0 <= i < |Replay(log).merges| ==> Replay(log).merges[i].eventId < firstId
    ensures Extends(log, EmitFirst(Replay(log), rows, decisions, plans, firstId, n), firstId + n)
  {
    hide EmitOne;
    if n == 0 {
      assert log + [] == log;
    } else {
      PassesStayLegal(log, rows, decisions, plans, firstId, n - 1);
      EmittingExtends(log, EmitFirst(Replay(log), rows, decisions, plans, firstId, n - 1), rows, decisions[n - 1], plans[n - 1], firstId + n - 1,
                      EmitFirst(Replay(log), rows, decisions, plans, firstId, n), firstId + n);
    }
  }
}
