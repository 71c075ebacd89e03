/**
 What a whole-corpus pass merges: every entity confirmed by a decision whose subject still stands,
 under that subject, and nothing else.
 */
module PassMerges {
  import opened Wrappers
  import opened Domain
  import opened AliasForest
  import opened MergeLog
  import opened ResolveMany

  // ----- one turn

  // `x` is listed before `y`.
  ghost predicate Before(es: seq<EntityId>, x: EntityId, y: EntityId) {
    exists a, b :: 0 <= a < b < |es| && es[a] == x && es[b] == y
  }

  // The merge of `d` with the aliases `m` known: its subject absorbs, in the order confirmed, every
  // entity confirmed that is no alias, each once, as planned.
  ghost predicate MergesConfirmed(ev: Event, m: AliasTable, d: Decision, plan: Plan, id: EventId) {
    && ev.Merged? && ev.eventId == id && ev.canonical == d.subject
    && ev.redirections == plan.redirections && ev.resolution == plan.resolution
    && (forall e :: e in ev.merged <==> e in d.confirmed && e !in m)
    && (forall i, j :: 0 <= i < j < |ev.merged| ==> Before(d.confirmed, ev.merged[i], ev.merged[j]) && ev.merged[i] != ev.merged[j])
  }

  // Nothing is left for `d` to do.
  ghost predicate Passed(m: AliasTable, d: Decision) {
    d.subject in m || forall e :: e in d.confirmed ==> e in m
  }

  ghost predicate MergedNext(before: Pass, later: Pass, ev: Event) {
    && ev.Merged?
    && later.events == before.events + [ev]
    && |later.state.merges| == |before.state.merges| + 1
    && later.state.merges[..|before.state.merges|] == before.state.merges
    && later.state.merges[|before.state.merges|] == MergeRecord(ev.eventId, ev.canonical, ev.merged, ev.redirections, ev.resolution, false)
    && forall e :: (e in later.state.aliasOf <==> e in before.state.aliasOf || e in ev.merged)
                   && (e in ev.merged ==> later.state.aliasOf[e] == ev.canonical)
                   && (e in before.state.aliasOf && e !in ev.merged ==> later.state.aliasOf[e] == before.state.aliasOf[e])
  }

  ghost predicate TakesItsTurn(before: Pass, later: Pass, d: Decision, plan: Plan, id: EventId) {
    if Passed(before.state.aliasOf, d) then later == before
    else exists ev :: MergesConfirmed(ev, before.state.aliasOf, d, plan, id) && MergedNext(before, later, ev)
  }

  ghost predicate RepeatedAt(m: AliasTable, es: seq<EntityId>, i: int, j: int) {
    0 <= i < j < |es| && es[i] == es[j] && es[i] !in m
  }

  ghost predicate Repeats(m: AliasTable, es: seq<EntityId>) {
    exists i, j :: RepeatedAt(m, es, i, j)
  }

  // `d` cannot be merged: its subject has no row, is itself confirmed, an entity is confirmed
  // twice, or the resolution planned is another entity's.
  ghost predicate Unmergeable(m: AliasTable, rows: set<EntityId>, d: Decision, plan: Plan) {
    || d.subject !in rows || d.subject in d.confirmed
    || Repeats(m, d.confirmed)
    || (plan.resolution.Some? && plan.resolution.value.entityId != d.subject)
  }

  lemma BeforeInPrefix(es: seq<EntityId>, n: nat, x: EntityId, y: EntityId)
    requires n <= |es| && Before(es[..n], x, y)
    ensures Before(es, x, y)
  {
    var a, b :| 0 <= a < b < n && es[..n][a] == x && es[..n][b] == y;
    assert es[a] == x && es[b] == y;
  }

  lemma {:induction false} StandingKeepsOrder(m: AliasTable, es: seq<EntityId>)
    ensures forall i, j :: 0 <= i < j < |NotAliases(m, es)| ==> Before(es, NotAliases(m, es)[i], NotAliases(m, es)[j])
  {
    hide Before;
    if es != [] {
      var n := |es| - 1;
      var before, all := NotAliases(m, es[..n]), NotAliases(m, es);
      StandingKeepsOrder(m, es[..n]);
      NotAliasesAreNot(m, es[..n]);
      forall i, j | 0 <= i < j < |all| ensures Before(es, all[i], all[j]) {
        assert all[i] == before[i];
        if j < |before| {
          assert Before(es[..n], before[i], before[j]);
          BeforeInPrefix(es, n, all[i], all[j]);
        } else {
          assert all[i] in es[..n];
          var a :| 0 <= a < n && es[..n][a] == all[i];
          LastComesAfter(es, a);
        }
      }
    }
  }

  lemma LastComesAfter(es: seq<EntityId>, a: nat)
    requires a < |es| - 1
    ensures Before(es, es[a], es[|es| - 1])
  {
  }

  lemma RepeatsWithOneMore(m: AliasTable, es: seq<EntityId>, e: EntityId)
    ensures Repeats(m, es + [e]) <==> Repeats(m, es) || (e in es && e !in m)
  {
    var more := es + [e];
    if i, j :| RepeatedAt(m, more, i, j) {
      if j < |es| {
        assert RepeatedAt(m, es, i, j);
      } else {
        assert es[i] == e;
      }
    }
    if i, j :| RepeatedAt(m, es, i, j) {
      assert RepeatedAt(m, more, i, j);
    }
    if i :| 0 <= i < |es| && es[i] == e && e !in m {
      assert RepeatedAt(m, more, i, |es|);
    }
  }

  lemma {:induction false} StandingRepeats(m: AliasTable, es: seq<EntityId>)
    ensures Repeats(m, NotAliases(m, es)) <==> Repeats(m, es)
  {
    if es != [] {
      var n := |es| - 1;
      StandingRepeats(m, es[..n]);
      NotAliasesAreNot(m, es[..n]);
      hide Repeats;
      RepeatsWithOneMore(m, es[..n], es[n]);
      assert es == es[..n] + [es[n]];
      if es[n] !in m {
        RepeatsWithOneMore(m, NotAliases(m, es[..n]), es[n]);
      } else {
        assert NotAliases(m, es) == NotAliases(m, es[..n]);
      }
    }
  }

  lemma StandingIsMergeable(m: AliasTable, rows: set<EntityId>, d: Decision, plan: Plan)
    requires !Passed(m, d)
    ensures d.subject in rows && Coherent(d.subject, NotAliases(m, d.confirmed), plan.resolution) <==> !Unmergeable(m, rows, d, plan)
  {
    NotAliasesAreNot(m, d.confirmed);
    StandingRepeats(m, d.confirmed);
    var standing := NotAliases(m, d.confirmed);
    var e :| e in d.confirmed && e !in m;
    assert e in standing;
    if i, j :| 0 <= i < j < |standing| && standing[i] == standing[j] {
      assert standing[i] in standing;
      assert RepeatedAt(m, standing, i, j);
    }
  }

  /** One turn of a pass that has not failed fails exactly when there is something to merge that cannot be. */
  lemma ATurn(before: Pass, rows: set<EntityId>, d: Decision, plan: Plan, id: EventId)
    requires before.error == None
    ensures var later := EmitOne(before, rows, d, plan, id);
            && (later.error.Some? <==> !Passed(before.state.aliasOf, d) && Unmergeable(before.state.aliasOf, rows, d, plan))
            && (later.error.Some? ==>
                  && later == before.(error := later.error)
                  && later.error.value == if d.subject !in rows then MissingCanonical(d.subject) else Refused(IncoherentMerge))
            && (later.error.None? ==> TakesItsTurn(before, later, d, plan, id))
  {
    hide Unmergeable, MergesConfirmed, MergedNext, Coherent;
    var m := before.state.aliasOf;
    var standing := NotAliases(m, d.confirmed);
    NotAliasesAreNot(m, d.confirmed);
    assert standing == [] <==> forall e :: e in d.confirmed ==> e in m by {
      assert standing != [] ==> standing[0] in standing;
    }
    if !Passed(m, d) {
      StandingIsMergeable(m, rows, d, plan);
      var later := EmitOne(before, rows, d, plan, id);
      if later.error.None? {
        var ev := Merged(id, d.subject, standing, plan.redirections, plan.resolution);
        TheMergeOfATurn(before, d, plan, id, ev);
      }
    }
  }

  lemma TheMergeOfATurn(before: Pass, d: Decision, plan: Plan, id: EventId, ev: Event)
    requires ev == Merged(id, d.subject, NotAliases(before.state.aliasOf, d.confirmed), plan.redirections, plan.resolution)
    requires Coherent(d.subject, ev.merged, plan.resolution)
    ensures MergesConfirmed(ev, before.state.aliasOf, d, plan, id)
    ensures MergedNext(before, Pass(Apply(before.state, ev), before.events + [ev], None), ev)
  {
    hide Before;
    NotAliasesAreNot(before.state.aliasOf, d.confirmed);
    StandingKeepsOrder(before.state.aliasOf, d.confirmed);
  }

  // ----- the whole pass

  // The aliases known when decision `n` has its turn.
  function AliasesAt(s: LogState, rows: set<EntityId>, decisions: seq<Decision>, plans: seq<Plan>, firstId: EventId, n: nat): AliasTable
    requires |plans| == |decisions| && n <= |decisions|
  {
    EmitFirst(s, rows, decisions, plans, firstId, n).state.aliasOf
  }

  lemma NoErrorBefore(s: LogState, rows: set<EntityId>, decisions: seq<Decision>, plans: seq<Plan>, firstId: EventId, n: nat, k: nat)
    requires |plans| == |decisions| && n <= k <= |decisions| && EmitFirst(s, rows, decisions, plans, firstId, k).error == None
    ensures EmitFirst(s, rows, decisions, plans, firstId, n).error == None
  {
    if EmitFirst(s, rows, decisions, plans, firstId, n).error.Some? {
      ErrorsEndThePass(s, rows, decisions, plans, firstId, n, k);
    }
  }

  /** A pass that ends without an error gave every decision its turn. */
  lemma EveryDecisionTakesItsTurn(s: LogState, rows: set<EntityId>, decisions: seq<Decision>, plans: seq<Plan>, firstId: EventId, n: nat)
    requires |plans| == |decisions| && n < |decisions| && EmitAll(s, rows, decisions, plans, firstId).error == None
    ensures TakesItsTurn(EmitFirst(s, rows, decisions, plans, firstId, n), EmitFirst(s, rows, decisions, plans, firstId, n + 1),
                         decisions[n], plans[n], firstId + n)
  {
    hide EmitOne, TakesItsTurn;
    NoErrorBefore(s, rows, decisions, plans, firstId, n, |decisions|);
    NoErrorBefore(s, rows, decisions, plans, firstId, n + 1, |decisions|);
    ATurn(EmitFirst(s, rows, decisions, plans, firstId, n), rows, decisions[n], plans[n], firstId + n);
  }

  /** A pass fails exactly when some decision has something to merge that cannot be. */
  lemma {:induction false} PassFailsExactlyWhen(s: LogState, rows: set<EntityId>, decisions: seq<Decision>,
                                                plans: seq<Plan>, firstId: EventId, n: nat)
    requires |plans| == |decisions| && n <= |decisions|
    ensures EmitFirst(s, rows, decisions, plans, firstId, n).error.Some? <==>
            exists k :: 0 <= k < n && FailsAt(s, rows, decisions, plans, firstId, k)
  {
    hide EmitOne, Passed, Unmergeable, TakesItsTurn;
    if n > 0 {
      PassFailsExactlyWhen(s, rows, decisions, plans, firstId, n - 1);
      var before := EmitFirst(s, rows, decisions, plans, firstId, n - 1);
      if before.error.Some? {
        ErrorsEndThePass(s, rows, decisions, plans, firstId, n - 1, n);
      } else {
        ATurn(before, rows, decisions[n - 1], plans[n - 1], firstId + n - 1);
        assert EmitFirst(s, rows, decisions, plans, firstId, n).error.Some? <==> FailsAt(s, rows, decisions, plans, firstId, n - 1);
      }
    }
  }

  ghost predicate FailsAt(s: LogState, rows: set<EntityId>, decisions: seq<Decision>, plans: seq<Plan>, firstId: EventId, k: nat)
    requires |plans| == |decisions| && k < |decisions|
  {
    var m := AliasesAt(s, rows, decisions, plans, firstId, k);
    !Passed(m, decisions[k]) && Unmergeable(m, rows, decisions[k], plans[k])
  }

  // A pass leaves every alias it finds, and every one it makes, under what it was put under.
  lemma {:induction false} AliasesStay(s: LogState, rows: set<EntityId>, decisions: seq<Decision>, plans: seq<Plan>,
                                       firstId: EventId, n: nat, k: nat, e: EntityId)
    requires |plans| == |decisions| && n <= k <= |decisions| && EmitFirst(s, rows, decisions, plans, firstId, k).error == None
    requires e in AliasesAt(s, rows, decisions, plans, firstId, n)
    ensures var m := AliasesAt(s, rows, decisions, plans, firstId, k);
            e in m && m[e] == AliasesAt(s, rows, decisions, plans, firstId, n)[e]
    decreases k
  {
    hide EmitOne, Unmergeable, Before;
    if n < k {
      NoErrorBefore(s, rows, decisions, plans, firstId, k - 1, k);
      AliasesStay(s, rows, decisions, plans, firstId, n, k - 1, e);
      ATurn(EmitFirst(s, rows, decisions, plans, firstId, k - 1), rows, decisions[k - 1], plans[k - 1], firstId + k - 1);
    }
  }

  /**
   After a pass without an error every entity confirmed with a subject that stood at its turn is an
   alias: of that subject, unless it was one already.
   */
  lemma EveryConfirmedIsAbsorbed(s: LogState, rows: set<EntityId>, decisions: seq<Decision>, plans: seq<Plan>,
                                 firstId: EventId, n: nat, e: EntityId)
    requires |plans| == |decisions| && n < |decisions| && EmitAll(s, rows, decisions, plans, firstId).error == None
    requires decisions[n].subject !in AliasesAt(s, rows, decisions, plans, firstId, n) && e in decisions[n].confirmed
    ensures var at, end := AliasesAt(s, rows, decisions, plans, firstId, n), EmitAll(s, rows, decisions, plans, firstId).state.aliasOf;
            e in end && end[e] == if e in at then at[e] else decisions[n].subject
  {
    hide EmitOne, Before;
    EveryDecisionTakesItsTurn(s, rows, decisions, plans, firstId, n);
    NoErrorBefore(s, rows, decisions, plans, firstId, n + 1, |decisions|);
    var at := AliasesAt(s, rows, decisions, plans, firstId, n);
    if e in at {
      AliasesStay(s, rows, decisions, plans, firstId, n, |decisions|, e);
    } else {
      AliasesStay(s, rows, decisions, plans, firstId, n + 1, |decisions|, e);
    }
  }

  ghost predicate ConfirmedWith(decisions: seq<Decision>, k: int, e: EntityId, subject: EntityId) {
    0 <= k < |decisions| && decisions[k].subject == subject && e in decisions[k].confirmed
  }

  /** Whatever a pass absorbed, with an error or without, some decision confirmed with the subject it is now under. */
  lemma {:induction false} OnlyConfirmedAreAbsorbed(s: LogState, rows: set<EntityId>, decisions: seq<Decision>,
                                                    plans: seq<Plan>, firstId: EventId, n: nat, e: EntityId)
    requires |plans| == |decisions| && n <= |decisions|
    requires e in AliasesAt(s, rows, decisions, plans, firstId, n) && e !in s.aliasOf
    ensures exists k :: 0 <= k < n && ConfirmedWith(decisions, k, e, AliasesAt(s, rows, decisions, plans, firstId, n)[e])
  {
    hide EmitOne, Unmergeable, Before;
    if n > 0 {
      var before := EmitFirst(s, rows, decisions, plans, firstId, n - 1);
      if before.error.Some? {
        ErrorsEndThePass(s, rows, decisions, plans, firstId, n - 1, n);
        OnlyConfirmedAreAbsorbed(s, rows, decisions, plans, firstId, n - 1, e);
      } else {
        ATurn(before, rows, decisions[n - 1], plans[n - 1], firstId + n - 1);
        if e in before.state.aliasOf {
          OnlyConfirmedAreAbsorbed(s, rows, decisions, plans, firstId, n - 1, e);
        } else {
          assert ConfirmedWith(decisions, n - 1, e, decisions[n - 1].subject);
        }
      }
    }
  }

  /** Every event of a pass merges what its own decision confirmed, under the id that goes with it. */
  lemma {:induction false} EveryEventIsADecisions(s: LogState, rows: set<EntityId>, decisions: seq<Decision>,
                                                  plans: seq<Plan>, firstId: EventId, n: nat, ev: Event)
    requires |plans| == |decisions| && n <= |decisions| && ev in EmitFirst(s, rows, decisions, plans, firstId, n).events
    ensures exists k :: 0 <= k < n && !Passed(AliasesAt(s, rows, decisions, plans, firstId, k), decisions[k])
                        && MergesConfirmed(ev, AliasesAt(s, rows, decisions, plans, firstId, k), decisions[k], plans[k], firstId + k)
  {
    hide EmitOne, Unmergeable, MergesConfirmed, Passed;
    if n > 0 {
      var before := EmitFirst(s, rows, decisions, plans, firstId, n - 1);
      if ev in before.events {
        EveryEventIsADecisions(s, rows, decisions, plans, firstId, n - 1, ev);
      } else {
        if before.error.Some? {
          ErrorsEndThePass(s, rows, decisions, plans, firstId, n - 1, n);
        }
        ATurn(before, rows, decisions[n - 1], plans[n - 1], firstId + n - 1);
        assert MergesConfirmed(ev, AliasesAt(s, rows, decisions, plans, firstId, n - 1), decisions[n - 1], plans[n - 1], firstId + n - 1);
      }
    }
  }
}
