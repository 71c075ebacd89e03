/**
 A whole-corpus pass: merges emitted one after another, each planned on the store as it was before
 the pass, and folded only once the pass is over.
 */
module PassEdges {
  import opened Wrappers
  import opened Domain
  import opened MergeLog
  import opened MergeHistory
  import opened Planning
  import opened PlanEffect
  import opened GraphFold
  import opened Runs
  import opened ResolveMany

  ghost function StateAfter(s: LogState, evs: seq<Event>): LogState {
    if evs == [] then s else Apply(StateAfter(s, evs[..|evs| - 1]), evs[|evs| - 1])
  }

  // The merges of one pass: the log takes each in turn, and each was planned on the same store.
  ghost predicate OnePass(dumps: Renderer, s: LogState, g: Graph, evs: seq<Event>) {
    forall k :: 0 <= k < |evs| ==>
      evs[k].Merged? && Accepts(StateAfter(s, evs[..k]), evs[k]) && PlannedOn(dumps, g, evs[k])
  }

  ghost predicate Lists(ev: Event, i: RelationshipId)
    requires ev.Merged?
  {
    exists p :: p in ev.redirections && p.before.id == i
  }

  ghost predicate AllMerges(evs: seq<Event>) {
    forall k :: 0 <= k < |evs| ==> evs[k].Merged?
  }

  // The plan of the event at `k` says what becomes of an edge, and no later plan lists it again.
  ghost predicate HasLastWord(evs: seq<Event>, k: nat, p: Redirection)
    requires AllMerges(evs)
  {
    && k < |evs| && p in evs[k].redirections
    && forall j :: k < j < |evs| ==> !Lists(evs[j], p.before.id)
  }

  // No event of the pass absorbs an end of an edge that another had the last word on.
  ghost predicate NoMovedEndIsAbsorbed(evs: seq<Event>)
    requires AllMerges(evs)
  {
    forall k: nat, p, j :: HasLastWord(evs, k, p) && p.after.Some? && 0 <= j < |evs| && j != k ==>
      p.after.value.source !in evs[j].merged && p.after.value.target !in evs[j].merged
  }

  // ----- what a pass leaves

  ghost function EdgesAfter(edges: EdgeTable, evs: seq<Event>): EdgeTable
    requires AllMerges(evs)
  {
    if evs == [] then edges
    else ApplyRedirections(EdgesAfter(edges, evs[..|evs| - 1]), evs[|evs| - 1].redirections)
  }

  lemma Shorter(dumps: Renderer, s: LogState, g: Graph, evs: seq<Event>)
    requires evs != [] && OnePass(dumps, s, g, evs)
    ensures OnePass(dumps, s, g, evs[..|evs| - 1])
  {
    hide PlannedOn, Accepts;
    forall k | 0 <= k < |evs| - 1 ensures evs[..|evs| - 1][k] == evs[k] && evs[..|evs| - 1][..k] == evs[..k] {
    }
  }

  // What a plan says of an edge it moves.
  lemma PlannedMove(dumps: Renderer, g: Graph, ev: Event, p: Redirection)
    requires Sound(g) && ev.Merged? && PlannedOn(dumps, g, ev) && p in ev.redirections
    requires ev.canonical !in g.aliases && ev.canonical !in ev.merged
    ensures p.before.id in g.edges && p.before == g.edges[p.before.id]
    ensures p.after.Some? ==>
              var e := p.after.value;
              && e.id == p.before.id && !e.IsSelfLoop() && e.source in g.entities && e.target in g.entities
              && e.source !in ev.merged && e.target !in ev.merged && e.source !in g.aliases && e.target !in g.aliases
  {
    hide Loses;
    assert p.before in g.edges.Values;
  }

  lemma AbsorbedEndsAreListed(dumps: Renderer, g: Graph, ev: Event, i: RelationshipId, d: EntityId)
    requires Sound(g) && ev.Merged? && PlannedOn(dumps, g, ev) && ev.canonical !in ev.merged
    requires i in g.edges && d in ev.merged && g.edges[i].Touches(d)
    ensures Lists(ev, i)
  {
    hide Loses;
    var r := g.edges[i];
    assert r in g.edges.Values && Relevant(ev.canonical, ev.merged, r);
    assert After(dumps, ev.canonical, ev.merged, g.edges.Values, r) != Some(r);
    assert Redirection(r, After(dumps, ev.canonical, ev.merged, g.edges.Values, r)) in ev.redirections;
  }

  lemma PlanIsTidy(dumps: Renderer, g: Graph, ev: Event)
    requires Sound(g) && ev.Merged? && PlannedOn(dumps, g, ev) && ev.canonical !in g.aliases && ev.canonical !in ev.merged
    ensures MovesKeepIds(ev.redirections) && UniqueBefore(ev.redirections) && AftersPresent(g.entities, ev.redirections)
  {
    hide IsPlan, PlannedOn, Sound;
    forall p | p in ev.redirections && p.after.Some?
      ensures p.after.value.id == p.before.id && p.after.value.source in g.entities && p.after.value.target in g.entities
    {
      PlannedMove(dumps, g, ev, p);
    }
    PlanIsSorted(dumps, g, ev);
  }

  lemma PlanIsSorted(dumps: Renderer, g: Graph, ev: Event)
    requires ev.Merged? && PlannedOn(dumps, g, ev)
    ensures SortedById(ev.redirections)
  {
  }

  // The canonical entity and the absorbed ones were no aliases before the pass either.
  lemma {:induction false} AliasesAfter(s: LogState, evs: seq<Event>, d: EntityId)
    requires AllMerges(evs)
    ensures d in StateAfter(s, evs).aliasOf <==> d in s.aliasOf || exists k :: 0 <= k < |evs| && d in evs[k].merged
  {
    if evs != [] {
      var n := |evs| - 1;
      AliasesAfter(s, evs[..n], d);
      if k :| 0 <= k < |evs| && d in evs[k].merged {
        if k < n {
          assert evs[..n][k] == evs[k];
        }
      }
    }
  }

  lemma CanonicalsWereFree(dumps: Renderer, s: LogState, g: Graph, evs: seq<Event>, k: nat)
    requires OnePass(dumps, s, g, evs) && k < |evs|
    ensures evs[k].Merged? && evs[k].canonical !in s.aliasOf && evs[k].canonical !in evs[k].merged
  {
    hide PlannedOn;
    AliasesAfter(s, evs[..k], evs[k].canonical);
  }

  /** No event of a pass is poison, and folding them applies their plans one after another. */
  lemma {:induction false} PassFolds(dumps: Renderer, s: LogState, g: Graph, evs: seq<Event>)
    requires InStep(s, g) && OnePass(dumps, s, g, evs)
    ensures AllMerges(evs)
    ensures var later := FoldAll(g, evs);
            && later.entities.Keys == g.entities.Keys && later.aliases == StateAfter(s, evs).aliasOf
            && later.edges == EdgesAfter(g.edges, evs)
    ensures evs != [] ==> Fold(FoldAll(g, evs[..|evs| - 1]), evs[|evs| - 1]).error.None?
  {
    hide IsPlan, Sound, Restorable, Consistent, Coherent, ApplyRedirections, Fold;
    if evs != [] {
      var n := |evs| - 1;
      Shorter(dumps, s, g, evs);
      PassFolds(dumps, s, g, evs[..n]);
      CanonicalsWereFree(dumps, s, g, evs, n);
      PlanIsTidy(dumps, g, evs[n]);
      PresentMergeFolds(FoldAll(g, evs[..n]), evs[n]);
    }
  }

  // ----- edge by edge

  lemma {:induction false} TheLastWordIsKept(dumps: Renderer, s: LogState, g: Graph, evs: seq<Event>, k: nat, p: Redirection)
    requires InStep(s, g) && OnePass(dumps, s, g, evs) && AllMerges(evs) && HasLastWord(evs, k, p)
    ensures EdgeAt(EdgesAfter(g.edges, evs), p.before.id) == p.after
  {
    hide InStep, PlannedOn, Accepts, ApplyRedirections;
    var n := |evs| - 1;
    Shorter(dumps, s, g, evs);
    TidyAt(dumps, s, g, evs, n);
    var before := EdgesAfter(g.edges, evs[..n]);
    if k == n {
      var j :| 0 <= j < |evs[n].redirections| && evs[n].redirections[j] == p;
      RedirectionsWrite(before, evs[n].redirections, j);
    } else {
      assert forall j :: 0 <= j < n ==> evs[..n][j] == evs[j];
      TheLastWordIsKept(dumps, s, g, evs[..n], k, p);
      assert !Lists(evs[n], p.before.id);
      RedirectionsLeaveOthers(before, evs[n].redirections, p.before.id);
    }
  }

  lemma TidyAt(dumps: Renderer, s: LogState, g: Graph, evs: seq<Event>, k: nat)
    requires InStep(s, g) && OnePass(dumps, s, g, evs) && k < |evs|
    ensures evs[k].Merged? && MovesKeepIds(evs[k].redirections) && UniqueBefore(evs[k].redirections)
  {
    hide PlannedOn, Accepts, Sound, Consistent, Restorable;
    CanonicalsWereFree(dumps, s, g, evs, k);
    PlanIsTidy(dumps, g, evs[k]);
  }

  lemma {:induction false} UnlistedEdgesStay(dumps: Renderer, s: LogState, g: Graph, evs: seq<Event>, i: RelationshipId)
    requires InStep(s, g) && OnePass(dumps, s, g, evs) && AllMerges(evs) && forall j :: 0 <= j < |evs| ==> !Lists(evs[j], i)
    ensures EdgeAt(EdgesAfter(g.edges, evs), i) == EdgeAt(g.edges, i)
  {
    hide InStep, PlannedOn, Accepts, ApplyRedirections;
    if evs != [] {
      var n := |evs| - 1;
      Shorter(dumps, s, g, evs);
      TidyAt(dumps, s, g, evs, n);
      assert forall j :: 0 <= j < n ==> evs[..n][j] == evs[j];
      UnlistedEdgesStay(dumps, s, g, evs[..n], i);
      assert !Lists(evs[n], i);
      RedirectionsLeaveOthers(EdgesAfter(g.edges, evs[..n]), evs[n].redirections, i);
    }
  }

  // An edge some plan lists is one that some plan has the last word on.
  lemma {:induction false} SomePlanHasTheLastWord(evs: seq<Event>, i: RelationshipId, j: nat) returns (k: nat, p: Redirection)
    requires AllMerges(evs) && j < |evs| && Lists(evs[j], i)
    ensures HasLastWord(evs, k, p) && p.before.id == i
    decreases |evs| - j
  {
    if later :| j < later < |evs| && Lists(evs[later], i) {
      k, p := SomePlanHasTheLastWord(evs, i, later);
    } else {
      k := j;
      p :| p in evs[j].redirections && p.before.id == i;
    }
  }

  // ----- when the store stays sound

  /**
   Folded after the pass, its merges leave the store sound exactly when no event absorbs an end of
   an edge that another had the last word on: which the plans say before anything is folded.
   */
  lemma PassKeepsSoundExactlyWhen(dumps: Renderer, s: LogState, g: Graph, evs: seq<Event>)
    requires InStep(s, g) && OnePass(dumps, s, g, evs)
    ensures AllMerges(evs)
    ensures Sound(FoldAll(g, evs)) <==> NoMovedEndIsAbsorbed(evs)
  {
    PassFolds(dumps, s, g, evs);
    if NoMovedEndIsAbsorbed(evs) {
      PassKeepsSound(dumps, s, g, evs);
    } else {
      PassBreaksSound(dumps, s, g, evs);
    }
  }

  lemma PassBreaksSound(dumps: Renderer, s: LogState, g: Graph, evs: seq<Event>)
    requires InStep(s, g) && OnePass(dumps, s, g, evs) && AllMerges(evs) && !NoMovedEndIsAbsorbed(evs)
    ensures !Sound(FoldAll(g, evs))
  {
    hide InStep, OnePass, FoldAll, HasLastWord;
    var k: nat, p, j :| HasLastWord(evs, k, p) && p.after.Some? && 0 <= j < |evs| && j != k
                        && (p.after.value.source in evs[j].merged || p.after.value.target in evs[j].merged);
    PassFolds(dumps, s, g, evs);
    TheLastWordIsKept(dumps, s, g, evs, k, p);
    AliasesAfter(s, evs, p.after.value.source);
    AliasesAfter(s, evs, p.after.value.target);
    assert FoldAll(g, evs).edges[p.before.id] == p.after.value;
  }

  lemma PassKeepsSound(dumps: Renderer, s: LogState, g: Graph, evs: seq<Event>)
    requires InStep(s, g) && OnePass(dumps, s, g, evs) && AllMerges(evs) && NoMovedEndIsAbsorbed(evs)
    ensures Sound(FoldAll(g, evs))
  {
    hide OnePass, FoldAll, HasLastWord, NoMovedEndIsAbsorbed, Consistent, Restorable, EdgesAfter;
    PassFolds(dumps, s, g, evs);
    var later := FoldAll(g, evs);
    forall i | i in later.edges ensures SoundEdge(later, i) {
      if j :| 0 <= j < |evs| && Lists(evs[j], i) {
        ListedEdgeIsSound(dumps, s, g, evs, i, j);
      } else {
        UnlistedEdgeIsSound(dumps, s, g, evs, i);
      }
    }
    forall a | a in later.aliases ensures later.aliases[a] in g.entities {
      AliasesPointToRows(dumps, s, g, evs, a);
    }
    assert forall i :: i in later.edges ==> SoundEdge(later, i);
  }

  ghost predicate SoundEdge(g: Graph, i: RelationshipId)
    requires i in g.edges
  {
    var e := g.edges[i];
    && e.id == i && !e.IsSelfLoop() && e.source in g.entities && e.target in g.entities
    && e.source !in g.aliases && e.target !in g.aliases
  }

  lemma ListedEdgeIsSound(dumps: Renderer, s: LogState, g: Graph, evs: seq<Event>, i: RelationshipId, j: nat)
    requires InStep(s, g) && OnePass(dumps, s, g, evs) && AllMerges(evs) && NoMovedEndIsAbsorbed(evs)
    requires j < |evs| && Lists(evs[j], i) && i in FoldAll(g, evs).edges
    ensures SoundEdge(FoldAll(g, evs), i)
  {
    hide FoldAll, PlannedOn, Consistent, Restorable, Sound, EdgesAfter, StateAfter;
    PassFolds(dumps, s, g, evs);
    var k, p := SomePlanHasTheLastWord(evs, i, j);
    TheLastWordIsKept(dumps, s, g, evs, k, p);
    CanonicalsWereFree(dumps, s, g, evs, k);
    PlannedMove(dumps, g, evs[k], p);
    var e := p.after.value;
    AliasesAfter(s, evs, e.source);
    AliasesAfter(s, evs, e.target);
  }

  lemma UnlistedEdgeIsSound(dumps: Renderer, s: LogState, g: Graph, evs: seq<Event>, i: RelationshipId)
    requires InStep(s, g) && OnePass(dumps, s, g, evs) && AllMerges(evs)
    requires (forall j :: 0 <= j < |evs| ==> !Lists(evs[j], i)) && i in FoldAll(g, evs).edges
    ensures SoundEdge(FoldAll(g, evs), i)
  {
    hide FoldAll, OnePass, Consistent, Restorable, EdgesAfter, StateAfter, Lists;
    PassFolds(dumps, s, g, evs);
    UnlistedEdgesStay(dumps, s, g, evs, i);
    var e := g.edges[i];
    forall k | 0 <= k < |evs| ensures e.source !in evs[k].merged && e.target !in evs[k].merged {
      UnlistedIsUntouched(dumps, s, g, evs, i, k);
    }
    AliasesAfter(s, evs, e.source);
    AliasesAfter(s, evs, e.target);
  }

  lemma UnlistedIsUntouched(dumps: Renderer, s: LogState, g: Graph, evs: seq<Event>, i: RelationshipId, k: nat)
    requires InStep(s, g) && OnePass(dumps, s, g, evs) && AllMerges(evs) && i in g.edges && k < |evs| && !Lists(evs[k], i)
    ensures g.edges[i].source !in evs[k].merged && g.edges[i].target !in evs[k].merged
  {
    hide InStep, PlannedOn, Accepts, Lists, Sound;
    CanonicalsWereFree(dumps, s, g, evs, k);
    IsSound(s, g);
    var e := g.edges[i];
    if e.source in evs[k].merged {
      AbsorbedEndsAreListed(dumps, g, evs[k], i, e.source);
    } else if e.target in evs[k].merged {
      AbsorbedEndsAreListed(dumps, g, evs[k], i, e.target);
    }
  }

  lemma IsSound(s: LogState, g: Graph)
    requires InStep(s, g)
    ensures Sound(g)
  {
  }

  lemma {:induction false} AliasesPointToRows(dumps: Renderer, s: LogState, g: Graph, evs: seq<Event>, a: EntityId)
    requires InStep(s, g) && OnePass(dumps, s, g, evs) && AllMerges(evs) && a in StateAfter(s, evs).aliasOf
    ensures StateAfter(s, evs).aliasOf[a] in g.entities
  {
    hide Consistent, Restorable, Accepts, IsPlan;
    if evs != [] {
      var n := |evs| - 1;
      Shorter(dumps, s, g, evs);
      if a in evs[n].merged {
        assert PlannedOn(dumps, g, evs[n]);
      } else {
        AliasesPointToRows(dumps, s, g, evs[..n], a);
      }
    }
  }

  // ----- the pass that is emitted

  lemma {:induction false} StateOfExtendedLog(log: seq<Event>, evs: seq<Event>)
    ensures StateAfter(Replay(log), evs) == Replay(log + evs)
  {
    if evs == [] {
      assert log + evs == log;
    } else {
      var n := |evs| - 1;
      StateOfExtendedLog(log, evs[..n]);
      assert (log + evs)[..|log| + n] == log + evs[..n];
    }
  }

  lemma {:induction false} LegalLogsAcceptEachEvent(log: seq<Event>, evs: seq<Event>, k: nat)
    requires Legal(log + evs) && k < |evs|
    ensures Accepts(StateAfter(Replay(log), evs[..k]), evs[k])
    decreases |evs|
  {
    hide Accepts, Replay;
    var n := |evs| - 1;
    assert (log + evs)[..|log| + n] == log + evs[..n];
    if k < n {
      LegalLogsAcceptEachEvent(log, evs[..n], k);
      assert evs[..n][..k] == evs[..k];
    } else {
      StateOfExtendedLog(log, evs[..n]);
    }
  }

  /**
   What the emit phase emits is one pass, if its plans were made on the store it began with; so that
   store stays sound, once the events are folded, under the same condition and no other.
   */
  lemma EmittedPassKeepsSoundExactlyWhen(dumps: Renderer, log: seq<Event>, g: Graph, rows: set<EntityId>,
                                         decisions: seq<Decision>, plans: seq<Plan>, firstId: EventId)
    requires |plans| == |decisions| && Legal(log) && InStep(Replay(log), g)
    requires forall i :: 0 <= i < |Replay(log).merges| ==> Replay(log).merges[i].eventId < firstId
    requires forall ev :: ev in EmitAll(Replay(log), rows, decisions, plans, firstId).events ==> ev.Merged? && PlannedOn(dumps, g, ev)
    ensures var evs := EmitAll(Replay(log), rows, decisions, plans, firstId).events;
            && OnePass(dumps, Replay(log), g, evs) && AllMerges(evs)
            && (Sound(FoldAll(g, evs)) <==> NoMovedEndIsAbsorbed(evs))
  {
    hide InStep, PlannedOn, EmitAll, Accepts, Sound, NoMovedEndIsAbsorbed;
    var evs := EmitAll(Replay(log), rows, decisions, plans, firstId).events;
    EmittedEventsAreLegal(log, rows, decisions, plans, firstId);
    forall k | 0 <= k < |evs| ensures evs[k].Merged? && Accepts(StateAfter(Replay(log), evs[..k]), evs[k]) && PlannedOn(dumps, g, evs[k]) {
      assert evs[k] in evs;
      LegalLogsAcceptEachEvent(log, evs, k);
    }
    PassKeepsSoundExactlyWhen(dumps, Replay(log), g, evs);
  }

  lemma EmittedEventsAreLegal(log: seq<Event>, rows: set<EntityId>, decisions: seq<Decision>, plans: seq<Plan>, firstId: EventId)
    requires |plans| == |decisions| && Legal(log)
    requires forall i :: 0 <= i < |Replay(log).merges| ==> Replay(log).merges[i].eventId < firstId
    ensures Legal(log + EmitAll(Replay(log), rows, decisions, plans, firstId).events)
  {
    PassesStayLegal(log, rows, decisions, plans, firstId, |decisions|);
  }
}
