/**
 A run with a merge in it and the same run without: as documents are extracted, and other merges made
 that keep to themselves, the two stores differ in what the merge concerns and in nothing else.
 */
module Meanwhile {
  import opened Wrappers
  import opened Domain
  import opened AliasForest
  import opened MergeLog
  import opened MergeHistory
  import opened Planning
  import opened PlanEffect
  import opened GraphFold
  import opened Runs
  import opened RunClaims
  import PassEdges
  import opened Redelivery
  import opened UndoInverse
  import opened ClaimHistory

  // ----- what happens meanwhile

  // `e` is in the group of one of these merges.
  ghost predicate Elsewhere(ys: seq<Event>, e: EntityId) {
    exists ev :: ev in ys && ev.Merged? && (e == ev.canonical || e in ev.merged)
  }

  ghost predicate OnAbsorbed(merge: Event, e: Relationship)
    requires merge.Merged?
  {
    e.source in merge.merged || e.target in merge.merged
  }

  // What a statement says as the aliases were when the merge was made.
  ghost function Reading(log: seq<Event>, r: Relationship): Relationship {
    ResolvedEdge(Replay(log).aliasOf, r)
  }

  // The other merges keep to themselves: none has in its group an entity of this merge's, an end of an
  // edge this merge changed, or an end of an edge stated since about an entity it absorbed.
  ghost predicate Apart(log: seq<Event>, merge: Event, ys: seq<Event>)
    requires merge.Merged?
  {
    && !Elsewhere(ys, merge.canonical)
    && (forall d :: d in merge.merged ==> !Elsewhere(ys, d))
    && (forall p :: p in merge.redirections ==> !Elsewhere(ys, p.before.source) && !Elsewhere(ys, p.before.target))
    && forall r :: r in Stated(ys) && OnAbsorbed(merge, Reading(log, r)) ==>
         !Elsewhere(ys, Reading(log, r).source) && !Elsewhere(ys, Reading(log, r).target)
  }

  ghost function With(log: seq<Event>, merge: Event, ys: seq<Event>): seq<Event> {
    log + [merge] + ys
  }

  // A run: the log, the merge, and what follows it until it is undone.
  ghost predicate MergedMeanwhile(dumps: Renderer, log: seq<Event>, merge: Event, ys: seq<Event>) {
    && merge.Merged?
    && UndoFree(log) && UndoFree(ys) && Run(dumps, With(log, merge, ys))
    && Apart(log, merge, ys) && IdsFixClaims(Stated(log) + Stated(ys))
  }

  // ----- runs and their prefixes

  lemma {:induction false} PrefixesRun(dumps: Renderer, log: seq<Event>, k: nat)
    requires k <= |log| && Run(dumps, log)
    ensures Run(dumps, log[..k])
    ensures k < |log| ==> MayFollow(dumps, log[..k], log[k])
    decreases |log|
  {
    hide MayFollow;
    var n := |log| - 1;
    if k == |log| {
      assert log[..k] == log;
    } else {
      assert log[..n][..k] == log[..k];
      PrefixesRun(dumps, log[..n], k);
    }
  }

  lemma {:induction false} NothingIsUndone(log: seq<Event>)
    requires UndoFree(log)
    ensures UndoesLatestFirst(log)
    decreases |log|
  {
    if log != [] {
      assert log[|log| - 1] in log;
      NothingIsUndone(log[..|log| - 1]);
    }
  }

  lemma UndoFreeRunKeepsStep(dumps: Renderer, log: seq<Event>)
    requires Run(dumps, log) && UndoFree(log)
    ensures InStep(Replay(log), StoreAfter(log))
  {
    hide Run, InStep, UndoFree;
    NothingIsUndone(log);
    RunsKeepStep(dumps, log);
  }

  lemma StepHas(s: LogState, g: Graph)
    requires InStep(s, g)
    ensures Consistent(s) && g.aliases == s.aliasOf && Sound(g) && Forest(g.aliases)
    ensures Keyed(g.edges) && NoSelfLoops(g.edges)
  {
  }

  // What is known when the merge is made.
  lemma WhenMerged(dumps: Renderer, log: seq<Event>, merge: Event, ys: seq<Event>)
    requires MergedMeanwhile(dumps, log, merge, ys)
    ensures Run(dumps, log) && MayFollow(dumps, log, merge) && Run(dumps, log + [merge])
    ensures InStep(Replay(log), StoreAfter(log)) && SaysWhatWasStated(StoreAfter(log), Standing(log))
    ensures var m := Replay(log).aliasOf;
            merge.canonical !in m && merge.canonical !in merge.merged && forall d :: d in merge.merged ==> d !in m
    ensures merge.canonical in StoreAfter(log).entities
  {
    hide Apart, IdsFixClaims, SaysWhatWasStated, InStep, IsPlan, UndoFree, Run;
    var all := With(log, merge, ys);
    assert all[..|log|] == log && all[|log|] == merge && all[..|log| + 1] == log + [merge];
    PrefixesRun(dumps, all, |log|);
    PrefixesRun(dumps, all, |log| + 1);
    FewerIdsFixClaims(Stated(log) + Stated(ys), Stated(log));
    StoreKeepsWhatStands(dumps, log);
  }

  // ----- one extraction, edge by edge

  ghost function Cleared(e: Option<Relationship>, retracted: seq<EntityId>): Option<Relationship> {
    if e.Some? && (e.value.source in retracted || e.value.target in retracted) then None else e
  }

  // An extraction leaves under an id its last statement, resolved; or, if it states none, what was there
  // unless an end of it is retracted.
  lemma EdgeAfterOne(s: LogState, g: Graph, ev: Event, i: RelationshipId)
    requires InStep(s, g) && ev.Extracted? && WellFormedExtraction(ev.entities, ev.relationships)
    requires IdsFixClaims(set r | r in ev.relationships)
    ensures EdgeAt(Fold(g, ev).graph.edges, i) ==
            var last := LastStated(ev.relationships, i);
            if last.Some? then WrittenBy(g.aliases, last.value) else Cleared(EdgeAt(g.edges, i), ev.retracted)
  {
    hide InStep, WellFormedExtraction, IdsFixClaims, Upserted, WithoutCollapsed, LiveEdges, RetractAll, WrittenBy, Sound, Forest, FoldExtracted;
    var rs, cleared := ev.relationships, RetractAll(g, ev.retracted).edges;
    StepHas(s, g);
    SoundStoreFolds(g, ev.entities, rs, ev.retracted);
    LastStatedIsStated(rs, i);
    if LastStated(rs, i).Some? {
      ExtractionWrites(cleared, g.aliases, rs, i);
    } else {
      EdgeAfterExtraction(cleared, g.aliases, rs, i);
      RetractAllAt(g, ev.retracted);
    }
  }

  // What these events leave under an id, if no merge among them changes it.
  ghost function Left(m: AliasTable, xs: seq<Event>, i: RelationshipId, before: Option<Relationship>): Option<Relationship> {
    if xs == [] then before
    else
      var ev, earlier := xs[|xs| - 1], Left(m, xs[..|xs| - 1], i, before);
      if !ev.Extracted? then earlier
      else if LastStated(ev.relationships, i).Some? then WrittenBy(m, LastStated(ev.relationships, i).value)
      else Cleared(earlier, ev.retracted)
  }

  // ----- edges the merge concerns

  // Changed by the merge, or stated since about an entity it absorbed.
  ghost predicate Concerned(log: seq<Event>, merge: Event, ys: seq<Event>, i: RelationshipId)
    requires merge.Merged?
  {
    PassEdges.Lists(merge, i) || exists r :: r in Stated(ys) && r.id == i && OnAbsorbed(merge, Reading(log, r))
  }

  ghost predicate Outside(ys: seq<Event>, e: Option<Relationship>) {
    e.Some? ==> !Elsewhere(ys, e.value.source) && !Elsewhere(ys, e.value.target)
  }

  // A statement of a stored edge reads as the stored one.
  lemma StatedAgainToTheSameEffect(dumps: Renderer, log: seq<Event>, merge: Event, ys: seq<Event>, r: Relationship)
    requires MergedMeanwhile(dumps, log, merge, ys) && r in Stated(ys) && r.id in StoreAfter(log).edges
    ensures !Reading(log, r).IsSelfLoop() && Reading(log, r).Says() == StoreAfter(log).edges[r.id].Says()
  {
    hide UndoFree, Run, InStep, Sound, IdsFixClaims, Apart;
    var g := StoreAfter(log);
    WhenMerged(dumps, log, merge, ys);
    StepHas(Replay(log), g);
    StandingWasStated(log);
    var r' :| r' in Standing(log) && r'.id == r.id && g.edges[r.id].Says() == ResolvedEdge(g.aliases, r').Says();
    SameIdSameReading(g.aliases, Stated(log) + Stated(ys), r', r);
  }

  lemma ListedIsStored(dumps: Renderer, log: seq<Event>, merge: Event, p: Redirection)
    requires merge.Merged? && MayFollow(dumps, log, merge) && Keyed(StoreAfter(log).edges) && p in merge.redirections
    ensures var edges := StoreAfter(log).edges; p.before.id in edges && edges[p.before.id] == p.before
    ensures Relevant(merge.canonical, merge.merged, p.before)
  {
    hide Loses;
    PlanNamesEdges(dumps, merge.canonical, merge.merged, StoreAfter(log).edges, merge.redirections);
  }

  // No other merge has in its group an end of what a concerned edge says.
  lemma ConcernedReadsOutside(dumps: Renderer, log: seq<Event>, merge: Event, ys: seq<Event>, r: Relationship)
    requires MergedMeanwhile(dumps, log, merge, ys) && r in Stated(ys) && Concerned(log, merge, ys, r.id)
    ensures Outside(ys, Some(Reading(log, r)))
  {
    hide UndoFree, Run, InStep, Sound, IdsFixClaims, Elsewhere, MayFollow, ResolvedEdge;
    WhenMerged(dumps, log, merge, ys);
    StepHas(Replay(log), StoreAfter(log));
    if PassEdges.Lists(merge, r.id) {
      var p :| p in merge.redirections && p.before.id == r.id;
      ListedIsStored(dumps, log, merge, p);
      StatedAgainToTheSameEffect(dumps, log, merge, ys, r);
    } else {
      var r' :| r' in Stated(ys) && r'.id == r.id && OnAbsorbed(merge, Reading(log, r'));
      SameIdSameReading(Replay(log).aliasOf, Stated(log) + Stated(ys), r', r);
    }
  }

  // Every stored edge on an absorbed entity is in the plan.
  lemma EdgesOnAbsorbedAreListed(dumps: Renderer, log: seq<Event>, merge: Event, i: RelationshipId)
    requires merge.Merged? && MayFollow(dumps, log, merge) && Keyed(StoreAfter(log).edges) && i in StoreAfter(log).edges
    requires merge.canonical !in merge.merged && OnAbsorbed(merge, StoreAfter(log).edges[i])
    ensures PassEdges.Lists(merge, i)
  {
    hide Loses;
    var edges, c, ds := StoreAfter(log).edges, merge.canonical, merge.merged;
    assert edges[i] in edges.Values && Changes(dumps, c, ds, edges.Values, edges[i]);
    assert Redirection(edges[i], After(dumps, c, ds, edges.Values, edges[i])) in merge.redirections;
  }

  // ----- rows

  // The same rows, but for the mergeable fields of one of them.
  ghost predicate AlikeBut(a: EntityTable, b: EntityTable, c: EntityId, fields: MergeableFields) {
    && a.Keys == b.Keys && c in a
    && a[c].WithFields(fields) == b[c].WithFields(fields)
    && forall e :: e in a && e != c ==> a[e] == b[e]
  }

  lemma {:induction false} UpsertsKeepAlike(a: EntityTable, b: EntityTable, c: EntityId, fields: MergeableFields, es: seq<Entity>)
    requires AlikeBut(a, b, c, fields)
    ensures AlikeBut(UpsertedEntities(a, es), UpsertedEntities(b, es), c, fields)
  {
    if es != [] {
      UpsertsKeepAlike(a, b, c, fields, es[..|es| - 1]);
    }
  }

  // ----- the run, and the run without the merge, side by side

  // Under `a`, with the merge, and `b`, without it: an edge the merge does not concern is the same edge; of
  // one it does, each run has what the documents so far leave of it.
  ghost predicate AgreeAt(log: seq<Event>, merge: Event, ys: seq<Event>, zs: seq<Event>, a: EdgeTable, b: EdgeTable, i: RelationshipId)
    requires merge.Merged?
  {
    if Concerned(log, merge, ys, i) then
      && EdgeAt(a, i) == Left(Absorb(Replay(log).aliasOf, merge.canonical, merge.merged), zs, i, EdgeAt(StoreAfter(log + [merge]).edges, i))
      && EdgeAt(b, i) == Left(Replay(log).aliasOf, zs, i, EdgeAt(StoreAfter(log).edges, i))
      && Outside(ys, EdgeAt(a, i)) && Outside(ys, EdgeAt(b, i))
    else EdgeAt(a, i) == EdgeAt(b, i)
  }

  // Resolving through later aliases changes only what another merge concerns, into what one concerns.
  ghost predicate SameReadings(ys: seq<Event>, m: AliasTable, later: AliasTable) {
    forall x :: if Elsewhere(ys, Resolve(m, x)) then Elsewhere(ys, Resolve(later, x)) else Resolve(later, x) == Resolve(m, x)
  }

  // The aliases with the merge are those without it, and its own.
  ghost predicate AliasesApart(merge: Event, a: AliasTable, b: AliasTable)
    requires merge.Merged?
  {
    a == Absorb(b, merge.canonical, merge.merged) && merge.canonical !in b && forall d :: d in merge.merged ==> d !in b
  }

  lemma MovedReading(log: seq<Event>, merge: Event, ys: seq<Event>, b: AliasTable, r: Relationship)
    requires merge.Merged? && Apart(log, merge, ys) && merge.canonical !in merge.merged && Forest(b)
    requires SameReadings(ys, Replay(log).aliasOf, b) && merge.canonical !in b && forall d :: d in merge.merged ==> d !in b
    ensures var a := Absorb(b, merge.canonical, merge.merged);
            && ResolvedEdge(a, r) == Moved(merge.canonical, merge.merged, ResolvedEdge(b, r))
            && (Outside(ys, Some(Reading(log, r))) ==> ResolvedEdge(b, r) == Reading(log, r))
            && (!OnAbsorbed(merge, Reading(log, r)) ==> ResolvedEdge(a, r) == ResolvedEdge(b, r))
  {
    hide Replay, Forest, Resolve, Absorb, Elsewhere;
    ReadingMoves(b, merge.canonical, merge.merged, r);
  }

  // One extraction keeps them side by side.
  lemma ExtractionAgrees(dumps: Renderer, log: seq<Event>, merge: Event, ys: seq<Event>, zs: seq<Event>, ev: Event,
                         s: LogState, a: Graph, s': LogState, b: Graph, i: RelationshipId)
    requires MergedMeanwhile(dumps, log, merge, ys) && ev in ys && ev.Extracted? && WellFormedExtraction(ev.entities, ev.relationships)
    requires forall r :: r in ev.relationships ==> r in Stated(ys)
    requires InStep(s, a) && InStep(s', b) && AliasesApart(merge, a.aliases, b.aliases)
    requires SameReadings(ys, Replay(log).aliasOf, b.aliases) && AgreeAt(log, merge, ys, zs, a.edges, b.edges, i)
    ensures AgreeAt(log, merge, ys, zs + [ev], Fold(a, ev).graph.edges, Fold(b, ev).graph.edges, i)
  {
    hide InStep, MergedMeanwhile, WellFormedExtraction, IdsFixClaims, Fold, Replay, Stated, SameReadings, Elsewhere, Forest, Sound, Absorb, Concerned,
         ResolvedEdge, Apart, StoreAfter, WrittenBy;
    MeanwhileHas(dumps, log, merge, ys);
    FewerIdsFixClaims(Stated(log) + Stated(ys), set r | r in ev.relationships);
    EdgeAfterOne(s, a, ev, i);
    EdgeAfterOne(s', b, ev, i);
    StepHas(s', b);
    assert (zs + [ev])[..|zs|] == zs;
    LastStatedIsStated(ev.relationships, i);
    if LastStated(ev.relationships, i).Some? {
      StatementAgrees(dumps, log, merge, ys, b.aliases, LastStated(ev.relationships, i).value);
    }
  }

  // What a statement writes in the two runs.
  lemma StatementAgrees(dumps: Renderer, log: seq<Event>, merge: Event, ys: seq<Event>, b: AliasTable, r: Relationship)
    requires MergedMeanwhile(dumps, log, merge, ys) && r in Stated(ys) && Forest(b)
    requires SameReadings(ys, Replay(log).aliasOf, b) && merge.canonical !in b && forall d :: d in merge.merged ==> d !in b
    ensures var a, m := Absorb(b, merge.canonical, merge.merged), Replay(log).aliasOf;
            if Concerned(log, merge, ys, r.id) then
              && WrittenBy(a, r) == WrittenBy(Absorb(m, merge.canonical, merge.merged), r) && WrittenBy(b, r) == WrittenBy(m, r)
              && Outside(ys, WrittenBy(a, r)) && Outside(ys, WrittenBy(b, r))
            else WrittenBy(a, r) == WrittenBy(b, r)
  {
    hide MergedMeanwhile, Replay, Stated, SameReadings, Elsewhere, Forest, Resolve, Absorb;
    MeanwhileHas(dumps, log, merge, ys);
    MovedReading(log, merge, ys, b, r);
    if Concerned(log, merge, ys, r.id) {
      ConcernedReadsOutside(dumps, log, merge, ys, r);
      ReadingMoves(Replay(log).aliasOf, merge.canonical, merge.merged, r);
    }
  }

  lemma MeanwhileHas(dumps: Renderer, log: seq<Event>, merge: Event, ys: seq<Event>)
    requires MergedMeanwhile(dumps, log, merge, ys)
    ensures merge.Merged? && Apart(log, merge, ys) && IdsFixClaims(Stated(log) + Stated(ys)) && Forest(Replay(log).aliasOf)
    ensures var m := Replay(log).aliasOf;
            merge.canonical !in m && merge.canonical !in merge.merged && forall d :: d in merge.merged ==> d !in m
  {
    WhenMerged(dumps, log, merge, ys);
  }

  // Another merge changes no edge the merge concerns.
  lemma ChangedEdgeIsNotConcerned(log: seq<Event>, merge: Event, ys: seq<Event>, zs: seq<Event>, ev: Event,
                                  a: EdgeTable, b: EdgeTable, e: Relationship)
    requires merge.Merged? && ev in ys && ev.Merged? && Relevant(ev.canonical, ev.merged, e)
    requires AgreeAt(log, merge, ys, zs, a, b, e.id) && (EdgeAt(a, e.id) == Some(e) || EdgeAt(b, e.id) == Some(e))
    ensures !Concerned(log, merge, ys, e.id) && EdgeAt(a, e.id) == EdgeAt(b, e.id)
  {
    hide Concerned, Left;
    assert Elsewhere(ys, e.source) || Elsewhere(ys, e.target);
  }

  // Another merge would be planned alike, had this one never happened.
  lemma PlannedAlike(dumps: Renderer, log: seq<Event>, merge: Event, ys: seq<Event>, zs: seq<Event>, ev: Event,
                     s: LogState, a: Graph, s': LogState, b: Graph, fields: MergeableFields)
    requires MergedMeanwhile(dumps, log, merge, ys) && ev in ys && ev.Merged? && PlannedOn(dumps, a, ev)
    requires InStep(s, a) && InStep(s', b) && AlikeBut(a.entities, b.entities, merge.canonical, fields)
    requires forall i :: AgreeAt(log, merge, ys, zs, a.edges, b.edges, i)
    ensures PlannedOn(dumps, b, ev)
  {
    hide InStep, MergedMeanwhile, AgreeAt, IsPlan, Apart;
    var c, ds := ev.canonical, ev.merged;
    GroupsAreApart(dumps, log, merge, ys, ev);
    StepHas(s, a);
    StepHas(s', b);
    forall e | e in a.edges.Values && Relevant(c, ds, e) ensures e in b.edges.Values {
      assert EdgeAt(a.edges, e.id) == Some(e);
      ChangedEdgeIsNotConcerned(log, merge, ys, zs, ev, a.edges, b.edges, e);
      assert EdgeAt(b.edges, e.id) == Some(e);
    }
    forall e | e in b.edges.Values && Relevant(c, ds, e) ensures e in a.edges.Values {
      assert EdgeAt(b.edges, e.id) == Some(e);
      ChangedEdgeIsNotConcerned(log, merge, ys, zs, ev, a.edges, b.edges, e);
      assert EdgeAt(a.edges, e.id) == Some(e);
    }
    assert RelevantEdges(c, ds, a.edges.Values) == RelevantEdges(c, ds, b.edges.Values);
    PlanIgnoresOtherEdges(dumps, c, ds, a.edges.Values, b.edges.Values, ev.redirections);
  }

  lemma GroupsAreApart(dumps: Renderer, log: seq<Event>, merge: Event, ys: seq<Event>, ev: Event)
    requires MergedMeanwhile(dumps, log, merge, ys) && ev in ys && ev.Merged?
    ensures merge.Merged? && ev.canonical != merge.canonical && ev.canonical !in merge.merged && merge.canonical !in ev.merged
    ensures forall d :: d in ev.merged ==> d !in merge.merged
  {
    hide Run, IdsFixClaims, UndoFree;
    assert forall e :: e == ev.canonical || e in ev.merged ==> Elsewhere(ys, e);
  }

  lemma OtherMergeAgrees(dumps: Renderer, log: seq<Event>, merge: Event, ys: seq<Event>, zs: seq<Event>, ev: Event,
                         a: Graph, b: Graph, i: RelationshipId)
    requires merge.Merged? && ev in ys && ev.Merged? && Sound(a) && Sound(b)
    requires PlannedOn(dumps, a, ev) && PlannedOn(dumps, b, ev) && AgreeAt(log, merge, ys, zs, a.edges, b.edges, i)
    ensures AgreeAt(log, merge, ys, zs + [ev], Fold(a, ev).graph.edges, Fold(b, ev).graph.edges, i)
  {
    hide IsPlan, Fold, Concerned, Outside, ApplyRedirections, PlannedEdges, Absorb;
    var plan := ev.redirections;
    MergeFolds(dumps, a, ev);
    MergeFolds(dumps, b, ev);
    ApplyingThePlan(dumps, ev.canonical, ev.merged, a.edges, plan);
    ApplyingThePlan(dumps, ev.canonical, ev.merged, b.edges, plan);
    assert (zs + [ev])[..|zs|] == zs;
    if k :| 0 <= k < |plan| && plan[k].before.id == i {
      PlannedChange(dumps, a, ev, k);
      ChangedEdgeIsNotConcerned(log, merge, ys, zs, ev, a.edges, b.edges, plan[k].before);
      RedirectionsWrite(a.edges, plan, k);
      RedirectionsWrite(b.edges, plan, k);
    } else {
      forall p | p in plan ensures p.before.id != i {
        var k :| 0 <= k < |plan| && plan[k] == p;
      }
      RedirectionsLeaveOthers(a.edges, plan, i);
      RedirectionsLeaveOthers(b.edges, plan, i);
    }
  }

  lemma PlannedChange(dumps: Renderer, g: Graph, ev: Event, k: nat)
    requires ev.Merged? && Sound(g) && PlannedOn(dumps, g, ev) && k < |ev.redirections|
    ensures var r := ev.redirections[k].before;
            EdgeAt(g.edges, r.id) == Some(r) && Relevant(ev.canonical, ev.merged, r) && UniqueBefore(ev.redirections)
  {
    hide Loses;
    assert ev.redirections[k] in ev.redirections;
    PlanNamesEdges(dumps, ev.canonical, ev.merged, g.edges, ev.redirections);
  }

  lemma OtherMergeKeepsReadings(ys: seq<Event>, ev: Event, m: AliasTable, b: AliasTable)
    requires ev in ys && ev.Merged? && Forest(b) && ev.canonical !in b && ev.canonical !in ev.merged
    requires (forall d :: d in ev.merged ==> d !in b) && SameReadings(ys, m, b)
    ensures SameReadings(ys, m, Absorb(b, ev.canonical, ev.merged))
  {
    hide Resolve, Forest, Absorb;
    AbsorbKeepsForest(b, ev.canonical, ev.merged);
    assert forall e :: e == ev.canonical || e in ev.merged ==> Elsewhere(ys, e);
  }

  lemma OtherMergeKeepsAliasesApart(merge: Event, ev: Event, a: AliasTable, b: AliasTable)
    requires merge.Merged? && ev.Merged? && AliasesApart(merge, a, b)
    requires merge.canonical !in ev.merged && forall d :: d in ev.merged ==> d !in merge.merged
    ensures AliasesApart(merge, Absorb(a, ev.canonical, ev.merged), Absorb(b, ev.canonical, ev.merged))
  {
  }

  lemma ExtractionKeepsAlike(s: LogState, a: Graph, s': LogState, b: Graph, ev: Event, c: EntityId, fields: MergeableFields)
    requires InStep(s, a) && InStep(s', b) && ev.Extracted? && WellFormedExtraction(ev.entities, ev.relationships)
    requires AlikeBut(a.entities, b.entities, c, fields)
    ensures AlikeBut(Fold(a, ev).graph.entities, Fold(b, ev).graph.entities, c, fields)
  {
    hide InStep, Sound, Forest, WellFormedExtraction, UpsertedEntities, RetractAll, FoldExtracted, Upserted, WithoutCollapsed, LiveEdges;
    var seeded, seeded' := a.(entities := UpsertedEntities(a.entities, ev.entities)), b.(entities := UpsertedEntities(b.entities, ev.entities));
    SoundHas(s, a);
    SoundHas(s', b);
    ExtractionFolds(a, ev.entities, ev.relationships, ev.retracted);
    ExtractionFolds(b, ev.entities, ev.relationships, ev.retracted);
    UpsertsKeepAlike(a.entities, b.entities, c, fields, ev.entities);
    RetractAllAt(seeded, ev.retracted);
    RetractAllAt(seeded', ev.retracted);
  }

  lemma SoundHas(s: LogState, g: Graph)
    requires InStep(s, g)
    ensures Forest(g.aliases) && forall a :: a in g.aliases ==> g.aliases[a] in g.entities
  {
  }

  lemma OtherMergeKeepsAlike(dumps: Renderer, a: Graph, b: Graph, ev: Event, c: EntityId, fields: MergeableFields)
    requires ev.Merged? && Sound(a) && Sound(b) && PlannedOn(dumps, a, ev) && PlannedOn(dumps, b, ev) && ev.canonical != c
    requires AlikeBut(a.entities, b.entities, c, fields)
    ensures AlikeBut(Fold(a, ev).graph.entities, Fold(b, ev).graph.entities, c, fields)
  {
    hide Fold, IsPlan, PlannedEdges, Sound, Absorb;
    MergeFolds(dumps, a, ev);
    MergeFolds(dumps, b, ev);
  }

  // The two runs after the same events: all of the above, and every merge of the one is a merge of the other.
  ghost predicate SideBySide(dumps: Renderer, log: seq<Event>, merge: Event, ys: seq<Event>, zs: seq<Event>, fields: MergeableFields)
    requires merge.Merged?
  {
    var a, b := StoreAfter(With(log, merge, zs)), StoreAfter(log + zs);
    && Run(dumps, log + zs)
    && AliasesApart(merge, a.aliases, b.aliases)
    && SameReadings(ys, Replay(log).aliasOf, b.aliases)
    && (forall i :: AgreeAt(log, merge, ys, zs, a.edges, b.edges, i))
    && AlikeBut(a.entities, b.entities, merge.canonical, fields)
    && forall record :: record in Replay(log + zs).merges ==> record in Replay(With(log, merge, zs)).merges
  }

  lemma StartsAt(dumps: Renderer, log: seq<Event>, merge: Event, ys: seq<Event>, i: RelationshipId)
    requires MergedMeanwhile(dumps, log, merge, ys)
    ensures AgreeAt(log, merge, ys, [], StoreAfter(log + [merge]).edges, StoreAfter(log).edges, i)
  {
    hide MergedMeanwhile, IsPlan, InStep, Run, Stated, StoreAfter, Elsewhere, Concerned, SaysWhatWasStated, Sound, Forest, Absorb, Moved, Accepts;
    WhenMerged(dumps, log, merge, ys);
    MeanwhileHas(dumps, log, merge, ys);
    StepHas(Replay(log), StoreAfter(log));
    EdgeAfterTheMerge(dumps, log, merge, i);
    if PassEdges.Lists(merge, i) {
      ListedIsOutside(dumps, log, merge, ys, i);
    } else if Concerned(log, merge, ys, i) {
      ConcernedUnlistedIsNew(dumps, log, merge, ys, i);
    }
  }

  lemma ListedIsOutside(dumps: Renderer, log: seq<Event>, merge: Event, ys: seq<Event>, i: RelationshipId)
    requires merge.Merged? && Apart(log, merge, ys) && MayFollow(dumps, log, merge) && Sound(StoreAfter(log))
    requires PassEdges.Lists(merge, i)
    ensures Concerned(log, merge, ys, i) && i in StoreAfter(log).edges
    ensures Outside(ys, EdgeAt(StoreAfter(log).edges, i)) && Outside(ys, EdgeAt(StoreAfter(log + [merge]).edges, i))
  {
    hide IsPlan, StoreAfter, Elsewhere, Sound, Accepts, Stated;
    SoundIsKeyed(StoreAfter(log));
    var p :| p in merge.redirections && p.before.id == i;
    ListedIsStored(dumps, log, merge, p);
    EdgeAfterTheMerge(dumps, log, merge, i);
  }

  // What the merge itself does to an edge.
  lemma EdgeAfterTheMerge(dumps: Renderer, log: seq<Event>, merge: Event, i: RelationshipId)
    requires merge.Merged? && Sound(StoreAfter(log)) && MayFollow(dumps, log, merge)
    ensures !PassEdges.Lists(merge, i) ==> EdgeAt(StoreAfter(log + [merge]).edges, i) == EdgeAt(StoreAfter(log).edges, i)
    ensures forall p :: p in merge.redirections && p.before.id == i ==>
              var e := EdgeAt(StoreAfter(log + [merge]).edges, i);
              e == None || e == Some(Moved(merge.canonical, merge.merged, p.before))
  {
    hide IsPlan, PlannedEdges, ApplyRedirections, Absorb, Accepts, Sound, Fold;
    var g, plan := StoreAfter(log), merge.redirections;
    AppendingOne(log, merge);
    MergeFolds(dumps, g, merge);
    SoundIsKeyed(g);
    ApplyingThePlan(dumps, merge.canonical, merge.merged, g.edges, plan);
    if !PassEdges.Lists(merge, i) {
      RedirectionsLeaveOthers(g.edges, plan, i);
    }
    forall p | p in plan && p.before.id == i
      ensures var e := EdgeAt(StoreAfter(log + [merge]).edges, i); e == None || e == Some(Moved(merge.canonical, merge.merged, p.before))
    {
      var k :| 0 <= k < |plan| && plan[k] == p;
      PlannedChange(dumps, g, merge, k);
      RedirectionsWrite(g.edges, plan, k);
      PlannedAfter(dumps, g, merge, p);
    }
  }

  lemma SoundIsKeyed(g: Graph)
    requires Sound(g)
    ensures Keyed(g.edges) && NoSelfLoops(g.edges)
  {
  }

  lemma PlannedAfter(dumps: Renderer, g: Graph, ev: Event, p: Redirection)
    requires ev.Merged? && PlannedOn(dumps, g, ev) && p in ev.redirections
    ensures p.after == None || p.after == Some(Moved(ev.canonical, ev.merged, p.before))
  {
    hide Loses;
  }

  // An edge the merge concerns though it did not change it was not stored when the merge was made.
  lemma ConcernedUnlistedIsNew(dumps: Renderer, log: seq<Event>, merge: Event, ys: seq<Event>, i: RelationshipId)
    requires MergedMeanwhile(dumps, log, merge, ys) && merge.Merged? && Concerned(log, merge, ys, i) && !PassEdges.Lists(merge, i)
    ensures i !in StoreAfter(log).edges
  {
    hide MergedMeanwhile, InStep, Run, StoreAfter, Apart, MayFollow;
    WhenMerged(dumps, log, merge, ys);
    StepHas(Replay(log), StoreAfter(log));
    if i in StoreAfter(log).edges {
      var r :| r in Stated(ys) && r.id == i && OnAbsorbed(merge, Reading(log, r));
      StatedAgainToTheSameEffect(dumps, log, merge, ys, r);
      EdgesOnAbsorbedAreListed(dumps, log, merge, i);
    }
  }

  lemma Begins(dumps: Renderer, log: seq<Event>, merge: Event, ys: seq<Event>)
    requires MergedMeanwhile(dumps, log, merge, ys)
    ensures merge.Merged? && merge.canonical in StoreAfter(log).entities
    ensures SideBySide(dumps, log, merge, ys, [], StoreAfter(log).entities[merge.canonical].Fields())
  {
    hide MergedMeanwhile, IsPlan, InStep, Run, SaysWhatWasStated, AgreeAt, StoreAfter, Fold, PlannedEdges, Absorb, Forest, Elsewhere, Resolve;
    var g := StoreAfter(log);
    WhenMerged(dumps, log, merge, ys);
    MeanwhileHas(dumps, log, merge, ys);
    StepHas(Replay(log), g);
    assert log + [merge] + [] == log + [merge] && log + [] == log;
    AppendingOne(log, merge);
    MergeFolds(dumps, g, merge);
    forall i ensures AgreeAt(log, merge, ys, [], StoreAfter(log + [merge]).edges, g.edges, i) {
      StartsAt(dumps, log, merge, ys, i);
    }
  }

  // The run with the merge, up to any of the later events.
  lemma UpTo(dumps: Renderer, log: seq<Event>, merge: Event, ys: seq<Event>, k: nat)
    requires MergedMeanwhile(dumps, log, merge, ys) && k <= |ys|
    ensures var l := With(log, merge, ys[..k]);
            && Run(dumps, l) && UndoFree(l) && InStep(Replay(l), StoreAfter(l))
            && (k < |ys| ==> MayFollow(dumps, l, ys[k]) && With(log, merge, ys[..k + 1]) == l + [ys[k]])
  {
    hide Run, InStep, MayFollow, Apart, IdsFixClaims, UndoFree, Replay, StoreAfter;
    var all, l := With(log, merge, ys), With(log, merge, ys[..k]);
    UndoFreeUpTo(log, merge, ys, k);
    PrefixesRun(dumps, all, |log| + 1 + k);
    UndoFreeRunKeepsStep(dumps, l);
  }

  lemma UndoFreeUpTo(log: seq<Event>, merge: Event, ys: seq<Event>, k: nat)
    requires merge.Merged? && UndoFree(log) && UndoFree(ys) && k <= |ys|
    ensures var all, l := With(log, merge, ys), With(log, merge, ys[..k]);
            && UndoFree(l) && all[..|log| + 1 + k] == l
            && (k < |ys| ==> all[|log| + 1 + k] == ys[k] && With(log, merge, ys[..k + 1]) == l + [ys[k]])
  {
  }

  lemma StatedSoFar(ys: seq<Event>, k: nat)
    requires k < |ys| && ys[k].Extracted?
    ensures forall r :: r in ys[k].relationships ==> r in Stated(ys)
  {
    forall r | r in ys[k].relationships ensures r in Stated(ys) {
      StatedStays(ys, k, r);
    }
  }

  lemma {:induction false} StatedStays(ys: seq<Event>, k: nat, r: Relationship)
    requires k < |ys| && ys[k].Extracted? && r in ys[k].relationships
    ensures r in Stated(ys)
    decreases |ys|
  {
    if k < |ys| - 1 {
      StatedStays(ys[..|ys| - 1], k, r);
    }
  }

  // One more event, of either kind.
  lemma Continues(dumps: Renderer, log: seq<Event>, merge: Event, ys: seq<Event>, k: nat, fields: MergeableFields)
    requires MergedMeanwhile(dumps, log, merge, ys) && k < |ys| && SideBySide(dumps, log, merge, ys, ys[..k], fields)
    ensures SideBySide(dumps, log, merge, ys, ys[..k + 1], fields)
  {
    hide MergedMeanwhile, InStep, Run, StoreAfter, Replay, Fold, UndoFree, AgreeAt, SameReadings, AlikeBut, AliasesApart, With, MayFollow;
    var zs, ev := ys[..k], ys[k];
    var l, l' := With(log, merge, zs), log + zs;
    UpTo(dumps, log, merge, ys, k);
    NoUndosSoFar(dumps, log, merge, ys, k);
    UndoFreeRunKeepsStep(dumps, l');
    assert ys[..k + 1] == zs + [ev] && log + (zs + [ev]) == l' + [ev];
    AppendingOne(l, ev);
    AppendingOne(l', ev);
    assert ev in ys;
    if ev.Extracted? {
      ExtractionContinues(dumps, log, merge, ys, k, fields);
    } else {
      OtherMergeContinues(dumps, log, merge, ys, k, fields);
    }
  }

  lemma NoUndosSoFar(dumps: Renderer, log: seq<Event>, merge: Event, ys: seq<Event>, k: nat)
    requires MergedMeanwhile(dumps, log, merge, ys) && k <= |ys|
    ensures UndoFree(log + ys[..k]) && (k < |ys| ==> !ys[k].Undone?)
  {
    hide Run, Apart, IdsFixClaims;
  }

  lemma RunGoesOn(dumps: Renderer, log: seq<Event>, ev: Event)
    requires Run(dumps, log) && MayFollow(dumps, log, ev)
    ensures Run(dumps, log + [ev])
  {
    hide MayFollow;
    assert (log + [ev])[..|log|] == log;
  }

  lemma ExtractionContinues(dumps: Renderer, log: seq<Event>, merge: Event, ys: seq<Event>, k: nat, fields: MergeableFields)
    requires MergedMeanwhile(dumps, log, merge, ys) && k < |ys| && SideBySide(dumps, log, merge, ys, ys[..k], fields)
    requires ys[k].Extracted? && MayFollow(dumps, With(log, merge, ys[..k]), ys[k])
    requires InStep(Replay(With(log, merge, ys[..k])), StoreAfter(With(log, merge, ys[..k])))
    requires InStep(Replay(log + ys[..k]), StoreAfter(log + ys[..k]))
    ensures SideBySide(dumps, log, merge, ys, ys[..k] + [ys[k]], fields)
  {
    hide MergedMeanwhile, InStep, Run, StoreAfter, Fold, UndoFree, AgreeAt, SameReadings, AlikeBut, AliasesApart, Forest, WellFormedExtraction,
         Replay, Stated, Resolve, Absorb;
    var zs, ev := ys[..k], ys[k];
    var l, l' := With(log, merge, zs), log + zs;
    var a, b := StoreAfter(l), StoreAfter(l');
    MeanwhileHas(dumps, log, merge, ys);
    assert With(log, merge, zs + [ev]) == l + [ev] && log + (zs + [ev]) == l' + [ev];
    AppendingOne(l, ev);
    AppendingOne(l', ev);
    RunGoesOn(dumps, l', ev);
    StatedSoFar(ys, k);
    ExtractionKeepsAliases(Replay(l), a, ev);
    ExtractionKeepsAliases(Replay(l'), b, ev);
    ExtractionKeepsAlike(Replay(l), a, Replay(l'), b, ev, merge.canonical, fields);
    forall i ensures AgreeAt(log, merge, ys, zs + [ev], Fold(a, ev).graph.edges, Fold(b, ev).graph.edges, i) {
      ExtractionAgrees(dumps, log, merge, ys, zs, ev, Replay(l), a, Replay(l'), b, i);
    }
  }

  lemma ExtractionKeepsAliases(s: LogState, g: Graph, ev: Event)
    requires InStep(s, g) && ev.Extracted? && WellFormedExtraction(ev.entities, ev.relationships)
    ensures Fold(g, ev).graph.aliases == g.aliases
  {
    hide WellFormedExtraction, FoldExtracted;
    ExtractionKeepsSound(g, ev.entities, ev.relationships, ev.retracted);
  }

  lemma OtherMergeContinues(dumps: Renderer, log: seq<Event>, merge: Event, ys: seq<Event>, k: nat, fields: MergeableFields)
    requires MergedMeanwhile(dumps, log, merge, ys) && k < |ys| && SideBySide(dumps, log, merge, ys, ys[..k], fields)
    requires ys[k].Merged? && MayFollow(dumps, With(log, merge, ys[..k]), ys[k])
    requires InStep(Replay(With(log, merge, ys[..k])), StoreAfter(With(log, merge, ys[..k])))
    requires InStep(Replay(log + ys[..k]), StoreAfter(log + ys[..k]))
    ensures SideBySide(dumps, log, merge, ys, ys[..k] + [ys[k]], fields)
  {
    hide MergedMeanwhile, InStep, Run, StoreAfter, Fold, UndoFree, AgreeAt, SameReadings, AlikeBut, AliasesApart, Forest, Sound, IsPlan, Coherent, FreshId,
         PlannedEdges, Absorb, Replay, Stated, Resolve, Elsewhere, Apply;
    var zs, ev := ys[..k], ys[k];
    var l, l' := With(log, merge, zs), log + zs;
    var a, b := StoreAfter(l), StoreAfter(l');
    assert ev in ys;
    assert With(log, merge, zs + [ev]) == l + [ev] && log + (zs + [ev]) == l' + [ev];
    AppendingOne(l, ev);
    AppendingOne(l', ev);
    StepHas(Replay(l), a);
    StepHas(Replay(l'), b);
    GroupsAreApart(dumps, log, merge, ys, ev);
    AcceptedAlike(dumps, l, merge, Replay(l), Replay(l'), ev);
    PlannedAlike(dumps, log, merge, ys, zs, ev, Replay(l), a, Replay(l'), b, fields);
    RunGoesOn(dumps, l', ev);
    MergeFolds(dumps, a, ev);
    MergeFolds(dumps, b, ev);
    OtherMergeKeepsReadings(ys, ev, Replay(log).aliasOf, b.aliases);
    OtherMergeKeepsAliasesApart(merge, ev, a.aliases, b.aliases);
    OtherMergeKeepsAlike(dumps, a, b, ev, merge.canonical, fields);
    forall i ensures AgreeAt(log, merge, ys, zs + [ev], Fold(a, ev).graph.edges, Fold(b, ev).graph.edges, i) {
      OtherMergeAgrees(dumps, log, merge, ys, zs, ev, a, b, i);
    }
  }

  lemma AcceptedAlike(dumps: Renderer, log: seq<Event>, merge: Event, s: LogState, s': LogState, ev: Event)
    requires merge.Merged? && ev.Merged? && s == Replay(log) && MayFollow(dumps, log, ev) && AliasesApart(merge, s.aliasOf, s'.aliasOf)
    requires forall record :: record in s'.merges ==> record in s.merges
    ensures Accepts(s', ev) && ev.canonical !in ev.merged
    ensures ev.canonical !in s'.aliasOf && forall d :: d in ev.merged ==> d !in s'.aliasOf
    ensures forall record :: record in Apply(s', ev).merges ==> record in Apply(s, ev).merges
  {
    hide IsPlan, StoreAfter, Replay;
    forall i | 0 <= i < |s'.merges| ensures s'.merges[i].eventId != ev.eventId {
      assert s'.merges[i] in s.merges;
    }
  }

  lemma {:induction false} StaySideBySide(dumps: Renderer, log: seq<Event>, merge: Event, ys: seq<Event>, k: nat)
    requires MergedMeanwhile(dumps, log, merge, ys) && k <= |ys|
    ensures merge.Merged? && merge.canonical in StoreAfter(log).entities
    ensures SideBySide(dumps, log, merge, ys, ys[..k], StoreAfter(log).entities[merge.canonical].Fields())
  {
    hide MergedMeanwhile, SideBySide, StoreAfter;
    Begins(dumps, log, merge, ys);
    if k == 0 {
      assert ys[..0] == [];
    } else {
      StaySideBySide(dumps, log, merge, ys, k - 1);
      Continues(dumps, log, merge, ys, k - 1, StoreAfter(log).entities[merge.canonical].Fields());
    }
  }
}
