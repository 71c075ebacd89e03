/**
 A merge, then documents extracted and other merges made while it is in effect, then its undo: how
 far the store is from the one there would be had the merge never happened.
 */
module LaterUndo {
  import opened Wrappers
  import opened Domain
  import opened AliasForest
  import opened MergeLog
  import opened MergeHistory
  import opened Planning
  import opened PlanEffect
  import opened GraphFold
  import opened Runs
  import opened RunClaims
  import PassEdges
  import opened Redelivery
  import opened UndoInverse
  import opened ClaimHistory
  import opened Meanwhile

  ghost function UndoneLater(log: seq<Event>, merge: Event, ys: seq<Event>): seq<Event>
    requires merge.Merged?
  {
    With(log, merge, ys) + [UndoOfMerge(merge)]
  }

  // ----- the undo

  ghost predicate RecordedIn(zs: seq<Event>, record: MergeRecord) {
    exists ev :: ev in zs && ev.Merged? && record == RecordOf(ev, false)
  }

  lemma RecordedInMore(zs: seq<Event>, last: Event, record: MergeRecord)
    ensures RecordedIn(zs, record) ==> RecordedIn(zs + [last], record)
    ensures last.Merged? ==> RecordedIn(zs + [last], RecordOf(last, false))
  {
    assert last in zs + [last] && forall ev :: ev in zs ==> ev in zs + [last];
  }

  // The record of the merge stands, and those after it are the other merges'.
  lemma {:induction false} RecordsSince(log: seq<Event>, merge: Event, zs: seq<Event>)
    requires merge.Merged? && UndoFree(zs)
    ensures var merges, n := Replay(With(log, merge, zs)).merges, |Replay(log).merges|;
            && |merges| > n && merges[n] == RecordOf(merge, false)
            && forall k :: n < k < |merges| ==> RecordedIn(zs, merges[k])
  {
    if zs == [] {
      assert With(log, merge, zs) == log + [merge];
      AppendingOne(log, merge);
    } else {
      hide Replay, UndoFree;
      var rest, last := zs[..|zs| - 1], zs[|zs| - 1];
      UndoFreeRest(zs);
      RecordsSince(log, merge, rest);
      assert With(log, merge, zs) == With(log, merge, rest) + [last];
      AppendingOne(With(log, merge, rest), last);
      var before, after, n := Replay(With(log, merge, rest)).merges, Replay(With(log, merge, zs)).merges, |Replay(log).merges|;
      hide RecordedIn;
      assert zs == rest + [last];
      forall k | n < k < |after| ensures RecordedIn(zs, after[k]) {
        RecordedInMore(rest, last, after[k]);
        assert k < |before| ==> RecordedIn(rest, before[k]);
      }
    }
  }

  lemma UndoFreeRest(zs: seq<Event>)
    requires UndoFree(zs) && zs != []
    ensures UndoFree(zs[..|zs| - 1]) && !zs[|zs| - 1].Undone?
  {
    assert zs[|zs| - 1] in zs;
  }

  // The undo is accepted, none of its writes is refused, and it leaves the store sound.
  lemma TheUndoIsAccepted(dumps: Renderer, log: seq<Event>, merge: Event, ys: seq<Event>)
    requires MergedMeanwhile(dumps, log, merge, ys)
    ensures merge.Merged? && Accepts(Replay(With(log, merge, ys)), UndoOfMerge(merge))
    ensures var g, undone := StoreAfter(With(log, merge, ys)), StoreAfter(UndoneLater(log, merge, ys));
            && Fold(g, UndoOfMerge(merge)).error == None
            && undone.edges == Upserted(g.edges, Befores(merge.redirections))
            && undone.aliases == StoreAfter(log + ys).aliases
            && merge.canonical in g.entities && merge.resolution.Some?
            && undone.entities == g.entities[merge.canonical := g.entities[merge.canonical].WithFields(merge.resolution.value.before)]
    ensures InStep(Replay(UndoneLater(log, merge, ys)), StoreAfter(UndoneLater(log, merge, ys)))
  {
    hide InStep, Run, IdsFixClaims, Upserted, Absorb, Release, Replay, StoreAfter, Fold, AgreeAt, SameReadings, AlikeBut, Stated, Sound;
    var l, undo := With(log, merge, ys), UndoOfMerge(merge);
    var s, g := Replay(l), StoreAfter(l);
    assert ys[..|ys|] == ys;
    UpTo(dumps, log, merge, ys, |ys|);
    WhenMerged(dumps, log, merge, ys);
    StaySideBySide(dumps, log, merge, ys, |ys|);
    StepHas(s, g);
    RecordsSince(log, merge, ys);
    var n := |Replay(log).merges|;
    assert InEffect(s, n) && undo == UndoOf(s.merges[n]);
    AppendingOne(l, undo);
    var u := UndoFolds(s, g, undo);
    OneRecordPerId(s, u, n);
    NothingAbsorbed(dumps, log, merge, ys);
    var u' := UndoKeepsSoundExactlyWhen(s, g, undo);
    OneRecordPerId(s, u', n);
    UndoneKeepsStep(s, g, undo);
    ReleaseUndoesAbsorb(StoreAfter(log + ys).aliases, merge.canonical, merge.merged);
    UndoneFields(g, undo);
    assert undo.restored == Befores(merge.redirections);
  }

  lemma OneRecordPerId(s: LogState, u: nat, n: nat)
    requires Consistent(s) && InEffect(s, u) && InEffect(s, n) && s.merges[u].eventId == s.merges[n].eventId
    ensures u == n
  {
  }

  lemma NothingAbsorbed(dumps: Renderer, log: seq<Event>, merge: Event, ys: seq<Event>)
    requires MergedMeanwhile(dumps, log, merge, ys)
    ensures var s, n := Replay(With(log, merge, ys)), |Replay(log).merges|;
            n < |s.merges| && NothingAbsorbedSince(s, n)
  {
    hide Run, IdsFixClaims, Replay, Stated;
    var s, n := Replay(With(log, merge, ys)), |Replay(log).merges|;
    RecordsSince(log, merge, ys);
    forall k, p | k > n && InEffect(s, k) && p in s.merges[n].redirections
      ensures p.before.source !in s.merges[k].merged && p.before.target !in s.merges[k].merged
    {
      assert RecordedIn(ys, s.merges[k]);
      var ev :| ev in ys && ev.Merged? && s.merges[k] == RecordOf(ev, false);
      assert forall e :: e in ev.merged ==> Elsewhere(ys, e);
    }
  }

  lemma UndoneKeepsStep(s: LogState, g: Graph, undo: Event)
    requires InStep(s, g) && undo.Undone? && Accepts(s, undo) && Sound(Fold(g, undo).graph)
    ensures InStep(Apply(s, undo), Fold(g, undo).graph)
  {
    var _ := UndoFolds(s, g, undo);
    UndoKeepsConsistent(s, undo);
    UndoKeepsRestorable(s, g, undo);
  }

  lemma UndoneFields(g: Graph, undo: Event)
    requires undo.Undone? && undo.restoredFields.Some? && Fold(g, undo).error == None
    ensures undo.canonical in g.entities
    ensures Fold(g, undo).graph.entities ==
            g.entities[undo.canonical := g.entities[undo.canonical].WithFields(undo.restoredFields.value)]
  {
    hide Upserted, FirstMissing;
  }

  // An edge the merge changed is as it was before the merge, whatever has happened since; any other is as
  // it was before the undo.
  lemma EdgeAfterTheUndo(dumps: Renderer, log: seq<Event>, merge: Event, ys: seq<Event>, i: RelationshipId)
    requires MergedMeanwhile(dumps, log, merge, ys)
    ensures merge.Merged? && (PassEdges.Lists(merge, i) ==> i in StoreAfter(log).edges)
    ensures EdgeAt(StoreAfter(UndoneLater(log, merge, ys)).edges, i) ==
            EdgeAt(if PassEdges.Lists(merge, i) then StoreAfter(log).edges else StoreAfter(With(log, merge, ys)).edges, i)
  {
    hide Run, IdsFixClaims, Upserted, Absorb, Release, InStep, SaysWhatWasStated, IsPlan, Fold, Sound, Apart, Replay, StoreAfter, UndoFree;
    var g, plan := StoreAfter(log), merge.redirections;
    var before := StoreAfter(With(log, merge, ys)).edges;
    WhenMerged(dumps, log, merge, ys);
    TheUndoIsAccepted(dumps, log, merge, ys);
    StepHas(Replay(log), g);
    forall p | p in plan ensures p.before.id in g.edges && g.edges[p.before.id] == p.before {
      ListedIsStored(dumps, log, merge, p);
    }
    if p :| p in plan && p.before.id == i {
      var k :| 0 <= k < |plan| && plan[k] == p;
      ListedEdgeIsRestored(g.edges, before, plan, k);
    } else {
      UnlistedEdgeIsLeft(before, plan, i);
    }
  }

  // ----- what is said under an id

  ghost function SaysAt(edges: EdgeTable, i: RelationshipId): Option<Claim> {
    if i in edges then Some(edges[i].Says()) else None
  }

  // The last statement of an edge in these documents.
  ghost function LastWord(xs: seq<Event>, i: RelationshipId): Option<Relationship> {
    if xs == [] then None
    else
      var ev := xs[|xs| - 1];
      if ev.Extracted? && LastStated(ev.relationships, i).Some? then LastStated(ev.relationships, i)
      else LastWord(xs[..|xs| - 1], i)
  }

  lemma {:induction false} LastWordWasStated(xs: seq<Event>, i: RelationshipId)
    ensures LastWord(xs, i).Some? <==> exists r :: r in Stated(xs) && r.id == i
    ensures LastWord(xs, i).Some? ==> LastWord(xs, i).value in Stated(xs) && LastWord(xs, i).value.id == i
  {
    if xs != [] {
      LastWordWasStated(xs[..|xs| - 1], i);
      if xs[|xs| - 1].Extracted? {
        LastStatedIsStated(xs[|xs| - 1].relationships, i);
      }
    }
  }

  // An edge between `x` and `y`, there before these documents if `before`, is there after them: none
  // retracts an end of it later than the last to state it.
  ghost predicate Kept(xs: seq<Event>, i: RelationshipId, x: EntityId, y: EntityId, before: bool) {
    if xs == [] then before
    else
      var ev, earlier := xs[|xs| - 1], Kept(xs[..|xs| - 1], i, x, y, before);
      if !ev.Extracted? then earlier
      else LastStated(ev.relationships, i).Some? || (earlier && x !in ev.retracted && y !in ev.retracted)
  }

  // If every statement of an edge says one thing, so does what is left of it, as long as it is kept.
  lemma {:induction false} LeftIsKept(m: AliasTable, xs: seq<Event>, i: RelationshipId, before: Option<Relationship>, claim: Claim)
    requires before.Some? ==> before.value.Says() == claim && claim.source != claim.target
    requires forall r :: r in Stated(xs) && r.id == i ==> ResolvedEdge(m, r).Says() == claim
    ensures var left := Left(m, xs, i, before);
            && (left.Some? <==> claim.source != claim.target && Kept(xs, i, claim.source, claim.target, before.Some?))
            && (left.Some? ==> left.value.Says() == claim)
  {
    hide ResolvedEdge;
    if xs != [] {
      var n := |xs| - 1;
      LeftIsKept(m, xs[..n], i, before, claim);
      if xs[n].Extracted? {
        LastStatedIsStated(xs[n].relationships, i);
      }
    }
  }

  // An edge the merge changed, that would have been taken back since.
  ghost predicate RestoredThoughRetracted(log: seq<Event>, merge: Event, ys: seq<Event>, i: RelationshipId)
    requires merge.Merged?
  {
    && PassEdges.Lists(merge, i) && i in StoreAfter(log).edges
    && !Kept(ys, i, StoreAfter(log).edges[i].source, StoreAfter(log).edges[i].target, true)
  }

  // One first stated while the merge was in effect, about an entity it had absorbed, and still there: as it
  // was stated, or as the merge moved it.
  ghost predicate LeftBehind(log: seq<Event>, merge: Event, ys: seq<Event>, i: RelationshipId)
    requires merge.Merged?
  {
    && !PassEdges.Lists(merge, i) && LastWord(ys, i).Some?
    && var e := Reading(log, LastWord(ys, i).value);
       var moved := Moved(merge.canonical, merge.merged, e);
       && !e.IsSelfLoop() && OnAbsorbed(merge, e)
       && (Kept(ys, i, e.source, e.target, false)
           || (!moved.IsSelfLoop() && Kept(ys, i, moved.source, moved.target, false)))
  }

  // The two runs, just before the undo, under one id.
  lemma AgreeBeforeTheUndo(dumps: Renderer, log: seq<Event>, merge: Event, ys: seq<Event>, i: RelationshipId)
    requires MergedMeanwhile(dumps, log, merge, ys)
    ensures merge.Merged? && AgreeAt(log, merge, ys, ys, StoreAfter(With(log, merge, ys)).edges, StoreAfter(log + ys).edges, i)
  {
    hide MergedMeanwhile, AgreeAt, StoreAfter, Run;
    assert ys[..|ys|] == ys;
    StaySideBySide(dumps, log, merge, ys, |ys|);
  }

  lemma SaidOfAChangedEdge(dumps: Renderer, log: seq<Event>, merge: Event, ys: seq<Event>, i: RelationshipId)
    requires MergedMeanwhile(dumps, log, merge, ys) && merge.Merged? && PassEdges.Lists(merge, i)
    ensures i in StoreAfter(log).edges
    ensures var e := StoreAfter(log).edges[i];
            && SaysAt(StoreAfter(UndoneLater(log, merge, ys)).edges, i) == Some(e.Says())
            && SaysAt(StoreAfter(log + ys).edges, i) == if Kept(ys, i, e.source, e.target, true) then Some(e.Says()) else None
  {
    hide MergedMeanwhile, Run, InStep, StoreAfter, Sound, Kept, Left, SaysWhatWasStated, MayFollow, Absorb;
    var g, m := StoreAfter(log), Replay(log).aliasOf;
    EdgeAfterTheUndo(dumps, log, merge, ys, i);
    AgreeBeforeTheUndo(dumps, log, merge, ys, i);
    assert Concerned(log, merge, ys, i);
    WhenMerged(dumps, log, merge, ys);
    StepHas(Replay(log), g);
    forall r | r in Stated(ys) && r.id == i ensures ResolvedEdge(m, r).Says() == g.edges[i].Says() {
      StatedAgainToTheSameEffect(dumps, log, merge, ys, r);
    }
    assert EdgeAt(g.edges, i) == Some(g.edges[i]);
    assert EdgeAt(StoreAfter(UndoneLater(log, merge, ys)).edges, i) == Some(g.edges[i]);
    LeftIsKept(m, ys, i, Some(g.edges[i]), g.edges[i].Says());
  }

  lemma SaidOfANewEdge(dumps: Renderer, log: seq<Event>, merge: Event, ys: seq<Event>, i: RelationshipId)
    requires MergedMeanwhile(dumps, log, merge, ys) && merge.Merged? && !PassEdges.Lists(merge, i) && LastWord(ys, i).Some?
    requires OnAbsorbed(merge, Reading(log, LastWord(ys, i).value))
    ensures var e := Reading(log, LastWord(ys, i).value);
            var moved := Moved(merge.canonical, merge.merged, e);
            && SaysAt(StoreAfter(UndoneLater(log, merge, ys)).edges, i) ==
               (if !moved.IsSelfLoop() && Kept(ys, i, moved.source, moved.target, false) then Some(moved.Says()) else None)
            && SaysAt(StoreAfter(log + ys).edges, i) ==
               (if !e.IsSelfLoop() && Kept(ys, i, e.source, e.target, false) then Some(e.Says()) else None)
  {
    hide MergedMeanwhile, Run, InStep, StoreAfter, Sound, Kept, Left, SaysWhatWasStated, MayFollow, Absorb, Forest, Replay, Stated, Resolve, Apart, IdsFixClaims;
    var m, c, ds := Replay(log).aliasOf, merge.canonical, merge.merged;
    var w := LastWord(ys, i).value;
    EdgeAfterTheUndo(dumps, log, merge, ys, i);
    AgreeBeforeTheUndo(dumps, log, merge, ys, i);
    MeanwhileHas(dumps, log, merge, ys);
    WhenMerged(dumps, log, merge, ys);
    LastWordWasStated(ys, i);
    assert Concerned(log, merge, ys, i);
    ConcernedUnlistedIsNew(dumps, log, merge, ys, i);
    StepHas(Replay(log), StoreAfter(log));
    EdgeAfterTheMerge(dumps, log, merge, i);
    forall r | r in Stated(ys) && r.id == i
      ensures ResolvedEdge(m, r).Says() == Reading(log, w).Says()
      ensures ResolvedEdge(Absorb(m, c, ds), r).Says() == Moved(c, ds, Reading(log, w)).Says()
    {
      SameIdSameReading(m, Stated(log) + Stated(ys), r, w);
      ReadingMoves(m, c, ds, r);
    }
    LeftIsKept(m, ys, i, None, Reading(log, w).Says());
    LeftIsKept(Absorb(m, c, ds), ys, i, None, Moved(c, ds, Reading(log, w)).Says());
  }

  lemma SaidOfAnyOther(dumps: Renderer, log: seq<Event>, merge: Event, ys: seq<Event>, i: RelationshipId)
    requires MergedMeanwhile(dumps, log, merge, ys) && merge.Merged? && !Concerned(log, merge, ys, i)
    ensures EdgeAt(StoreAfter(UndoneLater(log, merge, ys)).edges, i) == EdgeAt(StoreAfter(log + ys).edges, i)
  {
    hide MergedMeanwhile, StoreAfter, Run;
    EdgeAfterTheUndo(dumps, log, merge, ys, i);
    AgreeBeforeTheUndo(dumps, log, merge, ys, i);
  }

  /**
   Under each id the undo leaves what there would be without the merge, unless it restores an edge that
   has been taken back since or leaves behind one first stated since about an absorbed entity.
   */
  lemma LaterUndoTakesTheMergeBackExactlyWhen(dumps: Renderer, log: seq<Event>, merge: Event, ys: seq<Event>, i: RelationshipId)
    requires MergedMeanwhile(dumps, log, merge, ys)
    ensures merge.Merged?
    ensures SaysAt(StoreAfter(UndoneLater(log, merge, ys)).edges, i) == SaysAt(StoreAfter(log + ys).edges, i)
            <==> !RestoredThoughRetracted(log, merge, ys, i) && !LeftBehind(log, merge, ys, i)
  {
    hide MergedMeanwhile, StoreAfter, Run, Kept, Replay, Stated, Resolve, UndoneLater, LastWord, ResolvedEdge;
    MeanwhileHas(dumps, log, merge, ys);
    LastWordWasStated(ys, i);
    if PassEdges.Lists(merge, i) {
      SaidOfAChangedEdge(dumps, log, merge, ys, i);
    } else if LastWord(ys, i).Some? && OnAbsorbed(merge, Reading(log, LastWord(ys, i).value)) {
      SaidOfANewEdge(dumps, log, merge, ys, i);
    } else {
      NotConcerned(dumps, log, merge, ys, i);
      SaidOfAnyOther(dumps, log, merge, ys, i);
    }
  }

  lemma NotConcerned(dumps: Renderer, log: seq<Event>, merge: Event, ys: seq<Event>, i: RelationshipId)
    requires MergedMeanwhile(dumps, log, merge, ys) && merge.Merged? && !PassEdges.Lists(merge, i)
    requires LastWord(ys, i).Some? ==> !OnAbsorbed(merge, Reading(log, LastWord(ys, i).value))
    ensures !Concerned(log, merge, ys, i)
  {
    hide Run, Apart, LastWord, Resolve, IdsFixClaims, Replay, Stated;
    LastWordWasStated(ys, i);
    if r :| r in Stated(ys) && r.id == i && OnAbsorbed(merge, Reading(log, r)) {
      SameIdSameReading(Replay(log).aliasOf, Stated(log) + Stated(ys), r, LastWord(ys, i).value);
    }
  }

  // With no retractions since, only new edges on absorbed entities are left behind, and nothing comes back.
  lemma WithoutRetractions(log: seq<Event>, merge: Event, ys: seq<Event>, i: RelationshipId)
    requires merge.Merged? && forall ev :: ev in ys && ev.Extracted? ==> ev.retracted == []
    ensures !RestoredThoughRetracted(log, merge, ys, i)
    ensures LeftBehind(log, merge, ys, i) <==>
            && !PassEdges.Lists(merge, i) && LastWord(ys, i).Some?
            && var e := Reading(log, LastWord(ys, i).value); !e.IsSelfLoop() && OnAbsorbed(merge, e)
  {
    hide Kept, LastWord, Resolve, Replay;
    if i in StoreAfter(log).edges {
      NothingTakenBack(ys, i, StoreAfter(log).edges[i].source, StoreAfter(log).edges[i].target, true);
    }
    if LastWord(ys, i).Some? {
      var e := Reading(log, LastWord(ys, i).value);
      NothingTakenBack(ys, i, e.source, e.target, false);
    }
  }

  lemma {:induction false} NothingTakenBack(xs: seq<Event>, i: RelationshipId, x: EntityId, y: EntityId, before: bool)
    requires forall ev :: ev in xs && ev.Extracted? ==> ev.retracted == []
    ensures Kept(xs, i, x, y, before) <==> before || LastWord(xs, i).Some?
  {
    if xs != [] {
      assert xs[|xs| - 1] in xs && forall ev :: ev in xs[..|xs| - 1] ==> ev in xs;
      NothingTakenBack(xs[..|xs| - 1], i, x, y, before);
    }
  }

  // The undo writes the canonical entity's fields as they were before the merge, over whatever has since been
  // said of it, a retraction included; every other row is as it would be without the merge.
  lemma RowsAfterTheUndo(dumps: Renderer, log: seq<Event>, merge: Event, ys: seq<Event>)
    requires MergedMeanwhile(dumps, log, merge, ys)
    ensures merge.Merged?
    ensures var undone, never := StoreAfter(UndoneLater(log, merge, ys)).entities, StoreAfter(log + ys).entities;
            var c, before := merge.canonical, StoreAfter(log).entities;
            && c in before && c in never
            && undone == never[c := never[c].WithFields(before[c].Fields())]
            && (undone == never <==> never[c].Fields() == before[c].Fields())
            && (IsRetracted(undone[c]) <==> IsRetracted(before[c]))
  {
    hide UndoFree, Run, InStep, IdsFixClaims, SaysWhatWasStated, Accepts, IsPlan, UndoOf, StoreAfter, Apart, AgreeAt, SameReadings, AliasesApart;
    assert ys[..|ys|] == ys;
    StaySideBySide(dumps, log, merge, ys, |ys|);
    WhenMerged(dumps, log, merge, ys);
    TheUndoIsAccepted(dumps, log, merge, ys);
  }

  // Everything since would have been made just so, had the merge never happened.
  lemma TheRestRunsWithoutTheMerge(dumps: Renderer, log: seq<Event>, merge: Event, ys: seq<Event>)
    requires MergedMeanwhile(dumps, log, merge, ys)
    ensures Run(dumps, log + ys) && InStep(Replay(log + ys), StoreAfter(log + ys))
  {
    hide MergedMeanwhile, Run, StoreAfter, InStep;
    assert ys[..|ys|] == ys;
    StaySideBySide(dumps, log, merge, ys, |ys|);
    NoUndosSoFar(dumps, log, merge, ys, |ys|);
    UndoFreeRunKeepsStep(dumps, log + ys);
  }

  // ----- stating the documents again

  ghost predicate Extractions(xs: seq<Event>) {
    forall ev :: ev in xs ==> ev.Extracted? && WellFormedExtraction(ev.entities, ev.relationships)
  }

  lemma {:induction false} FoldingOn(log: seq<Event>, xs: seq<Event>)
    ensures StoreAfter(log + xs) == FoldAll(StoreAfter(log), xs)
  {
    hide Fold;
    if xs == [] {
      assert log + xs == log;
    } else {
      var n := |xs| - 1;
      FoldingOn(log, xs[..n]);
      assert (log + xs)[..|log| + n] == log + xs[..n];
    }
  }

  lemma ExtractionsAreInStep(s: LogState, g: Graph, ev: Event)
    requires InStep(s, g) && ev.Extracted? && WellFormedExtraction(ev.entities, ev.relationships)
    ensures InStep(s, Fold(g, ev).graph) && Fold(g, ev).graph.aliases == g.aliases
  {
    hide InStep, WellFormedExtraction, FoldExtracted;
    ExtractionKeepsStep(s, g, ev.entities, ev.relationships, ev.retracted);
    ExtractionKeepsAliases(s, g, ev);
  }

  lemma {:induction false} EdgeAfterExtractions(s: LogState, g: Graph, xs: seq<Event>, i: RelationshipId)
    requires InStep(s, g) && Extractions(xs) && IdsFixClaims(Stated(xs))
    ensures EdgeAt(FoldAll(g, xs).edges, i) == Left(g.aliases, xs, i, EdgeAt(g.edges, i))
    ensures InStep(s, FoldAll(g, xs)) && FoldAll(g, xs).aliases == g.aliases
  {
    hide InStep, Fold, WellFormedExtraction, IdsFixClaims, WrittenBy, Cleared;
    if xs != [] {
      var n := |xs| - 1;
      var ev, before := xs[n], FoldAll(g, xs[..n]);
      assert ev in xs && forall ev :: ev in xs[..n] ==> ev in xs;
      FewerIdsFixClaims(Stated(xs), Stated(xs[..n]));
      FewerIdsFixClaims(Stated(xs), set r | r in ev.relationships);
      EdgeAfterExtractions(s, g, xs[..n], i);
      EdgeAfterOne(s, before, ev, i);
      ExtractionsAreInStep(s, before, ev);
    }
  }

  // Once an edge is stated, what was there before does not matter; if it never is, the aliases do not, and
  // taking back what is left takes back nothing more.
  lemma {:induction false} LeftForgets(m: AliasTable, m': AliasTable, xs: seq<Event>, i: RelationshipId,
                                       before: Option<Relationship>, other: Option<Relationship>)
    ensures LastWord(xs, i).Some? ==> Left(m, xs, i, before) == Left(m, xs, i, other)
    ensures LastWord(xs, i).None? ==>
              && Left(m, xs, i, before) == Left(m', xs, i, before)
              && (Left(m, xs, i, before) == None || Left(m, xs, i, before) == before)
  {
    hide WrittenBy;
    if xs != [] {
      LeftForgets(m, m', xs[..|xs| - 1], i, before, other);
    }
  }

  lemma LeftAgain(m: AliasTable, xs: seq<Event>, i: RelationshipId, before: Option<Relationship>)
    requires LastWord(xs, i).None?
    ensures Left(m, xs, i, Left(m, xs, i, before)) == Left(m, xs, i, before)
  {
    LeftForgets(m, m, xs, i, before, before);
    LeftForgets(m, m, xs, i, None, None);
  }

  // Extracting the documents again after the undo gives exactly the edges there would be without the merge.
  lemma StatingAgainRepairs(dumps: Renderer, log: seq<Event>, merge: Event, ys: seq<Event>)
    requires MergedMeanwhile(dumps, log, merge, ys) && Extractions(ys)
    ensures StoreAfter(UndoneLater(log, merge, ys) + ys).edges == StoreAfter(log + ys).edges
  {
    hide MergedMeanwhile, Run, InStep, IdsFixClaims, StoreAfter, FoldAll, Extractions, Replay, Stated, Apart, MayFollow, Sound;
    MeanwhileHas(dumps, log, merge, ys);
    var undone, m := UndoneLater(log, merge, ys), Replay(log).aliasOf;
    var g, h := StoreAfter(undone), StoreAfter(log);
    WhenMerged(dumps, log, merge, ys);
    TheUndoIsAccepted(dumps, log, merge, ys);
    FewerIdsFixClaims(Stated(log) + Stated(ys), Stated(ys));
    StepHas(Replay(log), h);
    FoldingOn(undone, ys);
    FoldingOn(log, ys);
    forall i ensures EdgeAt(StoreAfter(undone + ys).edges, i) == EdgeAt(StoreAfter(log + ys).edges, i) {
      EdgeAfterExtractions(Replay(undone), g, ys, i);
      EdgeAfterExtractions(Replay(log), h, ys, i);
      if LastWord(ys, i).Some? {
        LeftForgets(m, m, ys, i, EdgeAt(g.edges, i), EdgeAt(h.edges, i));
      } else {
        UnstatedAfterTheUndo(dumps, log, merge, ys, i);
        LeftAgain(m, ys, i, EdgeAt(h.edges, i));
      }
    }
    SameEdgesSameTable(StoreAfter(undone + ys).edges, StoreAfter(log + ys).edges);
  }

  lemma UnstatedAfterTheUndo(dumps: Renderer, log: seq<Event>, merge: Event, ys: seq<Event>, i: RelationshipId)
    requires MergedMeanwhile(dumps, log, merge, ys) && Extractions(ys) && LastWord(ys, i).None?
    ensures var g, h := StoreAfter(UndoneLater(log, merge, ys)), StoreAfter(log);
            EdgeAt(g.edges, i) == EdgeAt(h.edges, i)
            || EdgeAt(g.edges, i) == Left(Replay(log).aliasOf, ys, i, EdgeAt(h.edges, i))
  {
    hide MergedMeanwhile, Run, InStep, IdsFixClaims, StoreAfter, FoldAll, Extractions, Replay, Stated, Apart, MayFollow, Sound, Absorb;
    var m, h := Replay(log).aliasOf, StoreAfter(log);
    MeanwhileHas(dumps, log, merge, ys);
    WhenMerged(dumps, log, merge, ys);
    EdgeAfterTheUndo(dumps, log, merge, ys, i);
    if !PassEdges.Lists(merge, i) {
      NotConcerned(dumps, log, merge, ys, i);
      AgreeBeforeTheUndo(dumps, log, merge, ys, i);
      FewerIdsFixClaims(Stated(log) + Stated(ys), Stated(ys));
      StepHas(Replay(log), h);
      FoldingOn(log, ys);
      EdgeAfterExtractions(Replay(log), h, ys, i);
    }
  }
}
