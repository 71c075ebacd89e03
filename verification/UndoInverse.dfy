/**
 Merging and undoing, nested to any depth, gives back the same store: the same edges, the same
 aliases, the same fields in every entity.
 */
module UndoInverse {
  import opened Wrappers
  import opened Domain
  import opened AliasForest
  import opened MergeLog
  import opened MergeHistory
  import opened Planning
  import opened PlanEffect
  import opened GraphFold
  import opened Runs
  import opened RunClaims

  // Merges and undos, properly nested: a merge, whatever happens inside it, its undo, and the rest.
  datatype Nest = Nothing | Around(merge: Event, inside: Nest, rest: Nest)

  // The undo the aggregate derives from the record of `merge`.
  function UndoOfMerge(merge: Event): Event
    requires merge.Merged?
  {
    UndoOf(RecordOf(merge, false))
  }

  // The events as they are appended.
  function Events(nest: Nest): seq<Event> {
    match nest
    case Nothing => []
    case Around(merge, inside, rest) =>
      if merge.Merged? then [merge] + Events(inside) + [UndoOfMerge(merge)] + Events(rest) else []
  }

  // Each merge is accepted by the log and planned on the store as it is at that point.
  ghost predicate Performable(dumps: Renderer, nest: Nest, log: seq<Event>)
    decreases nest
  {
    match nest
    case Nothing => true
    case Around(merge, inside, rest) =>
      && merge.Merged?
      && MayFollow(dumps, log, merge)
      && Performable(dumps, inside, log + [merge])
      && Performable(dumps, rest, log + [merge] + Events(inside) + [UndoOfMerge(merge)])
  }

  // Same aliases, and the history only gained merges that are undone.
  ghost predicate OnlyUndoneMergesSince(s: LogState, s': LogState) {
    && s'.aliasOf == s.aliasOf
    && |s.merges| <= |s'.merges|
    && s'.merges[..|s.merges|] == s.merges
    && forall i :: |s.merges| <= i < |s'.merges| ==> s'.merges[i].undone
  }

  // After `later`, a continuation of `log`, the store is exactly what it was after `log`.
  ghost predicate RestoredBy(log: seq<Event>, later: seq<Event>) {
    && StoreAfter(later) == StoreAfter(log)
    && OnlyUndoneMergesSince(Replay(log), Replay(later))
    && InStep(Replay(later), StoreAfter(later))
  }

  lemma RestoringTwice(log: seq<Event>, later: seq<Event>, last: seq<Event>)
    requires RestoredBy(log, later) && RestoredBy(later, last)
    ensures RestoredBy(log, last)
  {
    var s, s', s'' := Replay(log), Replay(later), Replay(last);
    assert s''.merges[..|s.merges|] == s''.merges[..|s'.merges|][..|s.merges|];
    forall i | |s.merges| <= i < |s''.merges| ensures s''.merges[i].undone {
      if i < |s'.merges| {
        assert s''.merges[..|s'.merges|][i] == s'.merges[i];
      }
    }
  }

  lemma AppendingOne(log: seq<Event>, ev: Event)
    ensures Replay(log + [ev]) == Apply(Replay(log), ev)
    ensures StoreAfter(log + [ev]) == Fold(StoreAfter(log), ev).graph
  {
    assert (log + [ev])[..|log|] == log;
  }

  // Undoing a merge on the store the merge left gives back the store before it.
  lemma UndoReversesMerge(dumps: Renderer, g: Graph, merge: Event)
    requires Sound(g) && merge.Merged? && PlannedOn(dumps, g, merge)
    requires forall d :: d in merge.merged ==> d !in g.aliases
    ensures Fold(Fold(g, merge).graph, UndoOfMerge(merge)) == Folded(g, None)
  {
    hide PlannedEdges, Changes, After, ApplyRedirections, Upserted, Absorb, Release, Redirected, FirstMissing;
    var c, plan := merge.canonical, merge.redirections;
    var g1, undo := Fold(g, merge).graph, UndoOfMerge(merge);
    MergeFolds(dumps, g, merge);
    ApplyingThePlan(dumps, c, merge.merged, g.edges, plan);
    RestoringThePlan(dumps, c, merge.merged, g.edges, plan);
    assert undo.restored == Befores(plan);
    forall r | r in undo.restored ensures r.source in g1.entities && r.target in g1.entities {
      var k :| 0 <= k < |plan| && plan[k].before == r;
      assert plan[k] in plan;
    }
    NothingMissing(g1.entities, undo.restored);
    ReleaseUndoesAbsorb(g.aliases, c, merge.merged);
    var row := g.entities[c];
    assert row.WithFields(merge.resolution.value.after).WithFields(row.Fields()) == row;
    assert g1.entities[c := row] == g.entities;
  }

  // The record of an accepted merge, found again after anything that only added undone merges.
  lemma TheMergeIsStillInEffect(s: LogState, merge: Event, s': LogState)
    requires merge.Merged? && Consistent(s') && OnlyUndoneMergesSince(Apply(s, merge), s')
    ensures Accepts(s', UndoOfMerge(merge))
    ensures LastInEffect(s', |s.merges|) && s'.merges[|s.merges|] == RecordOf(merge, false)
  {
    var n := |s.merges|;
    assert s'.merges[n] == s'.merges[..n + 1][n] == RecordOf(merge, false);
    assert InEffect(s', n);
  }

  lemma UndoneMergeIsBehind(s: LogState, merge: Event, s': LogState)
    requires merge.Merged? && Accepts(s, merge) && Consistent(s') && OnlyUndoneMergesSince(Apply(s, merge), s')
    ensures OnlyUndoneMergesSince(s, Apply(s', UndoOfMerge(merge)))
  {
    var n := |s.merges|;
    TheMergeIsStillInEffect(s, merge, s');
    var u := UndoFlagsOneRecord(s', UndoOfMerge(merge));
    assert u == n;
    ReleaseUndoesAbsorb(s.aliasOf, merge.canonical, merge.merged);
    assert s'.merges[..n] == s'.merges[..n + 1][..n] == s.merges;
  }

  lemma NestedStep(dumps: Renderer, log: seq<Event>, merge: Event, within: seq<Event>)
    requires InStep(Replay(log), StoreAfter(log)) && merge.Merged? && MayFollow(dumps, log, merge)
    requires RestoredBy(log + [merge], within)
    ensures Accepts(Replay(within), UndoOfMerge(merge))
    ensures RestoredBy(log, within + [UndoOfMerge(merge)])
  {
    var s, s' := Replay(log), Replay(within);
    AppendingOne(log, merge);
    AppendingOne(within, UndoOfMerge(merge));
    TheMergeIsStillInEffect(s, merge, s');
    UndoneMergeIsBehind(s, merge, s');
    UndoReversesMerge(dumps, StoreAfter(log), merge);
    UndoOfLastKeepsStep(s', StoreAfter(within), UndoOfMerge(merge));
  }

  lemma MergeStep(dumps: Renderer, log: seq<Event>, merge: Event)
    requires InStep(Replay(log), StoreAfter(log)) && merge.Merged? && MayFollow(dumps, log, merge)
    ensures InStep(Replay(log + [merge]), StoreAfter(log + [merge]))
  {
    AppendingOne(log, merge);
    MergeFolds(dumps, StoreAfter(log), merge);
    MergeKeepsStep(dumps, Replay(log), StoreAfter(log), merge);
  }

  lemma NothingRestores(log: seq<Event>)
    requires InStep(Replay(log), StoreAfter(log))
    ensures RestoredBy(log, log + [])
  {
    assert log + [] == log;
  }

  lemma AroundRestores(dumps: Renderer, log: seq<Event>, merge: Event, inside: seq<Event>, rest: seq<Event>)
    requires InStep(Replay(log), StoreAfter(log)) && merge.Merged? && MayFollow(dumps, log, merge)
    requires RestoredBy(log + [merge], log + [merge] + inside)
    requires var closed := log + [merge] + inside + [UndoOfMerge(merge)];
             RestoredBy(closed, closed + rest)
    ensures RestoredBy(log, log + ([merge] + inside + [UndoOfMerge(merge)] + rest))
  {
    var closed := log + [merge] + inside + [UndoOfMerge(merge)];
    NestedStep(dumps, log, merge, log + [merge] + inside);
    RestoringTwice(log, closed, closed + rest);
    Regroup(log, [merge], inside, [UndoOfMerge(merge)], rest);
  }

  lemma Regroup(log: seq<Event>, a: seq<Event>, b: seq<Event>, c: seq<Event>, d: seq<Event>)
    ensures log + (a + b + c + d) == log + a + b + c + d
  {
  }

  lemma InsideRestores(dumps: Renderer, log: seq<Event>, merge: Event, inside: seq<Event>)
    requires InStep(Replay(log), StoreAfter(log)) && merge.Merged? && MayFollow(dumps, log, merge)
    requires RestoredBy(log + [merge], log + [merge] + inside)
    ensures var closed := log + [merge] + inside + [UndoOfMerge(merge)]; InStep(Replay(closed), StoreAfter(closed))
  {
    NestedStep(dumps, log, merge, log + [merge] + inside);
  }

  /** Any properly nested sequence of merges and undos restores the store exactly. */
  lemma {:induction false} NestedMergesAndUndosRestore(dumps: Renderer, nest: Nest, log: seq<Event>)
    requires InStep(Replay(log), StoreAfter(log)) && Performable(dumps, nest, log)
    ensures RestoredBy(log, log + Events(nest))
    decreases nest
  {
    match nest
    case Nothing =>
      NothingRestores(log);
    case Around(merge, inside, rest) =>
      MergeStep(dumps, log, merge);
      NestedMergesAndUndosRestore(dumps, inside, log + [merge]);
      InsideRestores(dumps, log, merge, Events(inside));
      NestedMergesAndUndosRestore(dumps, rest, log + [merge] + Events(inside) + [UndoOfMerge(merge)]);
      AroundRestores(dumps, log, merge, Events(inside), Events(rest));
  }

  // The plain case, after any run: merge, undo, and the store is what it was.
  lemma MergeThenUndoRestores(dumps: Renderer, log: seq<Event>, merge: Event)
    requires Run(dumps, log) && UndoesLatestFirst(log) && merge.Merged? && MayFollow(dumps, log, merge)
    ensures StoreAfter(log + [merge, UndoOfMerge(merge)]) == StoreAfter(log)
    ensures Accepts(Replay(log + [merge]), UndoOfMerge(merge))
  {
    RunsKeepStep(dumps, log);
    var nest := Around(merge, Nothing, Nothing);
    assert Events(nest) == [merge, UndoOfMerge(merge)];
    NestedMergesAndUndosRestore(dumps, nest, log);
    AppendingOne(log, merge);
    MergeStep(dumps, log, merge);
    TheMergeIsStillInEffect(Replay(log), merge, Replay(log + [merge]));
  }
}
