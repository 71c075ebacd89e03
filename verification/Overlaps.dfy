/**
 Two merges whose groups meet in an edge: undoing the first leaves the second's decision standing, and
 with it a claim is lost that neither merge alone would have cost.
 */
module Overlaps {
  import opened Wrappers
  import opened Domain
  import opened AliasForest
  import opened MergeLog
  import opened Planning
  import opened PlanEffect
  import opened GraphFold
  import opened Runs
  import opened RunClaims
  import opened UndoInverse
  import opened Counterexamples
  import Document

  // The first entity knows the fourth, the second knows the third.
  const ONE_KNOWS := Relationship(10, 1, 4, "knows", None, map[], 0.5)

  const TWO_KNOWS := Relationship(11, 2, 3, "knows", None, map[], 0.5)

  const PAPER := Extracted([Row(1), Row(2), Row(3), Row(4)], [ONE_KNOWS, TWO_KNOWS], [])

  const ARCHIVE := Graph(ROWS, map[10 := ONE_KNOWS, 11 := TWO_KNOWS], map[])

  // The second is absorbed into the first: two edges from the first.
  const MOVED := Relationship(11, 1, 3, "knows", None, map[], 0.5)

  const FIRST := Merged(0, 1, [2], [Redirection(TWO_KNOWS, Some(MOVED))], Some(Resolution(1, NO_FIELDS, NO_FIELDS)))

  // The fourth is absorbed into the third: now they say the same, and the one with the lower id is dropped.
  const SECOND := Merged(1, 3, [4], [Redirection(ONE_KNOWS, None)], Some(Resolution(3, NO_FIELDS, NO_FIELDS)))

  // The same merge had the first never happened: it drops nothing.
  const ALONE := Merged(1, 3, [4], [Redirection(ONE_KNOWS, Some(ONE_KNOWS.Between(1, 3)))], Some(Resolution(3, NO_FIELDS, NO_FIELDS)))

  lemma FirstIsPlanned(dumps: Renderer)
    ensures IsPlan(dumps, 1, [2], {ONE_KNOWS, TWO_KNOWS}, FIRST.redirections)
  {
    BelowIsTotal(dumps, ONE_KNOWS, ONE_KNOWS);
    BelowIsTotal(dumps, TWO_KNOWS, TWO_KNOWS);
    var edges := {ONE_KNOWS, TWO_KNOWS};
    assert !Loses(dumps, 1, [2], edges, ONE_KNOWS) && !Loses(dumps, 1, [2], edges, TWO_KNOWS);
    assert Moved(1, [2], ONE_KNOWS) == ONE_KNOWS && Moved(1, [2], TWO_KNOWS) == MOVED;
    assert After(dumps, 1, [2], edges, ONE_KNOWS) == Some(ONE_KNOWS) && After(dumps, 1, [2], edges, TWO_KNOWS) == Some(MOVED);
  }

  lemma SecondIsPlanned(dumps: Renderer)
    ensures IsPlan(dumps, 3, [4], {ONE_KNOWS, MOVED}, SECOND.redirections)
  {
    BelowIsTotal(dumps, MOVED, MOVED);
    BelowIsTotal(dumps, ONE_KNOWS, MOVED);
    var edges := {ONE_KNOWS, MOVED};
    assert Compete(3, [4], ONE_KNOWS, MOVED) && Below(dumps, ONE_KNOWS, MOVED);
    assert Loses(dumps, 3, [4], edges, ONE_KNOWS) && !Loses(dumps, 3, [4], edges, MOVED);
    assert Moved(3, [4], MOVED) == MOVED;
    assert After(dumps, 3, [4], edges, ONE_KNOWS) == None && After(dumps, 3, [4], edges, MOVED) == Some(MOVED);
  }

  lemma AloneIsPlanned(dumps: Renderer)
    ensures IsPlan(dumps, 3, [4], {ONE_KNOWS, TWO_KNOWS}, ALONE.redirections)
  {
    BelowIsTotal(dumps, ONE_KNOWS, ONE_KNOWS);
    BelowIsTotal(dumps, TWO_KNOWS, TWO_KNOWS);
    var edges := {ONE_KNOWS, TWO_KNOWS};
    assert !Loses(dumps, 3, [4], edges, ONE_KNOWS) && !Loses(dumps, 3, [4], edges, TWO_KNOWS);
    assert Moved(3, [4], TWO_KNOWS) == TWO_KNOWS;
    assert After(dumps, 3, [4], edges, TWO_KNOWS) == Some(TWO_KNOWS);
  }

  lemma ThePaperIsWellFormed()
    ensures WellFormedExtraction(PAPER.entities, PAPER.relationships)
  {
    assert Row(1) in PAPER.entities && Row(2) in PAPER.entities && Row(3) in PAPER.entities && Row(4) in PAPER.entities;
  }

  lemma TheTwoAreUpserted()
    ensures Upserted(map[], [ONE_KNOWS, TWO_KNOWS]) == map[10 := ONE_KNOWS, 11 := TWO_KNOWS]
  {
    assert [ONE_KNOWS, TWO_KNOWS][..1] == [ONE_KNOWS];
    UpsertingOne(map[], ONE_KNOWS);
  }

  lemma ThePaperRuns(dumps: Renderer)
    ensures Run(dumps, [PAPER]) && StoreAfter([PAPER]) == ARCHIVE && Replay([PAPER]) == EMPTY_STATE
  {
    hide UpsertedEntities, FoldExtracted, LiveEdges, WithoutCollapsed, WellFormedExtraction, Walk, Resolve, Upserted;
    TheRowsAreWritten();
    ThePaperIsWellFormed();
    Document.NoAliases(0);
    ExtractionFolds(EMPTY_GRAPH, PAPER.entities, [ONE_KNOWS, TWO_KNOWS], []);
    Document.StatedEdgesAreLive([ONE_KNOWS, TWO_KNOWS]);
    Document.NoStatedEdgeCollapses(map[], [ONE_KNOWS, TWO_KNOWS]);
    TheTwoAreUpserted();
    OneMoreEvent(dumps, [], PAPER);
    assert [] + [PAPER] == [PAPER];
  }

  // Folding one of these merges: one edge is changed, and no row is.
  lemma OneChangeFolds(dumps: Renderer, log: seq<Event>, g: Graph, ev: Event, edges: EdgeTable)
    requires Run(dumps, log) && StoreAfter(log) == g && g.entities == ROWS && ev in {FIRST, SECOND, ALONE}
    requires Accepts(Replay(log), ev) && IsPlan(dumps, ev.canonical, ev.merged, g.edges.Values, ev.redirections)
    requires edges == ApplyRedirection(g.edges, ev.redirections[0])
    ensures Run(dumps, log + [ev]) && Replay(log + [ev]) == Apply(Replay(log), ev)
    ensures StoreAfter(log + [ev]) == Graph(ROWS, edges, Absorb(g.aliases, ev.canonical, ev.merged))
  {
    hide Fold, IsPlan, Accepts, Apply, Absorb;
    assert Row(ev.canonical).WithFields(NO_FIELDS) == Row(ev.canonical);
    assert ROWS[ev.canonical := Row(ev.canonical)] == ROWS;
    assert AftersPresent(ROWS, ev.redirections);
    assert ev.redirections[..0] == [];
    assert ApplyRedirections(g.edges, ev.redirections) == edges;
    PresentMergeFolds(g, ev);
    OneMoreEvent(dumps, log, ev);
  }

  lemma TwoEdges(a: Relationship, b: Relationship)
    requires a.id != b.id
    ensures map[a.id := a, b.id := b].Values == {a, b}
  {
    var edges := map[a.id := a, b.id := b];
    assert edges[a.id] == a && edges[b.id] == b;
  }

  const BETWEEN: EdgeTable := map[10 := ONE_KNOWS, 11 := MOVED]

  lemma AfterTheFirst(dumps: Renderer)
    ensures Run(dumps, [PAPER, FIRST]) && StoreAfter([PAPER, FIRST]) == Graph(ROWS, BETWEEN, map[2 := 1])
    ensures Replay([PAPER, FIRST]) == LogState([RecordOf(FIRST, false)], map[2 := 1])
  {
    hide IsPlan, Fold, Run, StoreAfter, Replay;
    ThePaperRuns(dumps);
    FirstIsPlanned(dumps);
    TwoEdges(ONE_KNOWS, TWO_KNOWS);
    OneChangeFolds(dumps, [PAPER], ARCHIVE, FIRST, BETWEEN);
    assert Absorb(map[], 1, [2]) == map[2 := 1];
    assert [PAPER] + [FIRST] == [PAPER, FIRST];
  }

  lemma AfterBoth(dumps: Renderer)
    ensures Run(dumps, [PAPER, FIRST, SECOND])
    ensures StoreAfter([PAPER, FIRST, SECOND]) == Graph(ROWS, map[11 := MOVED], map[2 := 1, 4 := 3])
    ensures Replay([PAPER, FIRST, SECOND]) == LogState([RecordOf(FIRST, false), RecordOf(SECOND, false)], map[2 := 1, 4 := 3])
  {
    hide IsPlan, Fold, Run, StoreAfter, Replay;
    AfterTheFirst(dumps);
    SecondIsPlanned(dumps);
    TwoEdges(ONE_KNOWS, MOVED);
    assert BETWEEN - {10} == map[11 := MOVED];
    OneChangeFolds(dumps, [PAPER, FIRST], Graph(ROWS, BETWEEN, map[2 := 1]), SECOND, map[11 := MOVED]);
    assert Absorb(map[2 := 1], 3, [4]) == map[2 := 1, 4 := 3];
    assert [PAPER, FIRST] + [SECOND] == [PAPER, FIRST, SECOND];
  }

  /**
   The run with the first merge and its undo ends without what the first entity knows; the run without
   them ends with it.
   */
  lemma AnUndoneMergeCanCostAClaim(dumps: Renderer)
    ensures Run(dumps, [PAPER, FIRST, SECOND, UndoOfMerge(FIRST)]) && Run(dumps, [PAPER, ALONE])
    ensures Claims(StoreAfter([PAPER, FIRST, SECOND, UndoOfMerge(FIRST)]).edges) == {Claim(2, 3, "knows")}
    ensures Claims(StoreAfter([PAPER, ALONE]).edges) == {Claim(1, 3, "knows"), Claim(2, 3, "knows")}
  {
    hide IsPlan, Fold, Run, StoreAfter, Replay, Apply, MayFollow, Upserted;
    var three, undo := [PAPER, FIRST, SECOND], UndoOfMerge(FIRST);
    AfterBoth(dumps);
    UndoFollows(dumps, three);
    OneMoreEvent(dumps, three, undo);
    assert three + [undo] == [PAPER, FIRST, SECOND, undo];
    OneEdgeIsPutBack(StoreAfter(three), FIRST, TWO_KNOWS);
    assert map[11 := MOVED][11 := TWO_KNOWS] == map[11 := TWO_KNOWS];
    OneClaim(TWO_KNOWS);
    WithoutTheFirst(dumps);
  }

  lemma UndoFollows(dumps: Renderer, log: seq<Event>)
    requires Replay(log) == LogState([RecordOf(FIRST, false), RecordOf(SECOND, false)], map[2 := 1, 4 := 3])
    ensures MayFollow(dumps, log, UndoOfMerge(FIRST))
  {
    hide Replay;
    var s := Replay(log);
    assert InEffect(s, 0) && s.merges[0] == RecordOf(FIRST, false);
  }

  lemma OneClaim(r: Relationship)
    ensures Claims(map[r.id := r]) == {r.Says()}
  {
    assert map[r.id := r][r.id].Says() in Claims(map[r.id := r]);
  }

  lemma WithoutTheFirst(dumps: Renderer)
    ensures Run(dumps, [PAPER, ALONE])
    ensures Claims(StoreAfter([PAPER, ALONE]).edges) == {Claim(1, 3, "knows"), Claim(2, 3, "knows")}
  {
    hide IsPlan, Fold, Run, StoreAfter, Replay;
    var moved := ONE_KNOWS.Between(1, 3);
    var edges := map[10 := moved, 11 := TWO_KNOWS];
    ThePaperRuns(dumps);
    AloneIsPlanned(dumps);
    TwoEdges(ONE_KNOWS, TWO_KNOWS);
    OneChangeFolds(dumps, [PAPER], ARCHIVE, ALONE, edges);
    assert [PAPER] + [ALONE] == [PAPER, ALONE];
    assert edges[10].Says() in Claims(edges) && edges[11].Says() in Claims(edges);
  }
}
