/**
 What a plan computed on the current edges achieves when it is applied, and why undoing
 it restores those edges exactly.
 */
module PlanEffect {
  import opened Wrappers
  import opened Domain
  import opened Planning

  type EdgeTable = map<RelationshipId, Relationship>

  // Edges are stored under their own ids.
  ghost predicate Keyed(edges: EdgeTable) {
    forall i :: i in edges ==> edges[i].id == i
  }

  ghost predicate NoSelfLoops(edges: EdgeTable) {
    forall i :: i in edges ==> !edges[i].IsSelfLoop()
  }

  ghost predicate NoEdgeOn(edges: EdgeTable, es: seq<EntityId>) {
    forall i, e :: i in edges && e in es ==> !edges[i].Touches(e)
  }

  ghost function Claims(edges: EdgeTable): set<Claim> {
    set i | i in edges :: edges[i].Says()
  }

  function EdgeAt(edges: EdgeTable, i: RelationshipId): Option<Relationship> {
    if i in edges then Some(edges[i]) else None
  }

  lemma SameEdgesSameTable(a: EdgeTable, b: EdgeTable)
    requires forall i :: EdgeAt(a, i) == EdgeAt(b, i)
    ensures a == b
  {
    forall i ensures (i in a <==> i in b) && (i in a ==> a[i] == b[i]) {
      assert EdgeAt(a, i) == EdgeAt(b, i);
    }
  }

  // ----- applying and reversing redirections

  function ApplyRedirection(edges: EdgeTable, r: Redirection): EdgeTable {
    match r.after
    case None => edges - {r.before.id}
    case Some(moved) => edges[moved.id := moved]
  }

  function ApplyRedirections(edges: EdgeTable, plan: seq<Redirection>): EdgeTable {
    if plan == [] then edges
    else ApplyRedirection(ApplyRedirections(edges, plan[..|plan| - 1]), plan[|plan| - 1])
  }

  function Upserted(edges: EdgeTable, rs: seq<Relationship>): EdgeTable {
    if rs == [] then edges
    else Upserted(edges, rs[..|rs| - 1])[rs[|rs| - 1].id := rs[|rs| - 1]]
  }

  function Befores(plan: seq<Redirection>): seq<Relationship> {
    seq(|plan|, i requires 0 <= i < |plan| => plan[i].before)
  }

  // `RelationshipRedirection` refuses an `after` that is not the same edge.
  ghost predicate MovesKeepIds(plan: seq<Redirection>) {
    forall p :: p in plan && p.after.Some? ==> p.after.value.id == p.before.id
  }

  lemma {:induction false} RedirectionsLeaveOthers(edges: EdgeTable, plan: seq<Redirection>, i: RelationshipId)
    requires MovesKeepIds(plan) && forall p :: p in plan ==> p.before.id != i
    ensures EdgeAt(ApplyRedirections(edges, plan), i) == EdgeAt(edges, i)
  {
    if plan != [] {
      RedirectionsLeaveOthers(edges, plan[..|plan| - 1], i);
    }
  }

  lemma {:induction false} RedirectionsWrite(edges: EdgeTable, plan: seq<Redirection>, k: nat)
    requires MovesKeepIds(plan) && UniqueBefore(plan) && k < |plan|
    ensures EdgeAt(ApplyRedirections(edges, plan), plan[k].before.id) == plan[k].after
  {
    var n := |plan| - 1;
    if k < n {
      RedirectionsWrite(edges, plan[..n], k);
      assert plan[n] in plan;
    } else {
      assert plan[n] in plan;
    }
  }

  lemma {:induction false} UpsertedAt(edges: EdgeTable, rs: seq<Relationship>, i: RelationshipId)
    ensures (forall r :: r in rs ==> r.id != i) ==> EdgeAt(Upserted(edges, rs), i) == EdgeAt(edges, i)
    ensures (exists r :: r in rs && r.id == i) ==> i in Upserted(edges, rs) && Upserted(edges, rs)[i] in rs && Upserted(edges, rs)[i].id == i
  {
    if rs != [] {
      UpsertedAt(edges, rs[..|rs| - 1], i);
      assert rs == rs[..|rs| - 1] + [rs[|rs| - 1]];
    }
  }

  // The last edge stated under an id.
  function LastStated(rs: seq<Relationship>, i: RelationshipId): Option<Relationship> {
    if rs == [] then None
    else if rs[|rs| - 1].id == i then Some(rs[|rs| - 1])
    else LastStated(rs[..|rs| - 1], i)
  }

  lemma {:induction false} TheLastStatedIsWritten(edges: EdgeTable, rs: seq<Relationship>, i: RelationshipId)
    ensures var last := LastStated(rs, i);
            EdgeAt(Upserted(edges, rs), i) == if last.Some? then last else EdgeAt(edges, i)
    ensures LastStated(rs, i).Some? ==> LastStated(rs, i).value in rs && LastStated(rs, i).value.id == i
  {
    if rs != [] {
      TheLastStatedIsWritten(edges, rs[..|rs| - 1], i);
    }
  }

  lemma {:induction false} LastStatedIsStated(rs: seq<Relationship>, i: RelationshipId)
    ensures LastStated(rs, i).Some? <==> exists r :: r in rs && r.id == i
    ensures LastStated(rs, i).Some? ==> LastStated(rs, i).value in rs && LastStated(rs, i).value.id == i
  {
    if rs != [] {
      var n := |rs| - 1;
      LastStatedIsStated(rs[..n], i);
      assert rs == rs[..n] + [rs[n]];
    }
  }

  // ----- the edges touching the group determine the plan

  ghost function RelevantEdges(c: EntityId, ds: seq<EntityId>, edges: set<Relationship>): set<Relationship> {
    set r | r in edges && Relevant(c, ds, r)
  }

  lemma {:induction false} SortedPlansWithTheSameElementsAreEqual(p: seq<Redirection>, q: seq<Redirection>)
    requires SortedById(p) && SortedById(q)
    requires forall r :: r in p <==> r in q
    ensures p == q
  {
    assert |q| > 0 ==> q[0] in p;
    if p != [] {
      assert p[0] in q && q[0] in p;
      assert p[0] == q[0];
      forall r ensures r in p[1..] <==> r in q[1..] {
        if r in p[1..] {
          assert r in p && r != p[0];
        }
        if r in q[1..] {
          assert r in q && r != q[0];
        }
      }
      SortedPlansWithTheSameElementsAreEqual(p[1..], q[1..]);
      assert p == [p[0]] + p[1..] && q == [q[0]] + q[1..];
    }
  }

  // Two plans made from the same edges touching the group, listed in any order and among any
  // other edges, are the same list.
  lemma PlanIsUnique(dumps: Renderer, c: EntityId, ds: seq<EntityId>, edges: set<Relationship>, others: set<Relationship>,
                     p: seq<Redirection>, q: seq<Redirection>)
    requires RelevantEdges(c, ds, edges) == RelevantEdges(c, ds, others)
    requires IsPlan(dumps, c, ds, edges, p) && IsPlan(dumps, c, ds, others, q)
    ensures p == q
  {
    PlanIgnoresOtherEdges(dumps, c, ds, edges, others, p);
    forall r ensures r in p <==> r in q {
      if r in p {
        assert Redirection(r.before, After(dumps, c, ds, others, r.before)) in q;
      }
      if r in q {
        assert Redirection(r.before, After(dumps, c, ds, others, r.before)) in p;
      }
    }
    SortedPlansWithTheSameElementsAreEqual(p, q);
  }

  lemma PlanIgnoresOtherEdges(dumps: Renderer, c: EntityId, ds: seq<EntityId>, edges: set<Relationship>, others: set<Relationship>,
                              plan: seq<Redirection>)
    requires RelevantEdges(c, ds, edges) == RelevantEdges(c, ds, others)
    requires IsPlan(dumps, c, ds, edges, plan)
    ensures IsPlan(dumps, c, ds, others, plan)
  {
    assert forall r :: Relevant(c, ds, r) ==> (r in edges <==> r in RelevantEdges(c, ds, edges));
    assert forall r :: Relevant(c, ds, r) ==> (r in others <==> r in RelevantEdges(c, ds, others));
    forall r ensures After(dumps, c, ds, edges, r) == After(dumps, c, ds, others, r) {
      assert Loses(dumps, c, ds, edges, r) <==> Loses(dumps, c, ds, others, r);
    }
  }

  // ----- the planned edge table

  ghost function PlannedEdges(dumps: Renderer, c: EntityId, ds: seq<EntityId>, edges: EdgeTable): EdgeTable {
    map i | i in edges && After(dumps, c, ds, edges.Values, edges[i]).Some? :: After(dumps, c, ds, edges.Values, edges[i]).value
  }

  lemma ApplyingThePlan(dumps: Renderer, c: EntityId, ds: seq<EntityId>, edges: EdgeTable, plan: seq<Redirection>)
    requires Keyed(edges) && IsPlan(dumps, c, ds, edges.Values, plan)
    ensures MovesKeepIds(plan)
    ensures ApplyRedirections(edges, plan) == PlannedEdges(dumps, c, ds, edges)
  {
    var applied, planned := ApplyRedirections(edges, plan), PlannedEdges(dumps, c, ds, edges);
    forall i ensures EdgeAt(applied, i) == EdgeAt(planned, i) {
      if k :| 0 <= k < |plan| && plan[k].before.id == i {
        RedirectionsWrite(edges, plan, k);
        assert plan[k] in plan;
        assert plan[k].before == edges[i];
      } else {
        RedirectionsLeaveOthers(edges, plan, i);
        if i in edges {
          assert edges[i] in edges.Values;
          assert !Changes(dumps, c, ds, edges.Values, edges[i]);
        }
      }
    }
    SameEdgesSameTable(applied, planned);
  }

  // A listed edge is put back by upserting the recorded ones.
  lemma ListedEdgeIsRestored(edges: EdgeTable, later: EdgeTable, plan: seq<Redirection>, k: nat)
    requires k < |plan| && (forall p :: p in plan ==> p.before.id in edges && edges[p.before.id] == p.before)
    ensures EdgeAt(Upserted(later, Befores(plan)), plan[k].before.id) == Some(edges[plan[k].before.id])
  {
    var i := plan[k].before.id;
    UpsertedAt(later, Befores(plan), i);
    assert Befores(plan)[k] in Befores(plan);
    var j :| 0 <= j < |plan| && Befores(plan)[j] == Upserted(later, Befores(plan))[i];
    assert plan[j] in plan;
  }

  // Any other is left alone.
  lemma UnlistedEdgeIsLeft(later: EdgeTable, plan: seq<Redirection>, i: RelationshipId)
    requires forall p :: p in plan ==> p.before.id != i
    ensures EdgeAt(Upserted(later, Befores(plan)), i) == EdgeAt(later, i)
  {
    UpsertedAt(later, Befores(plan), i);
    forall r | r in Befores(plan) ensures r.id != i {
      var j :| 0 <= j < |plan| && Befores(plan)[j] == r;
      assert plan[j] in plan;
    }
  }

  // Upserting every `before` puts back each moved edge and each dropped one.
  lemma RestoringThePlan(dumps: Renderer, c: EntityId, ds: seq<EntityId>, edges: EdgeTable, plan: seq<Redirection>)
    requires Keyed(edges) && IsPlan(dumps, c, ds, edges.Values, plan)
    ensures Upserted(ApplyRedirections(edges, plan), Befores(plan)) == edges
  {
    var applied := ApplyRedirections(edges, plan);
    ApplyingThePlan(dumps, c, ds, edges, plan);
    hide IsPlan, Upserted, ApplyRedirections;
    PlanNamesEdges(dumps, c, ds, edges, plan);
    forall i ensures EdgeAt(Upserted(applied, Befores(plan)), i) == EdgeAt(edges, i) {
      if k :| 0 <= k < |plan| && plan[k].before.id == i {
        assert plan[k] in plan;
        ListedEdgeIsRestored(edges, applied, plan, k);
      } else {
        forall p | p in plan ensures p.before.id != i {
          var k :| 0 <= k < |plan| && plan[k] == p;
        }
        UnlistedEdgeIsLeft(applied, plan, i);
        RedirectionsLeaveOthers(edges, plan, i);
      }
    }
    SameEdgesSameTable(Upserted(applied, Befores(plan)), edges);
  }

  lemma PlanNamesEdges(dumps: Renderer, c: EntityId, ds: seq<EntityId>, edges: EdgeTable, plan: seq<Redirection>)
    requires Keyed(edges) && IsPlan(dumps, c, ds, edges.Values, plan)
    ensures forall p :: p in plan ==> p.before.id in edges && edges[p.before.id] == p.before
  {
    hide Changes, After;
    forall p | p in plan ensures p.before.id in edges && edges[p.before.id] == p.before {
      assert p.before in edges.Values;
    }
  }

  // ----- what the planned edges are

  // Among the edges competing with `r` there is one none of the others outranks.
  lemma {:induction false} SomeEdgeWins(dumps: Renderer, competing: set<Relationship>) returns (w: Relationship)
    requires DistinctIds(competing) && competing != {}
    ensures w in competing && forall r :: r in competing ==> !Below(dumps, w, r)
    decreases |competing|
  {
    var r :| r in competing;
    var others := competing - {r};
    assert competing == others + {r};
    if others == {} {
      w := r;
      BelowIsTotal(dumps, r, r);
    } else {
      var best := SomeEdgeWins(dumps, others);
      BelowIsTotal(dumps, best, r);
      BelowIsTotal(dumps, r, r);
      if Below(dumps, best, r) {
        w := r;
        forall o | o in others ensures !Below(dumps, r, o) {
          if Below(dumps, r, o) {
            BelowIsTransitive(dumps, best, r, o);
          }
        }
      } else {
        w := best;
      }
    }
  }

  lemma TableHasDistinctIds(edges: EdgeTable)
    requires Keyed(edges)
    ensures DistinctIds(edges.Values)
  {
  }

  // The claim of an edge that does not collapse survives the merge, on the best edge making it.
  lemma ClaimSurvives(dumps: Renderer, c: EntityId, ds: seq<EntityId>, edges: EdgeTable, i: RelationshipId) returns (j: RelationshipId)
    requires Keyed(edges) && i in edges && Relevant(c, ds, edges[i]) && !Moved(c, ds, edges[i]).IsSelfLoop()
    ensures j in PlannedEdges(dumps, c, ds, edges)
    ensures PlannedEdges(dumps, c, ds, edges)[j] == Moved(c, ds, edges[j])
    ensures Moved(c, ds, edges[j]).Says() == Moved(c, ds, edges[i]).Says()
    ensures forall k :: k in edges && Compete(c, ds, edges[i], edges[k]) ==> !Below(dumps, edges[j], edges[k])
  {
    hide Below;
    var r := edges[i];
    var competing := set other | other in edges.Values && Compete(c, ds, r, other);
    TableHasDistinctIds(edges);
    assert r in competing;
    var w := SomeEdgeWins(dumps, competing);
    j := w.id;
    forall other | other in edges.Values && Compete(c, ds, w, other) ensures !Below(dumps, w, other) {
      assert other in competing;
    }
    assert !Loses(dumps, c, ds, edges.Values, w);
    forall k | k in edges && Compete(c, ds, edges[i], edges[k]) ensures !Below(dumps, w, edges[k]) {
      assert edges[k] in competing;
    }
  }

  // Exactly the redirected claims that are not self-loops are kept.
  lemma PlannedClaims(dumps: Renderer, c: EntityId, ds: seq<EntityId>, edges: EdgeTable)
    requires Keyed(edges) && NoSelfLoops(edges)
    ensures Claims(PlannedEdges(dumps, c, ds, edges)) ==
            set i | i in edges && !Moved(c, ds, edges[i]).IsSelfLoop() :: Moved(c, ds, edges[i]).Says()
  {
    var planned := PlannedEdges(dumps, c, ds, edges);
    forall i | i in edges && !Moved(c, ds, edges[i]).IsSelfLoop() ensures Moved(c, ds, edges[i]).Says() in Claims(planned) {
      if Relevant(c, ds, edges[i]) {
        var j := ClaimSurvives(dumps, c, ds, edges, i);
        assert planned[j].Says() in Claims(planned);
      } else {
        assert planned[i] == edges[i] == Moved(c, ds, edges[i]);
      }
    }
    forall i | i in planned
      ensures !Moved(c, ds, edges[i]).IsSelfLoop() && planned[i].Says() == Moved(c, ds, edges[i]).Says()
    {
      assert !Relevant(c, ds, edges[i]) ==> Moved(c, ds, edges[i]) == edges[i];
    }
  }

  // No edge is left on an absorbed entity, none becomes a self-loop, every edge stays under its
  // id, and an edge touching nothing in the group is exactly as it was.
  lemma PlannedShape(dumps: Renderer, c: EntityId, ds: seq<EntityId>, edges: EdgeTable)
    requires Keyed(edges) && NoSelfLoops(edges) && c !in ds
    ensures var planned := PlannedEdges(dumps, c, ds, edges);
            Keyed(planned) && NoSelfLoops(planned) && NoEdgeOn(planned, ds)
    ensures forall i :: i in edges && !Relevant(c, ds, edges[i]) ==>
              EdgeAt(PlannedEdges(dumps, c, ds, edges), i) == Some(edges[i])
  {
  }

  // Edges left on the canonical entity all say different things.
  lemma OneEdgePerClaim(dumps: Renderer, c: EntityId, ds: seq<EntityId>, edges: EdgeTable, i: RelationshipId, j: RelationshipId)
    requires Keyed(edges) && c !in ds
    requires var planned := PlannedEdges(dumps, c, ds, edges);
             i in planned && j in planned && planned[i].Touches(c) && planned[i].Says() == planned[j].Says()
    ensures i == j
  {
    var a, b := edges[i], edges[j];
    assert a in edges.Values && b in edges.Values;
    BelowIsTotal(dumps, a, b);
    assert Compete(c, ds, a, b) && Compete(c, ds, b, a);
  }
}
