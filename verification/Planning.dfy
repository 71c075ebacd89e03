/**
 The edge planner.  For the canonical entity and the ones it absorbs it lists every edge that
 has to change, and for each where it goes or that it goes away.
 */
module Planning {
  import opened Wrappers
  import opened Domain

  // The canonical JSON rendering of a property bag, used only as a tie-break.
  type Renderer = Properties -> string

  // ----- which of two parallel edges is the better description

  // `a` ranks strictly below `b` on confidence, then on how much it says, then on its rendering.
  predicate SaysLess(dumps: Renderer, a: Relationship, b: Relationship) {
    if a.confidence != b.confidence then a.confidence < b.confidence
    else if |a.properties| != |b.properties| then |a.properties| < |b.properties|
    else StringLess(dumps(a.properties), dumps(b.properties))
  }

  predicate SaysAsMuch(dumps: Renderer, a: Relationship, b: Relationship) {
    a.confidence == b.confidence && |a.properties| == |b.properties| && dumps(a.properties) == dumps(b.properties)
  }

  // Rivals for one claim are ranked by this, and equals by id.
  predicate Below(dumps: Renderer, a: Relationship, b: Relationship) {
    SaysLess(dumps, a, b) || (SaysAsMuch(dumps, a, b) && a.id < b.id)
  }

  lemma BelowIsTotal(dumps: Renderer, a: Relationship, b: Relationship)
    ensures a.id != b.id ==> Below(dumps, a, b) || Below(dumps, b, a)
    ensures !(Below(dumps, a, b) && Below(dumps, b, a))
  {
    StringOrderIsTotal(dumps(a.properties), dumps(b.properties));
  }

  lemma BelowIsTransitive(dumps: Renderer, a: Relationship, b: Relationship, c: Relationship)
    requires Below(dumps, a, b) && Below(dumps, b, c)
    ensures Below(dumps, a, c)
  {
    var x, y, z := dumps(a.properties), dumps(b.properties), dumps(c.properties);
    if StringLess(x, y) && StringLess(y, z) {
      StringOrderIsTransitive(x, y, z);
    }
  }

  // ----- what becomes of one edge

  ghost predicate DistinctIds(edges: set<Relationship>) {
    forall a, b :: a in edges && b in edges && a.id == b.id ==> a == b
  }

  function Redirect(c: EntityId, ds: seq<EntityId>, e: EntityId): EntityId {
    if e in ds then c else e
  }

  function Moved(c: EntityId, ds: seq<EntityId>, r: Relationship): Relationship {
    r.Between(Redirect(c, ds, r.source), Redirect(c, ds, r.target))
  }

  // Touches the canonical entity or one it absorbs.
  predicate Relevant(c: EntityId, ds: seq<EntityId>, r: Relationship) {
    r.source == c || r.source in ds || r.target == c || r.target in ds
  }

  // Both edges end up as the same claim; an edge and its reverse never do.
  predicate Compete(c: EntityId, ds: seq<EntityId>, a: Relationship, b: Relationship) {
    Relevant(c, ds, a) && Relevant(c, ds, b) && Moved(c, ds, a).Says() == Moved(c, ds, b).Says()
  }

  ghost predicate Loses(dumps: Renderer, c: EntityId, ds: seq<EntityId>, edges: set<Relationship>, r: Relationship) {
    exists other :: other in edges && Compete(c, ds, r, other) && Below(dumps, r, other)
  }

  // The edge after the merge; None when it is dropped.
  ghost function After(dumps: Renderer, c: EntityId, ds: seq<EntityId>, edges: set<Relationship>, r: Relationship): Option<Relationship> {
    if !Relevant(c, ds, r) then Some(r)
    else if Moved(c, ds, r).IsSelfLoop() || Loses(dumps, c, ds, edges, r) then None
    else Some(Moved(c, ds, r))
  }

  ghost predicate Changes(dumps: Renderer, c: EntityId, ds: seq<EntityId>, edges: set<Relationship>, r: Relationship) {
    After(dumps, c, ds, edges, r) != Some(r)
  }

  predicate SortedById(rs: seq<Redirection>) {
    forall i, j :: 0 <= i < j < |rs| ==> rs[i].before.id < rs[j].before.id
  }

  // A plan lists every edge that changes, once, with what it changes into, in id order.
  ghost predicate IsPlan(dumps: Renderer, c: EntityId, ds: seq<EntityId>, edges: set<Relationship>, plan: seq<Redirection>) {
    && SortedById(plan)
    && (forall p :: p in plan ==>
          p.before in edges && Changes(dumps, c, ds, edges, p.before) && p.after == After(dumps, c, ds, edges, p.before))
    && (forall r :: r in edges && Changes(dumps, c, ds, edges, r) ==>
          Redirection(r, After(dumps, c, ds, edges, r)) in plan)
  }

  // ----- the planner

  predicate Unique(rs: seq<Relationship>) {
    forall i, j :: 0 <= i < j < |rs| ==> rs[i].id != rs[j].id
  }

  predicate UniqueBefore(plan: seq<Redirection>) {
    forall i, j :: 0 <= i < j < |plan| ==> plan[i].before.id != plan[j].before.id
  }

  lemma UniqueWithOneMore(rs: seq<Relationship>, all: seq<Relationship>, i: nat)
    requires Unique(rs) && Unique(all) && i < |all|
    requires forall r :: r in rs ==> r in all[..i]
    ensures Unique(rs + [all[i]])
  {
    forall k | 0 <= k < |rs| ensures rs[k].id != all[i].id {
      assert rs[k] in all[..i];
    }
  }

  // The one that outranks every rival.
  method Winner(dumps: Renderer, competing: seq<Relationship>) returns (w: Relationship)
    requires |competing| > 0 && Unique(competing)
    ensures w in competing && forall r :: r in competing && r != w ==> Below(dumps, r, w)
  {
    w := competing[0];
    for i := 1 to |competing|
      invariant w in competing[..i]
      invariant forall r :: r in competing[..i] && r != w ==> Below(dumps, r, w)
    {
      BelowIsTotal(dumps, w, competing[i]);
      if Below(dumps, w, competing[i]) {
        forall r | r in competing[..i] && r != w ensures Below(dumps, r, competing[i]) {
          BelowIsTransitive(dumps, r, w, competing[i]);
        }
        w := competing[i];
      }
    }
  }

  // The redirections of one contest: every loser is dropped, the winner moves if it has to.
  method Settle(dumps: Renderer, c: EntityId, ds: seq<EntityId>, ghost edges: set<Relationship>, competing: seq<Relationship>)
    returns (rs: seq<Redirection>)
    requires |competing| > 0 && Unique(competing)
    requires forall r :: r in competing ==> r in edges && Relevant(c, ds, r) && !Moved(c, ds, r).IsSelfLoop()
    requires forall r, other :: r in competing ==> (other in competing <==> other in edges && Compete(c, ds, r, other))
    ensures UniqueBefore(rs)
    ensures forall p :: p in rs ==> p.before in competing && Changes(dumps, c, ds, edges, p.before)
                                    && p.after == After(dumps, c, ds, edges, p.before)
    ensures forall r :: r in competing && Changes(dumps, c, ds, edges, r) ==> Redirection(r, After(dumps, c, ds, edges, r)) in rs
  {
    var winner := Winner(dumps, competing);
    forall r | r in competing ensures Loses(dumps, c, ds, edges, r) <==> r != winner {
      if Loses(dumps, c, ds, edges, r) {
        var other :| other in edges && Compete(c, ds, r, other) && Below(dumps, r, other);
        BelowIsTotal(dumps, r, other);
      }
    }
    rs := [];
    for i := 0 to |competing|
      invariant UniqueBefore(rs)
      invariant forall p :: p in rs ==> p.before in competing[..i] && Changes(dumps, c, ds, edges, p.before)
                                        && p.after == After(dumps, c, ds, edges, p.before)
      invariant forall r :: r in competing[..i] && Changes(dumps, c, ds, edges, r) ==> Redirection(r, After(dumps, c, ds, edges, r)) in rs
    {
      var before := competing[i];
      if before != winner {
        rs := rs + [Redirection(before, None)];
      } else if Moved(c, ds, before) != before {
        rs := rs + [Redirection(before, Some(Moved(c, ds, before)))];
      }
    }
  }

  // Put one redirection in its place among sorted ones.
  method InsertById(sorted: seq<Redirection>, r: Redirection) returns (longer: seq<Redirection>)
    requires SortedById(sorted) && forall p :: p in sorted ==> p.before.id != r.before.id
    ensures SortedById(longer)
    ensures forall p :: p in longer <==> p in sorted || p == r
  {
    var k := 0;
    while k < |sorted| && sorted[k].before.id < r.before.id
      invariant 0 <= k <= |sorted|
      invariant forall i :: 0 <= i < k ==> sorted[i].before.id < r.before.id
    {
      k := k + 1;
    }
    assert k < |sorted| ==> sorted[k] in sorted;
    longer := sorted[..k] + [r] + sorted[k..];
    forall p ensures p in longer <==> p in sorted || p == r {
      assert sorted == sorted[..k] + sorted[k..];
    }
  }

  // Sort redirections by the id of the edge they change.
  method SortById(rs: seq<Redirection>) returns (sorted: seq<Redirection>)
    requires UniqueBefore(rs)
    ensures SortedById(sorted)
    ensures forall p :: p in sorted <==> p in rs
  {
    sorted := [];
    for n := 0 to |rs|
      invariant SortedById(sorted)
      invariant forall p :: p in sorted <==> p in rs[..n]
    {
      forall p | p in sorted ensures p.before.id != rs[n].before.id {
        var i :| 0 <= i < n && rs[i] == p;
      }
      sorted := InsertById(sorted, rs[n]);
      assert rs[..n + 1] == rs[..n] + [rs[n]];
    }
  }

  // Group the edges that survive the move by the claim they would make.
  method Contests(c: EntityId, ds: seq<EntityId>, relevant: seq<Relationship>)
    returns (dropped: seq<Relationship>, contenders: map<Claim, seq<Relationship>>)
    requires Unique(relevant)
    ensures Unique(dropped)
    ensures forall r :: r in dropped <==> r in relevant && Moved(c, ds, r).IsSelfLoop()
    ensures forall claim :: claim in contenders ==> |contenders[claim]| > 0 && Unique(contenders[claim])
    ensures forall claim, r :: claim in contenders && r in contenders[claim] ==>
              r in relevant && !Moved(c, ds, r).IsSelfLoop() && Moved(c, ds, r).Says() == claim
    ensures forall r :: r in relevant && !Moved(c, ds, r).IsSelfLoop() ==>
              Moved(c, ds, r).Says() in contenders && r in contenders[Moved(c, ds, r).Says()]
  {
    dropped, contenders := [], map[];
    for i := 0 to |relevant|
      invariant Unique(dropped)
      invariant forall r :: r in dropped <==> r in relevant[..i] && Moved(c, ds, r).IsSelfLoop()
      invariant forall claim :: claim in contenders ==> |contenders[claim]| > 0 && Unique(contenders[claim])
      invariant forall claim, r :: claim in contenders && r in contenders[claim] ==>
                  r in relevant[..i] && !Moved(c, ds, r).IsSelfLoop() && Moved(c, ds, r).Says() == claim
      invariant forall r :: r in relevant[..i] && !Moved(c, ds, r).IsSelfLoop() ==>
                  Moved(c, ds, r).Says() in contenders && r in contenders[Moved(c, ds, r).Says()]
    {
      var relationship := relevant[i];
      var moved := Moved(c, ds, relationship);
      if moved.IsSelfLoop() {
        UniqueWithOneMore(dropped, relevant, i);
        dropped := dropped + [relationship];
      } else {
        var claim := moved.Says();
        var sofar := if claim in contenders then contenders[claim] else [];
        UniqueWithOneMore(sofar, relevant, i);
        contenders := contenders[claim := sofar + [relationship]];
      }
    }
  }

  /** Every edge a merge moves or drops, in id order, whatever order the edges came in. */
  method PlanRedirections(dumps: Renderer, c: EntityId, ds: seq<EntityId>, relationships: seq<Relationship>)
    returns (plan: seq<Redirection>)
    requires Unique(relationships)
    ensures IsPlan(dumps, c, ds, (set r | r in relationships), plan)
  {
    ghost var edges := set r | r in relationships;
    var relevant := Filter(c, ds, relationships);
    var dropped, contenders := Contests(c, ds, relevant);

    var redirections := [];
    for i := 0 to |dropped|
      invariant UniqueBefore(redirections)
      invariant forall p :: p in redirections <==> p.before in dropped[..i] && p.after == None
    {
      redirections := redirections + [Redirection(dropped[i], None)];
    }

    forall claim | claim in contenders ensures claim.source != claim.target {
      var r := contenders[claim][0];
      assert r in contenders[claim] && !Moved(c, ds, r).IsSelfLoop() && Moved(c, ds, r).Says() == claim;
    }
    var left := contenders.Keys;
    while left != {}
      invariant left <= contenders.Keys
      invariant UniqueBefore(redirections)
      invariant forall p :: p in redirections ==>
                  p.before in relevant && Moved(c, ds, p.before).Says() !in left
                  && Changes(dumps, c, ds, edges, p.before) && p.after == After(dumps, c, ds, edges, p.before)
      invariant forall r :: r in relevant && Moved(c, ds, r).Says() !in left && Changes(dumps, c, ds, edges, r) ==>
                  Redirection(r, After(dumps, c, ds, edges, r)) in redirections
    {
      var claim :| claim in left;
      var settled := Settle(dumps, c, ds, edges, contenders[claim]);
      forall i, j | 0 <= i < |redirections| && 0 <= j < |settled|
        ensures redirections[i].before.id != settled[j].before.id
      {
        assert redirections[i] in redirections && settled[j] in settled;
      }
      redirections := redirections + settled;
      left := left - {claim};
    }
    plan := SortById(redirections);
  }

  method Filter(c: EntityId, ds: seq<EntityId>, relationships: seq<Relationship>) returns (relevant: seq<Relationship>)
    requires Unique(relationships)
    ensures Unique(relevant)
    ensures forall r :: r in relevant <==> r in relationships && Relevant(c, ds, r)
  {
    relevant := [];
    for i := 0 to |relationships|
      invariant Unique(relevant)
      invariant forall r :: r in relevant <==> r in relationships[..i] && Relevant(c, ds, r)
    {
      if Relevant(c, ds, relationships[i]) {
        UniqueWithOneMore(relevant, relationships, i);
        relevant := relevant + [relationships[i]];
      }
    }
  }
}
