/**
 Which of the edges a merge brings together is left, in terms of what the edges say: how confident
 they are, how much they say, how it is rendered, and their ids.
 */
module Survivors {
  import opened Domain
  import opened Planning
  import opened PlanEffect

  // Both edges end up joining the same two entities in the same way.
  ghost predicate Meet(c: EntityId, ds: seq<EntityId>, a: Relationship, b: Relationship) {
    && Redirect(c, ds, a.source) == Redirect(c, ds, b.source) && Redirect(c, ds, a.target) == Redirect(c, ds, b.target)
    && a.relationshipType == b.relationshipType
  }

  // `b` does not come before `a` in the order of strings.
  ghost predicate NotEarlier(b: string, a: string) {
    forall k: nat :: !FirstDifference(b, a, k)
  }

  lemma NotEarlierMeans(b: string, a: string)
    ensures NotEarlier(b, a) <==> !StringLess(b, a)
  {
    StringLessExactlyWhen(b, a);
  }

  /** `b` is no less confident than `a`, then says no less, then is not rendered earlier. */
  ghost predicate SaidNoWorse(dumps: Renderer, b: Relationship, a: Relationship) {
    && a.confidence <= b.confidence
    && (a.confidence == b.confidence ==>
          && |a.properties| <= |b.properties|
          && (|a.properties| == |b.properties| ==> NotEarlier(dumps(b.properties), dumps(a.properties))))
  }

  /** And between edges that tie on all of that, `b` is the one of the larger id. */
  ghost predicate NoWorse(dumps: Renderer, b: Relationship, a: Relationship) {
    && SaidNoWorse(dumps, b, a)
    && (a.confidence == b.confidence && |a.properties| == |b.properties| && dumps(a.properties) == dumps(b.properties) ==>
          a.id <= b.id)
  }

  ghost predicate TouchesGroup(c: EntityId, ds: seq<EntityId>, r: Relationship) {
    exists e :: e in [c] + ds && r.Touches(e)
  }

  lemma TouchingIsRelevant(c: EntityId, ds: seq<EntityId>, r: Relationship)
    ensures TouchesGroup(c, ds, r) <==> Relevant(c, ds, r)
  {
    var group := [c] + ds;
    assert c in group && forall d :: d in ds ==> d in group;
    assert forall e :: r.Touches(e) <==> e == r.source || e == r.target;
    assert TouchesGroup(c, ds, r) <==> r.source in group || r.target in group by {
      assert r.Touches(r.source) && r.Touches(r.target);
    }
  }

  lemma NoWorseIsNotBelow(dumps: Renderer, a: Relationship, b: Relationship)
    ensures NoWorse(dumps, b, a) <==> !Below(dumps, b, a)
  {
    hide StringLess, NotEarlier;
    NotEarlierMeans(dumps(b.properties), dumps(a.properties));
    StringOrderIsTotal(dumps(a.properties), dumps(b.properties));
  }

  lemma MeetingIsCompeting(c: EntityId, ds: seq<EntityId>, a: Relationship, b: Relationship)
    requires TouchesGroup(c, ds, a)
    ensures Meet(c, ds, a, b) <==> Compete(c, ds, a, b)
  {
    TouchingIsRelevant(c, ds, a);
  }

  /**
   An edge touching the entities merged is left exactly when its ends stay apart and it is no worse
   than any edge it meets; every other edge is left as it was.
   */
  lemma EdgeIsLeftExactlyWhen(dumps: Renderer, c: EntityId, ds: seq<EntityId>, edges: EdgeTable, plan: seq<Redirection>, i: RelationshipId)
    requires Keyed(edges) && IsPlan(dumps, c, ds, edges.Values, plan) && i in edges
    ensures TouchesGroup(c, ds, edges[i]) ==>
              (i in ApplyRedirections(edges, plan) <==>
               && Redirect(c, ds, edges[i].source) != Redirect(c, ds, edges[i].target)
               && forall k :: k in edges && Meet(c, ds, edges[i], edges[k]) ==> NoWorse(dumps, edges[i], edges[k]))
    ensures !TouchesGroup(c, ds, edges[i]) ==> i in ApplyRedirections(edges, plan) && ApplyRedirections(edges, plan)[i] == edges[i]
  {
    ApplyingThePlan(dumps, c, ds, edges, plan);
    hide IsPlan, ApplyRedirections, NoWorse, Below, Meet, Compete, TouchesGroup;
    var r := edges[i];
    TouchingIsRelevant(c, ds, r);
    if TouchesGroup(c, ds, r) {
      forall k | k in edges
        ensures Meet(c, ds, r, edges[k]) && !NoWorse(dumps, r, edges[k]) <==> Compete(c, ds, r, edges[k]) && Below(dumps, r, edges[k])
      {
        NoWorseIsNotBelow(dumps, edges[k], r);
        MeetingIsCompeting(c, ds, r, edges[k]);
      }
      if Loses(dumps, c, ds, edges.Values, r) {
        var other :| other in edges.Values && Compete(c, ds, r, other) && Below(dumps, r, other);
        assert other.id in edges;
      }
    }
  }

  ghost predicate LeftInItsPlace(dumps: Renderer, c: EntityId, ds: seq<EntityId>, edges: EdgeTable, left: EdgeTable,
                                 r: Relationship, j: RelationshipId) {
    && j in edges && j in left && NoWorse(dumps, edges[j], r)
    && left[j] == edges[j].(source := Redirect(c, ds, r.source), target := Redirect(c, ds, r.target))
    && edges[j].relationshipType == r.relationshipType
  }

  /**
   Whatever joins two entities that stay apart is still said after the merge, between the same two,
   by an edge that is no worse.
   */
  lemma DroppedEdgesHaveSurvivors(dumps: Renderer, c: EntityId, ds: seq<EntityId>, edges: EdgeTable,
                                  plan: seq<Redirection>, i: RelationshipId)
    requires Keyed(edges) && IsPlan(dumps, c, ds, edges.Values, plan) && i in edges
    requires Redirect(c, ds, edges[i].source) != Redirect(c, ds, edges[i].target)
    ensures exists j :: LeftInItsPlace(dumps, c, ds, edges, ApplyRedirections(edges, plan), edges[i], j)
  {
    ApplyingThePlan(dumps, c, ds, edges, plan);
    hide IsPlan, ApplyRedirections, NoWorse, Below, TouchesGroup;
    TouchingIsRelevant(c, ds, edges[i]);
    var r, left := edges[i], ApplyRedirections(edges, plan);
    NoWorseIsNotBelow(dumps, r, r);
    BelowIsTotal(dumps, r, r);
    if TouchesGroup(c, ds, r) {
      var j := ClaimSurvives(dumps, c, ds, edges, i);
      assert Compete(c, ds, edges[i], edges[i]);
      NoWorseIsNotBelow(dumps, r, edges[j]);
      assert LeftInItsPlace(dumps, c, ds, edges, left, r, j);
    } else {
      assert LeftInItsPlace(dumps, c, ds, edges, left, r, i);
    }
  }
}
