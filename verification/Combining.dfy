/**
 Two answers about one chunk, folded into one before mapping.  Their order never changes the
 entities; it can change what an edge joins.
 */
module Combining {
  import opened Sequences
  import opened Wrappers
  import opened Domain
  import opened Planning
  import opened Preference
  import opened BestById
  import opened Merging
  import opened Mapping
  import opened MappedAnswers

  function Combine(first: Extraction, extra: Extraction): Extraction {
    Extraction(first.entities + extra.entities, first.relationships + extra.relationships)
  }

  // ----- what each part of a mapped answer makes of two lists of rows

  lemma {:induction false} BuiltFromBoth(s: Scheme, rows: seq<ExtractedEntity>, more: seq<ExtractedEntity>)
    ensures Built(s, rows + more) == Built(s, rows) + Built(s, more)
    ensures Undatable(s, rows + more) == Undatable(s, rows) + Undatable(s, more)
  {
    if more == [] {
      assert rows + more == rows;
    } else {
      hide Build;
      Shortened(rows, more);
      BuiltFromBoth(s, rows, more[..|more| - 1]);
    }
  }

  lemma {:induction false} TypesNamedInBoth(s: Scheme, rows: seq<ExtractedEntity>, more: seq<ExtractedEntity>, normal: string)
    ensures TypesNamed(s, rows + more, normal) == TypesNamed(s, rows, normal) + TypesNamed(s, more, normal)
  {
    if more == [] {
      assert rows + more == rows;
    } else {
      Shortened(rows, more);
      TypesNamedInBoth(s, rows, more[..|more| - 1], normal);
    }
  }

  lemma {:induction false} StatedInBoth(s: Scheme, rows: seq<ExtractedEntity>, rs: seq<ExtractedRelationship>, more: seq<ExtractedRelationship>, why: Stated)
    ensures StatedEdges(s, rows, rs + more) == StatedEdges(s, rows, rs) + StatedEdges(s, rows, more)
    ensures Refused(s, rows, rs + more, why) == Refused(s, rows, rs, why) + Refused(s, rows, more, why)
  {
    if more == [] {
      assert rs + more == rs;
    } else {
      hide State;
      Shortened(rs, more);
      StatedInBoth(s, rows, rs, more[..|more| - 1], why);
    }
  }

  // Rows matter to the stated edges only through what each edge comes to.
  lemma {:induction false} StatesDecide(s: Scheme, rows: seq<ExtractedEntity>, others: seq<ExtractedEntity>, rs: seq<ExtractedRelationship>, why: Stated)
    requires forall r :: r in rs ==> State(s, rows, r) == State(s, others, r)
    ensures StatedEdges(s, rows, rs) == StatedEdges(s, others, rs)
    ensures Refused(s, rows, rs, why) == Refused(s, others, rs, why)
  {
    hide State;
    if rs != [] {
      var n := |rs| - 1;
      assert rs[n] in rs && forall r :: r in rs[..n] ==> r in rs;
      StatesDecide(s, rows, others, rs[..n], why);
    }
  }

  // ----- entities

  /** Which answer came first never changes the entities. */
  lemma EntitiesIgnoreCombiningOrder(s: Scheme, dumps: Renderer, x: Extraction, y: Extraction, lifted: nat, dateNodes: nat)
    requires Derives(s) && Faithful(dumps)
    ensures Elements(MapOf(s, dumps, Combine(x, y), lifted, dateNodes).entities)
            == Elements(MapOf(s, dumps, Combine(y, x), lifted, dateNodes).entities)
  {
    hide KeepAll, Built, StrictOrder, TotalOn, Derives, Faithful, StatedEdges, Refused, Undatable, Comparable;
    var es, fs := Built(s, x.entities), Built(s, y.entities);
    BuiltFromBoth(s, x.entities, y.entities);
    BuiltFromBoth(s, y.entities, x.entities);
    assert Elements(es + fs) == Elements(fs + es);
    AnswerIsComparable(s, Combine(x, y));
    OrdersAreTotal(dumps, es + fs, StatedEdges(s, Combine(x, y).entities, Combine(x, y).relationships));
    KeptIgnoresOrder(EntityKey, EntityBeats(dumps), es + fs, fs + es);
    ListedElements(KeptEntities(dumps, es + fs));
    ListedElements(KeptEntities(dumps, fs + es));
  }

  // ----- endpoints

  // What looking a name up would give if only these rows' types were tried.
  function EndpointAmong(s: Scheme, rows: seq<ExtractedEntity>, name: string, known: set<EntityId>): Found {
    FirstKnown(s, TypesNamed(s, rows, s.normalize(name)), s.normalize(name), known)
  }

  ghost predicate SameEndpoint(s: Scheme, x: Extraction, y: Extraction, name: string) {
    Endpoint(s, Combine(x, y).entities, name) == Endpoint(s, Combine(y, x).entities, name)
  }

  /**
   An endpoint is the first listed type under which its name was accepted, so the order matters to
   it exactly when both answers list the name and the first of each to stop the look-up differ.
   */
  lemma EndpointIgnoresCombiningOrderExactlyWhen(s: Scheme, x: Extraction, y: Extraction, name: string)
    ensures var known := Ids(Built(s, x.entities)) + Ids(Built(s, y.entities));
            var first, extra := EndpointAmong(s, x.entities, name, known), EndpointAmong(s, y.entities, name, known);
            && (SameEndpoint(s, x, y, name) <==> first == Success(None) || extra == Success(None) || first == extra)
            && Endpoint(s, Combine(x, y).entities, name) == (if first == Success(None) then extra else first)
            && Endpoint(s, Combine(y, x).entities, name) == (if extra == Success(None) then first else extra)
  {
    hide Built, TypesNamed, FirstKnown;
    var normal := s.normalize(name);
    BuiltFromBoth(s, x.entities, y.entities);
    BuiltFromBoth(s, y.entities, x.entities);
    TypesNamedInBoth(s, x.entities, y.entities, normal);
    TypesNamedInBoth(s, y.entities, x.entities, normal);
    var known := Ids(Built(s, x.entities)) + Ids(Built(s, y.entities));
    assert Ids(Built(s, x.entities) + Built(s, y.entities)) == known;
    assert Ids(Built(s, y.entities) + Built(s, x.entities)) == known;
    FirstKnownOfBoth(s, TypesNamed(s, x.entities, normal), TypesNamed(s, y.entities, normal), normal, known);
    FirstKnownOfBoth(s, TypesNamed(s, y.entities, normal), TypesNamed(s, x.entities, normal), normal, known);
  }

  // ----- whole answers

  ghost predicate SameResult(a: Result<MappedExtraction, TextError>, b: Result<MappedExtraction, TextError>) {
    if a.Success? && b.Success? then SameView(a.value, b.value) else a.Failure? && b.Failure?
  }

  /** Where the order changes no endpoint an edge names, it changes nothing: entities, edges, counters, or that it raises. */
  lemma AnswersIgnoreCombiningOrderWhenEndpointsDo(s: Scheme, dumps: Renderer, x: Extraction, y: Extraction, lifted: nat, dateNodes: nat)
    requires Derives(s) && Faithful(dumps)
    requires forall r :: r in x.relationships + y.relationships ==> SameEndpoint(s, x, y, r.sourceName) && SameEndpoint(s, x, y, r.targetName)
    ensures SameResult(Mapped(s, dumps, Combine(x, y), lifted, dateNodes), Mapped(s, dumps, Combine(y, x), lifted, dateNodes))
  {
    hide Built, StatedEdges, Refused, FirstError, Undatable, Derives, Faithful, MapOf, State, SameEndpoint, RunError;
    var xy, yx := Combine(x, y), Combine(y, x);
    BuiltFromBoth(s, x.entities, y.entities);
    BuiltFromBoth(s, y.entities, x.entities);
    forall r | r in xy.relationships ensures State(s, xy.entities, r) == State(s, yx.entities, r) {
      SameEndsSameState(s, x, y, r);
    }
    ErrorFrom(s, xy.entities, xy.relationships);
    ErrorFrom(s, yx.entities, yx.relationships);
    assert forall r :: r in xy.relationships <==> r in yx.relationships;
    CountersIgnoreOrder(s, dumps, x, y, lifted, dateNodes);
    EdgesIgnoreOrder(s, dumps, x, y, lifted, dateNodes);
    EntitiesIgnoreCombiningOrder(s, dumps, x, y, lifted, dateNodes);
  }

  lemma SameEndsSameState(s: Scheme, x: Extraction, y: Extraction, r: ExtractedRelationship)
    requires SameEndpoint(s, x, y, r.sourceName) && SameEndpoint(s, x, y, r.targetName)
    ensures State(s, Combine(x, y).entities, r) == State(s, Combine(y, x).entities, r)
  {
    hide Endpoint;
  }

  lemma CountersIgnoreOrder(s: Scheme, dumps: Renderer, x: Extraction, y: Extraction, lifted: nat, dateNodes: nat)
    requires forall r :: r in x.relationships + y.relationships ==> State(s, Combine(x, y).entities, r) == State(s, Combine(y, x).entities, r)
    ensures MapOf(s, dumps, Combine(x, y), lifted, dateNodes).counters == MapOf(s, dumps, Combine(y, x), lifted, dateNodes).counters
  {
    hide Built, StatedEdges, Refused, Undatable, State;
    var xy, yx := Combine(x, y).entities, Combine(y, x).entities;
    BuiltFromBoth(s, x.entities, y.entities);
    BuiltFromBoth(s, y.entities, x.entities);
    forall why ensures Refused(s, xy, x.relationships + y.relationships, why) == Refused(s, yx, y.relationships + x.relationships, why) {
      StatesDecide(s, xy, yx, x.relationships + y.relationships, why);
      StatedInBoth(s, yx, x.relationships, y.relationships, why);
      StatedInBoth(s, yx, y.relationships, x.relationships, why);
    }
  }

  lemma EdgesIgnoreOrder(s: Scheme, dumps: Renderer, x: Extraction, y: Extraction, lifted: nat, dateNodes: nat)
    requires Derives(s) && Faithful(dumps)
    requires forall r :: r in x.relationships + y.relationships ==> State(s, Combine(x, y).entities, r) == State(s, Combine(y, x).entities, r)
    ensures Elements(MapOf(s, dumps, Combine(x, y), lifted, dateNodes).relationships)
            == Elements(MapOf(s, dumps, Combine(y, x), lifted, dateNodes).relationships)
  {
    hide KeepAll, Built, StatedEdges, Refused, Undatable, State, StrictOrder, TotalOn, Derives, Faithful, Comparable;
    var xy, yx := Combine(x, y).entities, Combine(y, x).entities;
    StatesDecide(s, xy, yx, x.relationships + y.relationships, Unresolved);
    StatedInBoth(s, yx, x.relationships, y.relationships, Unresolved);
    StatedInBoth(s, yx, y.relationships, x.relationships, Unresolved);
    var first, extra := StatedEdges(s, yx, x.relationships), StatedEdges(s, yx, y.relationships);
    assert Elements(first + extra) == Elements(extra + first);
    AnswerIsComparable(s, Combine(x, y));
    OrdersAreTotal(dumps, Built(s, xy), first + extra);
    KeptIgnoresOrder(EdgeKey, EdgeBeats(dumps), first + extra, extra + first);
    ListedElements(KeptEdges(dumps, first + extra));
    ListedElements(KeptEdges(dumps, extra + first));
  }

  // ----- when it does change an edge

  // The claims of a mapped answer are those its edges state.
  lemma MappedClaims(s: Scheme, dumps: Renderer, x: Extraction, lifted: nat, dateNodes: nat, claim: Claim)
    requires Derives(s)
    ensures (exists e :: e in MapOf(s, dumps, x, lifted, dateNodes).relationships && e.Says() == claim)
            <==> exists r :: r in x.relationships && State(s, x.entities, r).Edge? && State(s, x.entities, r).edge.Says() == claim
  {
    hide KeepAll, Built, StatedEdges, Refused, Undatable, State;
    var rs, m := StatedEdges(s, x.entities, x.relationships), MapOf(s, dumps, x, lifted, dateNodes);
    KeysAreKept(EdgeKey, EdgeBeats(dumps), rs);
    ListedElements(KeptEdges(dumps, rs));
    if e :| e in m.relationships && e.Says() == claim {
      assert e in Elements(m.relationships) && e in rs;
      StatedFrom(s, x.entities, x.relationships, e);
    }
    if r :| r in x.relationships && State(s, x.entities, r).Edge? && State(s, x.entities, r).edge.Says() == claim {
      var e := State(s, x.entities, r).edge;
      StatedFrom(s, x.entities, x.relationships, e);
      var kept := KeptEdges(dumps, rs).values[e.id];
      assert kept in Elements(m.relationships);
      StatedHere(s, x, e);
      StatedHere(s, x, kept);
    }
  }

  /** An edge that says in one order what no stated edge says in the other makes the two answers differ. */
  lemma AMovedEdgeShows(s: Scheme, dumps: Renderer, x: Extraction, y: Extraction, lifted: nat, dateNodes: nat, r: ExtractedRelationship)
    requires Derives(s) && r in Combine(x, y).relationships && State(s, Combine(x, y).entities, r).Edge?
    requires forall other :: other in Combine(y, x).relationships && State(s, Combine(y, x).entities, other).Edge? ==>
               State(s, Combine(y, x).entities, other).edge.Says() != State(s, Combine(x, y).entities, r).edge.Says()
    ensures Elements(MapOf(s, dumps, Combine(x, y), lifted, dateNodes).relationships)
            != Elements(MapOf(s, dumps, Combine(y, x), lifted, dateNodes).relationships)
  {
    hide State, MapOf, Derives;
    var claim := State(s, Combine(x, y).entities, r).edge.Says();
    MappedClaims(s, dumps, Combine(x, y), lifted, dateNodes, claim);
    MappedClaims(s, dumps, Combine(y, x), lifted, dateNodes, claim);
    var e :| e in MapOf(s, dumps, Combine(x, y), lifted, dateNodes).relationships && e.Says() == claim;
    assert e in Elements(MapOf(s, dumps, Combine(x, y), lifted, dateNodes).relationships);
  }

  /**
   Two answers that state one edge between them map alike in both orders exactly when both its ends
   stay, or one is not found, or it is a self-loop in both.
   */
  lemma OneEdgeIgnoresCombiningOrderExactlyWhen(s: Scheme, dumps: Renderer, x: Extraction, y: Extraction, lifted: nat, dateNodes: nat,
                                                r: ExtractedRelationship)
    requires Derives(s) && Faithful(dumps) && x.relationships + y.relationships == [r] == y.relationships + x.relationships
    requires Mapped(s, dumps, Combine(x, y), lifted, dateNodes).Success? && Mapped(s, dumps, Combine(y, x), lifted, dateNodes).Success?
    ensures var start, end := Endpoint(s, Combine(x, y).entities, r.sourceName), Endpoint(s, Combine(x, y).entities, r.targetName);
            SameResult(Mapped(s, dumps, Combine(x, y), lifted, dateNodes), Mapped(s, dumps, Combine(y, x), lifted, dateNodes))
            <==> || (SameEndpoint(s, x, y, r.sourceName) && SameEndpoint(s, x, y, r.targetName))
                 || start == Success(None) || end == Success(None)
                 || (start == end && Endpoint(s, Combine(y, x).entities, r.sourceName) == Endpoint(s, Combine(y, x).entities, r.targetName))
  {
    var xy, yx := Combine(x, y), Combine(y, x);
    OneStateDecides(s, dumps, x, y, lifted, dateNodes, r);
    OneStated(s, dumps, xy, lifted, dateNodes, r);
    OneStated(s, dumps, yx, lifted, dateNodes, r);
    hide Mapped, Derives, Endpoint, SameResult, State;
    NeitherOrderRaises(s, xy.entities, r);
    NeitherOrderRaises(s, yx.entities, r);
    EndpointIgnoresCombiningOrderExactlyWhen(s, x, y, r.sourceName);
    EndpointIgnoresCombiningOrderExactlyWhen(s, x, y, r.targetName);
    StatesAgreeExactlyWhen(s, xy.entities, yx.entities, r);
  }

  lemma NeitherOrderRaises(s: Scheme, rows: seq<ExtractedEntity>, r: ExtractedRelationship)
    requires !State(s, rows, r).Raises?
    ensures Endpoint(s, rows, r.sourceName).Success? && Endpoint(s, rows, r.targetName).Success?
  {
    hide Endpoint;
  }

  lemma StatesAgreeExactlyWhen(s: Scheme, rows: seq<ExtractedEntity>, others: seq<ExtractedEntity>, r: ExtractedRelationship)
    requires !State(s, rows, r).Raises? && !State(s, others, r).Raises?
    requires Endpoint(s, rows, r.sourceName) == Success(None) <==> Endpoint(s, others, r.sourceName) == Success(None)
    requires Endpoint(s, rows, r.targetName) == Success(None) <==> Endpoint(s, others, r.targetName) == Success(None)
    ensures var start, end := Endpoint(s, rows, r.sourceName), Endpoint(s, rows, r.targetName);
            State(s, rows, r) == State(s, others, r)
            <==> || (start == Endpoint(s, others, r.sourceName) && end == Endpoint(s, others, r.targetName))
                 || start == Success(None) || end == Success(None)
                 || (start == end && Endpoint(s, others, r.sourceName) == Endpoint(s, others, r.targetName))
  {
    hide Endpoint;
  }

  lemma OneStateDecides(s: Scheme, dumps: Renderer, x: Extraction, y: Extraction, lifted: nat, dateNodes: nat, r: ExtractedRelationship)
    requires Derives(s) && Faithful(dumps) && x.relationships + y.relationships == [r] == y.relationships + x.relationships
    requires Mapped(s, dumps, Combine(x, y), lifted, dateNodes).Success? && Mapped(s, dumps, Combine(y, x), lifted, dateNodes).Success?
    ensures SameResult(Mapped(s, dumps, Combine(x, y), lifted, dateNodes), Mapped(s, dumps, Combine(y, x), lifted, dateNodes))
            <==> State(s, Combine(x, y).entities, r) == State(s, Combine(y, x).entities, r)
  {
    hide Built, Derives, Faithful, State, Undatable, StatedEdges, Refused, KeepAll;
    var xy, yx := Combine(x, y), Combine(y, x);
    if State(s, xy.entities, r) == State(s, yx.entities, r) {
      CountersIgnoreOrder(s, dumps, x, y, lifted, dateNodes);
      EdgesIgnoreOrder(s, dumps, x, y, lifted, dateNodes);
      EntitiesIgnoreCombiningOrder(s, dumps, x, y, lifted, dateNodes);
    } else {
      OneStated(s, dumps, xy, lifted, dateNodes, r);
      OneStated(s, dumps, yx, lifted, dateNodes, r);
    }
  }

  // All a mapped answer says of its one stated edge.
  lemma OneStated(s: Scheme, dumps: Renderer, x: Extraction, lifted: nat, dateNodes: nat, r: ExtractedRelationship)
    requires x.relationships == [r]
    ensures var m, stated := MapOf(s, dumps, x, lifted, dateNodes), State(s, x.entities, r);
            && Elements(m.relationships) == (if stated.Edge? then {stated.edge} else {})
            && m.counters.unresolvedRelationships == (if stated == Unresolved then 1 else 0)
            && m.counters.selfLoops == (if stated == SelfLoop then 1 else 0)
    ensures Mapped(s, dumps, x, lifted, dateNodes).Success? ==> !State(s, x.entities, r).Raises?
  {
    hide State, Built, Undatable, StatedEdges, Refused, KeepAll, FirstError;
    StatedAlone(s, x.entities, x.relationships, r);
    var rs := StatedEdges(s, x.entities, x.relationships);
    ListedElements(KeptEdges(dumps, rs));
    KeptAlone(dumps, rs);
    ErrorFrom(s, x.entities, x.relationships);
  }

  lemma StatedAlone(s: Scheme, rows: seq<ExtractedEntity>, rs: seq<ExtractedRelationship>, r: ExtractedRelationship)
    requires rs == [r]
    ensures StatedEdges(s, rows, rs) == if State(s, rows, r).Edge? then [State(s, rows, r).edge] else []
    ensures forall why :: Refused(s, rows, rs, why) == if State(s, rows, r) == why then 1 else 0
  {
    hide State;
    assert rs[..|rs| - 1] == [] && rs[|rs| - 1] == r;
  }

  lemma KeptAlone(dumps: Renderer, rs: seq<Relationship>)
    requires |rs| <= 1
    ensures KeptEdges(dumps, rs).values.Values == Elements(rs)
  {
    if |rs| == 1 {
      assert [] + [rs[0]] == rs;
      KeptOneMoreEdge(dumps, [], rs[0]);
      var d := KeptEdges(dumps, rs).values;
      assert d[rs[0].id] == rs[0];
    }
  }

  /**
   One answer lists a name as a person and states an edge from it; the other lists it as a work.  Each
   order starts the edge from whichever it lists first.
   */
  lemma CombiningOrderCanMoveAnEdge(s: Scheme, dumps: Renderer, person: ExtractedEntity, work: ExtractedEntity, friend: ExtractedEntity,
                                    r: ExtractedRelationship, lifted: nat, dateNodes: nat)
    requires Derives(s) && Accepted(s, person) && Accepted(s, work) && Accepted(s, friend)
    requires person.name == work.name && person.entityType == "person" && work.entityType == "work"
    requires s.normalize(friend.name) != s.normalize(person.name)
    requires r.sourceName == person.name && r.targetName == friend.name && StorableEdge(s, r) && RunError(s).None?
    ensures var x, y := Extraction([person, friend], [r]), Extraction([work], []);
            && Mapped(s, dumps, Combine(x, y), lifted, dateNodes).Success? && Mapped(s, dumps, Combine(y, x), lifted, dateNodes).Success?
            && Elements(MapOf(s, dumps, Combine(x, y), lifted, dateNodes).relationships)
               != Elements(MapOf(s, dumps, Combine(y, x), lifted, dateNodes).relationships)
  {
    var x, y := Extraction([person, friend], [r]), Extraction([work], []);
    var xy, yx := Combine(x, y), Combine(y, x);
    assert xy.entities == [person, friend, work] && yx.entities == [work, person, friend];
    assert xy.relationships == [r] && yx.relationships == [r];
    FirstRowIsFound(s, xy.entities, person.name);
    FirstRowIsFound(s, yx.entities, work.name);
    OnlyRowIsFound(s, xy.entities, friend, 1);
    OnlyRowIsFound(s, yx.entities, friend, 2);
    hide Endpoint, MapOf, Mapped, Derives, State, Accepted, StorableEdge;
    var name, other := s.normalize(person.name), s.normalize(friend.name);
    DifferentIds(s, "person", name, "work", name);
    DifferentIds(s, "person", name, friend.entityType, other);
    DifferentIds(s, "work", name, friend.entityType, other);
    EdgeIsStated(s, xy.entities, r, s.entityId("person", name), s.entityId(friend.entityType, other));
    EdgeIsStated(s, yx.entities, r, s.entityId("work", name), s.entityId(friend.entityType, other));
    OtherSourcesShow(s, dumps, xy, yx, lifted, dateNodes, r);
  }

  lemma EdgeIsStated(s: Scheme, rows: seq<ExtractedEntity>, r: ExtractedRelationship, a: EntityId, b: EntityId)
    requires Derives(s) && StorableEdge(s, r) && a != b
    requires Endpoint(s, rows, r.sourceName) == Success(Some(a)) && Endpoint(s, rows, r.targetName) == Success(Some(b))
    ensures State(s, rows, r) == Edge(EdgeBetween(s, a, b, r))
  {
    hide Endpoint;
  }

  lemma OtherSourcesShow(s: Scheme, dumps: Renderer, x: Extraction, y: Extraction, lifted: nat, dateNodes: nat, r: ExtractedRelationship)
    requires x.relationships == [r] == y.relationships && RunError(s).None?
    requires State(s, x.entities, r).Edge? && State(s, y.entities, r).Edge?
    requires State(s, x.entities, r).edge.source != State(s, y.entities, r).edge.source
    ensures Mapped(s, dumps, x, lifted, dateNodes).Success? && Mapped(s, dumps, y, lifted, dateNodes).Success?
    ensures Elements(MapOf(s, dumps, x, lifted, dateNodes).relationships) != Elements(MapOf(s, dumps, y, lifted, dateNodes).relationships)
  {
    hide State, MapOf;
    OneStated(s, dumps, x, lifted, dateNodes, r);
    OneStated(s, dumps, y, lifted, dateNodes, r);
    ErrorFrom(s, x.entities, [r]);
    ErrorFrom(s, y.entities, [r]);
    assert State(s, x.entities, r).edge in Elements(MapOf(s, dumps, x, lifted, dateNodes).relationships);
  }

  lemma DifferentIds(s: Scheme, t: string, n: string, t': string, n': string)
    requires Derives(s) && (t != t' || n != n')
    ensures s.entityId(t, n) != s.entityId(t', n')
  {
  }

  lemma FirstRowIsFound(s: Scheme, rows: seq<ExtractedEntity>, name: string)
    requires Derives(s) && RunError(s).None? && rows != [] && Accepted(s, rows[0]) && rows[0].name == name
    ensures Endpoint(s, rows, name) == Success(Some(s.entityId(rows[0].entityType, s.normalize(name))))
  {
    assert rows[0] in rows;
    assert FindsAt(s, rows, s.normalize(name), 0);
    EndpointsExactlyWhen(s, rows, name);
  }

  lemma OnlyRowIsFound(s: Scheme, rows: seq<ExtractedEntity>, row: ExtractedEntity, j: nat)
    requires Derives(s) && RunError(s).None? && j < |rows| && rows[j] == row && Accepted(s, row)
    requires forall i :: 0 <= i < |rows| && i != j ==> s.normalize(rows[i].name) != s.normalize(row.name)
    ensures Endpoint(s, rows, row.name) == Success(Some(s.entityId(row.entityType, s.normalize(row.name))))
  {
    assert row in rows;
    assert FindsAt(s, rows, s.normalize(row.name), j);
    EndpointsExactlyWhen(s, rows, row.name);
  }
}
