/**
 Folding what each chunk of a document reported into one extraction: one entity and one edge
 per id, the preferred mention of each, and the counters summed.
 */
module Merging {
  import opened Sequences
  import opened Domain
  import opened Planning
  import opened Preference
  import opened BestById
  import Runs

  datatype Counters = Counters(
    droppedEntities: nat, unresolvedRelationships: nat, selfLoops: nat,
    undatableRelative: nat, liftedDates: nat, dateNodes: nat)
  {
    function Plus(other: Counters): Counters {
      Counters(droppedEntities + other.droppedEntities, unresolvedRelationships + other.unresolvedRelationships,
               selfLoops + other.selfLoops, undatableRelative + other.undatableRelative,
               liftedDates + other.liftedDates, dateNodes + other.dateNodes)
    }
  }

  const NO_COUNTS := Counters(0, 0, 0, 0, 0, 0)

  datatype MappedExtraction = MappedExtraction(
    entities: seq<Entity>, relationships: seq<Relationship>, counters: Counters)

  function EntityKey(e: Entity): EntityId { e.id }

  function EdgeKey(r: Relationship): RelationshipId { r.id }

  function EntityBeats(dumps: Renderer): (Entity, Entity) -> bool {
    (a, b) => Prefers(dumps, a, b)
  }

  function EdgeBeats(dumps: Renderer): (Relationship, Relationship) -> bool {
    (a, b) => PrefersEdge(dumps, a, b)
  }

  function AllEntities(parts: seq<MappedExtraction>): seq<Entity> {
    if parts == [] then [] else AllEntities(parts[..|parts| - 1]) + parts[|parts| - 1].entities
  }

  function AllEdges(parts: seq<MappedExtraction>): seq<Relationship> {
    if parts == [] then [] else AllEdges(parts[..|parts| - 1]) + parts[|parts| - 1].relationships
  }

  function Total(parts: seq<MappedExtraction>): Counters {
    if parts == [] then NO_COUNTS else Total(parts[..|parts| - 1]).Plus(parts[|parts| - 1].counters)
  }

  function KeptEntities(dumps: Renderer, es: seq<Entity>): Dict<Entity> {
    KeepAll(EntityKey, EntityBeats(dumps), es)
  }

  function KeptEdges(dumps: Renderer, rs: seq<Relationship>): Dict<Relationship> {
    KeepAll(EdgeKey, EdgeBeats(dumps), rs)
  }

  function MergeOf(dumps: Renderer, parts: seq<MappedExtraction>): MappedExtraction {
    MappedExtraction(KeptEntities(dumps, AllEntities(parts)).Listed(), KeptEdges(dumps, AllEdges(parts)).Listed(), Total(parts))
  }

  method MergeExtractions(dumps: Renderer, parts: seq<MappedExtraction>) returns (merged: MappedExtraction)
    ensures merged == MergeOf(dumps, parts)
  {
    var entities, relationships := Dict([], map[]), Dict([], map[]);
    var counters := NO_COUNTS;
    for p := 0 to |parts|
      invariant entities == KeptEntities(dumps, AllEntities(parts[..p]))
      invariant relationships == KeptEdges(dumps, AllEdges(parts[..p]))
      invariant counters == Total(parts[..p])
    {
      var part := parts[p];
      assert parts[..p + 1][..p] == parts[..p];
      ghost var es, rs := AllEntities(parts[..p]), AllEdges(parts[..p]);
      assert es + part.entities[..0] == es && rs + part.relationships[..0] == rs;
      for i := 0 to |part.entities|
        invariant entities == KeptEntities(dumps, es + part.entities[..i])
      {
        var entity := part.entities[i];
        OneMoreOf(es, part.entities, i);
        if entity.id !in entities.values || Prefers(dumps, entity, entities.values[entity.id]) {
          entities := entities.Put(entity.id, entity);
        }
      }
      assert part.entities[..|part.entities|] == part.entities;
      for i := 0 to |part.relationships|
        invariant relationships == KeptEdges(dumps, rs + part.relationships[..i])
      {
        var relationship := part.relationships[i];
        OneMoreOf(rs, part.relationships, i);
        if relationship.id !in relationships.values || PrefersEdge(dumps, relationship, relationships.values[relationship.id]) {
          relationships := relationships.Put(relationship.id, relationship);
        }
      }
      assert part.relationships[..|part.relationships|] == part.relationships;
      counters := counters.Plus(part.counters);
    }
    assert parts[..|parts|] == parts;
    return MappedExtraction(entities.Listed(), relationships.Listed(), counters);
  }

  // ----- what is kept

  // Mentions with one id differ only where the preference order looks.  Holds of mentions
  // mapped from one document by one run.
  ghost predicate Comparable(es: seq<Entity>, rs: seq<Relationship>) {
    && (forall a, b :: a in es && b in es && a.id == b.id ==> SameMention(a, b))
    && (forall a, b :: a in rs && b in rs && a.id == b.id ==> SameEdge(a, b))
  }

  lemma OrdersAreStrict(dumps: Renderer)
    ensures StrictOrder(EntityBeats(dumps)) && StrictOrder(EdgeBeats(dumps))
  {
    hide Prefers, PrefersEdge;
    forall a, b ensures !(Prefers(dumps, a, b) && Prefers(dumps, b, a)) {
      PreferenceIsAsymmetric(dumps, a, b);
    }
    forall a, b, c | Prefers(dumps, a, b) && Prefers(dumps, b, c) ensures Prefers(dumps, a, c) {
      PreferenceIsTransitive(dumps, a, b, c);
    }
    forall a, b ensures !(PrefersEdge(dumps, a, b) && PrefersEdge(dumps, b, a)) {
      EdgePreferenceIsAsymmetric(dumps, a, b);
    }
    forall a, b, c | PrefersEdge(dumps, a, b) && PrefersEdge(dumps, b, c) ensures PrefersEdge(dumps, a, c) {
      EdgePreferenceIsTransitive(dumps, a, b, c);
    }
  }

  lemma OrdersAreTotal(dumps: Renderer, es: seq<Entity>, rs: seq<Relationship>)
    requires Faithful(dumps) && Comparable(es, rs)
    ensures StrictOrder(EntityBeats(dumps)) && TotalOn(EntityKey, EntityBeats(dumps), Elements(es))
    ensures StrictOrder(EdgeBeats(dumps)) && TotalOn(EdgeKey, EdgeBeats(dumps), Elements(rs))
  {
    hide Prefers, PrefersEdge, SameMention, SameEdge, StrictOrder;
    OrdersAreStrict(dumps);
    forall a, b | a in es && b in es && a.id == b.id ensures a == b || Prefers(dumps, a, b) || Prefers(dumps, b, a) {
      PreferenceIsTotal(dumps, a, b);
    }
    forall a, b | a in rs && b in rs && a.id == b.id ensures a == b || PrefersEdge(dumps, a, b) || PrefersEdge(dumps, b, a) {
      EdgePreferenceIsTotal(dumps, a, b);
    }
  }

  lemma PreferenceIsAsymmetric(dumps: Renderer, a: Entity, b: Entity)
    ensures !(Prefers(dumps, a, b) && Prefers(dumps, b, a))
  {
    AboveIsTotal(RankOf(dumps, a), RankOf(dumps, b));
  }

  lemma EdgePreferenceIsAsymmetric(dumps: Renderer, a: Relationship, b: Relationship)
    ensures !(PrefersEdge(dumps, a, b) && PrefersEdge(dumps, b, a))
  {
    StringOrderIsTotal(dumps(a.properties), dumps(b.properties));
  }

  // Every mention in the result is preferred to every other mention of its id.
  ghost predicate KeepsTheBest(dumps: Renderer, es: seq<Entity>, rs: seq<Relationship>, merged: MappedExtraction) {
    && (forall e :: e in merged.entities <==> e in es && forall d :: d in es && d.id == e.id ==> d == e || Prefers(dumps, e, d))
    && (forall r :: r in merged.relationships <==>
          r in rs && forall s :: s in rs && s.id == r.id ==> s == r || PrefersEdge(dumps, r, s))
  }

  // The same entities, edges and counters, in whatever order.
  ghost predicate SameView(a: MappedExtraction, b: MappedExtraction) {
    Elements(a.entities) == Elements(b.entities) && Elements(a.relationships) == Elements(b.relationships) && a.counters == b.counters
  }

  /** An entity or an edge is in the merge exactly when it is the preferred mention of its id. */
  lemma MergeKeepsTheBest(dumps: Renderer, parts: seq<MappedExtraction>)
    requires Faithful(dumps) && Comparable(AllEntities(parts), AllEdges(parts))
    ensures KeepsTheBest(dumps, AllEntities(parts), AllEdges(parts), MergeOf(dumps, parts))
  {
    hide Prefers, PrefersEdge, Comparable, KeepAll, AllEntities, AllEdges, StrictOrder, TotalOn, IsBest;
    var es, rs := AllEntities(parts), AllEdges(parts);
    var merged := MergeOf(dumps, parts);
    OrdersAreTotal(dumps, es, rs);
    ListedElements(KeptEntities(dumps, es));
    ListedElements(KeptEdges(dumps, rs));
    forall e ensures e in merged.entities <==> e in es && forall d :: d in es && d.id == e.id ==> d == e || Prefers(dumps, e, d) {
      BestEntity(dumps, es, e);
      KeptExactlyTheBest(EntityKey, EntityBeats(dumps), es, e);
      assert e in merged.entities <==> e in Elements(merged.entities);
    }
    forall r ensures r in merged.relationships <==>
                     r in rs && forall s :: s in rs && s.id == r.id ==> s == r || PrefersEdge(dumps, r, s)
    {
      BestEdge(dumps, rs, r);
      KeptExactlyTheBest(EdgeKey, EdgeBeats(dumps), rs, r);
      assert r in merged.relationships <==> r in Elements(merged.relationships);
    }
  }

  lemma BestEntity(dumps: Renderer, es: seq<Entity>, e: Entity)
    ensures IsBest(EntityKey, EntityBeats(dumps), Elements(es), e) <==>
            e in es && forall d :: d in es && d.id == e.id ==> d == e || Prefers(dumps, e, d)
  {
    hide Prefers;
    assert forall d :: d in es <==> d in Elements(es);
  }

  lemma BestEdge(dumps: Renderer, rs: seq<Relationship>, r: Relationship)
    ensures IsBest(EdgeKey, EdgeBeats(dumps), Elements(rs), r) <==>
            r in rs && forall s :: s in rs && s.id == r.id ==> s == r || PrefersEdge(dumps, r, s)
  {
    hide PrefersEdge;
    assert forall s :: s in rs <==> s in Elements(rs);
  }

  // ----- order and grouping do not matter

  lemma {:induction false} ElementsOfAll(parts: seq<MappedExtraction>)
    ensures forall e :: e in AllEntities(parts) <==> exists p :: p in parts && e in p.entities
    ensures forall r :: r in AllEdges(parts) <==> exists p :: p in parts && r in p.relationships
  {
    if parts != [] {
      var n := |parts| - 1;
      ElementsOfAll(parts[..n]);
      assert parts == parts[..n] + [parts[n]];
    }
  }

  lemma {:induction false} EntitiesOfTwo(parts: seq<MappedExtraction>, more: seq<MappedExtraction>)
    ensures AllEntities(parts + more) == AllEntities(parts) + AllEntities(more)
  {
    if more == [] {
      assert parts + more == parts;
    } else {
      var n := |more| - 1;
      Shortened(parts, more);
      EntitiesOfTwo(parts, more[..n]);
      Regrouped(AllEntities(parts), AllEntities(more[..n]), more[n].entities);
    }
  }

  lemma {:induction false} EdgesOfTwo(parts: seq<MappedExtraction>, more: seq<MappedExtraction>)
    ensures AllEdges(parts + more) == AllEdges(parts) + AllEdges(more)
  {
    if more == [] {
      assert parts + more == parts;
    } else {
      var n := |more| - 1;
      Shortened(parts, more);
      EdgesOfTwo(parts, more[..n]);
      Regrouped(AllEdges(parts), AllEdges(more[..n]), more[n].relationships);
    }
  }

  lemma {:induction false} TotalOfTwo(parts: seq<MappedExtraction>, more: seq<MappedExtraction>)
    ensures Total(parts + more) == Total(parts).Plus(Total(more))
  {
    if more == [] {
      assert parts + more == parts;
    } else {
      Shortened(parts, more);
      TotalOfTwo(parts, more[..|more| - 1]);
    }
  }

  lemma {:induction false} TotalIgnoresOrder(parts: seq<MappedExtraction>, others: seq<MappedExtraction>)
    requires multiset(parts) == multiset(others)
    ensures Total(parts) == Total(others)
  {
    if parts == [] {
      assert |multiset(others)| == 0;
    } else {
      var n := |parts| - 1;
      var left, right := LastTakenOut(parts, others);
      TotalIgnoresOrder(parts[..n], left + right);
      TotalOfTwo(left, right);
      TotalOfTwo(left, [parts[n]] + right);
      TotalOfTwo([parts[n]], right);
      TotalOfOne(parts[n]);
    }
  }

  lemma TotalOfOne(part: MappedExtraction)
    ensures Total([part]) == part.counters
  {
    assert [part][..0] == [];
  }

  /** The order the chunks are given in does not matter. */
  lemma MergeIgnoresOrder(dumps: Renderer, parts: seq<MappedExtraction>, others: seq<MappedExtraction>)
    requires Faithful(dumps) && Comparable(AllEntities(parts), AllEdges(parts)) && multiset(parts) == multiset(others)
    ensures SameView(MergeOf(dumps, parts), MergeOf(dumps, others))
  {
    hide Comparable, KeepAll, StrictOrder, TotalOn, AllEntities, AllEdges, Faithful;
    var es, rs, fs, ss := AllEntities(parts), AllEdges(parts), AllEntities(others), AllEdges(others);
    TotalIgnoresOrder(parts, others);
    SameParts(parts, others);
    OrdersAreTotal(dumps, es, rs);
    KeptIgnoresOrder(EntityKey, EntityBeats(dumps), es, fs);
    KeptIgnoresOrder(EdgeKey, EdgeBeats(dumps), rs, ss);
    ListedElements(KeptEntities(dumps, es));
    ListedElements(KeptEntities(dumps, fs));
    ListedElements(KeptEdges(dumps, rs));
    ListedElements(KeptEdges(dumps, ss));
  }

  lemma SameParts(parts: seq<MappedExtraction>, others: seq<MappedExtraction>)
    requires multiset(parts) == multiset(others)
    ensures Elements(AllEntities(parts)) == Elements(AllEntities(others))
    ensures Elements(AllEdges(parts)) == Elements(AllEdges(others))
  {
    assert forall p :: p in parts <==> p in multiset(parts);
    assert forall p :: p in others <==> p in multiset(others);
    ElementsOfAll(parts);
    ElementsOfAll(others);
  }

  /** Merging two merges is merging everything at once. */
  lemma MergeRegroups(dumps: Renderer, parts: seq<MappedExtraction>, more: seq<MappedExtraction>)
    requires Faithful(dumps) && Comparable(AllEntities(parts + more), AllEdges(parts + more))
    ensures SameView(MergeOf(dumps, [MergeOf(dumps, parts), MergeOf(dumps, more)]), MergeOf(dumps, parts + more))
  {
    hide Comparable, KeepAll, StrictOrder, TotalOn, AllEntities, AllEdges, Faithful;
    var es, rs, fs, ss := AllEntities(parts), AllEdges(parts), AllEntities(more), AllEdges(more);
    var two := [MergeOf(dumps, parts), MergeOf(dumps, more)];
    TotalOfTwo(parts, more);
    EntitiesOfTwo(parts, more);
    EdgesOfTwo(parts, more);
    Two(two[0], two[1]);
    OrdersAreTotal(dumps, es + fs, rs + ss);
    KeptRegroups(EntityKey, EntityBeats(dumps), es, fs);
    KeptRegroups(EdgeKey, EdgeBeats(dumps), rs, ss);
    ListedElements(KeptEntities(dumps, AllEntities(two)));
    ListedElements(KeptEntities(dumps, es + fs));
    ListedElements(KeptEdges(dumps, AllEdges(two)));
    ListedElements(KeptEdges(dumps, rs + ss));
  }

  lemma Two(a: MappedExtraction, b: MappedExtraction)
    ensures AllEntities([a, b]) == a.entities + b.entities && AllEdges([a, b]) == a.relationships + b.relationships
    ensures Total([a, b]) == a.counters.Plus(b.counters)
  {
    var both, one := [a, b], [a];
    assert both[..1] == one && one[..0] == [];
    assert AllEntities(one) == a.entities && AllEdges(one) == a.relationships && Total(one) == a.counters;
    assert both[|both| - 1] == b;
  }

  // ----- no edge is orphaned

  lemma {:induction false} KeysAreKept<T>(key: T -> nat, beats: (T, T) -> bool, xs: seq<T>)
    ensures forall k :: k in KeepAll(key, beats, xs).values <==> exists x :: x in xs && key(x) == k
    ensures forall k :: k in KeepAll(key, beats, xs).values ==>
              KeepAll(key, beats, xs).values[k] in xs && key(KeepAll(key, beats, xs).values[k]) == k
  {
    if xs != [] {
      var n := |xs| - 1;
      assert xs == xs[..n] + [xs[n]];
      KeysAreKept(key, beats, xs[..n]);
    }
  }

  /** Chunks whose edges stay within their own entities merge into an extraction that does too. */
  lemma NoEdgeIsOrphaned(dumps: Renderer, parts: seq<MappedExtraction>)
    requires forall p :: p in parts ==> Runs.WellFormedExtraction(p.entities, p.relationships)
    ensures Runs.WellFormedExtraction(MergeOf(dumps, parts).entities, MergeOf(dumps, parts).relationships)
  {
    hide KeepAll, AllEntities, AllEdges;
    var merged := MergeOf(dumps, parts);
    ElementsOfAll(parts);
    KeysAreKept(EntityKey, EntityBeats(dumps), AllEntities(parts));
    KeysAreKept(EdgeKey, EdgeBeats(dumps), AllEdges(parts));
    ListedElements(KeptEntities(dumps, AllEntities(parts)));
    ListedElements(KeptEdges(dumps, AllEdges(parts)));
    forall e | e in AllEntities(parts) ensures exists x :: x in merged.entities && x.id == e.id {
      var x := KeptEntities(dumps, AllEntities(parts)).values[e.id];
      assert x in Elements(merged.entities);
    }
    forall r | r in merged.relationships
      ensures !r.IsSelfLoop()
      ensures exists x :: x in merged.entities && x.id == r.source
      ensures exists x :: x in merged.entities && x.id == r.target
    {
      assert r in Elements(merged.relationships);
      assert r in AllEdges(parts);
    }
  }

  // ----- how many chunks mentioned an entity

  function Counted(es: seq<Entity>): map<EntityId, nat> {
    if es == [] then map[]
    else
      var counts := Counted(es[..|es| - 1]);
      var e := es[|es| - 1].id;
      counts[e := 1 + if e in counts then counts[e] else 0]
  }

  lemma CountedOneMore(es: seq<Entity>, more: seq<Entity>, i: nat)
    requires i < |more|
    ensures var counts, e := Counted(es + more[..i]), more[i].id;
            Counted(es + more[..i + 1]) == counts[e := 1 + if e in counts then counts[e] else 0]
  {
    OneMoreOf(es, more, i);
  }

  method MentionCounts(parts: seq<MappedExtraction>) returns (counts: map<EntityId, nat>)
    ensures counts == Counted(AllEntities(parts))
  {
    counts := map[];
    for p := 0 to |parts|
      invariant counts == Counted(AllEntities(parts[..p]))
    {
      assert parts[..p + 1][..p] == parts[..p];
      ghost var es := AllEntities(parts[..p]);
      assert es + parts[p].entities[..0] == es;
      var entities := parts[p].entities;
      for i := 0 to |entities|
        invariant counts == Counted(es + entities[..i])
      {
        hide AllEntities, Counted;
        var e := entities[i].id;
        CountedOneMore(es, entities, i);
        counts := counts[e := (if e in counts then counts[e] else 0) + 1];
      }
      assert entities[..|entities|] == entities;
    }
    assert parts[..|parts|] == parts;
  }

  ghost predicate OncePerId(es: seq<Entity>) {
    forall i, j :: 0 <= i < j < |es| ==> es[i].id != es[j].id
  }

  ghost predicate Mentions(part: MappedExtraction, e: EntityId) {
    exists x :: x in part.entities && x.id == e
  }

  // The chunks that mention `e`.
  ghost function MentioningParts(parts: seq<MappedExtraction>, e: EntityId): set<nat> {
    set p: nat | p < |parts| && Mentions(parts[p], e)
  }

  function CountOf(es: seq<Entity>, e: EntityId): nat {
    if es == [] then 0 else CountOf(es[..|es| - 1], e) + if es[|es| - 1].id == e then 1 else 0
  }

  lemma {:induction false} CountedIsCountOf(es: seq<Entity>, e: EntityId)
    ensures CountOf(es, e) == if e in Counted(es) then Counted(es)[e] else 0
    ensures e in Counted(es) ==> Counted(es)[e] >= 1
  {
    if es != [] {
      CountedIsCountOf(es[..|es| - 1], e);
    }
  }

  lemma {:induction false} CountOfTwo(es: seq<Entity>, fs: seq<Entity>, e: EntityId)
    ensures CountOf(es + fs, e) == CountOf(es, e) + CountOf(fs, e)
  {
    if fs == [] {
      assert es + fs == es;
    } else {
      assert (es + fs)[..|es| + |fs| - 1] == es + fs[..|fs| - 1];
      CountOfTwo(es, fs[..|fs| - 1], e);
    }
  }

  lemma {:induction false} CountedOnce(es: seq<Entity>, e: EntityId)
    requires OncePerId(es)
    ensures CountOf(es, e) == if exists x :: x in es && x.id == e then 1 else 0
  {
    if es != [] {
      var n := |es| - 1;
      assert es == es[..n] + [es[n]];
      CountedOnce(es[..n], e);
    }
  }

  lemma {:induction false} CountIsNumberOfParts(parts: seq<MappedExtraction>, e: EntityId)
    requires forall p :: 0 <= p < |parts| ==> OncePerId(parts[p].entities)
    ensures CountOf(AllEntities(parts), e) == |MentioningParts(parts, e)|
  {
    if parts == [] {
      assert MentioningParts(parts, e) == {};
    } else {
      var n := |parts| - 1;
      CountIsNumberOfParts(parts[..n], e);
      CountOfTwo(AllEntities(parts[..n]), parts[n].entities, e);
      CountedOnce(parts[n].entities, e);
      OneMorePart(parts, e);
    }
  }

  lemma OneMorePart(parts: seq<MappedExtraction>, e: EntityId)
    requires parts != []
    ensures var n := |parts| - 1;
            |MentioningParts(parts, e)| == |MentioningParts(parts[..n], e)| + if Mentions(parts[n], e) then 1 else 0
  {
    hide Mentions;
    var n := |parts| - 1;
    var before := MentioningParts(parts[..n], e);
    assert MentioningParts(parts, e) == if Mentions(parts[n], e) then before + {n} else before;
  }

  /**
   The counts have exactly the ids of the merge, and each is the number of chunks that
   mentioned that id, given that no chunk lists an id twice.
   */
  lemma {:induction false} EveryMentionIsCounted(dumps: Renderer, parts: seq<MappedExtraction>, e: EntityId)
    requires forall p :: 0 <= p < |parts| ==> OncePerId(parts[p].entities)
    ensures e in Counted(AllEntities(parts)) <==> exists x :: x in MergeOf(dumps, parts).entities && x.id == e
    ensures e in Counted(AllEntities(parts)) ==> Counted(AllEntities(parts))[e] == |MentioningParts(parts, e)| >= 1
  {
    hide KeepAll, OncePerId, Mentions, AllEntities;
    var es := AllEntities(parts);
    CountedIsCountOf(es, e);
    CountIsNumberOfParts(parts, e);
    KeysAreKept(EntityKey, EntityBeats(dumps), es);
    ListedElements(KeptEntities(dumps, es));
    CountOfPresent(es, e);
    var merged := MergeOf(dumps, parts).entities;
    assert forall x :: x in merged <==> x in Elements(merged);
    if e in KeptEntities(dumps, es).values {
      assert KeptEntities(dumps, es).values[e] in Elements(merged);
    }
  }

  lemma {:induction false} CountOfPresent(es: seq<Entity>, e: EntityId)
    ensures CountOf(es, e) > 0 <==> exists x :: x in es && x.id == e
  {
    if es != [] {
      var n := |es| - 1;
      assert es == es[..n] + [es[n]];
      CountOfPresent(es[..n], e);
    }
  }
}
