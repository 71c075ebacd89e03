/**
 What the rest of the pipeline relies on: the edges of a mapped answer stay within it, and the
 answers one run maps can be merged in any order and grouping.
 */
module MappedAnswers {
  import opened Sequences
  import opened Wrappers
  import opened Domain
  import opened Planning
  import opened Preference
  import opened BestById
  import opened Merging
  import opened Mapping
  import Runs

  lemma StatedHere(s: Scheme, x: Extraction, r: Relationship)
    requires r in StatedEdges(s, x.entities, x.relationships)
    ensures r.id == s.edgeId(r.source, r.target, r.relationshipType) && r.sourceId == Some(s.sourceId)
    ensures r.source in Ids(Built(s, x.entities)) && r.target in Ids(Built(s, x.entities)) && !r.IsSelfLoop()
  {
    hide Built, TypesNamed, FirstKnown;
    StatedFrom(s, x.entities, x.relationships, r);
    var stated :| stated in x.relationships && State(s, x.entities, stated) == Edge(r);
    EndpointIsKnown(s, x.entities, stated.sourceName);
    EndpointIsKnown(s, x.entities, stated.targetName);
  }

  lemma {:induction false} FirstKnownIsKnown(s: Scheme, types: seq<string>, normal: string, known: set<EntityId>)
    ensures match FirstKnown(s, types, normal, known)
            case Success(Some(id)) => id in known
            case _ => true
  {
    if types != [] {
      FirstKnownIsKnown(s, types[1..], normal, known);
    }
  }

  lemma EndpointIsKnown(s: Scheme, rows: seq<ExtractedEntity>, name: string)
    ensures match Endpoint(s, rows, name)
            case Success(Some(id)) => id in Ids(Built(s, rows))
            case _ => true
  {
    FirstKnownIsKnown(s, TypesNamed(s, rows, s.normalize(name)), s.normalize(name), Ids(Built(s, rows)));
  }

  /** A mapped answer's edges join two different entities of that answer. */
  lemma MappedEdgesStayWithin(s: Scheme, dumps: Renderer, x: Extraction, lifted: nat, dateNodes: nat)
    ensures var m := MapOf(s, dumps, x, lifted, dateNodes);
            Runs.WellFormedExtraction(m.entities, m.relationships) && OncePerId(m.entities)
  {
    hide KeepAll, Built, StatedEdges;
    var m := MapOf(s, dumps, x, lifted, dateNodes);
    var es, rs := Built(s, x.entities), StatedEdges(s, x.entities, x.relationships);
    KeysAreKept(EntityKey, EntityBeats(dumps), es);
    KeysAreKept(EdgeKey, EdgeBeats(dumps), rs);
    ListedElements(KeptEntities(dumps, es));
    ListedElements(KeptEdges(dumps, rs));
    forall k | k in Ids(es) ensures exists e :: e in m.entities && e.id == k {
      KnownIds(dumps, es);
      assert KeptEntities(dumps, es).values[k] in Elements(m.entities);
    }
    forall r | r in m.relationships
      ensures !r.IsSelfLoop() && r.source in Ids(es) && r.target in Ids(es)
    {
      assert r in Elements(m.relationships);
      StatedHere(s, x, r);
    }
    ListedOnce(dumps, es);
  }

  lemma ListedOnce(dumps: Renderer, es: seq<Entity>)
    ensures OncePerId(KeptEntities(dumps, es).Listed())
  {
    hide KeepAll;
    var d := KeptEntities(dumps, es);
    KeysAreKept(EntityKey, EntityBeats(dumps), es);
    forall i | 0 <= i < |d.keys| ensures d.Listed()[i].id == d.keys[i] {
      assert d.keys[i] in d.keys;
    }
  }

  // A part mapped by one run over one document.
  ghost predicate MappedBy(s: Scheme, dumps: Renderer, part: MappedExtraction) {
    exists x, lifted, dateNodes :: Mapped(s, dumps, x, lifted, dateNodes) == Success(part)
  }

  /** Whatever chunks one run maps, their mentions can be told apart by the preference orders. */
  lemma MappedPartsAreComparable(s: Scheme, dumps: Renderer, parts: seq<MappedExtraction>)
    requires Derives(s) && forall p :: p in parts ==> MappedBy(s, dumps, p)
    ensures Comparable(AllEntities(parts), AllEdges(parts))
  {
    hide MappedBy, AllEntities, AllEdges, Derives;
    ElementsOfAll(parts);
    forall a, b | a in AllEntities(parts) && b in AllEntities(parts) && a.id == b.id ensures SameMention(a, b) {
      var p :| p in parts && a in p.entities;
      var q :| q in parts && b in q.entities;
      MentionIsDerived(s, dumps, p, a);
      MentionIsDerived(s, dumps, q, b);
      DerivedMentionsAgree(s, a, b);
    }
    forall a, b | a in AllEdges(parts) && b in AllEdges(parts) && a.id == b.id ensures SameEdge(a, b) {
      var p :| p in parts && a in p.relationships;
      var q :| q in parts && b in q.relationships;
      EdgeIsDerived(s, dumps, p, a);
      EdgeIsDerived(s, dumps, q, b);
      DerivedEdgesAgree(s, a, b);
    }
  }

  ghost predicate Derived(s: Scheme, e: Entity) {
    && e.id == s.entityId(e.entityType, e.normalizedName)
    && e.originalEntityType == None && e.externalIds == map[]
    && e.provenance == s.provenance(e.provenance.confidence)
    && e.blockingKeys == Some(s.blockingKeys(e.normalizedName, e.entityType))
  }

  lemma DerivedMentionsAgree(s: Scheme, a: Entity, b: Entity)
    requires Derives(s) && Derived(s, a) && Derived(s, b) && a.id == b.id
    ensures SameMention(a, b)
  {
    assert s.provenance(a.provenance.confidence) == s.provenance(b.provenance.confidence).(confidence := a.provenance.confidence);
  }

  lemma DerivedEdgesAgree(s: Scheme, a: Relationship, b: Relationship)
    requires Derives(s) && a.id == b.id && a.sourceId == b.sourceId
    requires a.id == s.edgeId(a.source, a.target, a.relationshipType)
    requires b.id == s.edgeId(b.source, b.target, b.relationshipType)
    ensures SameEdge(a, b)
  {
  }

  lemma MentionIsDerived(s: Scheme, dumps: Renderer, part: MappedExtraction, e: Entity)
    requires Derives(s) && MappedBy(s, dumps, part) && e in part.entities
    ensures Derived(s, e)
  {
    hide KeepAll, Built;
    var x, lifted, dateNodes :| Mapped(s, dumps, x, lifted, dateNodes) == Success(part);
    var es := Built(s, x.entities);
    KeysAreKept(EntityKey, EntityBeats(dumps), es);
    ListedElements(KeptEntities(dumps, es));
    assert e in Elements(part.entities);
    BuiltIsDerived(s, x.entities, e);
  }

  lemma BuiltIsDerived(s: Scheme, rows: seq<ExtractedEntity>, e: Entity)
    requires Derives(s) && e in Built(s, rows)
    ensures Derived(s, e)
  {
    hide Built;
    BuiltFrom(s, rows, e);
    var row :| row in rows && Build(s, row).0 == Some(e);
    assert s.provenance(row.confidence) == s.provenance(row.confidence).(confidence := row.confidence);
  }

  lemma EdgeIsDerived(s: Scheme, dumps: Renderer, part: MappedExtraction, r: Relationship)
    requires MappedBy(s, dumps, part) && r in part.relationships
    ensures r.id == s.edgeId(r.source, r.target, r.relationshipType) && r.sourceId == Some(s.sourceId)
  {
    hide KeepAll, StatedEdges;
    var x, lifted, dateNodes :| Mapped(s, dumps, x, lifted, dateNodes) == Success(part);
    var rs := StatedEdges(s, x.entities, x.relationships);
    KeysAreKept(EdgeKey, EdgeBeats(dumps), rs);
    ListedElements(KeptEdges(dumps, rs));
    assert r in Elements(part.relationships);
    StatedHere(s, x, r);
  }

  /**
   However the model answered for each chunk, of the answers that map: the merged extraction holds the preferred mention
   of every id, its edges stay within it, and neither the order nor the grouping of the chunks
   changes it.
   */
  lemma ChunksOfOneRunMerge(s: Scheme, dumps: Renderer, parts: seq<MappedExtraction>, others: seq<MappedExtraction>)
    requires Derives(s) && Faithful(dumps) && forall p :: p in parts + others ==> MappedBy(s, dumps, p)
    ensures KeepsTheBest(dumps, AllEntities(parts), AllEdges(parts), MergeOf(dumps, parts))
    ensures Runs.WellFormedExtraction(MergeOf(dumps, parts).entities, MergeOf(dumps, parts).relationships)
    ensures multiset(parts) == multiset(others) ==> SameView(MergeOf(dumps, parts), MergeOf(dumps, others))
    ensures SameView(MergeOf(dumps, [MergeOf(dumps, parts), MergeOf(dumps, others)]), MergeOf(dumps, parts + others))
  {
    hide Derives, Faithful, MappedBy, Comparable, KeepsTheBest, SameView, MergeOf, AllEntities, AllEdges, Runs.WellFormedExtraction;
    assert forall p :: p in parts ==> p in parts + others;
    MappedPartsAreComparable(s, dumps, parts);
    MappedPartsAreComparable(s, dumps, parts + others);
    MergeKeepsTheBest(dumps, parts);
    if multiset(parts) == multiset(others) {
      MergeIgnoresOrder(dumps, parts, others);
    }
    MergeRegroups(dumps, parts, others);
    forall p | p in parts ensures Runs.WellFormedExtraction(p.entities, p.relationships) {
      MappedPartStaysWithin(s, dumps, p);
    }
    NoEdgeIsOrphaned(dumps, parts);
  }

  lemma MappedPartStaysWithin(s: Scheme, dumps: Renderer, part: MappedExtraction)
    requires MappedBy(s, dumps, part)
    ensures Runs.WellFormedExtraction(part.entities, part.relationships)
  {
    hide MapOf, Runs.WellFormedExtraction;
    var x, lifted, dateNodes :| Mapped(s, dumps, x, lifted, dateNodes) == Success(part);
    MappedEdgesStayWithin(s, dumps, x, lifted, dateNodes);
  }

  // The mentions of one answer, before any is dropped, can be told apart too.
  lemma AnswerIsComparable(s: Scheme, x: Extraction)
    requires Derives(s)
    ensures Comparable(Built(s, x.entities), StatedEdges(s, x.entities, x.relationships))
  {
    hide Built, StatedEdges, Derives;
    var es, rs := Built(s, x.entities), StatedEdges(s, x.entities, x.relationships);
    forall a, b | a in es && b in es && a.id == b.id ensures SameMention(a, b) {
      BuiltIsDerived(s, x.entities, a);
      BuiltIsDerived(s, x.entities, b);
      DerivedMentionsAgree(s, a, b);
    }
    forall a, b | a in rs && b in rs && a.id == b.id ensures SameEdge(a, b) {
      StatedHere(s, x, a);
      StatedHere(s, x, b);
      DerivedEdgesAgree(s, a, b);
    }
  }
}
