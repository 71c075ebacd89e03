/**
 What a mapped answer holds in terms of the answer: which stated edge each of its edges is, which
 row each of its entities is, and what its counters count.
 */
module MappedEdges {
  import opened Sequences
  import opened Wrappers
  import opened Domain
  import opened Planning
  import opened BestById
  import opened Merging
  import opened Mapping
  import opened Survivors
  import opened KeptMentions

  // ----- one stated edge

  // Both names find the same entity.
  ghost predicate SameEnds(s: Scheme, rows: seq<ExtractedEntity>, r: ExtractedRelationship) {
    exists e: EntityId :: Finds(s, rows, r.sourceName, e) && Finds(s, rows, r.targetName, e)
  }

  ghost predicate FindsSome(s: Scheme, rows: seq<ExtractedEntity>, name: string) {
    exists e: EntityId :: Finds(s, rows, name, e)
  }

  // `e` is the edge `r` states, from the entity its source name finds to the one its target name finds.
  ghost predicate IsTheEdge(s: Scheme, rows: seq<ExtractedEntity>, r: ExtractedRelationship, e: Relationship) {
    && Finds(s, rows, r.sourceName, e.source) && Finds(s, rows, r.targetName, e.target) && e.source != e.target
    && e.relationshipType == r.relationshipType && e.properties == r.properties && e.confidence == r.confidence
    && e.sourceId == Some(s.sourceId) && e.id == s.edgeId(e.source, e.target, e.relationshipType)
  }

  lemma StateIs(s: Scheme, rows: seq<ExtractedEntity>, r: ExtractedRelationship)
    requires Derives(s) && !State(s, rows, r).Raises?
    ensures forall e :: State(s, rows, r) == Edge(e) <==> IsTheEdge(s, rows, r, e)
    ensures State(s, rows, r) == Unresolved <==> !FindsSome(s, rows, r.sourceName) || !FindsSome(s, rows, r.targetName)
    ensures State(s, rows, r) == SelfLoop <==> SameEnds(s, rows, r)
  {
    hide Endpoint, Stumbles, Finds;
    EndpointsExactlyWhen(s, rows, r.sourceName);
    EndpointsExactlyWhen(s, rows, r.targetName);
  }

  // ----- one row

  // Every piece of text the row holds, its properties apart.
  function TextsOf(row: ExtractedEntity): set<string> {
    {row.name, row.entityType, row.temporalExpression} + if row.description.Some? then {row.description.value} else {}
  }

  // It is named, and everything in it can be stored.
  ghost predicate Usable(s: Scheme, row: ExtractedEntity) {
    && !s.blank(row.name) && s.text.storableProperties(row.properties)
    && forall t :: t in TextsOf(row) ==> s.text.storable(t)
  }

  lemma UsableIsAccepted(s: Scheme, row: ExtractedEntity)
    ensures Usable(s, row) <==> Accepted(s, row)
  {
  }

  // `e` is what the row is made into.
  ghost predicate IsTheEntity(s: Scheme, row: ExtractedEntity, e: Entity) {
    && e.id == s.entityId(row.entityType, s.normalize(row.name))
    && e.name == row.name && e.normalizedName == s.normalize(row.name) && e.entityType == row.entityType
    && e.description == row.description && e.properties == row.properties
    && e.provenance == s.provenance(row.confidence) && e.provenance.confidence == row.confidence
    && e.temporal == s.extent(row).0 && e.originalEntityType == None && e.externalIds == map[]
    && e.blockingKeys == Some(s.blockingKeys(s.normalize(row.name), row.entityType))
  }

  lemma BuildIs(s: Scheme, row: ExtractedEntity, e: Entity)
    requires Derives(s)
    ensures Build(s, row).0 == Some(e) <==> Usable(s, row) && IsTheEntity(s, row, e)
    ensures Build(s, row).1 <==> Usable(s, row) && s.extent(row).1
  {
    UsableIsAccepted(s, row);
    assert s.provenance(row.confidence) == s.provenance(row.confidence).(confidence := row.confidence);
  }

  // ----- edges of the answer

  ghost predicate StatedIn(s: Scheme, x: Extraction, e: Relationship) {
    exists r :: r in x.relationships && IsTheEdge(s, x.entities, r, e)
  }

  ghost predicate MadeFromRow(s: Scheme, x: Extraction, e: Entity) {
    exists row :: row in x.entities && Usable(s, row) && IsTheEntity(s, row, e)
  }

  /** Every edge of a mapped answer is one the answer stated, and every entity one of its rows. */
  lemma EverythingMappedWasSaid(s: Scheme, dumps: Renderer, x: Extraction, lifted: nat, dateNodes: nat)
    requires Derives(s) && Mapped(s, dumps, x, lifted, dateNodes).Success?
    ensures var m := Mapped(s, dumps, x, lifted, dateNodes).value;
            && (forall e :: e in m.relationships ==> StatedIn(s, x, e))
            && (forall e :: e in m.entities ==> MadeFromRow(s, x, e))
  {
    hide Derives, KeepAll, Built, StatedEdges, State, IsTheEdge, IsTheEntity, Usable, Build, RunError;
    var m := MapOf(s, dumps, x, lifted, dateNodes);
    var es, rs := Built(s, x.entities), StatedEdges(s, x.entities, x.relationships);
    ErrorFrom(s, x.entities, x.relationships);
    KeysAreKept(EntityKey, EntityBeats(dumps), es);
    KeysAreKept(EdgeKey, EdgeBeats(dumps), rs);
    ListedElements(KeptEntities(dumps, es));
    ListedElements(KeptEdges(dumps, rs));
    forall e | e in m.relationships ensures StatedIn(s, x, e) {
      assert e in Elements(m.relationships);
      StatedFrom(s, x.entities, x.relationships, e);
      var r :| r in x.relationships && State(s, x.entities, r) == Edge(e);
      StateIs(s, x.entities, r);
    }
    forall e | e in m.entities ensures MadeFromRow(s, x, e) {
      assert e in Elements(m.entities);
      BuiltFrom(s, x.entities, e);
      var row :| row in x.entities && Build(s, row).0 == Some(e);
      BuildIs(s, row, e);
    }
  }

  ghost predicate SaidBetween(dumps: Renderer, m: MappedExtraction, r: ExtractedRelationship, a: EntityId, b: EntityId) {
    exists e :: e in m.relationships && e.source == a && e.target == b && e.relationshipType == r.relationshipType
                && SaidNoWorse(dumps, e, Relationship(e.id, a, b, r.relationshipType, e.sourceId, r.properties, r.confidence))
  }

  /** What a stated edge claims of two different entities it finds is in the mapped answer, said no worse. */
  lemma EveryStatedEdgeIsMapped(s: Scheme, dumps: Renderer, x: Extraction, lifted: nat, dateNodes: nat,
                                r: ExtractedRelationship, a: EntityId, b: EntityId)
    requires Derives(s) && Mapped(s, dumps, x, lifted, dateNodes).Success? && r in x.relationships
    requires Finds(s, x.entities, r.sourceName, a) && Finds(s, x.entities, r.targetName, b) && a != b
    ensures SaidBetween(dumps, Mapped(s, dumps, x, lifted, dateNodes).value, r, a, b)
  {
    hide KeepAll, Built, StatedEdges, State, RunError, KeptEntities, Finds, SaidNoWorse;
    var rs := StatedEdges(s, x.entities, x.relationships);
    ErrorFrom(s, x.entities, x.relationships);
    StateIs(s, x.entities, r);
    var edge := Relationship(s.edgeId(a, b, r.relationshipType), a, b, r.relationshipType, Some(s.sourceId), r.properties, r.confidence);
    assert IsTheEdge(s, x.entities, r, edge);
    StatedFrom(s, x.entities, x.relationships, edge);
    KeptEdgeIsNoWorse(dumps, rs, edge);
    var kept :| kept in KeptEdges(dumps, rs).Listed() && kept in rs && StandsForEdge(dumps, kept, edge);
    StatedFrom(s, x.entities, x.relationships, kept);
    var other :| other in x.relationships && State(s, x.entities, other) == Edge(kept);
    StateIs(s, x.entities, other);
    SameEdgeId(s, kept, edge);
    OnlyWhatIsSaidCounts(dumps, kept, edge, Relationship(kept.id, a, b, r.relationshipType, kept.sourceId, r.properties, r.confidence));
  }

  lemma SameEdgeId(s: Scheme, e: Relationship, f: Relationship)
    requires Derives(s) && e.id == f.id
    requires e.id == s.edgeId(e.source, e.target, e.relationshipType) && f.id == s.edgeId(f.source, f.target, f.relationshipType)
    ensures e.source == f.source && e.target == f.target && e.relationshipType == f.relationshipType
  {
  }

  lemma OnlyWhatIsSaidCounts(dumps: Renderer, b: Relationship, a: Relationship, c: Relationship)
    requires SaidNoWorse(dumps, b, a) && a.confidence == c.confidence && a.properties == c.properties
    ensures SaidNoWorse(dumps, b, c)
  {
  }

  /** Every usable row is in the mapped answer, under its id, as itself or as a mention that is no worse. */
  lemma EveryUsableRowIsMapped(s: Scheme, dumps: Renderer, x: Extraction, lifted: nat, dateNodes: nat, row: ExtractedEntity)
    requires Derives(s) && Mapped(s, dumps, x, lifted, dateNodes).Success? && row in x.entities && Usable(s, row)
    ensures exists mention, kept :: IsTheEntity(s, row, mention) && kept in Mapped(s, dumps, x, lifted, dateNodes).value.entities
                                    && StandsFor(dumps, kept, mention)
  {
    hide KeepAll, Built, StatedEdges, RunError, KeptEdges, KeptEntities, StandsFor, IsTheEntity;
    var es := Built(s, x.entities);
    UsableIsAccepted(s, row);
    var mention := Build(s, row).0.value;
    BuildIs(s, row, mention);
    BuiltFrom(s, x.entities, mention);
    KeptEntityIsNoWorse(dumps, es, mention);
  }

  // ----- the counters

  // Rows that cannot be used, rows used without the date they gave, stated edges with an end not
  // found, and stated edges that lead from an entity to itself.
  ghost function Dropped(s: Scheme): ExtractedEntity -> bool {
    (row: ExtractedEntity) => !Usable(s, row)
  }

  ghost function Undated(s: Scheme): ExtractedEntity -> bool {
    (row: ExtractedEntity) => Usable(s, row) && s.extent(row).1
  }

  ghost function NotFound(s: Scheme, rows: seq<ExtractedEntity>): ExtractedRelationship -> bool {
    (r: ExtractedRelationship) => !FindsSome(s, rows, r.sourceName) || !FindsSome(s, rows, r.targetName)
  }

  ghost function Looping(s: Scheme, rows: seq<ExtractedEntity>): ExtractedRelationship -> bool {
    (r: ExtractedRelationship) => SameEnds(s, rows, r)
  }

  lemma {:induction false} RowsAreCounted(s: Scheme, rows: seq<ExtractedEntity>)
    requires Derives(s)
    ensures |rows| - |Built(s, rows)| == |Where(rows, Dropped(s))| && Undatable(s, rows) == |Where(rows, Undated(s))|
  {
    hide Usable, Derives, Build, Where;
    if rows == [] {
      NoneIn(Dropped(s));
      NoneIn(Undated(s));
    } else {
      var n := |rows| - 1;
      RowsAreCounted(s, rows[..n]);
      OneMoreIn(rows, Dropped(s));
      OneMoreIn(rows, Undated(s));
      var built := Build(s, rows[n]);
      if built.0.Some? {
        BuildIs(s, rows[n], built.0.value);
      } else {
        NotBuilt(s, rows[n]);
      }
    }
  }

  lemma NotBuilt(s: Scheme, row: ExtractedEntity)
    requires Build(s, row).0.None?
    ensures !Usable(s, row) && !Build(s, row).1
  {
    UsableIsAccepted(s, row);
  }

  lemma {:induction false} RefusedAreCounted(s: Scheme, rows: seq<ExtractedEntity>, rs: seq<ExtractedRelationship>)
    requires Derives(s) && forall r :: r in rs ==> !State(s, rows, r).Raises?
    ensures Refused(s, rows, rs, Unresolved) == |Where(rs, NotFound(s, rows))|
    ensures Refused(s, rows, rs, SelfLoop) == |Where(rs, Looping(s, rows))|
  {
    hide Derives, State, FindsSome, SameEnds, Where;
    if rs == [] {
      NoneIn(NotFound(s, rows));
      NoneIn(Looping(s, rows));
    } else {
      var n := |rs| - 1;
      assert rs[n] in rs && forall r :: r in rs[..n] ==> r in rs;
      RefusedAreCounted(s, rows, rs[..n]);
      OneMoreIn(rs, NotFound(s, rows));
      OneMoreIn(rs, Looping(s, rows));
      StateIs(s, rows, rs[n]);
    }
  }

  /** The counters of a mapped answer: how many rows and edges of each kind it had. */
  lemma CountersCount(s: Scheme, dumps: Renderer, x: Extraction, lifted: nat, dateNodes: nat)
    requires Derives(s) && Mapped(s, dumps, x, lifted, dateNodes).Success?
    ensures var c := Mapped(s, dumps, x, lifted, dateNodes).value.counters;
            && c.droppedEntities == |Where(x.entities, Dropped(s))|
            && c.undatableRelative == |Where(x.entities, Undated(s))|
            && c.unresolvedRelationships == |Where(x.relationships, NotFound(s, x.entities))|
            && c.selfLoops == |Where(x.relationships, Looping(s, x.entities))|
            && c.liftedDates == lifted && c.dateNodes == dateNodes
  {
    hide Derives, State, Built, Undatable, Refused, RunError, KeptEntities, KeptEdges, StatedEdges, Where;
    RowsAreCounted(s, x.entities);
    ErrorFrom(s, x.entities, x.relationships);
    RefusedAreCounted(s, x.entities, x.relationships);
  }

  // ----- nothing that cannot be stored

  /** Whatever maps can be stored: the text of every entity and of every edge. */
  lemma EverythingMappedIsStorable(s: Scheme, dumps: Renderer, x: Extraction, lifted: nat, dateNodes: nat)
    requires Derives(s) && Mapped(s, dumps, x, lifted, dateNodes).Success?
    ensures var m := Mapped(s, dumps, x, lifted, dateNodes).value;
            && (forall e :: e in m.entities ==>
                  && s.text.storable(e.name) && s.text.storable(e.entityType) && s.text.storableProperties(e.properties)
                  && (e.description.Some? ==> s.text.storable(e.description.value))
                  && s.text.storable(s.sourceId) && (e.provenance.model.Some? ==> s.text.storable(e.provenance.model.value)))
            && (forall r :: r in m.relationships ==> s.text.storable(r.relationshipType) && s.text.storableProperties(r.properties))
  {
    hide State, Finds, Built, StatedEdges, FirstError, KeptEntities, KeptEdges, FirstKnown, TypesNamed;
    var m := Mapped(s, dumps, x, lifted, dateNodes).value;
    EverythingMappedWasSaid(s, dumps, x, lifted, dateNodes);
    SomethingIsBuiltExactlyWhen(s, x.entities);
    ErrorFrom(s, x.entities, x.relationships);
    forall e | e in m.entities
      ensures s.text.storable(s.sourceId) && (e.provenance.model.Some? ==> s.text.storable(e.provenance.model.value))
    {
      var row :| row in x.entities && Usable(s, row) && IsTheEntity(s, row, e);
      UsableIsAccepted(s, row);
      OneModel(s, row.confidence);
    }
    forall r | r in m.relationships ensures s.text.storable(r.relationshipType) && s.text.storableProperties(r.properties) {
      var stated :| stated in x.relationships && IsTheEdge(s, x.entities, stated, r);
      MappedEdgeIsStorable(s, x.entities, stated, r);
    }
  }

  lemma OneModel(s: Scheme, confidence: real)
    requires Derives(s)
    ensures s.provenance(confidence).model == s.provenance(0.0).model
  {
    assert s.provenance(confidence) == s.provenance(0.0).(confidence := confidence);
  }

  lemma MappedEdgeIsStorable(s: Scheme, rows: seq<ExtractedEntity>, stated: ExtractedRelationship, r: Relationship)
    requires Derives(s) && !State(s, rows, stated).Raises? && IsTheEdge(s, rows, stated, r)
    ensures s.text.storable(r.relationshipType) && s.text.storableProperties(r.properties)
  {
    hide Endpoint, Finds;
    StateIs(s, rows, stated);
  }
}
