/**
 Mapping one model answer onto entities and edges.  An edge names its endpoints, and a
 name is looked up by deriving an id from it under each type the answer lists it with.

 What an id, a normalised name or a parsed date looks like is left to `Scheme`.
 */
module Mapping {
  import opened Wrappers
  import opened Domain
  import opened Planning
  import opened Preference
  import opened BestById
  import opened Merging

  datatype ExtractedEntity = ExtractedEntity(
    name: string, entityType: string, description: Option<string>, properties: Properties,
    confidence: real, temporalExpression: string)

  datatype ExtractedRelationship = ExtractedRelationship(
    sourceName: string, targetName: string, relationshipType: string, properties: Properties, confidence: real)

  datatype Extraction = Extraction(entities: seq<ExtractedEntity>, relationships: seq<ExtractedRelationship>)

  // One document and one run: the arguments every chunk of it is mapped with.
  datatype Scheme = Scheme(
    provenance: real -> Provenance, normalize: string -> string, blank: string -> bool, text: TextRules,
    extent: ExtractedEntity -> (Option<TemporalExtent>, bool), blockingKeys: (string, string) -> set<string>,
    entityId: (string, string) -> EntityId, edgeId: (EntityId, EntityId, string) -> RelationshipId,
    sourceId: string)

  // Hashing is injective, only the confidence of a provenance varies within a run, and
  // normalising a name keeps it encodable.  Nothing is said of the document's own id.
  ghost predicate Derives(s: Scheme) {
    && (forall t, n, t', n' :: s.entityId(t, n) == s.entityId(t', n') ==> t == t' && n == n')
    && (forall a, b, t, a', b', t' :: s.edgeId(a, b, t) == s.edgeId(a', b', t') ==> a == a' && b == b' && t == t')
    && (forall c, d :: s.provenance(c) == s.provenance(d).(confidence := c))
    && s.text.Conform()
    && (forall n :: s.text.encodable(n) ==> s.text.encodable(s.normalize(n)))
  }

  // ----- entities

  predicate StorableRow(s: Scheme, row: ExtractedEntity) {
    && s.text.storable(row.name) && s.text.storable(row.entityType) && s.text.storable(row.temporalExpression)
    && (row.description.Some? ==> s.text.storable(row.description.value))
    && s.text.storableProperties(row.properties)
  }

  predicate Accepted(s: Scheme, row: ExtractedEntity) {
    !s.blank(row.name) && StorableRow(s, row)
  }

  // What building an entity raises, whatever the row: its id hashes the document's, and its
  // provenance records the document and the model.
  function RunError(s: Scheme): Option<TextError> {
    var model := s.provenance(0.0).model;
    if !s.text.encodable(s.sourceId) then Some(Unencodable)
    else if !s.text.storable(s.sourceId) || (model.Some? && !s.text.storable(model.value)) then Some(Unstorable)
    else None
  }

  // What becomes of one row when nothing raises, and whether a date it gave could not be read.
  function Build(s: Scheme, row: ExtractedEntity): (Option<Entity>, bool) {
    if !Accepted(s, row) then (None, false)
    else
      var name := s.normalize(row.name);
      var (extent, undatable) := s.extent(row);
      (Some(Entity(s.entityId(row.entityType, name), row.name, name, row.entityType, None, row.description,
                   map[], row.properties, s.provenance(row.confidence), extent,
                   Some(s.blockingKeys(name, row.entityType)))),
       undatable)
  }

  function Built(s: Scheme, rows: seq<ExtractedEntity>): seq<Entity> {
    if rows == [] then []
    else
      var last := Build(s, rows[|rows| - 1]).0;
      Built(s, rows[..|rows| - 1]) + if last.Some? then [last.value] else []
  }

  function Undatable(s: Scheme, rows: seq<ExtractedEntity>): nat {
    if rows == [] then 0
    else Undatable(s, rows[..|rows| - 1]) + if Build(s, rows[|rows| - 1]).1 then 1 else 0
  }

  lemma {:induction false} BuiltFrom(s: Scheme, rows: seq<ExtractedEntity>, e: Entity)
    ensures e in Built(s, rows) <==> exists row :: row in rows && Build(s, row).0 == Some(e)
  {
    if rows != [] {
      var n := |rows| - 1;
      BuiltFrom(s, rows[..n], e);
      assert rows == rows[..n] + [rows[n]];
    }
  }

  // The rows that are not refused, in order.
  function AcceptedRows(s: Scheme, rows: seq<ExtractedEntity>): seq<ExtractedEntity> {
    if rows == [] then []
    else AcceptedRows(s, rows[..|rows| - 1]) + if Accepted(s, rows[|rows| - 1]) then [rows[|rows| - 1]] else []
  }

  // The entity has the row's name, type, description and properties, and what was made of its date.
  ghost predicate SaysWhatRowSaid(s: Scheme, e: Entity, row: ExtractedEntity) {
    && e.name == row.name && e.normalizedName == s.normalize(row.name) && e.entityType == row.entityType
    && e.description == row.description && e.properties == row.properties
    && e.provenance.confidence == row.confidence && e.temporal == s.extent(row).0
  }

  /** Exactly the accepted rows are built, one entity each in their order, and each says what its row said. */
  lemma {:induction false} AcceptedRowsAndNoOthersAreBuilt(s: Scheme, rows: seq<ExtractedEntity>)
    requires Derives(s)
    ensures |Built(s, rows)| == |AcceptedRows(s, rows)|
    ensures forall k :: 0 <= k < |Built(s, rows)| ==> SaysWhatRowSaid(s, Built(s, rows)[k], AcceptedRows(s, rows)[k])
    ensures forall row :: row in AcceptedRows(s, rows) <==> row in rows && Accepted(s, row)
  {
    hide Accepted;
    if rows != [] {
      var n := |rows| - 1;
      AcceptedRowsAndNoOthersAreBuilt(s, rows[..n]);
      assert rows == rows[..n] + [rows[n]];
      assert s.provenance(rows[n].confidence) == s.provenance(rows[n].confidence).(confidence := rows[n].confidence);
    }
  }

  /** A row the domain accepts is in the answer with what it said. */
  lemma AcceptedRowsAreBuilt(s: Scheme, rows: seq<ExtractedEntity>, row: ExtractedEntity)
    requires Derives(s) && row in rows && Accepted(s, row)
    ensures exists e :: e in Built(s, rows) && e.name == row.name && e.entityType == row.entityType
                        && e.description == row.description && e.properties == row.properties
                        && e.provenance.confidence == row.confidence && e.temporal == s.extent(row).0
  {
    BuiltFrom(s, rows, Build(s, row).0.value);
    assert s.provenance(row.confidence) == s.provenance(row.confidence).(confidence := row.confidence);
  }

  function Ids(es: seq<Entity>): set<EntityId> {
    set e | e in es :: e.id
  }

  // ----- endpoints

  predicate Named(s: Scheme, row: ExtractedEntity, normal: string) {
    !s.blank(row.name) && s.normalize(row.name) == normal
  }

  // The types listed under a normalised name, in order; those of refused rows too.
  function TypesNamed(s: Scheme, rows: seq<ExtractedEntity>, normal: string): seq<string> {
    if rows == [] then []
    else
      var last := rows[|rows| - 1];
      TypesNamed(s, rows[..|rows| - 1], normal) + if Named(s, last, normal) then [last.entityType] else []
  }

  // Deriving an entity id hashes the document's id, then the type, then the name.
  predicate Hashable(s: Scheme, entityType: string, normal: string) {
    s.text.encodable(s.sourceId) && s.text.encodable(entityType) && s.text.encodable(normal)
  }

  type Found = Result<Option<EntityId>, TextError>

  // The first of `types` under which the name is a known entity.  Trying a type derives an id.
  function FirstKnown(s: Scheme, types: seq<string>, normal: string, known: set<EntityId>): Found {
    if types == [] then Success(None)
    else if !Hashable(s, types[0], normal) then Failure(Unencodable)
    else if s.entityId(types[0], normal) in known then Success(Some(s.entityId(types[0], normal)))
    else FirstKnown(s, types[1..], normal, known)
  }

  function Endpoint(s: Scheme, rows: seq<ExtractedEntity>, name: string): Found {
    FirstKnown(s, TypesNamed(s, rows, s.normalize(name)), s.normalize(name), Ids(Built(s, rows)))
  }

  lemma {:induction false} FirstKnownOfBoth(s: Scheme, types: seq<string>, more: seq<string>, normal: string, known: set<EntityId>)
    ensures var found := FirstKnown(s, types, normal, known);
            FirstKnown(s, types + more, normal, known)
            == if found == Success(None) then FirstKnown(s, more, normal, known) else found
  {
    if types == [] {
      assert types + more == more;
    } else {
      assert (types + more)[1..] == types[1..] + more;
      FirstKnownOfBoth(s, types[1..], more, normal, known);
    }
  }

  // Some accepted row carries this name and this type.
  ghost predicate HasEntity(s: Scheme, rows: seq<ExtractedEntity>, normal: string, entityType: string) {
    exists row :: row in rows && Accepted(s, row) && s.normalize(row.name) == normal && row.entityType == entityType
  }

  lemma KnownExactlyWhen(s: Scheme, rows: seq<ExtractedEntity>, normal: string, entityType: string)
    requires Derives(s)
    ensures s.entityId(entityType, normal) in Ids(Built(s, rows)) <==> HasEntity(s, rows, normal, entityType)
  {
    hide Built;
    if s.entityId(entityType, normal) in Ids(Built(s, rows)) {
      var e :| e in Built(s, rows) && e.id == s.entityId(entityType, normal);
      BuiltFrom(s, rows, e);
      var row :| row in rows && Build(s, row).0 == Some(e);
      assert row.entityType == entityType && s.normalize(row.name) == normal;
    }
    if HasEntity(s, rows, normal, entityType) {
      var row :| row in rows && Accepted(s, row) && s.normalize(row.name) == normal && row.entityType == entityType;
      BuiltFrom(s, rows, Build(s, row).0.value);
    }
  }

  // Looking a name up goes past this row: it has another name, or its type is not the type of
  // an accepted row of this name.
  ghost predicate Passes(s: Scheme, rows: seq<ExtractedEntity>, normal: string, row: ExtractedEntity) {
    Named(s, row, normal) ==> Hashable(s, row.entityType, normal) && !HasEntity(s, rows, normal, row.entityType)
  }

  // The look-up stops at row `j`: on text that cannot be hashed, or on an entity.
  ghost predicate StumblesAt(s: Scheme, rows: seq<ExtractedEntity>, normal: string, j: nat) {
    && j < |rows| && Named(s, rows[j], normal) && !Hashable(s, rows[j].entityType, normal)
    && forall i :: 0 <= i < j ==> Passes(s, rows, normal, rows[i])
  }

  ghost predicate FindsAt(s: Scheme, rows: seq<ExtractedEntity>, normal: string, j: nat) {
    && j < |rows| && Named(s, rows[j], normal) && Hashable(s, rows[j].entityType, normal)
    && HasEntity(s, rows, normal, rows[j].entityType)
    && forall i :: 0 <= i < j ==> Passes(s, rows, normal, rows[i])
  }

  ghost predicate Stumbles(s: Scheme, rows: seq<ExtractedEntity>, name: string) {
    exists j: nat :: StumblesAt(s, rows, s.normalize(name), j)
  }

  ghost predicate Finds(s: Scheme, rows: seq<ExtractedEntity>, name: string, id: EntityId) {
    exists j: nat :: FindsAt(s, rows, s.normalize(name), j) && id == s.entityId(rows[j].entityType, s.normalize(name))
  }

  // The look-up among the first `n` rows.
  lemma {:induction false} LookUpAmong(s: Scheme, rows: seq<ExtractedEntity>, normal: string, n: nat)
    requires Derives(s) && n <= |rows|
    ensures var found := FirstKnown(s, TypesNamed(s, rows[..n], normal), normal, Ids(Built(s, rows)));
            match found
            case Failure(e) => e == Unencodable && exists j: nat :: j < n && StumblesAt(s, rows, normal, j)
            case Success(None) => forall i :: 0 <= i < n ==> Passes(s, rows, normal, rows[i])
            case Success(Some(id)) =>
              exists j: nat :: j < n && FindsAt(s, rows, normal, j) && id == s.entityId(rows[j].entityType, normal)
  {
    hide HasEntity, Built;
    if n > 0 {
      var last, known := rows[n - 1], Ids(Built(s, rows));
      LookUpAmong(s, rows, normal, n - 1);
      assert rows[..n][..n - 1] == rows[..n - 1] && rows[..n][n - 1] == last;
      FirstKnownOfBoth(s, TypesNamed(s, rows[..n - 1], normal), if Named(s, last, normal) then [last.entityType] else [], normal, known);
      KnownExactlyWhen(s, rows, normal, last.entityType);
      var before := FirstKnown(s, TypesNamed(s, rows[..n - 1], normal), normal, known);
      if before == Success(None) && Named(s, last, normal) {
        if !Hashable(s, last.entityType, normal) {
          assert StumblesAt(s, rows, normal, n - 1);
        } else if HasEntity(s, rows, normal, last.entityType) {
          assert FindsAt(s, rows, normal, n - 1);
        }
      } else if before.Failure? {
        var j: nat :| j < n - 1 && StumblesAt(s, rows, normal, j);
        assert j < n && StumblesAt(s, rows, normal, j);
      }
    }
  }

  lemma OneStop(s: Scheme, rows: seq<ExtractedEntity>, normal: string, i: nat, j: nat)
    requires StumblesAt(s, rows, normal, i) || FindsAt(s, rows, normal, i)
    requires StumblesAt(s, rows, normal, j) || FindsAt(s, rows, normal, j)
    ensures i == j
  {
    hide HasEntity;
    assert i < j ==> Passes(s, rows, normal, rows[i]);
    assert j < i ==> Passes(s, rows, normal, rows[j]);
  }

  /**
   A look-up raises exactly when, going down the rows of that name, text that cannot be hashed
   comes before the first type an accepted row of the name has; and it finds what that row names.
   */
  lemma EndpointsExactlyWhen(s: Scheme, rows: seq<ExtractedEntity>, name: string)
    requires Derives(s)
    ensures Endpoint(s, rows, name).Failure? <==> Stumbles(s, rows, name)
    ensures forall id: EntityId :: Endpoint(s, rows, name) == Success(Some(id)) <==> Finds(s, rows, name, id)
  {
    hide StumblesAt, FindsAt, Built, TypesNamed, FirstKnown;
    var normal := s.normalize(name);
    LookUpAmong(s, rows, normal, |rows|);
    assert rows[..|rows|] == rows;
    forall i: nat, j: nat | StumblesAt(s, rows, normal, i) && FindsAt(s, rows, normal, j) ensures false {
      OneStop(s, rows, normal, i, j);
      Distinct(s, rows, normal, i);
    }
    forall i: nat, j: nat | FindsAt(s, rows, normal, i) && FindsAt(s, rows, normal, j) ensures i == j {
      OneStop(s, rows, normal, i, j);
    }
    if Endpoint(s, rows, name) == Success(None) {
      forall j: nat ensures !StumblesAt(s, rows, normal, j) && !FindsAt(s, rows, normal, j) {
        NoStop(s, rows, normal, j);
      }
    }
  }

  lemma Distinct(s: Scheme, rows: seq<ExtractedEntity>, normal: string, i: nat)
    ensures !(StumblesAt(s, rows, normal, i) && FindsAt(s, rows, normal, i))
  {
  }

  lemma NoStop(s: Scheme, rows: seq<ExtractedEntity>, normal: string, j: nat)
    requires forall i :: 0 <= i < |rows| ==> Passes(s, rows, normal, rows[i])
    ensures !StumblesAt(s, rows, normal, j) && !FindsAt(s, rows, normal, j)
  {
    assert j < |rows| ==> Passes(s, rows, normal, rows[j]);
  }

  /**
   However it is spelt, and unless looking it up raises, an endpoint is found exactly when an
   entity of that normalised name was accepted, and then it is such an entity.
   */
  lemma EndpointsAreFoundByName(s: Scheme, rows: seq<ExtractedEntity>, name: string)
    requires Derives(s) && !Stumbles(s, rows, name)
    ensures Endpoint(s, rows, name).Success?
    ensures var found := Endpoint(s, rows, name).value;
            && (found.Some? <==> exists e :: e in Built(s, rows) && e.normalizedName == s.normalize(name))
            && (found.Some? ==> exists e :: e in Built(s, rows) && e.id == found.value && e.normalizedName == s.normalize(name))
  {
    hide TypesNamed, Built, FirstKnown, Stumbles, HasEntity, FindsAt;
    var normal := s.normalize(name);
    EndpointsExactlyWhen(s, rows, name);
    LookUpAmong(s, rows, normal, |rows|);
    assert rows[..|rows|] == rows;
    var found := Endpoint(s, rows, name).value;
    if found.Some? {
      FoundIsBuilt(s, rows, name, found.value);
    }
    if e :| e in Built(s, rows) && e.normalizedName == normal {
      BuiltIsPassedBy(s, rows, e);
    }
  }

  lemma FoundIsBuilt(s: Scheme, rows: seq<ExtractedEntity>, name: string, id: EntityId)
    requires Derives(s) && Finds(s, rows, name, id)
    ensures exists e :: e in Built(s, rows) && e.id == id && e.normalizedName == s.normalize(name)
  {
    hide Built;
    var j: nat :| FindsAt(s, rows, s.normalize(name), j) && id == s.entityId(rows[j].entityType, s.normalize(name));
    var row :| row in rows && Accepted(s, row) && s.normalize(row.name) == s.normalize(name) && row.entityType == rows[j].entityType;
    BuiltFrom(s, rows, Build(s, row).0.value);
  }

  // The row an entity was built from is one a look-up of its name does not go past.
  lemma BuiltIsPassedBy(s: Scheme, rows: seq<ExtractedEntity>, e: Entity)
    requires e in Built(s, rows)
    ensures exists i :: 0 <= i < |rows| && !Passes(s, rows, e.normalizedName, rows[i])
  {
    hide Built;
    BuiltFrom(s, rows, e);
    var row :| row in rows && Build(s, row).0 == Some(e);
    var i :| 0 <= i < |rows| && rows[i] == row;
    assert HasEntity(s, rows, e.normalizedName, row.entityType);
    assert !Passes(s, rows, e.normalizedName, rows[i]);
  }

  // ----- edges

  datatype Stated = Edge(edge: Relationship) | Unresolved | SelfLoop | Raises(error: TextError)

  // An edge goes into the log, so its free text has to be storable.  Nothing drops it if not.
  predicate StorableEdge(s: Scheme, r: ExtractedRelationship) {
    s.text.storable(r.relationshipType) && s.text.storableProperties(r.properties)
  }

  function State(s: Scheme, rows: seq<ExtractedEntity>, r: ExtractedRelationship): Stated {
    var start, end := Endpoint(s, rows, r.sourceName), Endpoint(s, rows, r.targetName);
    if start.Failure? then Raises(start.error)
    else if end.Failure? then Raises(end.error)
    else if start.value.None? || end.value.None? then Unresolved
    else if start == end then SelfLoop
    else if !s.text.encodable(r.relationshipType) then Raises(Unencodable)
    else if !StorableEdge(s, r) then Raises(Unstorable)
    else Edge(EdgeBetween(s, start.value.value, end.value.value, r))
  }

  function EdgeBetween(s: Scheme, start: EntityId, end: EntityId, r: ExtractedRelationship): Relationship {
    Relationship(s.edgeId(start, end, r.relationshipType), start, end, r.relationshipType, Some(s.sourceId), r.properties, r.confidence)
  }

  function StatedEdges(s: Scheme, rows: seq<ExtractedEntity>, rs: seq<ExtractedRelationship>): seq<Relationship> {
    if rs == [] then []
    else
      var last := State(s, rows, rs[|rs| - 1]);
      StatedEdges(s, rows, rs[..|rs| - 1]) + if last.Edge? then [last.edge] else []
  }

  function Refused(s: Scheme, rows: seq<ExtractedEntity>, rs: seq<ExtractedRelationship>, why: Stated): nat {
    if rs == [] then 0
    else Refused(s, rows, rs[..|rs| - 1], why) + if State(s, rows, rs[|rs| - 1]) == why then 1 else 0
  }

  // What the first edge to raise raises.
  function FirstError(s: Scheme, rows: seq<ExtractedEntity>, rs: seq<ExtractedRelationship>): Option<TextError> {
    if rs == [] then None
    else
      var earlier := FirstError(s, rows, rs[..|rs| - 1]);
      var last := State(s, rows, rs[|rs| - 1]);
      if earlier.Some? then earlier else if last.Raises? then Some(last.error) else None
  }

  /** Unless one raises, every stated edge is mapped, counted as unresolved or counted as a self-loop. */
  lemma {:induction false} EveryEdgeIsAccountedFor(s: Scheme, rows: seq<ExtractedEntity>, rs: seq<ExtractedRelationship>)
    requires FirstError(s, rows, rs).None?
    ensures |rs| == |StatedEdges(s, rows, rs)| + Refused(s, rows, rs, Unresolved) + Refused(s, rows, rs, SelfLoop)
  {
    hide State;
    if rs != [] {
      EveryEdgeIsAccountedFor(s, rows, rs[..|rs| - 1]);
    }
  }

  lemma {:induction false} StatedFrom(s: Scheme, rows: seq<ExtractedEntity>, rs: seq<ExtractedRelationship>, r: Relationship)
    ensures r in StatedEdges(s, rows, rs) <==> exists stated :: stated in rs && State(s, rows, stated) == Edge(r)
  {
    hide State;
    if rs != [] {
      var n := |rs| - 1;
      StatedFrom(s, rows, rs[..n], r);
      assert rs == rs[..n] + [rs[n]];
    }
  }

  lemma {:induction false} ErrorFrom(s: Scheme, rows: seq<ExtractedEntity>, rs: seq<ExtractedRelationship>)
    ensures FirstError(s, rows, rs).Some? <==> exists stated :: stated in rs && State(s, rows, stated).Raises?
  {
    hide State;
    if rs != [] {
      var n := |rs| - 1;
      ErrorFrom(s, rows, rs[..n]);
      assert rs == rs[..n] + [rs[n]];
    }
  }

  lemma {:induction false} FirstErrorStays(s: Scheme, rows: seq<ExtractedEntity>, rs: seq<ExtractedRelationship>, k: nat)
    requires k <= |rs| && FirstError(s, rows, rs[..k]).Some?
    ensures FirstError(s, rows, rs) == FirstError(s, rows, rs[..k])
    decreases |rs|
  {
    hide State;
    if k < |rs| {
      assert rs[..|rs| - 1][..k] == rs[..k];
      FirstErrorStays(s, rows, rs[..|rs| - 1], k);
    } else {
      assert rs[..k] == rs;
    }
  }

  // ----- the whole answer

  // What an answer maps to when nothing raises.
  function MapOf(s: Scheme, dumps: Renderer, x: Extraction, lifted: nat, dateNodes: nat): MappedExtraction {
    var es := Built(s, x.entities);
    MappedExtraction(
      KeptEntities(dumps, es).Listed(), KeptEdges(dumps, StatedEdges(s, x.entities, x.relationships)).Listed(),
      Counters(BuiltIsShorter(s, x.entities); |x.entities| - |es|, Refused(s, x.entities, x.relationships, Unresolved),
               Refused(s, x.entities, x.relationships, SelfLoop), Undatable(s, x.entities), lifted, dateNodes))
  }

  function Mapped(s: Scheme, dumps: Renderer, x: Extraction, lifted: nat, dateNodes: nat): Result<MappedExtraction, TextError> {
    match FirstOf(RowsError(s, x.entities), FirstError(s, x.entities, x.relationships))
    case Some(error) => Failure(error)
    case None => Success(MapOf(s, dumps, x, lifted, dateNodes))
  }

  // What the first row to be built raises; a refused row never does.
  function RowsError(s: Scheme, rows: seq<ExtractedEntity>): Option<TextError> {
    if Built(s, rows) == [] then None else RunError(s)
  }

  lemma {:induction false} BuiltIsShorter(s: Scheme, rows: seq<ExtractedEntity>)
    ensures |Built(s, rows)| <= |rows|
  {
    if rows != [] {
      BuiltIsShorter(s, rows[..|rows| - 1]);
    }
  }

  lemma {:induction false} BuiltStays(s: Scheme, rows: seq<ExtractedEntity>, k: nat)
    requires k <= |rows| && Built(s, rows[..k]) != []
    ensures Built(s, rows) != []
    decreases |rows|
  {
    if k < |rows| {
      assert rows[..|rows| - 1][..k] == rows[..k];
      BuiltStays(s, rows[..|rows| - 1], k);
    } else {
      assert rows[..k] == rows;
    }
  }

  lemma KeptOneMoreEntity(dumps: Renderer, es: seq<Entity>, e: Entity)
    ensures var d := KeptEntities(dumps, es);
            KeptEntities(dumps, es + [e]) ==
            if e.id in d.values && !Prefers(dumps, e, d.values[e.id]) then d else d.Put(e.id, e)
  {
    assert (es + [e])[..|es|] == es;
  }

  lemma KeptOneMoreEdge(dumps: Renderer, rs: seq<Relationship>, r: Relationship)
    ensures var d := KeptEdges(dumps, rs);
            KeptEdges(dumps, rs + [r]) ==
            if r.id in d.values && !PrefersEdge(dumps, r, d.values[r.id]) then d else d.Put(r.id, r)
  {
    assert (rs + [r])[..|rs|] == rs;
  }

  lemma BuiltOneMore(s: Scheme, rows: seq<ExtractedEntity>, i: nat)
    requires i < |rows|
    ensures var (built, lost) := Build(s, rows[i]);
            && Built(s, rows[..i + 1]) == (if built.Some? then Built(s, rows[..i]) + [built.value] else Built(s, rows[..i]))
            && Undatable(s, rows[..i + 1]) == Undatable(s, rows[..i]) + if lost then 1 else 0
  {
    hide Build;
    assert rows[..i + 1][..i] == rows[..i];
  }

  lemma StatedOneMore(s: Scheme, rows: seq<ExtractedEntity>, rs: seq<ExtractedRelationship>, i: nat)
    requires i < |rs|
    ensures var last := State(s, rows, rs[i]);
            && StatedEdges(s, rows, rs[..i + 1]) ==
               (if last.Edge? then StatedEdges(s, rows, rs[..i]) + [last.edge] else StatedEdges(s, rows, rs[..i]))
            && Refused(s, rows, rs[..i + 1], Unresolved)
               == Refused(s, rows, rs[..i], Unresolved) + (if last == Unresolved then 1 else 0)
            && Refused(s, rows, rs[..i + 1], SelfLoop)
               == Refused(s, rows, rs[..i], SelfLoop) + (if last == SelfLoop then 1 else 0)
            && (FirstError(s, rows, rs[..i]).None? ==>
                  FirstError(s, rows, rs[..i + 1]) == if last.Raises? then Some(last.error) else None)
  {
    hide State;
    assert rs[..i + 1][..i] == rs[..i];
  }

  // The answer is given after its date-nodes have been lifted out of it.
  method MapExtraction(s: Scheme, dumps: Renderer, x: Extraction, lifted: nat, dateNodes: nat)
    returns (m: Result<MappedExtraction, TextError>)
    ensures m == Mapped(s, dumps, x, lifted, dateNodes)
  {
    var byId := Dict([], map[]);
    var dropped, undatable := 0, 0;
    for i := 0 to |x.entities|
      invariant byId == KeptEntities(dumps, Built(s, x.entities[..i]))
      invariant dropped == i - |Built(s, x.entities[..i])| && undatable == Undatable(s, x.entities[..i])
      invariant RowsError(s, x.entities[..i]).None?
    {
      hide KeepAll, EntityBeats, Prefers, KeptEntities, Build, Built, Undatable, RunError;
      BuiltOneMore(s, x.entities, i);
      ghost var es := Built(s, x.entities[..i]);
      var (built, lost) := Build(s, x.entities[i]);
      undatable := undatable + if lost then 1 else 0;
      match built
      case None =>
        dropped := dropped + 1;
      case Some(e) =>
        var refused := RunError(s);
        if refused.Some? {
          BuiltStays(s, x.entities, i + 1);
          return Failure(refused.value);
        }
        KeptOneMoreEntity(dumps, es, e);
        if e.id !in byId.values || Prefers(dumps, e, byId.values[e.id]) {
          byId := byId.Put(e.id, e);
        }
    }
    assert x.entities[..|x.entities|] == x.entities;
    KnownIds(dumps, Built(s, x.entities));
    var mapped := MapRelationships(s, dumps, x, byId.values.Keys);
    BuiltIsShorter(s, x.entities);
    match mapped
    case Failure(error) =>
      m := Failure(error);
    case Success((edges, unresolved, selfLoops)) =>
      m := Success(MappedExtraction(byId.Listed(), edges, Counters(dropped, unresolved, selfLoops, undatable, lifted, dateNodes)));
  }

  lemma KnownIds(dumps: Renderer, es: seq<Entity>)
    ensures KeptEntities(dumps, es).values.Keys == Ids(es)
  {
    KeysAreKept(EntityKey, EntityBeats(dumps), es);
  }

  function Listed(typesByName: map<string, seq<string>>, name: string): seq<string> {
    if name in typesByName then typesByName[name] else []
  }

  method TypesByName(s: Scheme, rows: seq<ExtractedEntity>) returns (types: map<string, seq<string>>)
    ensures forall n :: Listed(types, n) == TypesNamed(s, rows, n)
  {
    types := map[];
    for i := 0 to |rows|
      invariant forall n :: Listed(types, n) == TypesNamed(s, rows[..i], n)
    {
      assert rows[..i + 1][..i] == rows[..i];
      var row := rows[i];
      if !s.blank(row.name) {
        var n := s.normalize(row.name);
        types := types[n := Listed(types, n) + [row.entityType]];
      }
    }
    assert rows[..|rows|] == rows;
  }

  method MapRelationships(s: Scheme, dumps: Renderer, x: Extraction, known: set<EntityId>)
    returns (mapped: Result<(seq<Relationship>, nat, nat), TextError>)
    requires known == Ids(Built(s, x.entities))
    ensures mapped == match FirstError(s, x.entities, x.relationships)
                      case Some(error) => Failure(error)
                      case None =>
                        Success((KeptEdges(dumps, StatedEdges(s, x.entities, x.relationships)).Listed(),
                                 Refused(s, x.entities, x.relationships, Unresolved),
                                 Refused(s, x.entities, x.relationships, SelfLoop)))
  {
    var typesByName := TypesByName(s, x.entities);
    var byId := Dict([], map[]);
    var unresolved, selfLoops := 0, 0;
    for i := 0 to |x.relationships|
      invariant FirstError(s, x.entities, x.relationships[..i]).None?
      invariant byId == KeptEdges(dumps, StatedEdges(s, x.entities, x.relationships[..i]))
      invariant unresolved == Refused(s, x.entities, x.relationships[..i], Unresolved)
      invariant selfLoops == Refused(s, x.entities, x.relationships[..i], SelfLoop)
    {
      hide KeepAll, EdgeBeats, PrefersEdge, KeptEdges, Built, TypesNamed, State, StatedEdges, Refused, FirstError;
      StatedOneMore(s, x.entities, x.relationships, i);
      ghost var rs := StatedEdges(s, x.entities, x.relationships[..i]);
      var r := x.relationships[i];
      var stated := StateOne(s, typesByName, x.entities, r, known);
      match stated
      case Raises(error) =>
        FirstErrorStays(s, x.entities, x.relationships, i + 1);
        return Failure(error);
      case Unresolved =>
        unresolved := unresolved + 1;
      case SelfLoop =>
        selfLoops := selfLoops + 1;
      case Edge(edge) =>
        KeptOneMoreEdge(dumps, rs, edge);
        if edge.id !in byId.values || PrefersEdge(dumps, edge, byId.values[edge.id]) {
          byId := byId.Put(edge.id, edge);
        }
    }
    assert x.relationships[..|x.relationships|] == x.relationships;
    return Success((byId.Listed(), unresolved, selfLoops));
  }

  // One stated edge on the ids its endpoints resolve to.
  method StateOne(s: Scheme, typesByName: map<string, seq<string>>, rows: seq<ExtractedEntity>, r: ExtractedRelationship,
                  known: set<EntityId>)
    returns (stated: Stated)
    requires known == Ids(Built(s, rows)) && forall n :: Listed(typesByName, n) == TypesNamed(s, rows, n)
    ensures stated == State(s, rows, r)
  {
    hide Built, TypesNamed, FirstKnown, Listed;
    var start := ResolveName(s, typesByName, r.sourceName, known);
    if start.Failure? {
      return Raises(start.error);
    }
    var end := ResolveName(s, typesByName, r.targetName, known);
    if end.Failure? {
      return Raises(end.error);
    }
    if start.value.None? || end.value.None? {
      return Unresolved;
    }
    if start == end {
      return SelfLoop;
    }
    if !s.text.encodable(r.relationshipType) {
      return Raises(Unencodable);
    }
    if !StorableEdge(s, r) {
      return Raises(Unstorable);
    }
    return Edge(EdgeBetween(s, start.value.value, end.value.value, r));
  }

  method ResolveName(s: Scheme, typesByName: map<string, seq<string>>, name: string, known: set<EntityId>)
    returns (found: Found)
    ensures found == FirstKnown(s, Listed(typesByName, s.normalize(name)), s.normalize(name), known)
  {
    var n := s.normalize(name);
    var types := Listed(typesByName, n);
    for i := 0 to |types|
      invariant FirstKnown(s, types, n, known) == FirstKnown(s, types[i..], n, known)
    {
      if !Hashable(s, types[i], n) {
        return Failure(Unencodable);
      }
      if s.entityId(types[i], n) in known {
        return Success(Some(s.entityId(types[i], n)));
      }
    }
    return Success(None);
  }

  // ----- when mapping an answer raises

  // Both endpoints are found and differ, and the edge between them cannot be stored; or finding
  // one raises.
  ghost predicate RaisesOn(s: Scheme, rows: seq<ExtractedEntity>, r: ExtractedRelationship) {
    || Stumbles(s, rows, r.sourceName) || Stumbles(s, rows, r.targetName)
    || (!StorableEdge(s, r) && exists a, b :: Finds(s, rows, r.sourceName, a) && Finds(s, rows, r.targetName, b) && a != b)
  }

  lemma EdgeRaisesExactlyWhen(s: Scheme, rows: seq<ExtractedEntity>, r: ExtractedRelationship)
    requires Derives(s)
    ensures State(s, rows, r).Raises? <==> RaisesOn(s, rows, r)
  {
    hide Endpoint, Stumbles, Finds;
    EndpointsExactlyWhen(s, rows, r.sourceName);
    EndpointsExactlyWhen(s, rows, r.targetName);
  }

  // Some row is accepted by a run whose document or model cannot be recorded; or some stated edge raises.
  ghost predicate Unmappable(s: Scheme, x: Extraction) {
    || (RunError(s).Some? && exists row :: row in x.entities && Accepted(s, row))
    || exists r :: r in x.relationships && RaisesOn(s, x.entities, r)
  }

  /**
   Mapping raises exactly when some stated edge cannot be stored between the two entities it names,
   or names one whose look-up meets text that cannot be hashed; or when the run's own document or
   model cannot be recorded and there is an entity to record it on.
   */
  lemma MappingRaisesExactlyWhen(s: Scheme, dumps: Renderer, x: Extraction, lifted: nat, dateNodes: nat)
    requires Derives(s)
    ensures Mapped(s, dumps, x, lifted, dateNodes).Failure? <==> Unmappable(s, x)
  {
    hide State, RaisesOn, MapOf, Derives, RunError, Built, Accepted;
    ErrorFrom(s, x.entities, x.relationships);
    SomethingIsBuiltExactlyWhen(s, x.entities);
    forall r | r in x.relationships ensures State(s, x.entities, r).Raises? <==> RaisesOn(s, x.entities, r) {
      EdgeRaisesExactlyWhen(s, x.entities, r);
    }
  }

  lemma SomethingIsBuiltExactlyWhen(s: Scheme, rows: seq<ExtractedEntity>)
    ensures Built(s, rows) != [] <==> exists row :: row in rows && Accepted(s, row)
  {
    hide Built, Accepted;
    if Built(s, rows) != [] {
      BuiltFrom(s, rows, Built(s, rows)[0]);
      var row :| row in rows && Build(s, row).0 == Some(Built(s, rows)[0]);
      assert Accepted(s, row);
    }
    if row :| row in rows && Accepted(s, row) {
      BuiltFrom(s, rows, Build(s, row).0.value);
    }
  }

  /**
   A document whose id cannot be stored fails every answer with an accepted row, however good its text.
   */
  lemma AnUnstorableDocumentFailsTheAnswer(s: Scheme, dumps: Renderer, x: Extraction, row: ExtractedEntity, lifted: nat, dateNodes: nat)
    requires Derives(s) && row in x.entities && Accepted(s, row) && !s.text.storable(s.sourceId)
    ensures Mapped(s, dumps, x, lifted, dateNodes) == Failure(if s.text.encodable(s.sourceId) then Unstorable else Unencodable)
  {
    hide Built, FirstError;
    SomethingIsBuiltExactlyWhen(s, x.entities);
  }

  /** One edge the log could not hold, between two entities the answer lists, fails the whole answer. */
  lemma OneUnstorableEdgeFailsTheAnswer(s: Scheme, dumps: Renderer, a: ExtractedEntity, b: ExtractedEntity,
                                        r: ExtractedRelationship, lifted: nat, dateNodes: nat)
    requires Derives(s) && Accepted(s, a) && Accepted(s, b) && s.normalize(a.name) != s.normalize(b.name)
    requires r.sourceName == a.name && r.targetName == b.name && !StorableEdge(s, r)
    ensures Mapped(s, dumps, Extraction([a, b], [r]), lifted, dateNodes).Failure?
  {
    var rows := [a, b];
    assert a in rows && b in rows;
    if s.text.encodable(s.sourceId) {
      assert HasEntity(s, rows, s.normalize(a.name), a.entityType) && HasEntity(s, rows, s.normalize(b.name), b.entityType);
      assert FindsAt(s, rows, s.normalize(a.name), 0) && FindsAt(s, rows, s.normalize(b.name), 1);
      assert Finds(s, rows, a.name, s.entityId(a.entityType, s.normalize(a.name)));
      assert Finds(s, rows, b.name, s.entityId(b.entityType, s.normalize(b.name)));
      assert r in [r] && RaisesOn(s, rows, r);
    }
    MappingRaisesExactlyWhen(s, dumps, Extraction(rows, [r]), lifted, dateNodes);
  }

  /** So does an edge that names a row dropped because its name has no encoding. */
  lemma NamingAnUnencodableRowFailsTheAnswer(s: Scheme, dumps: Renderer, row: ExtractedEntity, r: ExtractedRelationship,
                                             lifted: nat, dateNodes: nat)
    requires Derives(s) && !s.blank(row.name) && !s.text.encodable(s.normalize(row.name)) && r.sourceName == row.name
    ensures Mapped(s, dumps, Extraction([row], [r]), lifted, dateNodes).Failure?
  {
    assert StumblesAt(s, [row], s.normalize(row.name), 0);
    assert r in [r] && RaisesOn(s, [row], r);
    MappingRaisesExactlyWhen(s, dumps, Extraction([row], [r]), lifted, dateNodes);
  }

  /**
   In a run whose document and model can be recorded an answer whose text can all be stored never
   raises; nor does one whose bad text no edge reaches.
   */
  lemma StorableAnswersMap(s: Scheme, dumps: Renderer, x: Extraction, lifted: nat, dateNodes: nat)
    requires Derives(s) && RunError(s).None? && forall r :: r in x.relationships ==> StorableEdge(s, r)
    requires forall row, r :: row in x.entities && r in x.relationships
                              && (Named(s, row, s.normalize(r.sourceName)) || Named(s, row, s.normalize(r.targetName))) ==>
               s.text.encodable(row.name) && s.text.encodable(row.entityType)
    ensures Mapped(s, dumps, x, lifted, dateNodes).Success?
  {
    MappingRaisesExactlyWhen(s, dumps, x, lifted, dateNodes);
  }
}
