/**
 The entity graph's value types: entities, directed typed edges, and what a merge
 records about each of them.  Everything here belongs to one tenant.

 Ids are UUIDs in the program, compared as fixed-width lowercase strings; that order
 coincides with the order of the underlying 128-bit number, so an id is a `nat` here.
 */
module Domain {
  import opened Wrappers

  type EntityId = nat
  type RelationshipId = nat
  type EventId = nat

  // A JSON value: `true`, which the tombstone flag needs, a list, or anything else.
  datatype Json = True | List(items: seq<Json>) | Value(text: string)

  type Properties = map<string, Json>

  // What durable stores hold: text is `encodable` if it has a UTF-8 encoding, and `storable` if it
  // has one and no NUL; a property bag is if all the text in it is.
  datatype TextRules = TextRules(
    encodable: string -> bool, storable: string -> bool, storableProperties: Properties -> bool)
  {
    ghost predicate Conform() {
      forall t :: storable(t) <==> encodable(t) && '\0' !in t
    }
  }

  // What text that breaks these rules raises: when it is hashed, and when it is stored.
  datatype TextError = Unencodable | Unstorable

  function FirstOf(a: Option<TextError>, b: Option<TextError>): Option<TextError> {
    if a.Some? then a else b
  }

  datatype Provenance = Provenance(
    confidence: real, sourceId: string, extractionMethod: string,
    model: Option<string>, observedAt: int)

  datatype TemporalExtent = TemporalExtent(rendering: string)

  datatype Entity = Entity(
    id: EntityId, name: string, normalizedName: string, entityType: string,
    originalEntityType: Option<string>, description: Option<string>,
    externalIds: map<string, string>, properties: Properties,
    provenance: Provenance, temporal: Option<TemporalExtent>,
    blockingKeys: Option<set<string>>)
  {
    function Fields(): MergeableFields {
      MergeableFields(description, externalIds, properties)
    }

    // A copy with the three mergeable fields replaced and nothing else touched.
    function WithFields(fields: MergeableFields): Entity {
      this.(description := fields.description, externalIds := fields.externalIds,
            properties := fields.properties)
    }
  }

  datatype MergeableFields = MergeableFields(
    description: Option<string>, externalIds: map<string, string>, properties: Properties)

  datatype Relationship = Relationship(
    id: RelationshipId, source: EntityId, target: EntityId, relationshipType: string,
    sourceId: Option<string>, properties: Properties, confidence: real)
  {
    predicate IsSelfLoop() { source == target }

    predicate Touches(e: EntityId) { source == e || target == e }

    // A copy with both endpoints replaced.
    function Between(s: EntityId, t: EntityId): Relationship {
      this.(source := s, target := t)
    }

    // What the edge says, without its id or how well it says it.
    function Says(): Claim { Claim(source, target, relationshipType) }
  }

  datatype Claim = Claim(source: EntityId, target: EntityId, relationshipType: string)

  // One edge a merge changes; a dropped one has no `after`.
  datatype Redirection = Redirection(before: Relationship, after: Option<Relationship>)

  datatype Resolution = Resolution(entityId: EntityId, before: MergeableFields, after: MergeableFields)

  // The events of both aggregates, as one log.
  datatype Event =
    | Extracted(entities: seq<Entity>, relationships: seq<Relationship>, retracted: seq<EntityId>)
    | Merged(eventId: EventId, canonical: EntityId, merged: seq<EntityId>,
             redirections: seq<Redirection>, resolution: Option<Resolution>)
    | Undone(mergeEventId: EventId, canonical: EntityId, unmerged: seq<EntityId>,
             restored: seq<Relationship>, restoredFields: Option<MergeableFields>)

  // Strict lexicographic order on strings, by code point.
  predicate StringLess(a: string, b: string) {
    if |b| == 0 then false
    else if |a| == 0 then true
    else a[0] < b[0] || (a[0] == b[0] && StringLess(a[1..], b[1..]))
  }

  lemma {:induction false} StringOrderIsTotal(a: string, b: string)
    ensures StringLess(a, b) || a == b || StringLess(b, a)
    ensures !(StringLess(a, b) && StringLess(b, a))
  {
    if |a| > 0 && |b| > 0 && a[0] == b[0] {
      StringOrderIsTotal(a[1..], b[1..]);
      assert a == [a[0]] + a[1..] && b == [b[0]] + b[1..];
    }
  }

  lemma {:induction false} StringOrderIsTransitive(a: string, b: string, c: string)
    requires StringLess(a, b) && StringLess(b, c)
    ensures StringLess(a, c)
  {
    if |a| > 0 && a[0] == b[0] && b[0] == c[0] {
      StringOrderIsTransitive(a[1..], b[1..], c[1..]);
    }
  }

  // The strings agree up to `k`, where the first ends or has the earlier character.
  ghost predicate FirstDifference(a: string, b: string, k: nat) {
    && k <= |a| && k < |b| && (forall j :: 0 <= j < k ==> a[j] == b[j])
    && (k < |a| ==> a[k] < b[k])
  }

  lemma {:induction false} StringLessExactlyWhen(a: string, b: string)
    ensures StringLess(a, b) <==> exists k: nat :: FirstDifference(a, b, k)
  {
    if |a| > 0 && |b| > 0 && a[0] == b[0] {
      StringLessExactlyWhen(a[1..], b[1..]);
      if k: nat :| FirstDifference(a[1..], b[1..], k) {
        assert forall j :: 0 < j <= k ==> a[j] == a[1..][j - 1] && b[j] == b[1..][j - 1];
        assert FirstDifference(a, b, k + 1);
      }
      if k: nat :| FirstDifference(a, b, k) {
        assert FirstDifference(a[1..], b[1..], k - 1);
      }
    } else if |b| > 0 && (|a| == 0 || a[0] < b[0]) {
      assert FirstDifference(a, b, 0);
    }
  }
}
