/**
 The orders that decide which of several mentions of one entity, or of one edge, is kept.
 They are total over whatever two mentions can differ in, so the choice between the two never
 falls to which came first.
 */
module Preference {
  import opened Domain
  import opened Planning

  // The tuple compared, field by field.
  datatype Rank = Rank(
    confidence: real, dated: bool, length: nat, described: bool, description: string,
    name: string, extent: string, size: nat, properties: string)

  function RankOf(dumps: Renderer, e: Entity): Rank {
    var description := if e.description.Some? then e.description.value else "";
    Rank(e.provenance.confidence, e.temporal.Some?, |description|, e.description.Some?, description,
         e.name, if e.temporal.Some? then e.temporal.value.rendering else "", |e.properties|, dumps(e.properties))
  }

  predicate Above(a: Rank, b: Rank) {
    if a.confidence != b.confidence then a.confidence > b.confidence
    else if a.dated != b.dated then a.dated
    else if a.length != b.length then a.length > b.length
    else if a.described != b.described then a.described
    else AboveInText(a, b)
  }

  // Tie-breaks only: no value here is better than another.
  predicate AboveInText(a: Rank, b: Rank) {
    if a.description != b.description then StringLess(b.description, a.description)
    else if a.name != b.name then StringLess(b.name, a.name)
    else if a.extent != b.extent then StringLess(b.extent, a.extent)
    else if a.size != b.size then a.size > b.size
    else StringLess(b.properties, a.properties)
  }

  lemma AboveIsTotal(a: Rank, b: Rank)
    ensures a != b ==> Above(a, b) || Above(b, a)
    ensures !(Above(a, b) && Above(b, a))
  {
    StringOrderIsTotal(a.description, b.description);
    StringOrderIsTotal(a.name, b.name);
    StringOrderIsTotal(a.extent, b.extent);
    StringOrderIsTotal(a.properties, b.properties);
  }

  lemma TextIsTransitive(a: Rank, b: Rank, c: Rank)
    requires AboveInText(a, b) && AboveInText(b, c)
    ensures AboveInText(a, c)
  {
    hide StringLess;
    LessIsTransitive(c.description, b.description, a.description);
    LessIsTransitive(c.name, b.name, a.name);
    LessIsTransitive(c.extent, b.extent, a.extent);
    LessIsTransitive(c.properties, b.properties, a.properties);
  }

  lemma LessIsTransitive(a: string, b: string, c: string)
    ensures StringLess(a, b) && StringLess(b, c) ==> StringLess(a, c) && a != c
  {
    if StringLess(a, b) && StringLess(b, c) {
      StringOrderIsTransitive(a, b, c);
      StringOrderIsTotal(a, b);
      StringOrderIsTotal(a, c);
    }
  }

  lemma AboveIsTransitive(a: Rank, b: Rank, c: Rank)
    requires Above(a, b) && Above(b, c)
    ensures Above(a, c)
  {
    hide AboveInText;
    if AboveInText(a, b) && AboveInText(b, c) {
      TextIsTransitive(a, b, c);
    }
  }

  predicate Prefers(dumps: Renderer, a: Entity, b: Entity) {
    Above(RankOf(dumps, a), RankOf(dumps, b))
  }

  // The relationship order: confidence, then how much is said, then its rendering.
  predicate PrefersEdge(dumps: Renderer, a: Relationship, b: Relationship) {
    SaysLess(dumps, b, a)
  }

  ghost predicate Faithful(dumps: Renderer) {
    forall p, q :: dumps(p) == dumps(q) ==> p == q
  }

  // Two mentions of one entity agree on everything the id or the caller fixes.
  predicate SameMention(a: Entity, b: Entity) {
    && a.id == b.id && a.normalizedName == b.normalizedName
    && a.entityType == b.entityType && a.originalEntityType == b.originalEntityType
    && a.externalIds == b.externalIds && a.blockingKeys == b.blockingKeys
    && a.provenance == b.provenance.(confidence := a.provenance.confidence)
  }

  predicate SameEdge(a: Relationship, b: Relationship) {
    a.id == b.id && a.Says() == b.Says() && a.sourceId == b.sourceId
  }

  /** Of two different mentions of one entity, exactly one is preferred. */
  lemma PreferenceIsTotal(dumps: Renderer, a: Entity, b: Entity)
    requires Faithful(dumps) && SameMention(a, b)
    ensures a != b <==> Prefers(dumps, a, b) || Prefers(dumps, b, a)
    ensures !(Prefers(dumps, a, b) && Prefers(dumps, b, a))
  {
    hide Above;
    AboveIsTotal(RankOf(dumps, a), RankOf(dumps, b));
    if a != b {
      assert RankOf(dumps, a) != RankOf(dumps, b);
    }
  }

  /** Of two different statements of one edge, exactly one is preferred. */
  lemma EdgePreferenceIsTotal(dumps: Renderer, a: Relationship, b: Relationship)
    requires Faithful(dumps) && SameEdge(a, b)
    ensures a != b <==> PrefersEdge(dumps, a, b) || PrefersEdge(dumps, b, a)
    ensures !(PrefersEdge(dumps, a, b) && PrefersEdge(dumps, b, a))
  {
    StringOrderIsTotal(dumps(a.properties), dumps(b.properties));
  }

  lemma PreferenceIsTransitive(dumps: Renderer, a: Entity, b: Entity, c: Entity)
    requires Prefers(dumps, a, b) && Prefers(dumps, b, c)
    ensures Prefers(dumps, a, c)
  {
    AboveIsTransitive(RankOf(dumps, a), RankOf(dumps, b), RankOf(dumps, c));
  }

  lemma EdgePreferenceIsTransitive(dumps: Renderer, a: Relationship, b: Relationship, c: Relationship)
    requires PrefersEdge(dumps, a, b) && PrefersEdge(dumps, b, c)
    ensures PrefersEdge(dumps, a, c)
  {
    LessIsTransitive(dumps(c.properties), dumps(b.properties), dumps(a.properties));
  }
}
