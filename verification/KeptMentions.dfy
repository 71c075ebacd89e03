/**
 Which mention of an entity, and which statement of an edge, a merge of chunks keeps, in terms of
 what the mentions say.
 */
module KeptMentions {
  import opened Sequences
  import opened Domain
  import opened Planning
  import opened Preference
  import opened BestById
  import opened Merging
  import opened Survivors

  // ----- the orders, field by field

  function Text(e: Entity): string {
    if e.description.Some? then e.description.value else ""
  }

  /**
   `b` is no less confident than `a`; then it is dated if `a` is; then its description is no shorter;
   then it has one if `a` has.
   */
  ghost predicate MentionedNoWorse(b: Entity, a: Entity) {
    && a.provenance.confidence <= b.provenance.confidence
    && (a.provenance.confidence == b.provenance.confidence ==>
          && (a.temporal.Some? ==> b.temporal.Some?)
          && (a.temporal.Some? == b.temporal.Some? ==>
                && |Text(a)| <= |Text(b)|
                && (|Text(a)| == |Text(b)| ==> (a.description.Some? ==> b.description.Some?))))
  }

  ghost predicate MentionedAlike(b: Entity, a: Entity) {
    && a.provenance.confidence == b.provenance.confidence && a.temporal.Some? == b.temporal.Some?
    && |Text(a)| == |Text(b)| && a.description.Some? == b.description.Some?
  }

  // Between mentions as good as one another: text, name, extent and properties, each only when
  // those before it are equal.
  ghost predicate ReadsNoEarlier(dumps: Renderer, b: Entity, a: Entity) {
    && NotEarlier(Text(b), Text(a))
    && (Text(a) == Text(b) ==> NotEarlier(b.name, a.name))
    && (Text(a) == Text(b) && a.name == b.name && a.temporal.Some? && b.temporal.Some? ==>
          NotEarlier(b.temporal.value.rendering, a.temporal.value.rendering))
    && (Text(a) == Text(b) && a.name == b.name && a.temporal == b.temporal ==>
          && |a.properties| <= |b.properties|
          && (|a.properties| == |b.properties| ==> NotEarlier(dumps(b.properties), dumps(a.properties))))
  }

  lemma NotPreferredIsNoWorse(dumps: Renderer, b: Relationship, a: Relationship)
    ensures SaidNoWorse(dumps, b, a) <==> !PrefersEdge(dumps, a, b)
  {
    hide NotEarlier, StringLess;
    NotEarlierMeans(dumps(b.properties), dumps(a.properties));
    StringOrderIsTotal(dumps(a.properties), dumps(b.properties));
  }

  lemma NotAboveIsNoWorse(dumps: Renderer, b: Entity, a: Entity)
    ensures MentionedNoWorse(b, a) && (MentionedAlike(b, a) ==> ReadsNoEarlier(dumps, b, a)) <==> !Prefers(dumps, a, b)
  {
    hide NotEarlier, StringLess, AboveInText;
    if MentionedAlike(b, a) {
      NotAboveInText(dumps, b, a);
    }
  }

  lemma NotAboveInText(dumps: Renderer, b: Entity, a: Entity)
    requires MentionedAlike(b, a)
    ensures ReadsNoEarlier(dumps, b, a) <==> !AboveInText(RankOf(dumps, a), RankOf(dumps, b))
  {
    hide NotEarlier, StringLess;
    var x, y := RankOf(dumps, a), RankOf(dumps, b);
    NotEarlierMeans(Text(b), Text(a));
    NotEarlierMeans(b.name, a.name);
    NotEarlierMeans(y.extent, x.extent);
    NotEarlierMeans(dumps(b.properties), dumps(a.properties));
    StringOrderIsTotal(x.description, y.description);
    StringOrderIsTotal(x.name, y.name);
    StringOrderIsTotal(x.extent, y.extent);
    StringOrderIsTotal(x.properties, y.properties);
  }

  // ----- what a fold keeps

  /** What a fold keeps under an id was in the list under that id, and nothing in the list beats it. */
  lemma {:induction false} NothingBeatsTheKept<T(!new)>(key: T -> nat, beats: (T, T) -> bool, xs: seq<T>, x: T)
    requires StrictOrder(beats) && x in xs
    ensures var d := KeepAll(key, beats, xs).values;
            key(x) in d && d[key(x)] in xs && key(d[key(x)]) == key(x) && !beats(x, d[key(x)])
  {
    var n := |xs| - 1;
    KeysAreKept(key, beats, xs);
    if x in xs[..n] {
      NothingBeatsTheKept(key, beats, xs[..n], x);
    }
  }

  ghost predicate StandsFor(dumps: Renderer, kept: Entity, e: Entity) {
    kept.id == e.id && MentionedNoWorse(kept, e) && (MentionedAlike(kept, e) ==> ReadsNoEarlier(dumps, kept, e))
  }

  ghost predicate StandsForEdge(dumps: Renderer, kept: Relationship, r: Relationship) {
    kept.id == r.id && SaidNoWorse(dumps, kept, r)
  }

  lemma StandingForIsTransitive(dumps: Renderer, a: Entity, b: Entity, c: Entity)
    requires StandsFor(dumps, a, b) && StandsFor(dumps, b, c)
    ensures StandsFor(dumps, a, c)
  {
    hide MentionedNoWorse, MentionedAlike, ReadsNoEarlier, Above, RankOf;
    NotAboveIsNoWorse(dumps, a, b);
    NotAboveIsNoWorse(dumps, b, c);
    NotAboveIsNoWorse(dumps, a, c);
    var x, y, z := RankOf(dumps, a), RankOf(dumps, b), RankOf(dumps, c);
    AboveIsTotal(x, y);
    AboveIsTotal(y, z);
    AboveIsTotal(x, z);
    if Above(z, x) {
      if Above(x, y) {
        AboveIsTransitive(z, x, y);
      }
    }
  }

  lemma SaidNoWorseIsTransitive(dumps: Renderer, a: Relationship, b: Relationship, c: Relationship)
    requires SaidNoWorse(dumps, a, b) && SaidNoWorse(dumps, b, c)
    ensures SaidNoWorse(dumps, a, c)
  {
    hide NotEarlier, StringLess;
    NotEarlierMeans(dumps(a.properties), dumps(b.properties));
    NotEarlierMeans(dumps(b.properties), dumps(c.properties));
    NotEarlierMeans(dumps(a.properties), dumps(c.properties));
    var x, y, z := dumps(a.properties), dumps(b.properties), dumps(c.properties);
    StringOrderIsTotal(x, y);
    StringOrderIsTotal(y, z);
    LessIsTransitive(x, z, y);
  }

  /** Every mention is stood for, under its id, by one that is no worse. */
  lemma KeptEntityIsNoWorse(dumps: Renderer, es: seq<Entity>, e: Entity)
    requires e in es
    ensures exists kept :: kept in KeptEntities(dumps, es).Listed() && kept in es && StandsFor(dumps, kept, e)
  {
    hide KeepAll, StrictOrder, Prefers, MentionedNoWorse, MentionedAlike, ReadsNoEarlier;
    OrdersAreStrict(dumps);
    NothingBeatsTheKept(EntityKey, EntityBeats(dumps), es, e);
    var d := KeptEntities(dumps, es);
    var kept := d.values[e.id];
    NotAboveIsNoWorse(dumps, kept, e);
    ListedElements(d);
    assert kept in Elements(d.Listed());
  }

  /** Every statement of an edge is stood for, under its id, by one that is no worse. */
  lemma KeptEdgeIsNoWorse(dumps: Renderer, rs: seq<Relationship>, r: Relationship)
    requires r in rs
    ensures exists kept :: kept in KeptEdges(dumps, rs).Listed() && kept in rs && StandsForEdge(dumps, kept, r)
  {
    hide KeepAll, StrictOrder, PrefersEdge, SaidNoWorse;
    OrdersAreStrict(dumps);
    NothingBeatsTheKept(EdgeKey, EdgeBeats(dumps), rs, r);
    var d := KeptEdges(dumps, rs);
    var kept := d.values[r.id];
    NotPreferredIsNoWorse(dumps, kept, r);
    ListedElements(d);
    assert kept in Elements(d.Listed());
  }

  // ----- what a merge keeps

  /** A merge holds, for every entity a chunk found, one that some chunk found and that is no worse. */
  lemma MergedEntityIsNoWorse(dumps: Renderer, parts: seq<MappedExtraction>, p: MappedExtraction, e: Entity)
    requires p in parts && e in p.entities
    ensures exists kept :: kept in MergeOf(dumps, parts).entities && StandsFor(dumps, kept, e)
  {
    hide StandsFor, KeptEntities, KeptEdges, AllEntities, AllEdges;
    ElementsOfAll(parts);
    KeptEntityIsNoWorse(dumps, AllEntities(parts), e);
  }

  /** A merge holds, for every edge a chunk found, one that some chunk found and that is no worse. */
  lemma MergedEdgeIsNoWorse(dumps: Renderer, parts: seq<MappedExtraction>, p: MappedExtraction, r: Relationship)
    requires p in parts && r in p.relationships
    ensures exists kept :: kept in MergeOf(dumps, parts).relationships && StandsForEdge(dumps, kept, r)
  {
    hide StandsForEdge, KeptEntities, KeptEdges, AllEntities, AllEdges;
    ElementsOfAll(parts);
    KeptEdgeIsNoWorse(dumps, AllEdges(parts), r);
  }

  /** Nothing in a merge was made up, and no id is in it twice. */
  lemma MergedWasMentioned(dumps: Renderer, parts: seq<MappedExtraction>)
    ensures forall e :: e in MergeOf(dumps, parts).entities ==> exists p :: p in parts && e in p.entities
    ensures forall r :: r in MergeOf(dumps, parts).relationships ==> exists p :: p in parts && r in p.relationships
    ensures forall i, j :: 0 <= i < j < |MergeOf(dumps, parts).entities| ==>
              MergeOf(dumps, parts).entities[i].id != MergeOf(dumps, parts).entities[j].id
    ensures forall i, j :: 0 <= i < j < |MergeOf(dumps, parts).relationships| ==>
              MergeOf(dumps, parts).relationships[i].id != MergeOf(dumps, parts).relationships[j].id
  {
    hide KeepAll, AllEntities, AllEdges;
    var es, rs := AllEntities(parts), AllEdges(parts);
    ElementsOfAll(parts);
    KeysAreKept(EntityKey, EntityBeats(dumps), es);
    KeysAreKept(EdgeKey, EdgeBeats(dumps), rs);
    var ds, fs := KeptEntities(dumps, es), KeptEdges(dumps, rs);
    forall i | 0 <= i < |ds.keys| ensures ds.Listed()[i].id == ds.keys[i] && ds.Listed()[i] in es {
      assert ds.keys[i] in ds.keys;
    }
    forall i | 0 <= i < |fs.keys| ensures fs.Listed()[i].id == fs.keys[i] && fs.Listed()[i] in rs {
      assert fs.keys[i] in fs.keys;
    }
  }

  /** The counters of a merge are the sums of those of its parts. */
  lemma {:induction false} MergedCountersAddUp(dumps: Renderer, parts: seq<MappedExtraction>)
    ensures var c := MergeOf(dumps, parts).counters;
            && c.droppedEntities == SumOf(parts, (p: MappedExtraction) => p.counters.droppedEntities)
            && c.unresolvedRelationships == SumOf(parts, (p: MappedExtraction) => p.counters.unresolvedRelationships)
            && c.selfLoops == SumOf(parts, (p: MappedExtraction) => p.counters.selfLoops)
            && c.undatableRelative == SumOf(parts, (p: MappedExtraction) => p.counters.undatableRelative)
            && c.liftedDates == SumOf(parts, (p: MappedExtraction) => p.counters.liftedDates)
            && c.dateNodes == SumOf(parts, (p: MappedExtraction) => p.counters.dateNodes)
  {
    hide KeepAll, AllEntities, AllEdges;
    if parts != [] {
      MergedCountersAddUp(dumps, parts[..|parts| - 1]);
    }
  }
}
