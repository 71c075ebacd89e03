/**
 What a merge decides about the three mergeable fields of its canonical entity.

 Each property is settled on its own, by the strategy the policy names for it, among the claims of
 those entities of the group that have it.
 */
module FieldMerge {
  import opened Wrappers
  import opened Sequences
  import opened Domain
  import opened AliasForest
  import opened Planning
  import opened PlanEffect
  import opened GraphFold
  import opened Runs

  datatype Strategy = PreferCanonical | PreferMerged | MostRecentlyObserved | Union | DeepMerge

  datatype Policy = Policy(default: Strategy, overrides: map<string, Strategy>)

  // The part of a dotted path before its first dot.
  function FieldOf(path: string): string {
    if path == "" || path[0] == '.' then "" else [path[0]] + FieldOf(path[1..])
  }

  // Union makes a list, which only a property can hold.
  predicate Legal(policy: Policy) {
    && policy.default != Union
    && forall path :: path in policy.overrides ==>
         && FieldOf(path) in {"description", "external_ids", "properties"}
         && (policy.overrides[path] == Union ==> FieldOf(path) == "properties")
  }

  // The exact path decides, then its field, then the default.
  function StrategyFor(policy: Policy, path: string): Strategy {
    if path in policy.overrides then policy.overrides[path]
    else if FieldOf(path) in policy.overrides then policy.overrides[FieldOf(path)]
    else policy.default
  }

  // ----- one property

  datatype PropertyClaim<V> = PropertyClaim(value: V, provenance: Provenance, origin: EntityId)

  // Observed later; at one instant, surer; and last by the claimant's id.
  predicate Outranks<V>(a: PropertyClaim<V>, b: PropertyClaim<V>) {
    if a.provenance.observedAt != b.provenance.observedAt then a.provenance.observedAt > b.provenance.observedAt
    else if a.provenance.confidence != b.provenance.confidence then a.provenance.confidence > b.provenance.confidence
    else a.origin > b.origin
  }

  // The first claim none of the others outranks.
  function Latest<V>(claims: seq<PropertyClaim<V>>): PropertyClaim<V>
    requires claims != []
  {
    if |claims| == 1 then claims[0]
    else
      var best := Latest(claims[..|claims| - 1]);
      if Outranks(claims[|claims| - 1], best) then claims[|claims| - 1] else best
  }

  // The claims are the canonical entity's and then the absorbed ones', in the order of the merge.
  // None stands for an error: nothing to choose from, or a strategy that does not choose.
  function Pick<V>(strategy: Strategy, claims: seq<PropertyClaim<V>>): Option<V> {
    if claims == [] then None
    else
      match strategy
      case PreferCanonical => Some(claims[0].value)
      case PreferMerged => Some(claims[if |claims| > 1 then 1 else 0].value)
      case MostRecentlyObserved => Some(Latest(claims).value)
      case Union => None
      case DeepMerge => None
  }

  // A list stands for its items, anything else for itself.
  function Items(value: Json): seq<Json> {
    if value.List? then value.items else [value]
  }

  function Unioned(values: seq<Json>): seq<Json> {
    if values == [] then [] else Extended(Unioned(values[..|values| - 1]), Items(values[|values| - 1]))
  }

  function Values<V>(claims: seq<PropertyClaim<V>>): seq<V> {
    seq(|claims|, i requires 0 <= i < |claims| => claims[i].value)
  }

  function PickJson(strategy: Strategy, claims: seq<PropertyClaim<Json>>): Option<Json> {
    if strategy == Union && claims != [] then Some(List(Unioned(Values(claims)))) else Pick(strategy, claims)
  }

  // An entity that says nothing has no claim.
  function ClaimsFor<V>(read: Entity -> Option<V>, group: seq<Entity>): seq<PropertyClaim<V>> {
    if group == [] then []
    else
      var e := group[|group| - 1];
      var earlier := ClaimsFor(read, group[..|group| - 1]);
      if read(e).Some? then earlier + [PropertyClaim(read(e).value, e.provenance, e.id)] else earlier
  }

  // ----- a whole field

  function At<V>(field: Entity -> map<string, V>, key: string): Entity -> Option<V> {
    (e: Entity) => if key in field(e) then Some(field(e)[key]) else None
  }

  function KeysOf<V>(field: Entity -> map<string, V>, group: seq<Entity>): set<string> {
    if group == [] then {} else KeysOf(field, group[..|group| - 1]) + field(group[|group| - 1]).Keys
  }

  type Chooser<!V> = (Strategy, seq<PropertyClaim<V>>) -> Option<V>

  function Decided<V>(policy: Policy, name: string, field: Entity -> map<string, V>, choose: Chooser<V>, group: seq<Entity>,
                      key: string): Option<V> {
    choose(StrategyFor(policy, name + "." + key), ClaimsFor(At(field, key), group))
  }

  function ResolvedMapping<V>(policy: Policy, name: string, field: Entity -> map<string, V>, choose: Chooser<V>,
                              group: seq<Entity>): Option<map<string, V>> {
    var keys := KeysOf(field, group);
    if forall key :: key in keys ==> Decided(policy, name, field, choose, group, key).Some?
    then Some(map key | key in keys :: Decided(policy, name, field, choose, group, key).value)
    else None
  }

  // Every key is settled that some entity of the group has; one whose strategy raises fails the field.
  method ResolveMapping<V>(policy: Policy, name: string, field: Entity -> map<string, V>, choose: Chooser<V>, group: seq<Entity>)
    returns (resolved: Option<map<string, V>>)
    ensures resolved == ResolvedMapping(policy, name, field, choose, group)
  {
    hide KeysOf, Decided;
    var settled: map<string, V> := map[];
    KeysOfPrefix(field, group, 0);
    for i := 0 to |group|
      invariant settled.Keys == KeysOf(field, group[..i])
      invariant SettledSoFar(policy, name, field, choose, group, settled)
    {
      OneMoreEntity(field, group, i);
      KeysOfPrefix(field, group, i + 1);
      var more := SettleKeys(policy, name, field, choose, group, field(group[i]).Keys, settled);
      if more.None? {
        return None;
      }
      settled := more.value;
    }
    assert group[..|group|] == group;
    AllSettled(policy, name, field, choose, group, settled);
    return Some(settled);
  }

  // Settle the keys of one entity that no earlier one had.
  method SettleKeys<V>(policy: Policy, name: string, field: Entity -> map<string, V>, choose: Chooser<V>, group: seq<Entity>,
                       keys: set<string>, before: map<string, V>)
    returns (settled: Option<map<string, V>>)
    requires SettledSoFar(policy, name, field, choose, group, before)
    ensures settled.None? ==> exists key :: key in keys && Decided(policy, name, field, choose, group, key).None?
    ensures settled.Some? ==> settled.value.Keys == before.Keys + keys
                              && SettledSoFar(policy, name, field, choose, group, settled.value)
  {
    hide Decided, SettledSoFar;
    var all, left := before, keys;
    while left != {}
      invariant left <= keys && all.Keys + left == before.Keys + keys
      invariant SettledSoFar(policy, name, field, choose, group, all)
      decreases |left|
    {
      var key :| key in left;
      if key !in all {
        var value := Decided(policy, name, field, choose, group, key);
        if value.None? {
          return None;
        }
        SettledOneMore(policy, name, field, choose, group, all, key, value.value);
        all := all[key := value.value];
      }
      left := left - {key};
    }
    return Some(all);
  }

  ghost predicate SettledSoFar<V>(policy: Policy, name: string, field: Entity -> map<string, V>, choose: Chooser<V>,
                                  group: seq<Entity>, settled: map<string, V>) {
    forall key :: key in settled ==> Decided(policy, name, field, choose, group, key) == Some(settled[key])
  }

  lemma AllSettled<V>(policy: Policy, name: string, field: Entity -> map<string, V>, choose: Chooser<V>, group: seq<Entity>,
                      settled: map<string, V>)
    requires settled.Keys == KeysOf(field, group) && SettledSoFar(policy, name, field, choose, group, settled)
    ensures ResolvedMapping(policy, name, field, choose, group) == Some(settled)
  {
    hide KeysOf, Decided;
    assert forall key :: key in KeysOf(field, group) ==> key in settled;
    assert settled == map key | key in KeysOf(field, group) :: Decided(policy, name, field, choose, group, key).value;
  }

  lemma SettledOneMore<V>(policy: Policy, name: string, field: Entity -> map<string, V>, choose: Chooser<V>, group: seq<Entity>,
                          settled: map<string, V>, key: string, value: V)
    requires SettledSoFar(policy, name, field, choose, group, settled)
    requires Decided(policy, name, field, choose, group, key) == Some(value)
    ensures SettledSoFar(policy, name, field, choose, group, settled[key := value])
  {
  }

  lemma OneMoreEntity<V>(field: Entity -> map<string, V>, group: seq<Entity>, i: nat)
    requires i < |group|
    ensures KeysOf(field, group[..i + 1]) == KeysOf(field, group[..i]) + field(group[i]).Keys
  {
    assert group[..i + 1][..i] == group[..i];
  }

  lemma {:induction false} KeysOfPrefix<V>(field: Entity -> map<string, V>, group: seq<Entity>, k: nat)
    requires k <= |group|
    ensures KeysOf(field, group[..k]) <= KeysOf(field, group)
    ensures k == 0 ==> KeysOf(field, group[..k]) == {}
  {
    if k < |group| {
      assert group[..|group| - 1][..k] == group[..k];
      KeysOfPrefix(field, group[..|group| - 1], k);
    } else {
      assert group[..k] == group;
    }
  }

  // ----- all three fields

  function Description(): Entity -> Option<string> { (e: Entity) => e.description }

  function ExternalIds(): Entity -> map<string, string> { (e: Entity) => e.externalIds }

  function PropertiesOf(): Entity -> Properties { (e: Entity) => e.properties }

  // Nobody having described the entity is no error.
  function ResolvedDescription(policy: Policy, group: seq<Entity>): Option<Option<string>> {
    var claims := ClaimsFor(Description(), group);
    if claims == [] then Some(None)
    else
      match Pick(StrategyFor(policy, "description"), claims)
      case None => None
      case Some(text) => Some(Some(text))
  }

  function PlannedFields(policy: Policy, group: seq<Entity>): Option<MergeableFields> {
    var description := ResolvedDescription(policy, group);
    var externalIds := ResolvedMapping(policy, "external_ids", ExternalIds(), Pick, group);
    var properties := ResolvedMapping(policy, "properties", PropertiesOf(), PickJson, group);
    if description.None? || externalIds.None? || properties.None? then None
    else Some(MergeableFields(description.value, externalIds.value, properties.value))
  }

  method PlanProperties(policy: Policy, canonical: Entity, others: seq<Entity>) returns (resolution: Option<Resolution>)
    ensures resolution ==
            match PlannedFields(policy, [canonical] + others)
            case None => None
            case Some(after) => Some(Resolution(canonical.id, canonical.Fields(), after))
  {
    var group := [canonical] + others;
    var description := ResolvedDescription(policy, group);
    if description.None? {
      return None;
    }
    var externalIds := ResolveMapping(policy, "external_ids", ExternalIds(), Pick, group);
    if externalIds.None? {
      return None;
    }
    var properties := ResolveMapping(policy, "properties", PropertiesOf(), PickJson, group);
    if properties.None? {
      return None;
    }
    return Some(Resolution(canonical.id, canonical.Fields(),
                           MergeableFields(description.value, externalIds.value, properties.value)));
  }

  // The rows of those entities that have one, in order.
  function RowsOf(entities: EntityTable, es: seq<EntityId>): seq<Entity> {
    if es == [] then []
    else
      var earlier, e := RowsOf(entities, es[..|es| - 1]), es[|es| - 1];
      if e in entities then earlier + [entities[e]] else earlier
  }

  // ----- when planning the fields raises

  lemma {:induction false} FieldOfPath(field: string, rest: string)
    requires '.' !in field
    ensures FieldOf(field + "." + rest) == field
  {
    var path := field + "." + rest;
    if field != [] {
      assert path[1..] == field[1..] + "." + rest;
      FieldOfPath(field[1..], rest);
    }
  }

  lemma {:induction false} KeysOfAre<V>(field: Entity -> map<string, V>, group: seq<Entity>, key: string)
    ensures key in KeysOf(field, group) <==> exists e :: e in group && key in field(e)
  {
    if group != [] {
      var n := |group| - 1;
      assert group == group[..n] + [group[n]];
      KeysOfAre(field, group[..n], key);
    }
  }

  lemma {:induction false} ClaimsAre<V>(read: Entity -> Option<V>, group: seq<Entity>)
    ensures forall claim :: claim in ClaimsFor(read, group) ==>
              exists e :: e in group && read(e).Some? && claim == PropertyClaim(read(e).value, e.provenance, e.id)
    ensures forall e :: e in group && read(e).Some? ==> PropertyClaim(read(e).value, e.provenance, e.id) in ClaimsFor(read, group)
  {
    if group != [] {
      var n := |group| - 1;
      assert group == group[..n] + [group[n]];
      ClaimsAre(read, group[..n]);
    }
  }

  // A key some entity has is claimed, so that there is always something to choose from.
  lemma SomeoneClaims<V>(field: Entity -> map<string, V>, group: seq<Entity>, key: string)
    ensures ClaimsFor(At(field, key), group) != [] <==> key in KeysOf(field, group)
  {
    hide KeysOf, ClaimsFor;
    var claims := ClaimsFor(At(field, key), group);
    KeysOfAre(field, group, key);
    ClaimsAre(At(field, key), group);
    if claims != [] {
      assert claims[0] in claims;
    }
    if e :| e in group && key in field(e) {
      assert At(field, key)(e).Some?;
    }
  }

  // Some claimed path is to be merged deeply, which no strategy does.
  ghost predicate AsksForDeepMerge(policy: Policy, group: seq<Entity>) {
    || (StrategyFor(policy, "description") == DeepMerge && exists e :: e in group && e.description.Some?)
    || (exists key :: key in KeysOf(ExternalIds(), group) && StrategyFor(policy, "external_ids" + "." + key) == DeepMerge)
    || (exists key :: key in KeysOf(PropertiesOf(), group) && StrategyFor(policy, "properties" + "." + key) == DeepMerge)
  }

  lemma UnionIsForProperties(policy: Policy, key: string)
    requires Legal(policy)
    ensures StrategyFor(policy, "description") != Union && StrategyFor(policy, "external_ids" + "." + key) != Union
  {
    FieldOfPath("external_ids", key);
    FieldOfField("description");
    FieldOfField("external_ids");
    FieldOfField("properties");
  }

  lemma {:induction false} FieldOfField(field: string)
    requires '.' !in field
    ensures FieldOf(field) == field
  {
    if field != [] {
      FieldOfField(field[1..]);
    }
  }

  /** Planning the fields raises exactly when a path that some entity claims is to be merged deeply. */
  lemma PlanningRaisesExactlyWhen(policy: Policy, group: seq<Entity>)
    requires Legal(policy)
    ensures PlannedFields(policy, group).None? <==> AsksForDeepMerge(policy, group)
  {
    hide KeysOf, ClaimsFor, StrategyFor, Legal, At;
    forall key ensures key in KeysOf(ExternalIds(), group) ==>
              (Decided(policy, "external_ids", ExternalIds(), Pick, group, key).None? <==>
               StrategyFor(policy, "external_ids" + "." + key) == DeepMerge)
    {
      SomeoneClaims(ExternalIds(), group, key);
      UnionIsForProperties(policy, key);
    }
    forall key ensures key in KeysOf(PropertiesOf(), group) ==>
              (Decided(policy, "properties", PropertiesOf(), PickJson, group, key).None? <==>
               StrategyFor(policy, "properties" + "." + key) == DeepMerge)
    {
      SomeoneClaims(PropertiesOf(), group, key);
    }
    UnionIsForProperties(policy, "");
    DescribedExactlyWhen(group);
  }

  lemma DescribedExactlyWhen(group: seq<Entity>)
    ensures ClaimsFor(Description(), group) != [] <==> exists e :: e in group && e.description.Some?
  {
    hide ClaimsFor;
    var claims := ClaimsFor(Description(), group);
    ClaimsAre(Description(), group);
    if claims != [] {
      assert claims[0] in claims;
    }
    if e :| e in group && e.description.Some? {
      assert Description()(e).Some?;
    }
  }

  // ----- the most recent observation

  ghost predicate OneEach<V>(claims: seq<PropertyClaim<V>>) {
    forall i, j :: 0 <= i < j < |claims| ==> claims[i].origin != claims[j].origin
  }

  lemma {:induction false} LatestIsOutrankedByNone<V>(claims: seq<PropertyClaim<V>>)
    requires claims != []
    ensures Latest(claims) in claims && forall claim :: claim in claims ==> !Outranks(claim, Latest(claims))
  {
    if |claims| > 1 {
      var n := |claims| - 1;
      assert claims == claims[..n] + [claims[n]];
      LatestIsOutrankedByNone(claims[..n]);
    }
  }

  // Whoever is listed first, the same observation wins.
  lemma LatestIgnoresOrder<V>(claims: seq<PropertyClaim<V>>, others: seq<PropertyClaim<V>>)
    requires claims != [] && OneEach(claims) && Elements(claims) == Elements(others)
    ensures others != [] && Latest(claims) == Latest(others)
  {
    assert claims[0] in Elements(others);
    LatestIsOutrankedByNone(claims);
    LatestIsOutrankedByNone(others);
    var a, b := Latest(claims), Latest(others);
    assert a in Elements(others) && b in Elements(claims);
    assert !Outranks(a, b) && !Outranks(b, a);
    assert a.origin == b.origin;
    var i :| 0 <= i < |claims| && claims[i] == a;
    var j :| 0 <= j < |claims| && claims[j] == b;
  }

  ghost predicate DifferentEntities(group: seq<Entity>) {
    forall i, j :: 0 <= i < j < |group| ==> group[i].id != group[j].id
  }

  lemma {:induction false} ClaimsAreOneEach<V>(read: Entity -> Option<V>, group: seq<Entity>)
    requires DifferentEntities(group)
    ensures OneEach(ClaimsFor(read, group))
    ensures forall claim :: claim in ClaimsFor(read, group) ==> exists e :: e in group && claim.origin == e.id
  {
    if group != [] {
      var n := |group| - 1;
      assert group == group[..n] + [group[n]];
      ClaimsAreOneEach(read, group[..n]);
      forall claim | claim in ClaimsFor(read, group[..n]) ensures claim.origin != group[n].id {
        var e :| e in group[..n] && claim.origin == e.id;
      }
    }
  }

  /** Listing the merged entities in another order leaves what was most recently observed of them. */
  lemma MostRecentIgnoresOrder<V>(read: Entity -> Option<V>, group: seq<Entity>, other: seq<Entity>)
    requires DifferentEntities(group) && Elements(group) == Elements(other)
    ensures Pick(MostRecentlyObserved, ClaimsFor(read, group)) == Pick(MostRecentlyObserved, ClaimsFor(read, other))
  {
    hide ClaimsFor, Latest, DifferentEntities;
    var claims, others := ClaimsFor(read, group), ClaimsFor(read, other);
    assert others != [] ==> others[0] in others;
    ClaimsAre(read, group);
    ClaimsAre(read, other);
    assert forall e :: e in group <==> e in Elements(other);
    assert forall claim :: claim in claims <==> claim in others;
    assert Elements(claims) == Elements(others);
    ClaimsAreOneEach(read, group);
    if claims != [] {
      LatestIgnoresOrder(claims, others);
    }
  }

  // ----- union

  /** A union holds every item of every value, once. */
  lemma {:induction false} UnionHoldsEachItemOnce(values: seq<Json>, x: Json)
    ensures x in Unioned(values) <==> exists v :: v in values && x in Items(v)
    ensures NoRepeats(Unioned(values))
  {
    if values != [] {
      var n := |values| - 1;
      assert values == values[..n] + [values[n]];
      UnionHoldsEachItemOnce(values[..n], x);
      ExtendedHolds(Unioned(values[..n]), Items(values[n]), x);
    }
  }

  lemma {:induction false} ExtendingByFresh(seen: seq<Json>, more: seq<Json>)
    requires NoRepeats(seen + more)
    ensures Extended(seen, more) == seen + more
  {
    if more != [] {
      var n := |more| - 1;
      assert (seen + more)[..|seen| + n] == seen + more[..n];
      assert NoRepeats(seen + more[..n]) by {
        forall i, j | 0 <= i < j < |seen| + n ensures (seen + more[..n])[i] != (seen + more[..n])[j] {
          assert (seen + more)[i] != (seen + more)[j];
        }
      }
      ExtendingByFresh(seen, more[..n]);
      forall i | 0 <= i < |seen| + n ensures (seen + more[..n])[i] != more[n] {
        assert (seen + more)[i] != (seen + more)[|seen| + n];
      }
      assert seen + more == (seen + more[..n]) + [more[n]];
    } else {
      assert seen + more == seen;
    }
  }

  /** Taking the union of a union and more is taking it all at once: nothing nests. */
  lemma {:induction false} UnionOfUnions(values: seq<Json>, more: seq<Json>)
    ensures Unioned([List(Unioned(values))] + more) == Unioned(values + more)
  {
    var again := [List(Unioned(values))];
    if more == [] {
      assert again + more == again && values + more == values && again[..0] == [];
      if values == [] {
        assert Extended<Json>([], []) == [];
      } else {
        UnionHoldsEachItemOnce(values, True);
        assert [] + Unioned(values) == Unioned(values);
        ExtendingByFresh([], Unioned(values));
      }
      assert Unioned(again) == Extended(Unioned(again[..0]), Items(again[0]));
    } else {
      UnionOfUnions(values, more[..|more| - 1]);
      Shortened(again, more);
      Shortened(values, more);
    }
  }

  // ----- tombstones

  const FLAG := "_retracted"

  // The flag is only ever set.
  ghost predicate FlaggedOrNot(e: Entity) {
    FLAG in e.properties ==> e.properties[FLAG] == True
  }

  lemma PickIsAClaim<V>(strategy: Strategy, claims: seq<PropertyClaim<V>>)
    requires Pick(strategy, claims).Some?
    ensures exists claim :: claim in claims && claim.value == Pick(strategy, claims).value
  {
    LatestIsOutrankedByNone(claims);
    assert claims[0] in claims && (|claims| > 1 ==> claims[1] in claims);
    if strategy.MostRecentlyObserved? {
      assert Latest(claims) in claims && Latest(claims).value == Pick(strategy, claims).value;
    }
  }

  lemma FlagIsTrue(group: seq<Entity>)
    requires forall e :: e in group ==> FlaggedOrNot(e)
    ensures forall claim :: claim in ClaimsFor(At(PropertiesOf(), FLAG), group) ==> claim.value == True
    ensures ClaimsFor(At(PropertiesOf(), FLAG), group) != [] <==> exists e :: e in group && IsRetracted(e)
  {
    hide ClaimsFor;
    ClaimsAre(At(PropertiesOf(), FLAG), group);
    SomeoneClaims(PropertiesOf(), group, FLAG);
    KeysOfAre(PropertiesOf(), group, FLAG);
    if e :| e in group && IsRetracted(e) {
      assert FLAG in PropertiesOf()(e);
    }
    if e :| e in group && FLAG in PropertiesOf()(e) {
      assert FlaggedOrNot(e) && IsRetracted(e);
    }
  }

  lemma {:induction false} UnionOfTrues(values: seq<Json>)
    requires values != [] && forall v :: v in values ==> v == True
    ensures Unioned(values) == [True]
  {
    var n := |values| - 1;
    assert values[n] in values;
    assert Items(True) == [True] && [True][..0] == [];
    if n == 0 {
      assert values[..0] == [];
      assert Extended([], [True]) == [True];
    } else {
      assert forall v :: v in values[..n] ==> v in values;
      UnionOfTrues(values[..n]);
      assert Extended([True], [True]) == [True];
    }
  }

  /**
   A merge retracts its canonical entity exactly when some entity of the group is retracted, the
   canonical one or an absorbed one, and properties are not united.  United, the flag becomes a list
   with the one item `true`, and the entity is no longer what the fold of a retraction leaves.
   */
  lemma AMergeRetractsExactlyWhen(policy: Policy, group: seq<Entity>)
    requires PlannedFields(policy, group).Some? && forall e :: e in group ==> FlaggedOrNot(e)
    ensures var after, strategy := PlannedFields(policy, group).value.properties, StrategyFor(policy, "properties" + "." + FLAG);
            && (FLAG in after <==> exists e :: e in group && IsRetracted(e))
            && (FLAG in after ==> after[FLAG] == if strategy == Union then List([True]) else True)
  {
    hide KeysOf, ClaimsFor, StrategyFor, Latest, Unioned;
    var claims := ClaimsFor(At(PropertiesOf(), FLAG), group);
    var strategy := StrategyFor(policy, "properties" + "." + FLAG);
    FlagIsTrue(group);
    SomeoneClaims(PropertiesOf(), group, FLAG);
    if claims != [] {
      assert Decided(policy, "properties", PropertiesOf(), PickJson, group, FLAG) == PickJson(strategy, claims);
      if strategy == Union {
        forall v | v in Values(claims) ensures v == True {
          var i :| 0 <= i < |claims| && Values(claims)[i] == v;
          assert claims[i] in claims;
        }
        UnionOfTrues(Values(claims));
      } else {
        PickIsAClaim(strategy, claims);
      }
    }
  }

  lemma {:induction false} RowsOfAre(entities: EntityTable, es: seq<EntityId>)
    ensures forall row :: row in RowsOf(entities, es) <==> exists e :: e in es && e in entities && entities[e] == row
  {
    if es != [] {
      var n := |es| - 1;
      assert es == es[..n] + [es[n]];
      RowsOfAre(entities, es[..n]);
    }
  }

  // The fields of the canonical entity's row are what the policy makes of the group's rows.
  ghost predicate DecidedBy(policy: Policy, g: Graph, ev: Event)
    requires ev.Merged? && ev.canonical in g.entities
  {
    && ev.resolution.Some?
    && PlannedFields(policy, [g.entities[ev.canonical]] + RowsOf(g.entities, ev.merged)) == Some(ev.resolution.value.after)
  }

  /** Absorbing a tombstoned entity retracts a live one, and absorbing live ones revives none. */
  lemma AbsorbingATombstoneRetracts(dumps: Renderer, policy: Policy, g: Graph, ev: Event)
    requires Sound(g) && ev.Merged? && PlannedOn(dumps, g, ev) && DecidedBy(policy, g, ev)
    requires forall e :: e in g.entities ==> FlaggedOrNot(g.entities[e])
    ensures Fold(g, ev).graph.entities.Keys == g.entities.Keys
    ensures IsRetracted(Fold(g, ev).graph.entities[ev.canonical]) <==>
            && StrategyFor(policy, "properties" + "." + FLAG) != Union
            && (IsRetracted(g.entities[ev.canonical]) || exists d :: d in ev.merged && d in g.entities && IsRetracted(g.entities[d]))
    ensures forall e :: e in g.entities && e != ev.canonical ==> Fold(g, ev).graph.entities[e] == g.entities[e]
  {
    hide Fold, PlannedFields, StrategyFor, IsPlan, PlannedEdges, Absorb;
    var row := g.entities[ev.canonical];
    var group := [row] + RowsOf(g.entities, ev.merged);
    MergeFolds(dumps, g, ev);
    RowsOfAre(g.entities, ev.merged);
    forall e ensures e in group <==> e == row || e in RowsOf(g.entities, ev.merged) {
    }
    AMergeRetractsExactlyWhen(policy, group);
    assert Fold(g, ev).graph.entities[ev.canonical].properties == ev.resolution.value.after.properties;
  }
}
