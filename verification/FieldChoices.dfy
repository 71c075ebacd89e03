/**
 Whose value each strategy keeps, in terms of the entities merged and what each of them says.
 */
module FieldChoices {
  import opened Wrappers
  import opened Sequences
  import opened Domain
  import opened FieldMerge

  // ----- who speaks

  ghost predicate SomeoneSpeaks<V>(read: Entity -> Option<V>, group: seq<Entity>) {
    exists e :: e in group && read(e).Some?
  }

  // `i` is the first of the first `n` to say something; the second; the only one.
  ghost predicate First<V>(read: Entity -> Option<V>, group: seq<Entity>, i: int) {
    0 <= i < |group| && read(group[i]).Some? && forall j :: 0 <= j < i ==> read(group[j]).None?
  }

  ghost predicate Second<V>(read: Entity -> Option<V>, group: seq<Entity>, i: int) {
    && 0 <= i < |group| && read(group[i]).Some?
    && exists f :: 0 <= f < i && First(read, group, f) && forall j :: f < j < i ==> read(group[j]).None?
  }

  ghost predicate Only<V>(read: Entity -> Option<V>, group: seq<Entity>, i: int) {
    0 <= i < |group| && read(group[i]).Some? && forall j :: 0 <= j < |group| && j != i ==> read(group[j]).None?
  }

  ghost function ClaimOf<V>(read: Entity -> Option<V>, e: Entity): PropertyClaim<V>
    requires read(e).Some?
  {
    PropertyClaim(read(e).value, e.provenance, e.id)
  }

  // `claim` is what the `i`th of the group says.
  ghost predicate Says<V>(read: Entity -> Option<V>, group: seq<Entity>, i: int, claim: PropertyClaim<V>) {
    0 <= i < |group| && read(group[i]).Some? && claim == ClaimOf(read, group[i])
  }

  lemma ClaimsOneMore<V>(read: Entity -> Option<V>, group: seq<Entity>, e: Entity)
    ensures ClaimsFor(read, group + [e]) == ClaimsFor(read, group) + if read(e).Some? then [ClaimOf(read, e)] else []
  {
    assert (group + [e])[..|group|] == group;
  }

  // Who the first claims come from.
  ghost predicate InTurn<V>(read: Entity -> Option<V>, group: seq<Entity>, claims: seq<PropertyClaim<V>>) {
    && (claims == [] <==> !SomeoneSpeaks(read, group))
    && (|claims| >= 1 ==> exists i :: First(read, group, i) && Says(read, group, i, claims[0]))
    && (|claims| == 1 ==> exists i :: Only(read, group, i) && Says(read, group, i, claims[0]))
    && (|claims| > 1 ==> exists i :: Second(read, group, i) && Says(read, group, i, claims[1]))
  }

  lemma {:induction false} ClaimsInTurn<V>(read: Entity -> Option<V>, group: seq<Entity>)
    ensures InTurn(read, group, ClaimsFor(read, group))
  {
    if group != [] {
      var n := |group| - 1;
      var before, e := group[..n], group[n];
      ClaimsInTurn(read, before);
      hide InTurn, ClaimsFor;
      assert group == before + [e];
      ClaimsOneMore(read, before, e);
      if read(e).None? {
        OneMoreIsSilent(read, before, e, ClaimsFor(read, before));
      } else {
        OneMoreSpeaks(read, before, e, ClaimsFor(read, before));
      }
    }
  }

  lemma OneMoreIsSilent<V>(read: Entity -> Option<V>, before: seq<Entity>, e: Entity, claims: seq<PropertyClaim<V>>)
    requires InTurn(read, before, claims) && read(e).None?
    ensures InTurn(read, before + [e], claims + [])
  {
    assert claims + [] == claims;
    var group := before + [e];
    assert SomeoneSpeaks(read, group) <==> SomeoneSpeaks(read, before);
    if claims != [] {
      var i :| First(read, before, i) && Says(read, before, i, claims[0]);
      assert First(read, group, i) && Says(read, group, i, claims[0]);
      if |claims| > 1 {
        var k :| Second(read, before, k) && Says(read, before, k, claims[1]);
        SecondStays(read, before, e, k);
        assert Says(read, group, k, claims[1]);
      } else {
        var o :| Only(read, before, o) && Says(read, before, o, claims[0]);
        assert Only(read, group, o) && Says(read, group, o, claims[0]);
      }
    }
  }

  lemma OneMoreSpeaks<V>(read: Entity -> Option<V>, before: seq<Entity>, e: Entity, claims: seq<PropertyClaim<V>>)
    requires InTurn(read, before, claims) && read(e).Some?
    ensures InTurn(read, before + [e], claims + [ClaimOf(read, e)])
  {
    var n, group, all := |before|, before + [e], claims + [ClaimOf(read, e)];
    assert e in group && Says(read, group, n, ClaimOf(read, e));
    if claims == [] {
      assert forall j :: 0 <= j < n ==> before[j] in before && before[j] == group[j];
      assert First(read, group, n) && Only(read, group, n);
    } else {
      var i :| First(read, before, i) && Says(read, before, i, claims[0]);
      assert First(read, group, i) && Says(read, group, i, all[0]);
      if |claims| > 1 {
        var k :| Second(read, before, k) && Says(read, before, k, claims[1]);
        SecondStays(read, before, e, k);
        assert Says(read, group, k, all[1]);
      } else {
        var o :| Only(read, before, o) && Says(read, before, o, claims[0]);
        assert First(read, group, o);
        assert Second(read, group, n);
      }
    }
  }

  lemma SecondStays<V>(read: Entity -> Option<V>, group: seq<Entity>, e: Entity, k: int)
    requires Second(read, group, k)
    ensures Second(read, group + [e], k)
  {
    var f :| 0 <= f < k && First(read, group, f) && forall j :: f < j < k ==> read(group[j]).None?;
    assert First(read, group + [e], f);
  }

  // ----- what is kept

  // Not observed earlier than `b`; at one instant no less sure; and of the two the larger id on a tie.
  ghost predicate NoOlder(a: Entity, b: Entity) {
    && b.provenance.observedAt <= a.provenance.observedAt
    && (b.provenance.observedAt == a.provenance.observedAt ==>
          && b.provenance.confidence <= a.provenance.confidence
          && (b.provenance.confidence == a.provenance.confidence ==> b.id <= a.id))
  }

  ghost predicate ObservedLast<V>(read: Entity -> Option<V>, group: seq<Entity>, i: int) {
    0 <= i < |group| && read(group[i]).Some? && forall j :: 0 <= j < |group| && read(group[j]).Some? ==> NoOlder(group[i], group[j])
  }

  /**
   What is kept is said by the first of the group to speak, the canonical entity being listed first;
   by the second, if two speak, when the merged are preferred; or by the one observed last.
   */
  ghost predicate Kept<V>(strategy: Strategy, read: Entity -> Option<V>, group: seq<Entity>, i: int) {
    match strategy
    case PreferCanonical => First(read, group, i)
    case PreferMerged => Second(read, group, i) || Only(read, group, i)
    case MostRecentlyObserved => ObservedLast(read, group, i)
    case _ => false
  }

  // `value` is what `strategy` keeps of what the group says.
  ghost predicate IsKeptValue<V>(strategy: Strategy, read: Entity -> Option<V>, group: seq<Entity>, value: V) {
    exists i :: 0 <= i < |group| && Kept(strategy, read, group, i) && read(group[i]) == Some(value)
  }

  /** What a strategy picks is the value it keeps; the deep merge and the union aside. */
  lemma PickedIsKept<V>(strategy: Strategy, read: Entity -> Option<V>, group: seq<Entity>)
    requires SomeoneSpeaks(read, group) && strategy != Union && strategy != DeepMerge
    ensures Pick(strategy, ClaimsFor(read, group)).Some?
    ensures IsKeptValue(strategy, read, group, Pick(strategy, ClaimsFor(read, group)).value)
  {
    hide First, Second, Only, Latest;
    var claims := ClaimsFor(read, group);
    ClaimsInTurn(read, group);
    hide ClaimsFor;
    if strategy == MostRecentlyObserved {
      LatestIsObservedLast(read, group);
    } else if strategy == PreferMerged && |claims| > 1 {
      var i :| Second(read, group, i) && Says(read, group, i, claims[1]);
      assert Kept(strategy, read, group, i) && read(group[i]) == Some(claims[1].value);
    } else if strategy == PreferMerged {
      var i :| Only(read, group, i) && Says(read, group, i, claims[0]);
      assert Kept(strategy, read, group, i) && read(group[i]) == Some(claims[0].value);
    } else {
      var i :| First(read, group, i) && Says(read, group, i, claims[0]);
      assert Kept(strategy, read, group, i) && read(group[i]) == Some(claims[0].value);
    }
  }

  lemma NotOutranked<V>(read: Entity -> Option<V>, a: Entity, b: Entity)
    requires read(a).Some? && read(b).Some? && !Outranks(ClaimOf(read, b), ClaimOf(read, a))
    ensures NoOlder(a, b)
  {
  }

  lemma LatestIsObservedLast<V>(read: Entity -> Option<V>, group: seq<Entity>)
    requires ClaimsFor(read, group) != []
    ensures IsKeptValue(MostRecentlyObserved, read, group, Latest(ClaimsFor(read, group)).value)
  {
    hide Latest, ClaimsFor;
    var claims := ClaimsFor(read, group);
    LatestIsOutrankedByNone(claims);
    ClaimsAre(read, group);
    var e :| e in group && read(e).Some? && Latest(claims) == ClaimOf(read, e);
    var i :| 0 <= i < |group| && group[i] == e;
    forall j | 0 <= j < |group| && read(group[j]).Some? ensures NoOlder(group[i], group[j]) {
      assert ClaimOf(read, group[j]) in claims;
      NotOutranked(read, e, group[j]);
    }
    assert ObservedLast(read, group, i);
    assert ClaimOf(read, e).value == read(e).value;
    assert Kept(MostRecentlyObserved, read, group, i) && read(group[i]) == Some(Latest(claims).value);
  }

  // ----- which strategy

  /** A path's own strategy decides, then that of its field, then the policy's default. */
  lemma StrategyIs(policy: Policy, field: string, key: string)
    requires field in {"description", "external_ids", "properties"}
    ensures StrategyFor(policy, field + "." + key) ==
            if field + "." + key in policy.overrides then policy.overrides[field + "." + key]
            else if field in policy.overrides then policy.overrides[field]
            else policy.default
    ensures StrategyFor(policy, field) == if field in policy.overrides then policy.overrides[field] else policy.default
  {
    assert '.' !in field;
    FieldOfPath(field, key);
    FieldOfField(field);
  }

  // ----- the planned fields

  // Some entity of the group says `x`, alone or in a list.
  ghost predicate SaidByOne(read: Entity -> Option<Json>, group: seq<Entity>, x: Json) {
    exists e :: e in group && read(e).Some? && SaysItem(read(e).value, x)
  }

  ghost predicate SaysItem(value: Json, x: Json) {
    if value.List? then x in value.items else x == value
  }

  // Every item anyone says, once.
  ghost predicate IsUnion(read: Entity -> Option<Json>, group: seq<Entity>, value: Json) {
    && value.List? && NoRepeats(value.items)
    && forall x :: x in value.items <==> SaidByOne(read, group, x)
  }

  lemma UnionIs(read: Entity -> Option<Json>, group: seq<Entity>)
    ensures IsUnion(read, group, List(Unioned(Values(ClaimsFor(read, group)))))
  {
    hide ClaimsFor, Unioned, NoRepeats, SaidByOne;
    var values := Values(ClaimsFor(read, group));
    UnionHoldsEachItemOnce(values, True);
    forall x ensures x in Unioned(values) <==> SaidByOne(read, group, x) {
      UnionHoldsEachItemOnce(values, x);
      ItemsSaid(read, group, x);
    }
  }

  lemma ItemsSaid(read: Entity -> Option<Json>, group: seq<Entity>, x: Json)
    ensures (exists v :: v in Values(ClaimsFor(read, group)) && x in Items(v)) <==> SaidByOne(read, group, x)
  {
    hide ClaimsFor;
    var claims := ClaimsFor(read, group);
    ClaimsAre(read, group);
    if v :| v in Values(claims) && x in Items(v) {
      var k :| 0 <= k < |claims| && Values(claims)[k] == v;
      assert claims[k] in claims;
      var e :| e in group && read(e).Some? && claims[k] == PropertyClaim(read(e).value, e.provenance, e.id);
      assert SaysItem(read(e).value, x);
    }
    if e :| e in group && read(e).Some? && SaysItem(read(e).value, x) {
      var claim := PropertyClaim(read(e).value, e.provenance, e.id);
      var k :| 0 <= k < |claims| && claims[k] == claim;
      assert Values(claims)[k] == read(e).value && x in Items(read(e).value);
    }
  }

  /**
   The description after a merge is there if any entity of the group is described, and is the one
   its strategy keeps.
   */
  lemma DescriptionIsKept(policy: Policy, group: seq<Entity>)
    requires Legal(policy) && PlannedFields(policy, group).Some?
    ensures var after := PlannedFields(policy, group).value.description;
            && (after.Some? <==> exists e :: e in group && e.description.Some?)
            && (after.Some? ==> IsKeptValue(StrategyFor(policy, "description"), Description(), group, after.value))
  {
    hide ClaimsFor, StrategyFor, ResolvedMapping, Kept;
    DescribedExactlyWhen(group);
    UnionIsForProperties(policy, "");
    if e :| e in group && e.description.Some? {
      assert Description()(e).Some?;
      if StrategyFor(policy, "description") != DeepMerge {
        PickedIsKept(StrategyFor(policy, "description"), Description(), group);
      }
    }
  }

  /** An external id after a merge is one some entity of the group has, and is the one its strategy keeps. */
  lemma ExternalIdsAreKept(policy: Policy, group: seq<Entity>, key: string)
    requires Legal(policy) && PlannedFields(policy, group).Some?
    ensures var after := PlannedFields(policy, group).value.externalIds;
            && (key in after <==> exists e :: e in group && key in e.externalIds)
            && (key in after ==>
                  IsKeptValue(StrategyFor(policy, "external_ids" + "." + key), At(ExternalIds(), key), group, after[key]))
  {
    hide ClaimsFor, StrategyFor, KeysOf, Kept;
    KeysOfAre(ExternalIds(), group, key);
    UnionIsForProperties(policy, key);
    if e :| e in group && key in ExternalIds()(e) {
      assert At(ExternalIds(), key)(e).Some?;
      assert Decided(policy, "external_ids", ExternalIds(), Pick, group, key).Some?;
      if StrategyFor(policy, "external_ids" + "." + key) != DeepMerge {
        PickedIsKept(StrategyFor(policy, "external_ids" + "." + key), At(ExternalIds(), key), group);
      }
    }
  }

  /**
   A property after a merge is one some entity of the group has, and is the value its strategy keeps
   or, united, every item any of them has, once.
   */
  lemma PropertiesAreKept(policy: Policy, group: seq<Entity>, key: string)
    requires PlannedFields(policy, group).Some?
    ensures var after, strategy := PlannedFields(policy, group).value.properties, StrategyFor(policy, "properties" + "." + key);
            && (key in after <==> exists e :: e in group && key in e.properties)
            && (key in after ==>
                  if strategy == Union then IsUnion(At(PropertiesOf(), key), group, after[key])
                  else IsKeptValue(strategy, At(PropertiesOf(), key), group, after[key]))
  {
    hide ClaimsFor, StrategyFor, KeysOf, Kept, IsUnion;
    var strategy := StrategyFor(policy, "properties" + "." + key);
    KeysOfAre(PropertiesOf(), group, key);
    if e :| e in group && key in PropertiesOf()(e) {
      assert At(PropertiesOf(), key)(e).Some?;
      assert Decided(policy, "properties", PropertiesOf(), PickJson, group, key).Some?;
      SomeoneClaims(PropertiesOf(), group, key);
      if strategy == Union {
        UnionIs(At(PropertiesOf(), key), group);
      } else if strategy != DeepMerge {
        PickedIsKept(strategy, At(PropertiesOf(), key), group);
      }
    }
  }

  const DEFAULT_POLICY := Policy(PreferCanonical, map[])

  // Nothing the canonical entity says is changed.
  ghost predicate OnlyAdds<V>(before: map<string, V>, after: map<string, V>) {
    forall key :: key in before ==> key in after && after[key] == before[key]
  }

  lemma TheFirstIsKept<V>(read: Entity -> Option<V>, canonical: Entity, others: seq<Entity>, value: V)
    requires read(canonical).Some? && IsKeptValue(PreferCanonical, read, [canonical] + others, value)
    ensures read(canonical) == Some(value)
  {
    var group := [canonical] + others;
    assert group[0] == canonical;
  }

  /** The default policy only ever adds: what the canonical entity says is left as it is. */
  lemma TheDefaultOnlyAdds(canonical: Entity, others: seq<Entity>)
    ensures var planned := PlannedFields(DEFAULT_POLICY, [canonical] + others);
            && planned.Some?
            && (canonical.description.Some? ==> planned.value.description == canonical.description)
            && OnlyAdds(canonical.properties, planned.value.properties) && OnlyAdds(canonical.externalIds, planned.value.externalIds)
  {
    hide PlannedFields, IsKeptValue, AsksForDeepMerge;
    var group := [canonical] + others;
    NothingDeep(group);
    PlanningRaisesExactlyWhen(DEFAULT_POLICY, group);
    var after := PlannedFields(DEFAULT_POLICY, group).value;
    assert canonical in group;
    DescriptionIsKept(DEFAULT_POLICY, group);
    if canonical.description.Some? {
      TheFirstIsKept(Description(), canonical, others, after.description.value);
    }
    forall key | key in canonical.properties ensures key in after.properties && after.properties[key] == canonical.properties[key] {
      PropertiesAreKept(DEFAULT_POLICY, group, key);
      TheFirstIsKept(At(PropertiesOf(), key), canonical, others, after.properties[key]);
    }
    forall key | key in canonical.externalIds ensures key in after.externalIds && after.externalIds[key] == canonical.externalIds[key] {
      ExternalIdsAreKept(DEFAULT_POLICY, group, key);
      TheFirstIsKept(At(ExternalIds(), key), canonical, others, after.externalIds[key]);
    }
  }

  lemma NothingDeep(group: seq<Entity>)
    ensures Legal(DEFAULT_POLICY) && !AsksForDeepMerge(DEFAULT_POLICY, group)
    ensures forall path :: StrategyFor(DEFAULT_POLICY, path) == PreferCanonical
  {
    hide FieldOf, KeysOf;
  }

  /**
   Preferring the merged passes over the first of them to speak when the canonical entity is silent:
   what is kept is that one's exactly when the canonical entity speaks too, or no other does.
   */
  lemma PreferringTheMergedKeepsTheFirstExactlyWhen<V>(read: Entity -> Option<V>, canonical: Entity, others: seq<Entity>, f: int, i: int)
    requires First(read, others, f) && Kept(PreferMerged, read, [canonical] + others, i)
    ensures i == f + 1 <==> read(canonical).Some? || forall j :: f < j < |others| ==> read(others[j]).None?
  {
    var group := [canonical] + others;
    assert group[0] == canonical && group[f + 1] == others[f];
    assert forall j :: 0 <= j < |others| ==> group[j + 1] == others[j];
    if read(canonical).Some? {
      assert forall j :: 0 < j <= f ==> read(group[j]) == read(others[j - 1]) == None;
    } else {
      assert forall j :: 0 < j <= f ==> read(group[j]) == read(others[j - 1]) == None;
      assert First(read, group, f + 1);
      if j :| f < j < |others| && read(others[j]).Some? {
        assert read(group[j + 1]).Some?;
      } else {
        assert forall j :: f + 1 < j < |group| ==> read(group[j]) == read(others[j - 1]) == None;
      }
    }
  }
}
