/**
 The names seen so far in one document, offered to later chunks: at most `limit` of them, the
 most recently first seen, each as it was first spelt.
 */
module Carryover {
  import opened Domain

  datatype Mention = Mention(name: string, entityType: string)

  type Normalizer = string -> string

  function KeyOf(normalize: Normalizer, m: Mention): (string, string) {
    (normalize(m.name), m.entityType)
  }

  function Keys(normalize: Normalizer, seen: seq<Mention>): set<(string, string)> {
    set i | 0 <= i < |seen| :: KeyOf(normalize, seen[i])
  }

  function Remember(normalize: Normalizer, seen: seq<Mention>, es: seq<Entity>): seq<Mention> {
    if es == [] then seen
    else
      var earlier := Remember(normalize, seen, es[..|es| - 1]);
      var m := Mention(es[|es| - 1].name, es[|es| - 1].entityType);
      if KeyOf(normalize, m) in Keys(normalize, earlier) then earlier else earlier + [m]
  }

  // The last `limit` of them.
  function Recent(seen: seq<Mention>, limit: nat): seq<Mention> {
    if limit == 0 then [] else if |seen| <= limit then seen else seen[|seen| - limit..]
  }

  // Two mentions are of one name: spelt alike once normalised, and of one type.
  ghost predicate SameName(normalize: Normalizer, m: Mention, n: Mention) {
    normalize(m.name) == normalize(n.name) && m.entityType == n.entityType
  }

  ghost predicate OneSlotEach(normalize: Normalizer, seen: seq<Mention>) {
    forall i, j :: 0 <= i < j < |seen| ==> !SameName(normalize, seen[i], seen[j])
  }

  ghost predicate HasSlot(normalize: Normalizer, seen: seq<Mention>, m: Mention) {
    exists i :: 0 <= i < |seen| && SameName(normalize, seen[i], m)
  }

  lemma SlotsAreKeys(normalize: Normalizer, seen: seq<Mention>, m: Mention)
    ensures HasSlot(normalize, seen, m) <==> KeyOf(normalize, m) in Keys(normalize, seen)
  {
  }

  lemma KeysOfOneMore(normalize: Normalizer, seen: seq<Mention>, m: Mention)
    ensures Keys(normalize, seen + [m]) == Keys(normalize, seen) + {KeyOf(normalize, m)}
  {
    var more := seen + [m];
    assert more[|seen|] == m;
    forall k | k in Keys(normalize, seen) ensures k in Keys(normalize, more) {
      var i :| 0 <= i < |seen| && KeyOf(normalize, seen[i]) == k;
      assert more[i] == seen[i];
    }
  }

  /**
   Nothing remembered moves, is respelt or is forgotten; what is new comes after it, one slot
   per normalised name and type, and every entity has a slot.
   */
  lemma {:induction false} FirstSpellingStays(normalize: Normalizer, seen: seq<Mention>, es: seq<Entity>)
    requires OneSlotEach(normalize, seen)
    ensures var all := Remember(normalize, seen, es);
            && seen <= all && OneSlotEach(normalize, all)
            && (forall e :: e in es ==> HasSlot(normalize, all, Mention(e.name, e.entityType)))
            && (forall i :: |seen| <= i < |all| ==> exists e :: e in es && all[i] == Mention(e.name, e.entityType))
  {
    if es != [] {
      var n := |es| - 1;
      FirstSpellingStays(normalize, seen, es[..n]);
      assert es == es[..n] + [es[n]];
      SlotsAreKeys(normalize, Remember(normalize, seen, es[..n]), Mention(es[n].name, es[n].entityType));
      forall e | e in es ensures HasSlot(normalize, Remember(normalize, seen, es), Mention(e.name, e.entityType)) {
        SlotsAreKeys(normalize, Remember(normalize, seen, es), Mention(e.name, e.entityType));
        SlotsAreKeys(normalize, Remember(normalize, seen, es[..n]), Mention(e.name, e.entityType));
        KeysOfOneMore(normalize, Remember(normalize, seen, es[..n]), Mention(es[n].name, es[n].entityType));
      }
    }
  }

  class Carryover {
    const limit: nat
    const normalize: Normalizer
    // A dictionary's values, in the order their keys were first written, and its keys.
    var seen: seq<Mention>
    var keys: set<(string, string)>

    ghost predicate Valid()
      reads this
    {
      keys == Keys(normalize, seen) && OneSlotEach(normalize, seen)
    }

    constructor (limit: nat, normalize: Normalizer)
      ensures Valid() && seen == [] && this.limit == limit && this.normalize == normalize
    {
      this.limit, this.normalize := limit, normalize;
      seen, keys := [], {};
    }

    // Take in one chunk's entities.
    method RememberEntities(es: seq<Entity>)
      requires Valid()
      modifies this
      ensures Valid() && seen == Remember(normalize, old(seen), es) && old(seen) <= seen
    {
      ghost var before := seen;
      for i := 0 to |es|
        invariant Valid() && seen == Remember(normalize, before, es[..i])
      {
        assert es[..i + 1][..i] == es[..i];
        var m := Mention(es[i].name, es[i].entityType);
        if KeyOf(normalize, m) !in keys {
          KeysOfOneMore(normalize, seen, m);
          seen, keys := seen + [m], keys + {KeyOf(normalize, m)};
        }
      }
      assert es[..|es|] == es;
      FirstSpellingStays(normalize, before, es);
    }

    // The names offered to the next prompt.
    method Mentions() returns (ms: seq<Mention>)
      ensures ms == Recent(seen, limit)
      ensures |ms| == (if |seen| <= limit then |seen| else limit) && ms == seen[|seen| - |ms|..]
    {
      if limit == 0 {
        return [];
      }
      return if |seen| <= limit then seen else seen[|seen| - limit..];
    }
  }
}
