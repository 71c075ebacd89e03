/**
 Alias tables and their resolution.

 A table maps an absorbed entity to the entity it was merged into.  Chains form, because
 a canonical entity may itself be merged away later, so resolution follows the table to
 its end.  Adapters bound that walk by the size of the table and report a cycle when the
 bound is hit; the lemmas here show when the bound is never hit.
 */
module AliasForest {
  import opened Wrappers
  import opened Domain

  type AliasTable = map<EntityId, EntityId>

  // The bounded walk: at most `fuel` hops, None when the walk is still on an alias after them.
  function Walk(m: AliasTable, e: EntityId, fuel: nat): Option<EntityId>
    decreases fuel
  {
    if e !in m then Some(e)
    else if fuel == 0 then None
    else Walk(m, m[e], fuel - 1)
  }

  // No walk of the table runs into the bound.
  ghost predicate Forest(m: AliasTable) {
    forall e: EntityId :: Walk(m, e, |m|).Some?
  }

  function Resolve(m: AliasTable, e: EntityId): EntityId {
    match Walk(m, e, |m|)
    case Some(r) => r
    case None => e
  }

  // The table after `canonical` absorbs every entity in `merged`.
  function Absorb(m: AliasTable, canonical: EntityId, merged: seq<EntityId>): AliasTable {
    m + map e | e in merged :: canonical
  }

  // The table after every entity in `merged` stops being an alias.
  function Release(m: AliasTable, merged: seq<EntityId>): AliasTable {
    m - set e | e in merged
  }

  // The resolver of the in-memory adapter: one bounded walk per requested id.
  method ResolveOne(m: AliasTable, e: EntityId) returns (r: Option<EntityId>)
    ensures r == Walk(m, e, |m|)
  {
    var current := e;
    for hops := 0 to |m| + 1
      invariant hops <= |m| ==> Walk(m, e, |m|) == Walk(m, current, |m| - hops)
      invariant hops == |m| + 1 ==> Walk(m, e, |m|).None?
    {
      if current !in m {
        return Some(current);
      }
      current := m[current];
    }
    return None;
  }

  // ----- the walk

  lemma {:induction false} MoreFuel(m: AliasTable, e: EntityId, k: nat, k': nat)
    requires Walk(m, e, k).Some? && k <= k'
    ensures Walk(m, e, k') == Walk(m, e, k)
    decreases k
  {
    if e in m {
      MoreFuel(m, m[e], k - 1, k' - 1);
    }
  }

  lemma {:induction false} WalkEndsOffTheTable(m: AliasTable, e: EntityId, k: nat)
    requires Walk(m, e, k).Some?
    ensures Walk(m, e, k).value !in m
    decreases k
  {
    if e in m {
      WalkEndsOffTheTable(m, m[e], k - 1);
    }
  }

  // A walk too short for `e` never meets `e`, so dropping `e` from the table does not change it.
  lemma {:induction false} WalkAvoids(m: AliasTable, e: EntityId, x: EntityId, k: nat)
    requires Walk(m, x, k).Some? && Walk(m, e, k).None?
    ensures Walk(m - {e}, x, k) == Walk(m, x, k)
    decreases k
  {
    if x in m {
      if Walk(m, e, k - 1).Some? {
        MoreFuel(m, e, k - 1, k);
      }
      WalkAvoids(m, e, m[x], k - 1);
    }
  }

  // Pigeonhole: a walk that ends at all ends within as many hops as the table has entries.
  lemma {:induction false} EndingWalksFitTheBound(m: AliasTable, e: EntityId, k: nat)
    requires Walk(m, e, k).Some?
    ensures Walk(m, e, |m|) == Walk(m, e, k)
    decreases |m|, k
  {
    if e in m {
      if k > 0 && Walk(m, e, k - 1).Some? {
        MoreFuel(m, e, k - 1, k);
        EndingWalksFitTheBound(m, e, k - 1);
      } else {
        var rest := m - {e};
        assert m.Keys == rest.Keys + {e};
        WalkAvoids(m, e, m[e], k - 1);
        EndingWalksFitTheBound(rest, m[e], k - 1);
        WalkEndsOffTheTable(m, m[e], k - 1);
        WalkInLargerTable(rest, m, e, m[e], |rest|);
      }
    }
  }

  // A walk in a table without `e` that does not end on `e` is a walk in the table with it.
  lemma {:induction false} WalkInLargerTable(rest: AliasTable, m: AliasTable, e: EntityId, x: EntityId, k: nat)
    requires e in m && rest == m - {e} && Walk(rest, x, k).Some? && Walk(rest, x, k).value != e
    ensures Walk(m, x, k) == Walk(rest, x, k)
    decreases k
  {
    if x in rest {
      WalkInLargerTable(rest, m, e, rest[x], k - 1);
    }
  }

  // ----- resolution

  lemma ResolvesOffTheTable(m: AliasTable, e: EntityId)
    requires Forest(m)
    ensures Resolve(m, e) !in m
    ensures Resolve(m, e) == e <==> e !in m
  {
    WalkEndsOffTheTable(m, e, |m|);
  }

  // ----- merging

  // Absorbing non-aliases into a non-alias adds one hop at the end of the walks that
  // ended on an absorbed entity, and changes no other walk.
  lemma {:induction false} WalkAfterAbsorb(m: AliasTable, c: EntityId, ds: seq<EntityId>, e: EntityId, k: nat)
    requires c !in m && c !in ds && (forall d :: d in ds ==> d !in m)
    requires Walk(m, e, k).Some?
    ensures var r := Walk(m, e, k).value;
            Walk(Absorb(m, c, ds), e, k + 1) == Some(if r in ds then c else r)
    decreases k
  {
    if e in m {
      WalkAfterAbsorb(m, c, ds, m[e], k - 1);
    }
  }

  lemma AbsorbKeepsForest(m: AliasTable, c: EntityId, ds: seq<EntityId>)
    requires Forest(m) && c !in m && c !in ds && (forall d :: d in ds ==> d !in m)
    ensures Forest(Absorb(m, c, ds))
    ensures forall e: EntityId :: Resolve(Absorb(m, c, ds), e) == if Resolve(m, e) in ds then c else Resolve(m, e)
  {
    var m' := Absorb(m, c, ds);
    forall e: EntityId
      ensures Walk(m', e, |m'|) == Some(if Resolve(m, e) in ds then c else Resolve(m, e))
    {
      WalkAfterAbsorb(m, c, ds, e, |m|);
      EndingWalksFitTheBound(m', e, |m| + 1);
    }
  }

  // ----- undoing

  lemma {:induction false} WalkAfterRelease(m: AliasTable, ds: seq<EntityId>, e: EntityId, k: nat)
    requires Walk(m, e, k).Some?
    ensures Walk(Release(m, ds), e, k).Some?
    decreases k
  {
    if e in Release(m, ds) {
      WalkAfterRelease(m, ds, m[e], k - 1);
    }
  }

  // Any undo, in any order, leaves a forest.
  lemma ReleaseKeepsForest(m: AliasTable, ds: seq<EntityId>)
    requires Forest(m)
    ensures Forest(Release(m, ds))
  {
    var m' := Release(m, ds);
    forall e: EntityId ensures Walk(m', e, |m'|).Some? {
      WalkAfterRelease(m, ds, e, |m|);
      EndingWalksFitTheBound(m', e, |m|);
    }
  }

  lemma ReleaseUndoesAbsorb(m: AliasTable, c: EntityId, ds: seq<EntityId>)
    requires forall d :: d in ds ==> d !in m
    ensures Release(Absorb(m, c, ds), ds) == m
  {
  }

  // ----- one entity at a time, as the folds do it

  lemma AbsorbOneMore(m: AliasTable, c: EntityId, ds: seq<EntityId>, i: nat)
    requires i < |ds|
    ensures Absorb(m, c, ds[..i + 1]) == Absorb(m, c, ds[..i])[ds[i] := c]
  {
    assert ds[..i + 1] == ds[..i] + [ds[i]];
  }

  lemma ReleaseOneMore(m: AliasTable, ds: seq<EntityId>, i: nat)
    requires i < |ds|
    ensures Release(m, ds[..i + 1]) == Release(m, ds[..i]) - {ds[i]}
  {
    assert ds[..i + 1] == ds[..i] + [ds[i]];
  }
}
