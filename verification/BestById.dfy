/**
 Folding a list into a dictionary that keeps, for each id, the mention no other beats.
 */
module BestById {
  import opened Sequences

  // A dictionary that remembers the order its keys were first written in.
  datatype Dict<T> = Dict(keys: seq<nat>, values: map<nat, T>)
  {
    ghost predicate Valid() {
      && (forall i, j :: 0 <= i < j < |keys| ==> keys[i] != keys[j])
      && (forall k :: k in keys <==> k in values)
    }

    // Overwriting a key leaves it where it was.
    function Put(k: nat, x: T): Dict<T> {
      Dict(if k in values then keys else keys + [k], values[k := x])
    }

    function Listed(): (xs: seq<T>)
      requires Valid()
      ensures |xs| == |keys| && forall i :: 0 <= i < |xs| ==> xs[i] == values[keys[i]]
    {
      seq(|keys|, i requires 0 <= i < |keys| => assert keys[i] in keys; values[keys[i]])
    }
  }

  // Keep `x` under its id if nothing is there, or if it beats what is.
  function Keep<T>(key: T -> nat, beats: (T, T) -> bool, d: Dict<T>, x: T): Dict<T> {
    if key(x) in d.values && !beats(x, d.values[key(x)]) then d else d.Put(key(x), x)
  }

  function KeepAll<T>(key: T -> nat, beats: (T, T) -> bool, xs: seq<T>): (d: Dict<T>)
    ensures d.Valid()
  {
    if xs == [] then Dict([], map[])
    else Keep(key, beats, KeepAll(key, beats, xs[..|xs| - 1]), xs[|xs| - 1])
  }

  // ----- the orders this is used with

  ghost predicate StrictOrder<T(!new)>(beats: (T, T) -> bool) {
    && (forall x, y :: !(beats(x, y) && beats(y, x)))
    && (forall x, y, z :: beats(x, y) && beats(y, z) ==> beats(x, z))
  }

  ghost predicate TotalOn<T(!new)>(key: T -> nat, beats: (T, T) -> bool, xs: set<T>) {
    forall x, y :: x in xs && y in xs && key(x) == key(y) ==> x == y || beats(x, y) || beats(y, x)
  }

  // No other mention of the same id beats it.
  ghost predicate IsBest<T(!new)>(key: T -> nat, beats: (T, T) -> bool, xs: set<T>, x: T) {
    x in xs && forall y :: y in xs && key(y) == key(x) ==> y == x || beats(x, y)
  }

  lemma BestIsUnique<T(!new)>(key: T -> nat, beats: (T, T) -> bool, xs: set<T>, x: T, y: T)
    requires StrictOrder(beats) && key(x) == key(y)
    requires IsBest(key, beats, xs, x) && IsBest(key, beats, xs, y)
    ensures x == y
  {
  }

  // The dictionary holds the best mention of every id, and nothing else.
  ghost predicate Picks<T(!new)>(key: T -> nat, beats: (T, T) -> bool, xs: set<T>, d: map<nat, T>) {
    && (forall x :: x in xs ==> key(x) in d)
    && (forall k :: k in d ==> key(d[k]) == k && IsBest(key, beats, xs, d[k]))
  }

  lemma PicksAreUnique<T(!new)>(key: T -> nat, beats: (T, T) -> bool, xs: set<T>, d: map<nat, T>, e: map<nat, T>)
    requires StrictOrder(beats) && Picks(key, beats, xs, d) && Picks(key, beats, xs, e)
    ensures d == e
  {
    hide StrictOrder;
    forall k | k in d ensures k in e && d[k] == e[k] {
      assert d[k] in xs;
      BestIsUnique(key, beats, xs, d[k], e[k]);
    }
    forall k | k in e ensures k in d {
      assert e[k] in xs;
    }
  }

  lemma OneMore<T(!new)>(key: T -> nat, beats: (T, T) -> bool, xs: set<T>, d: map<nat, T>, x: T, all: set<T>)
    requires StrictOrder(beats) && TotalOn(key, beats, all) && Picks(key, beats, xs, d) && all == xs + {x}
    ensures Picks(key, beats, all, Keep(key, beats, Dict([], d), x).values)
  {
    var e := Keep(key, beats, Dict([], d), x).values;
    forall k | k in e ensures key(e[k]) == k && IsBest(key, beats, all, e[k]) {
      forall y | y in all && key(y) == key(e[k]) ensures y == e[k] || beats(e[k], y) {
      }
    }
  }

  // ----- what the fold keeps

  lemma {:induction false} KeptIsBest<T(!new)>(key: T -> nat, beats: (T, T) -> bool, xs: seq<T>)
    requires StrictOrder(beats) && TotalOn(key, beats, Elements(xs))
    ensures Picks(key, beats, Elements(xs), KeepAll(key, beats, xs).values)
  {
    hide StrictOrder, Picks;
    if xs == [] {
      NothingToPick(key, beats, xs);
    } else {
      var n := |xs| - 1;
      var earlier := xs[..n];
      assert xs == earlier + [xs[n]];
      assert Elements(xs) == Elements(earlier) + {xs[n]};
      KeptIsBest(key, beats, earlier);
      OneMore(key, beats, Elements(earlier), KeepAll(key, beats, earlier).values, xs[n], Elements(xs));
    }
  }

  lemma NothingToPick<T(!new)>(key: T -> nat, beats: (T, T) -> bool, xs: seq<T>)
    requires xs == []
    ensures Picks(key, beats, Elements(xs), map[])
  {
  }

  /** The fold keeps exactly the mentions that beat every other of their id. */
  lemma KeptExactlyTheBest<T(!new)>(key: T -> nat, beats: (T, T) -> bool, xs: seq<T>, x: T)
    requires StrictOrder(beats) && TotalOn(key, beats, Elements(xs))
    ensures x in KeepAll(key, beats, xs).values.Values <==> IsBest(key, beats, Elements(xs), x)
  {
    hide StrictOrder, TotalOn, KeepAll;
    KeptIsBest(key, beats, xs);
    var d := KeepAll(key, beats, xs).values;
    if IsBest(key, beats, Elements(xs), x) {
      assert x in xs && key(x) in d;
      BestIsUnique(key, beats, Elements(xs), x, d[key(x)]);
    }
  }

  /** What is kept depends on which mentions there are, not on their order or how often each came. */
  lemma KeptIgnoresOrder<T(!new)>(key: T -> nat, beats: (T, T) -> bool, xs: seq<T>, ys: seq<T>)
    requires StrictOrder(beats) && TotalOn(key, beats, Elements(xs)) && Elements(xs) == Elements(ys)
    ensures KeepAll(key, beats, xs).values == KeepAll(key, beats, ys).values
  {
    hide TotalOn, KeepAll, StrictOrder, Picks;
    KeptIsBest(key, beats, xs);
    KeptIsBest(key, beats, ys);
    PicksAreUnique(key, beats, Elements(xs), KeepAll(key, beats, xs).values, KeepAll(key, beats, ys).values);
  }

  lemma ListedElements<T(!new)>(d: Dict<T>)
    requires d.Valid()
    ensures Elements(d.Listed()) == d.values.Values
  {
    forall x | x in d.values.Values ensures x in d.Listed() {
      var k :| k in d.values && d.values[k] == x;
      var i :| 0 <= i < |d.keys| && d.keys[i] == k;
      assert d.Listed()[i] == x;
    }
    forall x | x in d.Listed() ensures x in d.values.Values {
      var i :| 0 <= i < |d.keys| && d.Listed()[i] == x;
      assert d.keys[i] in d.keys;
    }
  }

  // The best of two picks' survivors is the best of everything.
  lemma BestOfTheBest<T(!new)>(key: T -> nat, beats: (T, T) -> bool, xs: set<T>, ys: set<T>,
                               d: map<nat, T>, e: map<nat, T>, picked: map<nat, T>)
    requires StrictOrder(beats) && Picks(key, beats, xs, d) && Picks(key, beats, ys, e)
    requires Picks(key, beats, d.Values + e.Values, picked)
    ensures Picks(key, beats, xs + ys, picked)
  {
    var kept := d.Values + e.Values;
    forall x | x in xs + ys ensures key(x) in picked && (x == picked[key(x)] || beats(picked[key(x)], x)) {
      var survivor := if x in xs then d[key(x)] else e[key(x)];
      assert survivor in kept && key(survivor) == key(x);
    }
    forall k | k in picked ensures picked[k] in xs + ys {
      assert picked[k] in kept;
    }
  }

  /** Folding the results of two folds keeps what folding everything at once would. */
  lemma KeptRegroups<T(!new)>(key: T -> nat, beats: (T, T) -> bool, xs: seq<T>, ys: seq<T>)
    requires StrictOrder(beats) && TotalOn(key, beats, Elements(xs + ys))
    ensures KeepAll(key, beats, KeepAll(key, beats, xs).Listed() + KeepAll(key, beats, ys).Listed()).values
            == KeepAll(key, beats, xs + ys).values
  {
    hide KeepAll, StrictOrder;
    var d, e := KeepAll(key, beats, xs), KeepAll(key, beats, ys);
    var all, kept := xs + ys, d.Listed() + e.Listed();
    assert Elements(all) == Elements(xs) + Elements(ys);
    KeptIsBest(key, beats, xs);
    KeptIsBest(key, beats, ys);
    ListedElements(d);
    ListedElements(e);
    assert Elements(kept) == d.values.Values + e.values.Values <= Elements(all);
    KeptIsBest(key, beats, all);
    KeptIsBest(key, beats, kept);
    hide Picks, TotalOn;
    BestOfTheBest(key, beats, Elements(xs), Elements(ys), d.values, e.values, KeepAll(key, beats, kept).values);
    PicksAreUnique(key, beats, Elements(all), KeepAll(key, beats, all).values, KeepAll(key, beats, kept).values);
  }
}
