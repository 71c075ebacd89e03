/** Facts about sequences that hold whatever they are sequences of. */
module Sequences {
  ghost function Elements<T>(xs: seq<T>): set<T> {
    set x | x in xs
  }

  lemma Regrouped<T>(xs: seq<T>, ys: seq<T>, zs: seq<T>)
    ensures (xs + ys) + zs == xs + (ys + zs)
  {
  }

  lemma Shortened<T>(xs: seq<T>, ys: seq<T>)
    requires ys != []
    ensures var all := xs + ys;
            all != [] && all[..|all| - 1] == xs + ys[..|ys| - 1] && all[|all| - 1] == ys[|ys| - 1]
  {
  }

  lemma OneMoreOf<T>(before: seq<T>, xs: seq<T>, i: nat)
    requires i < |xs|
    ensures var longer := before + xs[..i + 1];
            longer[..|longer| - 1] == before + xs[..i] && longer[|longer| - 1] == xs[i]
  {
  }

  lemma SliceOfRest<T>(xs: seq<T>, n: nat, i: nat, j: nat)
    requires n <= |xs| && i <= j <= |xs| - n
    ensures xs[n..][i..j] == xs[n + i..n + j]
  {
  }

  lemma Inserted<T>(xs: seq<T>, x: T, k: nat)
    requires k <= |xs|
    ensures forall y :: y in xs[..k] + [x] + xs[k..] <==> y in xs || y == x
  {
    var longer := xs[..k] + [x] + xs[k..];
    forall y | y in xs ensures y in longer {
      var i :| 0 <= i < |xs| && xs[i] == y;
      assert longer[if i < k then i else i + 1] == y;
    }
    assert longer[k] == x;
  }

  lemma LastTakenOut<T>(xs: seq<T>, ys: seq<T>) returns (left: seq<T>, right: seq<T>)
    requires xs != [] && multiset(xs) == multiset(ys)
    ensures ys == left + ([xs[|xs| - 1]] + right)
    ensures multiset(xs[..|xs| - 1]) == multiset(left + right)
  {
    var n := |xs| - 1;
    var last := xs[n];
    assert xs == xs[..n] + [last];
    assert last in multiset(ys);
    var k :| 0 <= k < |ys| && ys[k] == last;
    left, right := ys[..k], ys[k + 1..];
    assert ys == left + ([last] + right);
    assert multiset(ys) == multiset(left) + (multiset{last} + multiset(right));
    assert multiset(xs) == multiset(xs[..n]) + multiset{last};
    assert multiset(left + right) == multiset(left) + multiset(right);
    assert multiset(xs[..n]) == multiset(xs) - multiset{last};
  }

  // Append what is not there yet, one at a time.
  function Extended<T(==)>(seen: seq<T>, more: seq<T>): seq<T> {
    if more == [] then seen
    else
      var earlier := Extended(seen, more[..|more| - 1]);
      if more[|more| - 1] in earlier then earlier else earlier + [more[|more| - 1]]
  }

  ghost predicate NoRepeats<T>(xs: seq<T>) {
    forall i, j :: 0 <= i < j < |xs| ==> xs[i] != xs[j]
  }

  lemma {:induction false} ExtendedHolds<T>(seen: seq<T>, more: seq<T>, x: T)
    ensures x in Extended(seen, more) <==> x in seen || x in more
    ensures NoRepeats(seen) ==> NoRepeats(Extended(seen, more))
  {
    if more != [] {
      var n := |more| - 1;
      assert more == more[..n] + [more[n]];
      ExtendedHolds(seen, more[..n], x);
      ExtendedHolds(seen, more[..n], more[n]);
    }
  }

  // The positions of the elements `p` holds of.
  ghost function Where<T>(xs: seq<T>, p: T -> bool): set<nat> {
    set i: nat | i < |xs| && p(xs[i])
  }

  lemma NoneIn<T>(p: T -> bool)
    ensures Where([], p) == {}
  {
  }

  lemma OneMoreIn<T>(xs: seq<T>, p: T -> bool)
    requires xs != []
    ensures var n := |xs| - 1; |Where(xs, p)| == |Where(xs[..n], p)| + if p(xs[n]) then 1 else 0
  {
    var n: nat := |xs| - 1;
    assert Where(xs, p) == if p(xs[n]) then Where(xs[..n], p) + {n} else Where(xs[..n], p);
  }

  ghost function SumOf<T>(xs: seq<T>, f: T -> nat): nat {
    if xs == [] then 0 else SumOf(xs[..|xs| - 1], f) + f(xs[|xs| - 1])
  }
}
