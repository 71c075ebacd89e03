/**
 Repeated passes: every pass that moves a node strictly improves the potential, so no
 partition comes back and the passes end on their own, without a bound on their number.
 */
module Convergence {
  import opened Network
  import opened LocalMoving

  lemma {:induction false} VisitsImprove(net: Network, resolution: real, labels: Labels, k: nat)
    requires ValidNetwork(net) && ValidLabels(net, labels) && k <= |labels|
    ensures var later := VisitFirst(net, resolution, labels, k);
            later == labels || Better(net, resolution, labels, later)
  {
    if k > 0 {
      var before := VisitFirst(net, resolution, labels, k - 1);
      VisitsImprove(net, resolution, labels, k - 1);
      if Best(net, resolution, before, k - 1) != before[k - 1] {
        MovingIsBetter(net, resolution, before, k - 1);
        if before != labels {
          BetterIsTransitive(net, resolution, labels, before, VisitFirst(net, resolution, labels, k));
        }
      } else {
        assert before[k - 1 := before[k - 1]] == before;
      }
    }
  }

  // A pass leaves the labels alone or strictly improves them.
  lemma PassImproves(net: Network, resolution: real, labels: Labels)
    requires ValidNetwork(net) && ValidLabels(net, labels)
    ensures OnePass(net, resolution, labels) == labels || Better(net, resolution, labels, OnePass(net, resolution, labels))
    ensures Better(net, resolution, labels, OnePass(net, resolution, labels)) ==> !SamePartition(labels, OnePass(net, resolution, labels))
  {
    VisitsImprove(net, resolution, labels, |labels|);
    if Better(net, resolution, labels, OnePass(net, resolution, labels)) {
      BetterIsAnotherPartition(net, resolution, labels, OnePass(net, resolution, labels));
    }
  }

  lemma {:induction false} PassesImprove(net: Network, resolution: real, labels: Labels, i: nat, j: nat)
    requires ValidNetwork(net) && ValidLabels(net, labels) && i <= j
    ensures var a, b := Passes(net, resolution, labels, i), Passes(net, resolution, labels, j);
            a == b || Better(net, resolution, a, b)
    decreases j
  {
    if i < j {
      PassesImprove(net, resolution, labels, i, j - 1);
      var a, b := Passes(net, resolution, labels, i), Passes(net, resolution, labels, j - 1);
      PassImproves(net, resolution, b);
      if a != b && OnePass(net, resolution, b) != b {
        BetterIsTransitive(net, resolution, a, b, OnePass(net, resolution, b));
      }
    }
  }

  /** A pass that moves a node never brings back a partition seen before it. */
  lemma NoPartitionComesBack(net: Network, resolution: real, labels: Labels, i: nat, j: nat)
    requires ValidNetwork(net) && ValidLabels(net, labels) && i < j
    requires Passes(net, resolution, labels, j) != Passes(net, resolution, labels, j - 1)
    ensures !SamePartition(Passes(net, resolution, labels, i), Passes(net, resolution, labels, j))
  {
    var a, b, c := Passes(net, resolution, labels, i), Passes(net, resolution, labels, j - 1), Passes(net, resolution, labels, j);
    PassesImprove(net, resolution, labels, i, j - 1);
    PassImproves(net, resolution, b);
    if a != b {
      BetterIsTransitive(net, resolution, a, b, c);
    }
    BetterIsAnotherPartition(net, resolution, a, c);
  }

  // ----- the passes end

  // Every way to label `k` nodes with labels below `n`.
  ghost function Labellings(n: nat, k: nat): set<Labels> {
    if k == 0 then {[]}
    else set shorter, c: nat | shorter in Labellings(n, k - 1) && c < n :: shorter + [c]
  }

  lemma {:induction false} LabellingsAreAll(n: nat, k: nat, labels: Labels)
    requires |labels| == k && forall i :: 0 <= i < k ==> labels[i] < n
    ensures labels in Labellings(n, k)
  {
    if k > 0 {
      LabellingsAreAll(n, k - 1, labels[..k - 1]);
      assert labels == labels[..k - 1] + [labels[k - 1]];
    }
  }

  ghost predicate EachPassMoves(net: Network, resolution: real, labels: Labels, n: nat)
    requires ValidNetwork(net) && ValidLabels(net, labels)
  {
    forall i :: 0 <= i < n ==> Passes(net, resolution, labels, i + 1) != Passes(net, resolution, labels, i)
  }

  ghost predicate ReachedWithin(net: Network, resolution: real, labels: Labels, n: nat, l: Labels)
    requires ValidNetwork(net) && ValidLabels(net, labels)
  {
    exists i: nat :: i <= n && l == Passes(net, resolution, labels, i)
  }

  lemma NotSeenBefore(net: Network, resolution: real, labels: Labels, i: nat, n: nat)
    requires ValidNetwork(net) && ValidLabels(net, labels) && i < n && EachPassMoves(net, resolution, labels, n)
    ensures Passes(net, resolution, labels, i) != Passes(net, resolution, labels, n)
  {
    var last := Passes(net, resolution, labels, n);
    assert Passes(net, resolution, labels, n - 1 + 1) != Passes(net, resolution, labels, n - 1);
    NoPartitionComesBack(net, resolution, labels, i, n);
    assert SamePartition(last, last);
  }

  // While every pass moves somebody, the labellings reached are all different.
  lemma {:induction false} VisitedBy(net: Network, resolution: real, labels: Labels, n: nat) returns (seen: set<Labels>)
    requires ValidNetwork(net) && ValidLabels(net, labels) && EachPassMoves(net, resolution, labels, n)
    ensures |seen| == n + 1 && seen <= Labellings(|labels|, |labels|)
    ensures forall l :: l in seen ==> ReachedWithin(net, resolution, labels, n, l)
  {
    hide Passes, SamePartition, Labellings, ValidNetwork;
    var last := Passes(net, resolution, labels, n);
    LabellingsAreAll(|labels|, |labels|, last);
    if n == 0 {
      seen := {last};
    } else {
      var before := VisitedBy(net, resolution, labels, n - 1);
      forall i | 0 <= i < n ensures Passes(net, resolution, labels, i) != last {
        NotSeenBefore(net, resolution, labels, i, n);
      }
      seen := before + {last};
    }
    forall l | l in seen ensures ReachedWithin(net, resolution, labels, n, l) {
      if l == last {
        assert l == Passes(net, resolution, labels, n);
      }
    }
  }

  lemma SubsetIsSmaller(a: set<Labels>, b: set<Labels>)
    requires a <= b
    ensures |a| <= |b|
  {
    assert b == a + (b - a);
  }

  /** Some pass, among as many as there are labellings, moves nobody: no bound on passes is needed. */
  lemma PassesEnd(net: Network, resolution: real, labels: Labels) returns (n: nat)
    requires ValidNetwork(net) && ValidLabels(net, labels)
    ensures n < |Labellings(|labels|, |labels|)|
    ensures OnePass(net, resolution, Passes(net, resolution, labels, n)) == Passes(net, resolution, labels, n)
  {
    var bound := |Labellings(|labels|, |labels|)|;
    if EachPassMoves(net, resolution, labels, bound) {
      var seen := VisitedBy(net, resolution, labels, bound);
      SubsetIsSmaller(seen, Labellings(|labels|, |labels|));
      assert false;
    } else {
      n :| n < bound && Passes(net, resolution, labels, n + 1) == Passes(net, resolution, labels, n);
    }
  }

  // ----- where they end

  lemma {:induction false} UnmovedSoFar(net: Network, resolution: real, labels: Labels, k: nat)
    requires ValidNetwork(net) && ValidLabels(net, labels) && k <= |labels|
    requires OnePass(net, resolution, labels) == labels
    ensures VisitFirst(net, resolution, labels, k) == labels
    decreases |labels| - k
  {
    if k < |labels| {
      UnmovedSoFar(net, resolution, labels, k + 1);
      var sofar := VisitFirst(net, resolution, labels, k);
      VisitsImprove(net, resolution, labels, k);
      if sofar != labels {
        if Best(net, resolution, sofar, k) != sofar[k] {
          MovingIsBetter(net, resolution, sofar, k);
          BetterIsTransitive(net, resolution, labels, sofar, labels);
        }
        BetterIsAnotherPartition(net, resolution, labels, labels);
      }
    }
  }

  /** After a pass that moved nobody, no node gains by switching to a neighbour's community. */
  lemma NobodyGainsBySwitching(net: Network, resolution: real, labels: Labels, p: nat, q: nat)
    requires ValidNetwork(net) && ValidLabels(net, labels) && p < |labels| && q in net.adjacency[p]
    requires OnePass(net, resolution, labels) == labels
    ensures Modularity(net, resolution, labels[p := labels[q]]) <= Modularity(net, resolution, labels)
  {
    UnmovedSoFar(net, resolution, labels, p);
    UnmovedSoFar(net, resolution, labels, p + 1);
    assert Best(net, resolution, labels, p) == labels[p];
    assert NoBetter(net, resolution, labels, p, labels[q], labels[p]);
    MoveChangesModularity(net, resolution, labels, p, labels[q]);
  }

  // ----- ties

  // With nothing better than staying, a node moves exactly when an equally good community has an
  // earlier smallest member than the community it leaves behind; an emptied one has none to beat.
  lemma TieMovesExactlyWhen(net: Network, resolution: real, labels: Labels, p: nat)
    requires ValidNetwork(net) && ValidLabels(net, labels) && p < |labels|
    requires forall c :: c in Candidates(net, labels, p) ==> Gain(net, resolution, labels, p, c) <= Gain(net, resolution, labels, p, labels[p])
    ensures Best(net, resolution, labels, p) != labels[p] <==>
            exists c :: c in Candidates(net, labels, p)
                        && Gain(net, resolution, labels, p, c) == Gain(net, resolution, labels, p, labels[p])
                        && Key(labels, p, c) < Key(labels, p, labels[p])
  {
    var b := Best(net, resolution, labels, p);
    assert NoBetter(net, resolution, labels, p, labels[p], b);
    if b != labels[p] && Key(labels, p, b) == Key(labels, p, labels[p]) {
      KeysAreDistinct(net, labels, p, b, labels[p]);
    }
    if c :| c in Candidates(net, labels, p) && Gain(net, resolution, labels, p, c) == Gain(net, resolution, labels, p, labels[p])
            && Key(labels, p, c) < Key(labels, p, labels[p]) {
      assert NoBetter(net, resolution, labels, p, c, b);
    }
  }
}
