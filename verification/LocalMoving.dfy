/**
 Local moving as a function of the labels: which community a node prefers, one pass over
 all nodes, and the potential that every move improves.
 */
module LocalMoving {
  import opened Network

  // ----- candidates and the preferred one

  // The smallest member of `c` at or after `from`, other than `p`; -1 when there is none.
  function FirstOther(labels: Labels, p: nat, c: nat, from: nat): int
    requires from <= |labels|
    decreases |labels| - from
  {
    if from == |labels| then -1
    else if from != p && labels[from] == c then from
    else FirstOther(labels, p, c, from + 1)
  }

  // What candidates are ordered by: their smallest member once `p` has left its community.
  function Key(labels: Labels, p: nat, c: nat): int {
    FirstOther(labels, p, c, 0)
  }

  // The communities offered to `p`: its own and its neighbours'.
  function Candidates(net: Network, labels: Labels, p: nat): set<nat>
    requires ValidNetwork(net) && |labels| == |net.adjacency| && p < |labels|
  {
    {labels[p]} + set q | q in net.adjacency[p] :: labels[q]
  }

  // `c` loses to `b` on gain, or ties and comes no earlier.
  ghost predicate NoBetter(net: Network, resolution: real, labels: Labels, p: nat, c: nat, b: nat)
    requires ValidNetwork(net) && |labels| == |net.adjacency| && p < |labels|
  {
    var x, y := Gain(net, resolution, labels, p, c), Gain(net, resolution, labels, p, b);
    x < y || (x == y && Key(labels, p, b) <= Key(labels, p, c))
  }

  ghost predicate IsBest(net: Network, resolution: real, labels: Labels, p: nat, b: nat)
    requires ValidNetwork(net) && |labels| == |net.adjacency| && p < |labels|
  {
    b in Candidates(net, labels, p) && forall c :: c in Candidates(net, labels, p) ==> NoBetter(net, resolution, labels, p, c, b)
  }

  lemma {:induction false} FirstOtherIsFirst(labels: Labels, p: nat, c: nat, from: nat)
    requires from <= |labels|
    ensures var f := FirstOther(labels, p, c, from);
            if f == -1 then forall j :: from <= j < |labels| && j != p ==> labels[j] != c
            else from <= f < |labels| && f != p && labels[f] == c && forall j :: from <= j < f && j != p ==> labels[j] != c
    decreases |labels| - from
  {
    if from < |labels| {
      FirstOtherIsFirst(labels, p, c, from + 1);
    }
  }

  // Two candidates with the same key are the same: a community is known by its smallest member.
  lemma KeysAreDistinct(net: Network, labels: Labels, p: nat, b: nat, c: nat)
    requires ValidNetwork(net) && ValidLabels(net, labels) && p < |labels|
    requires b in Candidates(net, labels, p) && c in Candidates(net, labels, p) && Key(labels, p, b) == Key(labels, p, c)
    ensures b == c
  {
    FirstOtherIsFirst(labels, p, b, 0);
    FirstOtherIsFirst(labels, p, c, 0);
  }

  lemma BestIsUnique(net: Network, resolution: real, labels: Labels, p: nat, b: nat, c: nat)
    requires ValidNetwork(net) && ValidLabels(net, labels) && p < |labels|
    requires IsBest(net, resolution, labels, p, b) && IsBest(net, resolution, labels, p, c)
    ensures b == c
  {
    assert NoBetter(net, resolution, labels, p, b, c) && NoBetter(net, resolution, labels, p, c, b);
    KeysAreDistinct(net, labels, p, b, c);
  }

  lemma {:induction false} SomeCandidateIsBest(net: Network, resolution: real, labels: Labels, p: nat, among: set<nat>) returns (b: nat)
    requires ValidNetwork(net) && |labels| == |net.adjacency| && p < |labels| && among != {}
    ensures b in among && forall c :: c in among ==> NoBetter(net, resolution, labels, p, c, b)
    decreases |among|
  {
    var c :| c in among;
    var others := among - {c};
    assert among == others + {c};
    if others == {} {
      b := c;
    } else {
      b := SomeCandidateIsBest(net, resolution, labels, p, others);
      if !NoBetter(net, resolution, labels, p, c, b) {
        b := c;
      }
    }
  }

  lemma ABestExists(net: Network, resolution: real, labels: Labels, p: nat)
    requires ValidNetwork(net) && |labels| == |net.adjacency| && p < |labels|
    ensures exists b: nat :: IsBest(net, resolution, labels, p, b)
  {
    var b := SomeCandidateIsBest(net, resolution, labels, p, Candidates(net, labels, p));
    assert IsBest(net, resolution, labels, p, b);
  }

  ghost function Best(net: Network, resolution: real, labels: Labels, p: nat): (b: nat)
    requires ValidNetwork(net) && ValidLabels(net, labels) && p < |labels|
    ensures IsBest(net, resolution, labels, p, b) && b < |labels|
  {
    ABestExists(net, resolution, labels, p);
    var b: nat :| IsBest(net, resolution, labels, p, b);
    b
  }

  // ----- one pass, and passes

  ghost function Visit(net: Network, resolution: real, labels: Labels, p: nat): (r: Labels)
    requires ValidNetwork(net) && ValidLabels(net, labels) && p < |labels|
    ensures ValidLabels(net, r)
  {
    labels[p := Best(net, resolution, labels, p)]
  }

  // Nodes 0 to `k`, in order.
  ghost function VisitFirst(net: Network, resolution: real, labels: Labels, k: nat): (r: Labels)
    requires ValidNetwork(net) && ValidLabels(net, labels) && k <= |labels|
    ensures ValidLabels(net, r)
  {
    if k == 0 then labels else Visit(net, resolution, VisitFirst(net, resolution, labels, k - 1), k - 1)
  }

  ghost function OnePass(net: Network, resolution: real, labels: Labels): (r: Labels)
    requires ValidNetwork(net) && ValidLabels(net, labels)
    ensures ValidLabels(net, r)
  {
    VisitFirst(net, resolution, labels, |labels|)
  }

  ghost function Passes(net: Network, resolution: real, labels: Labels, n: nat): (r: Labels)
    requires ValidNetwork(net) && ValidLabels(net, labels)
    ensures ValidLabels(net, r)
  {
    if n == 0 then labels else OnePass(net, resolution, Passes(net, resolution, labels, n - 1))
  }

  // ----- the potential

  // The smallest member of `i`'s own community.
  function Leader(labels: Labels, i: nat): nat
    requires i < |labels|
  {
    LeaderFrom(labels, i, 0)
  }

  function LeaderFrom(labels: Labels, i: nat, from: nat): nat
    requires from <= i < |labels|
    decreases i - from
  {
    if labels[from] == labels[i] then from else LeaderFrom(labels, i, from + 1)
  }

  lemma {:induction false} LeaderFromIsFirst(labels: Labels, i: nat, from: nat)
    requires from <= i < |labels|
    ensures var f := LeaderFrom(labels, i, from);
            from <= f <= i && labels[f] == labels[i] && forall j :: from <= j < f ==> labels[j] != labels[i]
    decreases i - from
  {
    if labels[from] != labels[i] {
      LeaderFromIsFirst(labels, i, from + 1);
    }
  }

  lemma LeaderIs(labels: Labels, i: nat, f: nat)
    requires f <= i < |labels| && labels[f] == labels[i] && forall j :: 0 <= j < f ==> labels[j] != labels[i]
    ensures Leader(labels, i) == f
  {
    LeaderFromIsFirst(labels, i, 0);
  }

  // The leaders of `a` come before those of `b`: they agree up to `k`, where `a` leads with a smaller node.
  ghost predicate LeadsAt(a: Labels, b: Labels, k: nat) {
    && |a| == |b| && k < |a|
    && (forall j :: 0 <= j < k ==> Leader(a, j) == Leader(b, j))
    && Leader(a, k) < Leader(b, k)
  }

  ghost predicate LeadsBefore(a: Labels, b: Labels) {
    exists k: nat :: LeadsAt(a, b, k)
  }

  // `later` is strictly better: more modularity, or as much and earlier leaders.
  ghost predicate Better(net: Network, resolution: real, earlier: Labels, later: Labels)
    requires ValidNetwork(net) && |earlier| == |later| == |net.adjacency|
  {
    var x, y := Modularity(net, resolution, earlier), Modularity(net, resolution, later);
    x < y || (x == y && LeadsBefore(later, earlier))
  }

  lemma LeadsBeforeIsTransitive(a: Labels, b: Labels, c: Labels)
    requires LeadsBefore(a, b) && LeadsBefore(b, c)
    ensures LeadsBefore(a, c)
  {
    var k: nat :| LeadsAt(a, b, k);
    var l: nat :| LeadsAt(b, c, l);
    assert LeadsAt(a, c, if k < l then k else l);
  }

  lemma BetterIsTransitive(net: Network, resolution: real, a: Labels, b: Labels, c: Labels)
    requires ValidNetwork(net) && |a| == |b| == |c| == |net.adjacency|
    requires Better(net, resolution, a, b) && Better(net, resolution, b, c)
    ensures Better(net, resolution, a, c)
  {
    if LeadsBefore(c, b) && LeadsBefore(b, a) {
      LeadsBeforeIsTransitive(c, b, a);
    }
  }

  // A better labelling is a different partition, not merely other names for the same one.
  lemma BetterIsAnotherPartition(net: Network, resolution: real, a: Labels, b: Labels)
    requires ValidNetwork(net) && |a| == |b| == |net.adjacency| && Better(net, resolution, a, b)
    ensures !SamePartition(a, b)
  {
    if SamePartition(a, b) {
      SamePartitionSameRows(net, resolution, a, b, |a|);
      var k: nat :| LeadsAt(b, a, k);
      LeaderFromIsFirst(a, k, 0);
      LeaderFromIsFirst(b, k, 0);
      assert false;
    }
  }

  // On a tie, the node joins a community with a smaller smallest member, and leaders come earlier.
  lemma TieLeadsEarlier(labels: Labels, p: nat, b: nat)
    requires p < |labels| && b != labels[p]
    requires 0 <= Key(labels, p, b) < Key(labels, p, labels[p])
    ensures LeadsBefore(labels[p := b], labels)
  {
    var c, moved := labels[p], labels[p := b];
    FirstOtherIsFirst(labels, p, b, 0);
    FirstOtherIsFirst(labels, p, c, 0);
    var first: nat := Key(labels, p, b);
    var k := if first < p then p else first;
    forall j | 0 <= j < k ensures Leader(moved, j) == Leader(labels, j) {
      LeaderFromIsFirst(labels, j, 0);
      if j == p {
        LeaderIs(moved, j, p);
        LeaderIs(labels, j, p);
      } else {
        LeaderIs(moved, j, Leader(labels, j));
      }
    }
    LeaderIs(moved, k, if first < p then first else p);
    LeaderIs(labels, k, if first < p && p < Key(labels, p, c) then p else if first < p then Key(labels, p, c) else first);
    assert LeadsAt(moved, labels, k);
  }

  // Every visit that moves a node makes the labelling better: no move lowers modularity, and
  // one that leaves it equal brings the leaders forward.
  lemma MovingIsBetter(net: Network, resolution: real, labels: Labels, p: nat)
    requires ValidNetwork(net) && ValidLabels(net, labels) && p < |labels|
    requires Best(net, resolution, labels, p) != labels[p]
    ensures Better(net, resolution, labels, Visit(net, resolution, labels, p))
  {
    var b, c := Best(net, resolution, labels, p), labels[p];
    MoveChangesModularity(net, resolution, labels, p, b);
    assert NoBetter(net, resolution, labels, p, c, b);
    if Gain(net, resolution, labels, p, b) == Gain(net, resolution, labels, p, c) {
      var q :| q in net.adjacency[p] && labels[q] == b;
      FirstOtherIsFirst(labels, p, b, 0);
      if Key(labels, p, b) == Key(labels, p, c) {
        KeysAreDistinct(net, labels, p, b, c);
      }
      TieLeadsEarlier(labels, p, b);
    }
  }
}
