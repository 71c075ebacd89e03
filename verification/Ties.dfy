/**
 A network on which detection meets a tie and moves the node all the same.
 */
module Ties {
  import opened Network
  import opened LocalMoving
  import opened CommunityNetwork
  import opened Community

  // Four edges of weight one: 0 to 1 and 2, and 4 to 1 and 3.
  const NET := Network([
    map[1 := 1.0, 2 := 1.0], map[0 := 1.0, 4 := 1.0], map[0 := 1.0], map[4 := 1.0], map[1 := 1.0, 3 := 1.0]],
    [2.0, 2.0, 1.0, 1.0, 2.0], 4.0)

  lemma NetIsValid()
    ensures ValidNetwork(NET)
  {
  }

  // What node `j` contributes to the gain of `p` in community `c`.
  function Term(labels: Labels, p: nat, c: nat, j: nat): real
    requires |labels| == 5 && p < 5 && j < 5
  {
    if j == p || labels[j] != c then 0.0
    else (if j in NET.adjacency[p] then 1.0 else 0.0) - NET.degree[p] * NET.degree[j] / 8.0
  }

  function GainOf(labels: Labels, p: nat, c: nat): real
    requires |labels| == 5 && p < 5
  {
    Term(labels, p, c, 0) + Term(labels, p, c, 1) + Term(labels, p, c, 2) + Term(labels, p, c, 3) + Term(labels, p, c, 4)
  }

  lemma GainIs(labels: Labels, p: nat, c: nat)
    requires ValidNetwork(NET) && |labels| == 5 && p < 5
    ensures Gain(NET, 1.0, labels, p, c) == GainOf(labels, p, c)
  {
    forall k: nat | k < 5
      ensures GainUpto(NET, 1.0, labels, p, c, k + 1) == GainUpto(NET, 1.0, labels, p, c, k) + Term(labels, p, c, k)
    {
      WeightIs(p, k);
    }
    assert GainUpto(NET, 1.0, labels, p, c, 1) == Term(labels, p, c, 0);
    assert GainUpto(NET, 1.0, labels, p, c, 2) == Term(labels, p, c, 0) + Term(labels, p, c, 1);
    assert GainUpto(NET, 1.0, labels, p, c, 3) == Term(labels, p, c, 0) + Term(labels, p, c, 1) + Term(labels, p, c, 2);
    assert GainUpto(NET, 1.0, labels, p, c, 4)
           == Term(labels, p, c, 0) + Term(labels, p, c, 1) + Term(labels, p, c, 2) + Term(labels, p, c, 3);
  }

  lemma WeightIs(p: nat, j: nat)
    requires p < 5 && j < 5
    ensures Weight(NET, p, j) == if j in NET.adjacency[p] then 1.0 else 0.0
  {
  }

  function KeyOf(labels: Labels, p: nat, c: nat): int
    requires |labels| == 5 && p < 5
  {
    if p != 0 && labels[0] == c then 0
    else if p != 1 && labels[1] == c then 1
    else if p != 2 && labels[2] == c then 2
    else if p != 3 && labels[3] == c then 3
    else if p != 4 && labels[4] == c then 4
    else -1
  }

  lemma KeyIs(labels: Labels, p: nat, c: nat)
    requires |labels| == 5 && p < 5
    ensures Key(labels, p, c) == KeyOf(labels, p, c)
  {
    FirstOtherIsFirst(labels, p, c, 0);
  }

  // Nothing the node is offered beats `b`.
  predicate Wins(labels: Labels, p: nat, b: nat, c: nat)
    requires |labels| == 5 && p < 5
  {
    GainOf(labels, p, c) < GainOf(labels, p, b)
    || (GainOf(labels, p, c) == GainOf(labels, p, b) && KeyOf(labels, p, b) <= KeyOf(labels, p, c))
  }

  lemma VisitIs(labels: Labels, p: nat, b: nat)
    requires ValidNetwork(NET) && ValidLabels(NET, labels) && p < 5
    requires b in Candidates(NET, labels, p) && forall c :: c in Candidates(NET, labels, p) ==> Wins(labels, p, b, c)
    ensures Best(NET, 1.0, labels, p) == b && Visit(NET, 1.0, labels, p) == labels[p := b]
  {
    hide GainOf, KeyOf, Gain, Key, Candidates;
    forall c | c in Candidates(NET, labels, p) ensures NoBetter(NET, 1.0, labels, p, c, b) {
      assert Wins(labels, p, b, c);
      GainIs(labels, p, b);
      GainIs(labels, p, c);
      KeyIs(labels, p, b);
      KeyIs(labels, p, c);
    }
    BestIsUnique(NET, 1.0, labels, p, b, Best(NET, 1.0, labels, p));
  }

  /**
   Every gain met on this network is a whole number of eighths, so that floating point computes it
   exactly and compares it as the real numbers do.
   */
  lemma GainsAreEighths(labels: Labels, p: nat, c: nat) returns (n: int)
    requires ValidNetwork(NET) && |labels| == 5 && p < 5
    ensures -80 <= n <= 80 && 8.0 * Gain(NET, 1.0, labels, p, c) == n as real
  {
    hide Gain;
    GainIs(labels, p, c);
    var n0, n1, n2, n3, n4 := Eighths(labels, p, c, 0), Eighths(labels, p, c, 1), Eighths(labels, p, c, 2), Eighths(labels, p, c, 3),
                              Eighths(labels, p, c, 4);
    TermIsEighths(labels, p, c, 0);
    TermIsEighths(labels, p, c, 1);
    TermIsEighths(labels, p, c, 2);
    TermIsEighths(labels, p, c, 3);
    TermIsEighths(labels, p, c, 4);
    hide Eighths, Term;
    n := n0 + n1 + n2 + n3 + n4;
    assert n as real == n0 as real + n1 as real + n2 as real + n3 as real + n4 as real;
    assert 8.0 * GainOf(labels, p, c) == n as real;
  }

  const DEGREES: seq<int> := [2, 2, 1, 1, 2]

  function Eighths(labels: Labels, p: nat, c: nat, j: nat): (n: int)
    requires |labels| == 5 && p < 5 && j < 5
    ensures -16 <= n <= 16
  {
    if j == p || labels[j] != c then 0 else (if j in NET.adjacency[p] then 8 else 0) - DEGREES[p] * DEGREES[j]
  }

  lemma TermIsEighths(labels: Labels, p: nat, c: nat, j: nat)
    requires |labels| == 5 && p < 5 && j < 5
    ensures 8.0 * Term(labels, p, c, j) == Eighths(labels, p, c, j) as real
  {
    assert NET.degree[p] == DEGREES[p] as real && NET.degree[j] == DEGREES[j] as real;
  }

  lemma FirstVisit()
    requires ValidNetwork(NET)
    ensures Best(NET, 1.0, [0, 1, 2, 3, 4], 0) == 2 && Visit(NET, 1.0, [0, 1, 2, 3, 4], 0) == [2, 1, 2, 3, 4]
  {
    var labels := [0, 1, 2, 3, 4];
    assert 1 in NET.adjacency[0] && 2 in NET.adjacency[0];
    assert labels[0] in Candidates(NET, labels, 0) && labels[1] in Candidates(NET, labels, 0) && labels[2] in Candidates(NET, labels, 0);
    assert Candidates(NET, labels, 0) == {0, 1, 2};
    forall c | c in Candidates(NET, labels, 0) ensures Wins(labels, 0, 2, c) {
    }
    VisitIs(labels, 0, 2);
    assert labels[0 := 2] == [2, 1, 2, 3, 4];
  }

  lemma SecondVisit()
    requires ValidNetwork(NET)
    ensures Best(NET, 1.0, [2, 1, 2, 3, 4], 1) == 4 && Visit(NET, 1.0, [2, 1, 2, 3, 4], 1) == [2, 4, 2, 3, 4]
  {
    var labels := [2, 1, 2, 3, 4];
    assert 0 in NET.adjacency[1] && 4 in NET.adjacency[1];
    assert labels[1] in Candidates(NET, labels, 1) && labels[0] in Candidates(NET, labels, 1) && labels[4] in Candidates(NET, labels, 1);
    assert Candidates(NET, labels, 1) == {1, 2, 4};
    forall c | c in Candidates(NET, labels, 1) ensures Wins(labels, 1, 4, c) {
    }
    VisitIs(labels, 1, 4);
    assert labels[1 := 4] == [2, 4, 2, 3, 4];
  }

  lemma ThirdVisit()
    requires ValidNetwork(NET)
    ensures Best(NET, 1.0, [2, 4, 2, 3, 4], 2) == 2 && Visit(NET, 1.0, [2, 4, 2, 3, 4], 2) == [2, 4, 2, 3, 4]
  {
    var labels := [2, 4, 2, 3, 4];
    assert 0 in NET.adjacency[2];
    assert labels[2] in Candidates(NET, labels, 2) && labels[0] in Candidates(NET, labels, 2);
    assert Candidates(NET, labels, 2) == {2};
    forall c | c in Candidates(NET, labels, 2) ensures Wins(labels, 2, 2, c) {
    }
    VisitIs(labels, 2, 2);
    assert labels[2 := 2] == [2, 4, 2, 3, 4];
  }

  lemma FourthVisit()
    requires ValidNetwork(NET)
    ensures Best(NET, 1.0, [2, 4, 2, 3, 4], 3) == 4 && Visit(NET, 1.0, [2, 4, 2, 3, 4], 3) == [2, 4, 2, 4, 4]
  {
    var labels := [2, 4, 2, 3, 4];
    assert 4 in NET.adjacency[3];
    assert labels[3] in Candidates(NET, labels, 3) && labels[4] in Candidates(NET, labels, 3);
    assert Candidates(NET, labels, 3) == {3, 4};
    forall c | c in Candidates(NET, labels, 3) ensures Wins(labels, 3, 4, c) {
    }
    VisitIs(labels, 3, 4);
    assert labels[3 := 4] == [2, 4, 2, 4, 4];
  }

  lemma FifthVisit()
    requires ValidNetwork(NET)
    ensures Best(NET, 1.0, [2, 4, 2, 4, 4], 4) == 4 && Visit(NET, 1.0, [2, 4, 2, 4, 4], 4) == [2, 4, 2, 4, 4]
  {
    var labels := [2, 4, 2, 4, 4];
    assert 1 in NET.adjacency[4] && 3 in NET.adjacency[4];
    assert labels[4] in Candidates(NET, labels, 4) && labels[1] in Candidates(NET, labels, 4) && labels[3] in Candidates(NET, labels, 4);
    assert Candidates(NET, labels, 4) == {4};
    forall c | c in Candidates(NET, labels, 4) ensures Wins(labels, 4, 4, c) {
    }
    VisitIs(labels, 4, 4);
    assert labels[4 := 4] == [2, 4, 2, 4, 4];
  }

  lemma NodeZeroStays()
    requires ValidNetwork(NET)
    ensures Best(NET, 1.0, [2, 4, 2, 4, 4], 0) == 2 && Visit(NET, 1.0, [2, 4, 2, 4, 4], 0) == [2, 4, 2, 4, 4]
  {
    var labels := [2, 4, 2, 4, 4];
    assert 1 in NET.adjacency[0] && 2 in NET.adjacency[0];
    assert labels[0] in Candidates(NET, labels, 0) && labels[1] in Candidates(NET, labels, 0) && labels[2] in Candidates(NET, labels, 0);
    assert Candidates(NET, labels, 0) == {2, 4};
    forall c | c in Candidates(NET, labels, 0) ensures Wins(labels, 0, 2, c) {
    }
    VisitIs(labels, 0, 2);
    assert labels[0 := 2] == [2, 4, 2, 4, 4];
  }

  lemma NodeOneMoves()
    requires ValidNetwork(NET)
    ensures Best(NET, 1.0, [2, 4, 2, 4, 4], 1) == 2 && Visit(NET, 1.0, [2, 4, 2, 4, 4], 1) == [2, 2, 2, 4, 4]
  {
    var labels := [2, 4, 2, 4, 4];
    assert 0 in NET.adjacency[1] && 4 in NET.adjacency[1];
    assert labels[1] in Candidates(NET, labels, 1) && labels[0] in Candidates(NET, labels, 1) && labels[4] in Candidates(NET, labels, 1);
    assert Candidates(NET, labels, 1) == {2, 4};
    forall c | c in Candidates(NET, labels, 1) ensures Wins(labels, 1, 2, c) {
    }
    VisitIs(labels, 1, 2);
    assert labels[1 := 2] == [2, 2, 2, 4, 4];
  }

  lemma TheFirstPass()
    requires ValidNetwork(NET)
    ensures Passes(NET, 1.0, Identity(5), 1) == [2, 4, 2, 4, 4]
  {
    hide Visit, Best;
    assert Identity(5) == [0, 1, 2, 3, 4];
    FirstVisit();
    SecondVisit();
    ThirdVisit();
    FourthVisit();
    FifthVisit();
    assert VisitFirst(NET, 1.0, [0, 1, 2, 3, 4], 1) == [2, 1, 2, 3, 4];
    assert VisitFirst(NET, 1.0, [0, 1, 2, 3, 4], 2) == [2, 4, 2, 3, 4];
    assert VisitFirst(NET, 1.0, [0, 1, 2, 3, 4], 3) == [2, 4, 2, 3, 4];
    assert VisitFirst(NET, 1.0, [0, 1, 2, 3, 4], 4) == [2, 4, 2, 4, 4];
    assert Passes(NET, 1.0, [0, 1, 2, 3, 4], 0) == [0, 1, 2, 3, 4];
  }

  /**
   In the second pass from singletons, node 1 is offered a community no better than its own, and moves
   to it: modularity stays what it was.
   */
  lemma ATieMovesANode()
    ensures ValidNetwork(NET) && ValidLabels(NET, Identity(5))
    ensures var met := VisitFirst(NET, 1.0, Passes(NET, 1.0, Identity(5), 1), 1);
            && met == [2, 4, 2, 4, 4] && 2 in Candidates(NET, met, 1)
            && Gain(NET, 1.0, met, 1, 2) == Gain(NET, 1.0, met, 1, met[1]) == 0.25
            && Best(NET, 1.0, met, 1) == 2
            && Modularity(NET, 1.0, Visit(NET, 1.0, met, 1)) == Modularity(NET, 1.0, met)
            && Visit(NET, 1.0, met, 1) != met
  {
    hide Visit, Best, Modularity, Gain, Passes;
    NetIsValid();
    TheFirstPass();
    NodeZeroStays();
    NodeOneMoves();
    var met := [2, 4, 2, 4, 4];
    assert VisitFirst(NET, 1.0, met, 1) == met;
    assert 0 in NET.adjacency[1] && met[0] in Candidates(NET, met, 1);
    GainIs(met, 1, 2);
    GainIs(met, 1, 4);
    MoveChangesModularity(NET, 1.0, met, 1, 2);
    assert met[1 := 2] == [2, 2, 2, 4, 4];
  }

  // ----- the network is built from those four edges

  const LINKS := [Link(0, 1, 1.0), Link(0, 2, 1.0), Link(1, 4, 1.0), Link(3, 4, 1.0)]

  lemma OneMoreLink(net: Network, links: seq<Link>, k: nat)
    requires k < |links|
    ensures AddLinks(net, links[..k + 1]) == AddLink(AddLinks(net, links[..k]), links[k])
  {
    hide AddLink;
    assert links[..k + 1][..k] == links[..k];
  }

  const AFTER_1 := Network([map[1 := 1.0], map[0 := 1.0], map[], map[], map[]], [1.0, 1.0, 0.0, 0.0, 0.0], 1.0)

  const AFTER_2 := Network([map[1 := 1.0, 2 := 1.0], map[0 := 1.0], map[0 := 1.0], map[], map[]], [2.0, 1.0, 1.0, 0.0, 0.0], 2.0)

  const AFTER_3 := Network([map[1 := 1.0, 2 := 1.0], map[0 := 1.0, 4 := 1.0], map[0 := 1.0], map[], map[1 := 1.0]], [2.0, 2.0, 1.0, 0.0, 1.0], 3.0)

  lemma Link1IsAdded()
    ensures AddLink(Network([map[], map[], map[], map[], map[]], [0.0, 0.0, 0.0, 0.0, 0.0], 0.0), LINKS[0]) == AFTER_1
  {
  }

  lemma Link2IsAdded()
    ensures AddLink(AFTER_1, LINKS[1]) == AFTER_2
  {
  }

  lemma Link3IsAdded()
    ensures AddLink(AFTER_2, LINKS[2]) == AFTER_3
  {
  }

  lemma Link4IsAdded()
    ensures AddLink(AFTER_3, LINKS[3]) == NET
  {
  }

  lemma TheEdgesBuildTheNetwork()
    ensures AddLinks(Unlinked(5), LINKS) == NET
  {
    hide AddLinks, AddLink;
    NoLinks();
    OneMoreLink(Unlinked(5), LINKS, 0);
    Link1IsAdded();
    OneMoreLink(Unlinked(5), LINKS, 1);
    Link2IsAdded();
    OneMoreLink(Unlinked(5), LINKS, 2);
    Link3IsAdded();
    OneMoreLink(Unlinked(5), LINKS, 3);
    Link4IsAdded();
    assert LINKS[..4] == LINKS;
  }

  lemma NoLinks()
    ensures AddLinks(Unlinked(5), LINKS[..0]) == Network([map[], map[], map[], map[], map[]], [0.0, 0.0, 0.0, 0.0, 0.0], 0.0)
  {
    assert LINKS[..0] == [];
  }
}
