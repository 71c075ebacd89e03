/**
 The network, its modularity and the communities found in it, in terms of the edges the caller
 listed: which ones join two nodes, and what they weigh.
 */
module EdgeSums {
  import opened Sequences
  import opened Domain
  import opened Network
  import opened LocalMoving
  import opened Convergence
  import opened CommunityPass
  import opened CommunityNetwork
  import opened Community

  // ----- sums over the edges

  ghost predicate Joins(l: Link, i: nat, j: nat) {
    (l.left == i && l.right == j) || (l.left == j && l.right == i)
  }

  ghost predicate Joined(links: seq<Link>, i: nat, j: nat) {
    exists l :: l in links && Joins(l, i, j)
  }

  // The summed weight of the links joining `i` and `j`.
  ghost function WeightBetween(links: seq<Link>, i: nat, j: nat): real {
    if links == [] then 0.0
    else
      var l := links[|links| - 1];
      WeightBetween(links[..|links| - 1], i, j) + if Joins(l, i, j) then l.weight else 0.0
  }

  // The summed weight of the link ends at `i`: a loop has two there.
  ghost function WeightAt(links: seq<Link>, i: nat): real {
    if links == [] then 0.0
    else
      var l := links[|links| - 1];
      WeightAt(links[..|links| - 1], i) + (if l.left == i then l.weight else 0.0) + (if l.right == i then l.weight else 0.0)
  }

  ghost function TotalWeight(links: seq<Link>): real {
    if links == [] then 0.0 else TotalWeight(links[..|links| - 1]) + links[|links| - 1].weight
  }

  // ----- what the network holds

  // Nodes are neighbours when some link joins them, and then as heavily as all that do together.
  ghost predicate IsNetworkOf(net: Network, n: nat, links: seq<Link>) {
    && |net.adjacency| == n && |net.degree| == n && net.total == TotalWeight(links)
    && (forall i: nat :: i < n ==> net.degree[i] == WeightAt(links, i))
    && (forall i: nat, j: nat :: i < n ==> (j in net.adjacency[i] <==> i != j && Joined(links, i, j)))
    && (forall i: nat, j: nat :: i < n && j in net.adjacency[i] ==> net.adjacency[i][j] == WeightBetween(links, i, j))
  }

  lemma {:induction false} NoneJoins(links: seq<Link>, i: nat, j: nat)
    requires !Joined(links, i, j)
    ensures WeightBetween(links, i, j) == 0.0
  {
    if links != [] {
      var k := |links| - 1;
      assert links[k] in links;
      forall l | l in links[..k] ensures !Joins(l, i, j) {
        assert l in links;
      }
      NoneJoins(links[..k], i, j);
    }
  }

  lemma JoinedByOneMore(links: seq<Link>, i: nat, j: nat)
    requires links != []
    ensures Joined(links, i, j) <==> Joined(links[..|links| - 1], i, j) || Joins(links[|links| - 1], i, j)
  {
    var k := |links| - 1;
    assert links == links[..k] + [links[k]];
    if Joins(links[k], i, j) {
      assert links[k] in links;
    }
    if Joined(links[..k], i, j) {
      var l :| l in links[..k] && Joins(l, i, j);
      assert l in links;
    }
  }

  /**
   The network holds what the links say: two nodes are neighbours exactly when some link joins them,
   duplicates add up, every link counts at both its ends, and all of them make the total.
   */
  lemma {:induction false} NetworkIsItsLinks(n: nat, links: seq<Link>)
    ensures IsNetworkOf(AddLinks(Unlinked(n), links), n, links)
  {
    if links == [] {
      assert forall i: nat, j: nat :: !Joined(links, i, j);
    } else {
      var k := |links| - 1;
      NetworkIsItsLinks(n, links[..k]);
      OneMoreLinkIsHeld(AddLinks(Unlinked(n), links[..k]), n, links);
    }
  }

  lemma OneMoreLinkIsHeld(net: Network, n: nat, links: seq<Link>)
    requires links != [] && IsNetworkOf(net, n, links[..|links| - 1])
    ensures IsNetworkOf(AddLink(net, links[|links| - 1]), n, links)
  {
    hide Joined;
    var k := |links| - 1;
    var l, later := links[k], AddLink(net, links[k]);
    forall i: nat, j: nat | i < n ensures j in later.adjacency[i] <==> i != j && Joined(links, i, j) {
      JoinedByOneMore(links, i, j);
    }
    forall i: nat, j: nat | i < n && j in later.adjacency[i] ensures later.adjacency[i][j] == WeightBetween(links, i, j) {
      JoinedByOneMore(links, i, j);
      if j !in net.adjacency[i] {
        NoneJoins(links[..k], i, j);
      }
    }
  }

  // ----- the same, by entity

  // The edges as links between entities; an entity's id is a number like a position.
  function AsLinks(edges: seq<WeightedEdge>): seq<Link> {
    seq(|edges|, i requires 0 <= i < |edges| => Link(edges[i].source, edges[i].target, edges[i].weight))
  }

  lemma PositionIs(ordered: seq<EntityId>, e: EntityId, p: nat)
    requires Ascending(ordered) && e in ordered && p < |ordered|
    ensures Position(ordered, e) == p <==> e == ordered[p]
  {
  }

  lemma JoiningByPosition(ordered: seq<EntityId>, e: WeightedEdge, p: nat, q: nat)
    requires Ascending(ordered) && GoodEdge(ordered, e) && p < |ordered| && q < |ordered|
    ensures Joins(LinkOf(ordered, e), p, q) <==> Joins(Link(e.source, e.target, e.weight), ordered[p], ordered[q])
  {
    hide Position;
    PositionIs(ordered, e.source, p);
    PositionIs(ordered, e.source, q);
    PositionIs(ordered, e.target, p);
    PositionIs(ordered, e.target, q);
  }

  lemma {:induction false} SumsByPosition(ordered: seq<EntityId>, edges: seq<WeightedEdge>, p: nat, q: nat)
    requires Ascending(ordered) && GoodEdges(ordered, edges) && p < |ordered| && q < |ordered|
    ensures Joined(LinksOf(ordered, edges), p, q) <==> Joined(AsLinks(edges), ordered[p], ordered[q])
    ensures WeightBetween(LinksOf(ordered, edges), p, q) == WeightBetween(AsLinks(edges), ordered[p], ordered[q])
    ensures WeightAt(LinksOf(ordered, edges), p) == WeightAt(AsLinks(edges), ordered[p])
    ensures TotalWeight(LinksOf(ordered, edges)) == TotalWeight(AsLinks(edges))
  {
    hide Joined, Joins, Position;
    var links, named := LinksOf(ordered, edges), AsLinks(edges);
    if edges == [] {
      NothingJoined(p, q);
      NothingJoined(ordered[p], ordered[q]);
    } else {
      var k := |edges| - 1;
      assert edges[k] in edges;
      assert links[..k] == LinksOf(ordered, edges[..k]) && named[..k] == AsLinks(edges[..k]);
      SumsByPosition(ordered, edges[..k], p, q);
      JoiningByPosition(ordered, edges[k], p, q);
      PositionIs(ordered, edges[k].source, p);
      PositionIs(ordered, edges[k].target, p);
      JoinedByOneMore(links, p, q);
      JoinedByOneMore(named, ordered[p], ordered[q]);
    }
  }

  lemma NothingJoined(i: nat, j: nat)
    ensures !Joined([], i, j)
  {
  }

  /** What the network built for the caller's edges holds, entity by entity. */
  lemma NetworkIsItsEdges(ordered: seq<EntityId>, edges: seq<WeightedEdge>, p: nat, q: nat)
    requires Ascending(ordered) && GoodEdges(ordered, edges) && p < |ordered| && q < |ordered|
    ensures var net, u, v := NetworkOf(ordered, edges), ordered[p], ordered[q];
            && |net.degree| == |ordered|
            && (q in net.adjacency[p] <==> u != v && Joined(AsLinks(edges), u, v))
            && (q in net.adjacency[p] ==> net.adjacency[p][q] == WeightBetween(AsLinks(edges), u, v))
            && net.degree[p] == WeightAt(AsLinks(edges), u)
            && net.total == TotalWeight(AsLinks(edges))
  {
    hide Joined, WeightBetween, WeightAt, TotalWeight, AddLinks;
    NetworkIsItsLinks(|ordered|, LinksOf(ordered, edges));
    SumsByPosition(ordered, edges, p, q);
  }

  // ----- modularity

  // The summed weight of the links inside communities, loops left out.
  ghost function Inside(links: seq<Link>, labels: Labels): real {
    if links == [] then 0.0
    else
      var l := links[|links| - 1];
      Inside(links[..|links| - 1], labels)
      + if l.left != l.right && l.left < |labels| && l.right < |labels| && labels[l.left] == labels[l.right] then l.weight else 0.0
  }

  // Each node's degree times that of its community, over the first `k`.
  ghost function DegreeProducts(net: Network, labels: Labels, k: nat): real
    requires |net.degree| == |labels| && k <= |labels|
  {
    if k == 0 then 0.0
    else DegreeProducts(net, labels, k - 1) + net.degree[k - 1] * DegreeOf(net, labels, labels[k - 1], |labels|)
  }

  // The weight between `i` and the first `k` nodes, itself left out, that are labelled `c`.
  ghost function Near(links: seq<Link>, labels: Labels, i: nat, c: nat, k: nat): real
    requires k <= |labels|
  {
    if k == 0 then 0.0
    else Near(links, labels, i, c, k - 1) + if k - 1 != i && labels[k - 1] == c then WeightBetween(links, i, k - 1) else 0.0
  }

  // Over the first `k` nodes, the weight between each and its own community.
  ghost function AllNear(links: seq<Link>, labels: Labels, k: nat): real
    requires k <= |labels|
  {
    if k == 0 then 0.0 else AllNear(links, labels, k - 1) + Near(links, labels, k - 1, labels[k - 1], |labels|)
  }

  lemma {:induction false} RowIsNearLessNullModel(net: Network, resolution: real, links: seq<Link>, labels: Labels, i: nat, c: nat, k: nat)
    requires ValidNetwork(net) && IsNetworkOf(net, |labels|, links) && i < |labels| && k <= |labels|
    ensures Row(net, resolution, labels, i, c, k) ==
            Near(links, labels, i, c, k) - NullModel(net, resolution, i, DegreeOf(net, labels, c, k))
  {
    hide WeightBetween, Joined, WeightAt, NullModel;
    if k == 0 {
      NullModelOfNothing(net, resolution, i);
    } else {
      var j := k - 1;
      RowIsNearLessNullModel(net, resolution, links, labels, i, c, j);
      if labels[j] == c {
        NullModelAdds(net, resolution, i, DegreeOf(net, labels, c, j), net.degree[j]);
        if j != i && j !in net.adjacency[i] {
          NoneJoins(links, i, j);
        }
      }
    }
  }

  // What the null model takes off for degree products summing to `x`.
  ghost function Off(resolution: real, x: real, total: real): real
    requires total > 0.0
  {
    resolution * x / (2.0 * total)
  }

  lemma {:induction false} RowsAreNearLessProducts(net: Network, resolution: real, links: seq<Link>, labels: Labels, k: nat)
    requires ValidNetwork(net) && IsNetworkOf(net, |labels|, links) && k <= |labels|
    ensures RowsUpto(net, resolution, labels, k) == AllNear(links, labels, k) - Off(resolution, DegreeProducts(net, labels, k), net.total)
  {
    hide NullModel, Off, Row, Near, DegreeOf;
    if k == 0 {
      OffAdds(resolution, 0.0, 0.0, net.total);
    } else {
      var i := k - 1;
      var own := DegreeOf(net, labels, labels[i], |labels|);
      RowsAreNearLessProducts(net, resolution, links, labels, i);
      RowIsNearLessNullModel(net, resolution, links, labels, i, labels[i], |labels|);
      NullModelIsOff(net, resolution, i, own);
      var product := net.degree[i] * own;
      OffAdds(resolution, DegreeProducts(net, labels, i), product, net.total);
      assert DegreeProducts(net, labels, k) == DegreeProducts(net, labels, i) + product;
      assert RowsUpto(net, resolution, labels, k) == RowsUpto(net, resolution, labels, i) + Row(net, resolution, labels, i, labels[i], |labels|);
      assert AllNear(links, labels, k) == AllNear(links, labels, i) + Near(links, labels, i, labels[i], |labels|);
    }
  }

  lemma NullModelIsOff(net: Network, resolution: real, i: nat, d: real)
    requires i < |net.degree| && net.total > 0.0
    ensures NullModel(net, resolution, i, d) == Off(resolution, net.degree[i] * d, net.total)
  {
    assert resolution * net.degree[i] * d == resolution * (net.degree[i] * d);
  }

  lemma OffAdds(resolution: real, x: real, y: real, total: real)
    requires total > 0.0
    ensures Off(resolution, x + y, total) == Off(resolution, x, total) + Off(resolution, y, total)
  {
    assert resolution * (x + y) == resolution * x + resolution * y;
  }

  // One more link counts once at each of its ends, if both are in the community.
  lemma {:induction false} NearWithOneMore(links: seq<Link>, labels: Labels, i: nat, c: nat, k: nat)
    requires links != [] && k <= |labels|
    ensures var l := links[|links| - 1];
            Near(links, labels, i, c, k) == Near(links[..|links| - 1], labels, i, c, k)
            + (if l.left == i && l.right != i && l.right < k && labels[l.right] == c then l.weight else 0.0)
            + (if l.right == i && l.left != i && l.left < k && labels[l.left] == c then l.weight else 0.0)
  {
    if k > 0 {
      NearWithOneMore(links, labels, i, c, k - 1);
    }
  }

  lemma {:induction false} AllNearWithOneMore(links: seq<Link>, labels: Labels, k: nat)
    requires links != [] && k <= |labels|
    ensures var l := links[|links| - 1];
            var inside := l.left != l.right && l.left < |labels| && l.right < |labels| && labels[l.left] == labels[l.right];
            AllNear(links, labels, k) == AllNear(links[..|links| - 1], labels, k)
            + (if inside && l.left < k then l.weight else 0.0) + (if inside && l.right < k then l.weight else 0.0)
  {
    if k > 0 {
      AllNearWithOneMore(links, labels, k - 1);
      NearWithOneMore(links, labels, k - 1, labels[k - 1], |labels|);
    }
  }

  lemma {:induction false} NothingNear(labels: Labels, i: nat, c: nat, k: nat)
    requires k <= |labels|
    ensures Near([], labels, i, c, k) == 0.0
  {
    if k > 0 {
      NothingNear(labels, i, c, k - 1);
    }
  }

  lemma {:induction false} NothingAllNear(labels: Labels, k: nat)
    requires k <= |labels|
    ensures AllNear([], labels, k) == 0.0
  {
    if k > 0 {
      NothingAllNear(labels, k - 1);
      NothingNear(labels, k - 1, labels[k - 1], |labels|);
    }
  }

  lemma {:induction false} AllNearIsTwiceInside(links: seq<Link>, labels: Labels)
    ensures AllNear(links, labels, |labels|) == 2.0 * Inside(links, labels)
  {
    if links == [] {
      NothingAllNear(labels, |labels|);
    } else {
      AllNearIsTwiceInside(links[..|links| - 1], labels);
      AllNearWithOneMore(links, labels, |labels|);
    }
  }

  /**
   Modularity is twice the weight inside communities, less `resolution` times the degrees of nodes
   by the degrees of their communities over twice the total.
   */
  lemma ModularityOfLinks(n: nat, links: seq<Link>, resolution: real, labels: Labels)
    requires links != [] && (forall l :: l in links ==> GoodLink(n, l)) && |labels| == n
    ensures var net := AddLinks(Unlinked(n), links);
            && ValidNetwork(net) && |net.adjacency| == n && net.total == TotalWeight(links)
            && Modularity(net, resolution, labels) ==
               2.0 * Inside(links, labels) - resolution * DegreeProducts(net, labels, n) / (2.0 * TotalWeight(links))
  {
    hide AddLinks, Inside, DegreeProducts, AllNear, TotalWeight, RowsUpto, WeightAt, WeightBetween, Joined;
    BuiltNetworkIsValid(n, links);
    NetworkIsItsLinks(n, links);
    var net := AddLinks(Unlinked(n), links);
    RowsAreNearLessProducts(net, resolution, links, labels, n);
    AllNearIsTwiceInside(links, labels);
  }

  /** A larger resolution takes proportionally more off the modularity of one and the same labelling. */
  lemma ResolutionScalesTheNullModel(n: nat, links: seq<Link>, resolution: real, finer: real, labels: Labels)
    requires links != [] && (forall l :: l in links ==> GoodLink(n, l)) && |labels| == n
    ensures var net := AddLinks(Unlinked(n), links);
            && ValidNetwork(net) && |net.adjacency| == n && net.total == TotalWeight(links)
            && Modularity(net, resolution, labels) - Modularity(net, finer, labels) ==
               (finer - resolution) * DegreeProducts(net, labels, n) / (2.0 * TotalWeight(links))
  {
    hide AddLinks, Modularity, DegreeProducts, Inside, TotalWeight;
    var net := AddLinks(Unlinked(n), links);
    ModularityOfLinks(n, links, resolution, labels);
    ModularityOfLinks(n, links, finer, labels);
    NetworkIsItsLinks(n, links);
    var x, d := DegreeProducts(net, labels, n), 2.0 * TotalWeight(links);
    assert finer * x == resolution * x + (finer - resolution) * x;
  }

  // ----- what detection achieves

  /** The labelling detection ends with has at least the modularity of leaving every node alone. */
  lemma DetectionIsNoWorseThanSingletons(ordered: seq<EntityId>, edges: seq<WeightedEdge>, resolution: real)
    requires GoodEdges(ordered, edges) && edges != []
    ensures var net, final := NetworkOf(ordered, edges), FinalLabels(ordered, edges, resolution);
            |final| == |ordered| && Modularity(net, resolution, final) >= Modularity(net, resolution, Identity(|ordered|))
  {
    hide AddLinks, LinksOf, OnePass, Modularity;
    PassesImprove(NetworkOf(ordered, edges), resolution, Identity(|ordered|), 0, MAX_PASSES);
  }

  // In the network of these edges, no node gains by switching to the community of a neighbour.
  ghost predicate Settled(ordered: seq<EntityId>, edges: seq<WeightedEdge>, resolution: real, labels: Labels)
    requires GoodEdges(ordered, edges) && edges != [] && |labels| == |ordered|
  {
    var net := NetworkOf(ordered, edges);
    forall p: nat, q: nat :: p < |labels| && q in net.adjacency[p] && q < |labels| ==>
      Modularity(net, resolution, labels[p := labels[q]]) <= Modularity(net, resolution, labels)
  }

  // Each of the first `n` passes from singletons moves a node.
  ghost predicate StillMoving(ordered: seq<EntityId>, edges: seq<WeightedEdge>, resolution: real, n: nat)
    requires GoodEdges(ordered, edges) && edges != []
  {
    EachPassMoves(NetworkOf(ordered, edges), resolution, Identity(|ordered|), n)
  }

  /** Detection settles, unless every one of a hundred passes moves a node. */
  lemma DetectionSettles(ordered: seq<EntityId>, edges: seq<WeightedEdge>, resolution: real)
    requires GoodEdges(ordered, edges) && edges != []
    ensures |FinalLabels(ordered, edges, resolution)| == |ordered|
    ensures Settled(ordered, edges, resolution, FinalLabels(ordered, edges, resolution)) || StillMoving(ordered, edges, resolution, 100)
  {
    hide AddLinks, LinksOf, OnePass, Modularity;
    var net, start := NetworkOf(ordered, edges), Identity(|ordered|);
    var final := FinalLabels(ordered, edges, resolution);
    if k :| 0 <= k < 100 && Passes(net, resolution, start, k + 1) == Passes(net, resolution, start, k) {
      StablePasses(net, resolution, start, k, MAX_PASSES);
      forall p: nat, q: nat | p < |final| && q in net.adjacency[p] && q < |final|
        ensures Modularity(net, resolution, final[p := final[q]]) <= Modularity(net, resolution, final)
      {
        NobodyGainsBySwitching(net, resolution, final, p, q);
      }
    }
  }

  // No link crosses `s`'s boundary.
  ghost predicate Uncrossed(net: Network, s: set<nat>) {
    forall i: nat, j :: i < |net.adjacency| && j in net.adjacency[i] ==> (i in s <==> j in s)
  }

  ghost predicate StaysWithin(labels: Labels, s: set<nat>) {
    forall i: nat, j: nat :: i < |labels| && j < |labels| && labels[i] == labels[j] ==> (i in s <==> j in s)
  }

  lemma VisitStaysWithin(net: Network, resolution: real, labels: Labels, s: set<nat>, p: nat)
    requires ValidNetwork(net) && ValidLabels(net, labels) && Uncrossed(net, s) && StaysWithin(labels, s) && p < |labels|
    ensures StaysWithin(Visit(net, resolution, labels, p), s)
  {
    hide NoBetter;
    var b := Best(net, resolution, labels, p);
    assert b in Candidates(net, labels, p);
    if b != labels[p] {
      var q :| q in net.adjacency[p] && labels[q] == b;
      assert p in s <==> q in s;
    }
  }

  lemma {:induction false} VisitsStayWithin(net: Network, resolution: real, labels: Labels, s: set<nat>, k: nat)
    requires ValidNetwork(net) && ValidLabels(net, labels) && Uncrossed(net, s) && StaysWithin(labels, s) && k <= |labels|
    ensures StaysWithin(VisitFirst(net, resolution, labels, k), s)
  {
    hide StaysWithin, Uncrossed, Visit;
    if k > 0 {
      VisitsStayWithin(net, resolution, labels, s, k - 1);
      VisitStaysWithin(net, resolution, VisitFirst(net, resolution, labels, k - 1), s, k - 1);
    }
  }

  lemma {:induction false} PassesStayWithin(net: Network, resolution: real, labels: Labels, s: set<nat>, n: nat)
    requires ValidNetwork(net) && ValidLabels(net, labels) && Uncrossed(net, s) && StaysWithin(labels, s)
    ensures StaysWithin(Passes(net, resolution, labels, n), s)
  {
    hide StaysWithin, Uncrossed;
    if n > 0 {
      PassesStayWithin(net, resolution, labels, s, n - 1);
      VisitsStayWithin(net, resolution, Passes(net, resolution, labels, n - 1), s, |labels|);
    }
  }

  /** No community joins nodes that no chain of edges joins: any set no edge leaves holds it whole or not at all. */
  lemma CommunitiesStayConnected(ordered: seq<EntityId>, edges: seq<WeightedEdge>, resolution: real,
                                 communities: seq<seq<EntityId>>, s: set<EntityId>, g: nat)
    requires Ascending(ordered) && IsDetected(ordered, edges, resolution, communities) && g < |communities|
    requires forall e :: e in edges ==> (e.source in s <==> e.target in s)
    ensures (forall u :: u in communities[g] ==> u in s) || (forall u :: u in communities[g] ==> u !in s)
  {
    var labels := FinalLabels(ordered, edges, resolution);
    var positions := set p: nat | p < |ordered| && ordered[p] in s;
    LabelsStayWithin(ordered, edges, resolution, s, positions);
    var groups :| IsListing(labels, groups) && communities == Named(ordered, groups);
    hide FinalLabels, IsDetected;
    NamedAt(ordered, labels, groups, g);
    assert IsGroup(labels, groups[g]);
    forall i | 0 <= i < |groups[g]| ensures communities[g][i] in s <==> communities[g][0] in s {
      assert groups[g][i] in Elements(groups[g]) && groups[g][0] in Elements(groups[g]);
      assert groups[g][i] in positions <==> groups[g][0] in positions;
    }
  }

  lemma LabelsStayWithin(ordered: seq<EntityId>, edges: seq<WeightedEdge>, resolution: real, s: set<EntityId>, positions: set<nat>)
    requires Ascending(ordered) && GoodEdges(ordered, edges)
    requires forall e :: e in edges ==> (e.source in s <==> e.target in s)
    requires positions == set p: nat | p < |ordered| && ordered[p] in s
    ensures |FinalLabels(ordered, edges, resolution)| == |ordered| && StaysWithin(FinalLabels(ordered, edges, resolution), positions)
  {
    hide AddLinks, OnePass, Joined, LinksOf;
    if edges != [] {
      var net := NetworkOf(ordered, edges);
      forall i: nat, j | i < |net.adjacency| && j in net.adjacency[i] ensures i in positions <==> j in positions {
        NetworkIsItsEdges(ordered, edges, i, j);
        JoinedSide(edges, s, ordered[i], ordered[j]);
      }
      PassesStayWithin(net, resolution, Identity(|ordered|), positions, MAX_PASSES);
    }
  }

  lemma JoinedSide(edges: seq<WeightedEdge>, s: set<EntityId>, u: EntityId, v: EntityId)
    requires Joined(AsLinks(edges), u, v) && forall e :: e in edges ==> (e.source in s <==> e.target in s)
    ensures u in s <==> v in s
  {
    var l :| l in AsLinks(edges) && Joins(l, u, v);
    var i :| 0 <= i < |edges| && AsLinks(edges)[i] == l;
    assert edges[i] in edges;
  }
}
