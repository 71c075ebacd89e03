/**
 `detect_communities`: validate, build the network, pass until nobody moves or the bound on
 passes is reached, and list the communities.  Proved against a description of the result
 that mentions neither the order nor the direction in which the caller listed anything.
 */
module Community {
  import opened Sequences
  import opened Wrappers
  import opened Domain
  import opened Network
  import opened LocalMoving
  import opened CommunityPass
  import opened CommunityNetwork

  const MAX_PASSES: nat := 100

  datatype WeightedEdge = WeightedEdge(source: EntityId, target: EntityId, weight: real)

  datatype CommunityError = NegativeResolution | BadWeight(edge: WeightedEdge) | UnknownNode(node: EntityId)

  // ----- what a listing of communities is

  ghost predicate Ascending(xs: seq<nat>) {
    forall i, j :: 0 <= i < j < |xs| ==> xs[i] < xs[j]
  }

  ghost predicate AscendingHeads(groups: seq<seq<nat>>) {
    (forall g :: 0 <= g < |groups| ==> groups[g] != [])
    && forall g, h :: 0 <= g < h < |groups| ==> groups[g][0] < groups[h][0]
  }

  // The nodes in the same community as `i`.
  ghost function CommunityOf(labels: Labels, i: nat): set<nat>
    requires i < |labels|
  {
    set j: nat | j < |labels| && labels[j] == labels[i]
  }

  // `group` is one whole community, in ascending order.
  ghost predicate IsGroup(labels: Labels, group: seq<nat>) {
    group != [] && Ascending(group) && group[0] < |labels| && Elements(group) == CommunityOf(labels, group[0])
  }

  // Every node in exactly one community, members ascending, communities ordered by their first.
  ghost predicate IsListing(labels: Labels, groups: seq<seq<nat>>) {
    && AscendingHeads(groups)
    && (forall g :: 0 <= g < |groups| ==> IsGroup(labels, groups[g]))
    && (forall x: nat :: x < |labels| ==> Listed(groups, x))
  }

  ghost predicate Listed(groups: seq<seq<nat>>, x: nat) {
    exists g :: 0 <= g < |groups| && x in Elements(groups[g])
  }

  lemma HeadIsLeast(xs: seq<nat>, x: nat)
    requires Ascending(xs) && x in Elements(xs)
    ensures xs[0] <= x && xs[0] in Elements(xs)
  {
    assert xs[0] in xs;
  }

  lemma {:induction false} AscendingIsUnique(xs: seq<nat>, ys: seq<nat>)
    requires Ascending(xs) && Ascending(ys) && Elements(xs) == Elements(ys)
    ensures xs == ys
  {
    assert |ys| > 0 ==> ys[0] in Elements(ys);
    if xs != [] {
      assert xs[0] in Elements(xs);
      HeadIsLeast(ys, xs[0]);
      HeadIsLeast(xs, ys[0]);
      TailElements(xs);
      TailElements(ys);
      AscendingIsUnique(xs[1..], ys[1..]);
      assert xs == [xs[0]] + xs[1..] && ys == [ys[0]] + ys[1..];
    }
  }

  lemma TailElements(xs: seq<nat>)
    requires Ascending(xs) && xs != []
    ensures Elements(xs[1..]) == Elements(xs) - {xs[0]}
  {
    forall x ensures x in Elements(xs[1..]) <==> x in Elements(xs) && x != xs[0] {
      if x in xs && x != xs[0] {
        var i :| 0 <= i < |xs| && xs[i] == x;
        assert xs[1..][i - 1] == x;
      }
    }
  }

  // Two groups sharing a node are the same list.
  lemma GroupsSharingANode(a: Labels, b: Labels, xs: seq<nat>, ys: seq<nat>, x: nat)
    requires SamePartition(a, b) && IsGroup(a, xs) && IsGroup(b, ys) && x in Elements(xs) && x in Elements(ys)
    ensures xs == ys
  {
    assert x in CommunityOf(a, xs[0]) && x in CommunityOf(b, ys[0]);
    assert CommunityOf(a, xs[0]) == CommunityOf(a, x) && CommunityOf(b, ys[0]) == CommunityOf(b, x);
    assert CommunityOf(a, x) == CommunityOf(b, x);
    AscendingIsUnique(xs, ys);
  }

  // No node is listed twice.
  lemma ListedOnce(labels: Labels, groups: seq<seq<nat>>, g: nat, h: nat, x: nat)
    requires IsListing(labels, groups) && g < |groups| && h < |groups| && x in groups[g] && x in groups[h]
    ensures g == h
  {
    hide IsGroup, Listed;
    GroupsSharingANode(labels, labels, groups[g], groups[h], x);
  }

  // Labels with the same partition have the same listing, and only one.
  lemma ListingIsUnique(a: Labels, b: Labels, xs: seq<seq<nat>>, ys: seq<seq<nat>>)
    requires SamePartition(a, b) && IsListing(a, xs) && IsListing(b, ys)
    ensures xs == ys
  {
    hide IsGroup, Listed, SamePartition, AscendingHeads;
    forall g | 0 <= g < |xs| ensures xs[g] in ys {
      GroupIsListed(a, b, ys, xs[g]);
    }
    assert SamePartition(b, a) by {
      PartitionsAreSymmetric(a, b);
    }
    forall g | 0 <= g < |ys| ensures ys[g] in xs {
      GroupIsListed(b, a, xs, ys[g]);
    }
    HeadsDecide(xs, ys);
  }

  lemma PartitionsAreSymmetric(a: Labels, b: Labels)
    requires SamePartition(a, b)
    ensures SamePartition(b, a)
  {
  }

  lemma GroupIsListed(a: Labels, b: Labels, groups: seq<seq<nat>>, group: seq<nat>)
    requires SamePartition(a, b) && IsListing(b, groups) && IsGroup(a, group)
    ensures group in groups
  {
    assert group[0] in Elements(group);
    assert Listed(groups, group[0]);
    var g :| 0 <= g < |groups| && group[0] in Elements(groups[g]);
    GroupsSharingANode(a, b, group, groups[g], group[0]);
  }

  lemma {:induction false} HeadsDecide(xs: seq<seq<nat>>, ys: seq<seq<nat>>)
    requires AscendingHeads(xs) && AscendingHeads(ys) && forall group :: group in xs <==> group in ys
    ensures xs == ys
  {
    assert |ys| > 0 ==> ys[0] in xs;
    if xs != [] {
      assert xs[0] in ys && ys[0] in xs;
      assert xs[0] == ys[0];
      forall group ensures group in xs[1..] <==> group in ys[1..] {
        if group in xs[1..] {
          assert group in ys && group != ys[0];
        }
        if group in ys[1..] {
          assert group in xs && group != xs[0];
        }
      }
      HeadsDecide(xs[1..], ys[1..]);
      assert xs == [xs[0]] + xs[1..] && ys == [ys[0]] + ys[1..];
    }
  }

  // ----- sorting

  method SortSet(s: set<nat>) returns (xs: seq<nat>)
    ensures Ascending(xs) && Elements(xs) == s
  {
    xs := [];
    var left := s;
    while left != {}
      invariant left <= s && Ascending(xs) && Elements(xs) == s - left
      invariant forall i, y :: 0 <= i < |xs| && y in left ==> xs[i] < y
    {
      var least := MinOr(left);
      assert Elements(xs + [least]) == Elements(xs) + {least};
      assert s - (left - {least}) == (s - left) + {least};
      xs := xs + [least];
      left := left - {least};
    }
  }

  // Put one group in its place among groups ordered by their heads.
  method InsertGroup(groups: seq<seq<nat>>, group: seq<nat>) returns (longer: seq<seq<nat>>)
    requires AscendingHeads(groups) && group != []
    requires forall g :: 0 <= g < |groups| ==> groups[g][0] != group[0]
    ensures AscendingHeads(longer)
    ensures forall other :: other in longer <==> other in groups || other == group
  {
    var k := 0;
    while k < |groups| && groups[k][0] < group[0]
      invariant 0 <= k <= |groups|
      invariant forall i :: 0 <= i < k ==> groups[i][0] < group[0]
    {
      k := k + 1;
    }
    longer := groups[..k] + [group] + groups[k..];
    InsertedInPlace(groups, group, k);
    Inserted(groups, group, k);
  }

  lemma InsertedInPlace(groups: seq<seq<nat>>, group: seq<nat>, k: nat)
    requires AscendingHeads(groups) && group != [] && k <= |groups|
    requires forall i :: 0 <= i < k ==> groups[i][0] < group[0]
    requires k < |groups| ==> groups[k][0] > group[0]
    ensures AscendingHeads(groups[..k] + [group] + groups[k..])
  {
    var longer := groups[..k] + [group] + groups[k..];
    forall i | 0 <= i < |longer| ensures longer[i] == if i < k then groups[i] else if i == k then group else groups[i - 1] {
    }
  }

  // ----- the result, described

  ghost predicate IsOrdering(nodes: seq<EntityId>, ordered: seq<EntityId>) {
    Ascending(ordered) && Elements(ordered) == Elements(nodes)
  }

  function Position(ordered: seq<EntityId>, node: EntityId): (i: nat)
    requires node in ordered
    ensures i < |ordered| && ordered[i] == node
  {
    if ordered[0] == node then 0 else 1 + Position(ordered[1..], node)
  }

  ghost predicate GoodEdge(ordered: seq<EntityId>, e: WeightedEdge) {
    e.weight > 0.0 && e.source in ordered && e.target in ordered
  }

  ghost predicate GoodEdges(ordered: seq<EntityId>, edges: seq<WeightedEdge>) {
    forall e :: e in edges ==> GoodEdge(ordered, e)
  }

  ghost function LinkOf(ordered: seq<EntityId>, e: WeightedEdge): Link
    requires GoodEdge(ordered, e)
  {
    Link(Position(ordered, e.source), Position(ordered, e.target), e.weight)
  }

  ghost function LinksOf(ordered: seq<EntityId>, edges: seq<WeightedEdge>): seq<Link>
    requires GoodEdges(ordered, edges)
  {
    seq(|edges|, i requires 0 <= i < |edges| => LinkOf(ordered, edges[i]))
  }

  lemma LinksAreGood(ordered: seq<EntityId>, edges: seq<WeightedEdge>)
    requires GoodEdges(ordered, edges)
    ensures forall l :: l in LinksOf(ordered, edges) ==> GoodLink(|ordered|, l)
  {
    forall i | 0 <= i < |edges| ensures GoodLink(|ordered|, LinksOf(ordered, edges)[i]) {
      assert edges[i] in edges;
    }
  }

  function Identity(n: nat): Labels { seq(n, i requires 0 <= i < n => i) }

  ghost function NetworkOf(ordered: seq<EntityId>, edges: seq<WeightedEdge>): (net: Network)
    requires GoodEdges(ordered, edges)
    ensures |net.adjacency| == |ordered| && (edges != [] ==> ValidNetwork(net))
  {
    LinksAreGood(ordered, edges);
    BuiltNetworkIsValid(|ordered|, LinksOf(ordered, edges));
    AddLinks(Unlinked(|ordered|), LinksOf(ordered, edges))
  }

  // Singletons without an edge; otherwise singletons after the bounded passes.
  ghost function FinalLabels(ordered: seq<EntityId>, edges: seq<WeightedEdge>, resolution: real): Labels
    requires GoodEdges(ordered, edges)
  {
    if edges == [] then Identity(|ordered|)
    else Passes(NetworkOf(ordered, edges), resolution, Identity(|ordered|), MAX_PASSES)
  }

  function Named(ordered: seq<EntityId>, groups: seq<seq<nat>>): seq<seq<EntityId>> {
    seq(|groups|, g requires 0 <= g < |groups| =>
      seq(|groups[g]|, i requires 0 <= i < |groups[g]| => if groups[g][i] < |ordered| then ordered[groups[g][i]] else 0))
  }

  ghost predicate IsDetected(ordered: seq<EntityId>, edges: seq<WeightedEdge>, resolution: real, communities: seq<seq<EntityId>>) {
    && GoodEdges(ordered, edges)
    && exists groups :: IsListing(FinalLabels(ordered, edges, resolution), groups) && communities == Named(ordered, groups)
  }

  /** The communities depend on which edges there are, not on their order or direction. */
  lemma DetectionIgnoresOrder(nodes: seq<EntityId>, others: seq<EntityId>, ordered: seq<EntityId>, reordered: seq<EntityId>,
                              edges: seq<WeightedEdge>, shuffled: seq<WeightedEdge>, resolution: real,
                              xs: seq<seq<EntityId>>, ys: seq<seq<EntityId>>)
    requires Elements(nodes) == Elements(others) && IsOrdering(nodes, ordered) && IsOrdering(others, reordered)
    requires GoodEdges(ordered, edges) && GoodEdges(reordered, shuffled)
    requires multiset(AllUndirected(LinksOf(ordered, edges))) == multiset(AllUndirected(LinksOf(reordered, shuffled)))
    requires IsDetected(ordered, edges, resolution, xs) && IsDetected(reordered, shuffled, resolution, ys)
    ensures xs == ys
  {
    AscendingIsUnique(ordered, reordered);
    var a, b := LinksOf(ordered, edges), LinksOf(reordered, shuffled);
    assert |a| == |multiset(AllUndirected(a))| == |multiset(AllUndirected(b))| == |b|;
    AddingUndirected(Unlinked(|ordered|), a);
    AddingUndirected(Unlinked(|ordered|), b);
    OrderDoesNotMatter(Unlinked(|ordered|), AllUndirected(a), AllUndirected(b));
    var labels := FinalLabels(ordered, edges, resolution);
    assert labels == FinalLabels(reordered, shuffled, resolution);
    var groups :| IsListing(labels, groups) && xs == Named(ordered, groups);
    var regroups :| IsListing(labels, regroups) && ys == Named(reordered, regroups);
    assert SamePartition(labels, labels);
    ListingIsUnique(labels, labels, groups, regroups);
  }

  // ----- detection

  method AddEdge(adjacency: array<map<nat, real>>, degree: array<real>, total: real, left: nat, right: nat, weight: real)
    returns (later: real)
    requires left < adjacency.Length == degree.Length && right < adjacency.Length
    modifies adjacency, degree
    ensures Network(adjacency[..], degree[..], later) ==
            AddLink(Network(old(adjacency[..]), old(degree[..]), total), Link(left, right, weight))
  {
    later := total + weight;
    if left == right {
      degree[left] := degree[left] + 2.0 * weight;
    } else {
      adjacency[left] := Bump(adjacency[left], right, weight);
      adjacency[right] := Bump(adjacency[right], left, weight);
      degree[left] := degree[left] + weight;
      degree[right] := degree[right] + weight;
    }
  }

  // The first edge, in the order given, that is not good.
  ghost predicate FirstBad(ordered: seq<EntityId>, edges: seq<WeightedEdge>, k: nat) {
    k < |edges| && !GoodEdge(ordered, edges[k]) && forall j :: 0 <= j < k ==> GoodEdge(ordered, edges[j])
  }

  // Validate the edges and build the network in place; the first bad edge, weight before
  // endpoints, is the error.
  method BuildNetwork(ordered: seq<EntityId>, edges: seq<WeightedEdge>) returns (r: Result<Network, CommunityError>)
    ensures r.Success? <==> GoodEdges(ordered, edges)
    ensures r.Success? ==> r.value == NetworkOf(ordered, edges)
    ensures r.Failure? ==> exists k: nat :: FirstBad(ordered, edges, k) && Blames(ordered, edges[k], r.error)
  {
    hide AddLink, AddLinks, LinksOf;
    NoLinksYet(ordered, edges);
    var adjacency := new map<nat, real>[|ordered|](_ => map[]);
    var degree := new real[|ordered|](_ => 0.0);
    var total := 0.0;
    assert adjacency[..] == Unlinked(|ordered|).adjacency && degree[..] == Unlinked(|ordered|).degree;
    for i := 0 to |edges|
      invariant GoodEdges(ordered, edges[..i])
      invariant Network(adjacency[..], degree[..], total) == AddLinks(Unlinked(|ordered|), LinksOf(ordered, edges[..i]))
    {
      var e := edges[i];
      assert e in edges;
      if e.weight <= 0.0 {
        return Failure(BadWeight(e));
      }
      if e.source !in ordered {
        return Failure(UnknownNode(e.source));
      }
      if e.target !in ordered {
        return Failure(UnknownNode(e.target));
      }
      OneMoreEdge(ordered, edges, i);
      total := AddEdge(adjacency, degree, total, Position(ordered, e.source), Position(ordered, e.target), e.weight);
    }
    assert edges[..|edges|] == edges;
    return Success(Network(adjacency[..], degree[..], total));
  }

  ghost predicate Blames(ordered: seq<EntityId>, e: WeightedEdge, error: CommunityError) {
    if e.weight <= 0.0 then error == BadWeight(e)
    else if e.source !in ordered then error == UnknownNode(e.source)
    else error == UnknownNode(e.target)
  }

  lemma NoLinksYet(ordered: seq<EntityId>, edges: seq<WeightedEdge>)
    ensures AddLinks(Unlinked(|ordered|), LinksOf(ordered, edges[..0])) == Unlinked(|ordered|)
  {
  }

  lemma OneMoreEdge(ordered: seq<EntityId>, edges: seq<WeightedEdge>, i: nat)
    requires i < |edges| && GoodEdges(ordered, edges[..i]) && GoodEdge(ordered, edges[i])
    ensures GoodEdges(ordered, edges[..i + 1])
    ensures AddLinks(Unlinked(|ordered|), LinksOf(ordered, edges[..i + 1])) ==
            AddLink(AddLinks(Unlinked(|ordered|), LinksOf(ordered, edges[..i])), LinkOf(ordered, edges[i]))
  {
    assert edges[..i + 1] == edges[..i] + [edges[i]];
    var links := LinksOf(ordered, edges[..i + 1]);
    assert links[..i] == LinksOf(ordered, edges[..i]) && links[i] == LinkOf(ordered, edges[i]);
  }

  lemma {:induction false} StablePasses(net: Network, resolution: real, labels: Labels, k: nat, n: nat)
    requires ValidNetwork(net) && ValidLabels(net, labels) && k <= n
    requires OnePass(net, resolution, Passes(net, resolution, labels, k)) == Passes(net, resolution, labels, k)
    ensures Passes(net, resolution, labels, n) == Passes(net, resolution, labels, k)
    decreases n
  {
    if k < n {
      StablePasses(net, resolution, labels, k, n - 1);
    }
  }

  lemma {:induction false} SingletonDegrees(net: Network, n: nat, c: nat, k: nat)
    requires |net.degree| == n && k <= n && c < n
    ensures DegreeOf(net, Identity(n), c, k) == if c < k then net.degree[c] else 0.0
  {
    if k > 0 {
      SingletonDegrees(net, n, c, k - 1);
    }
  }

  // Singletons, then passes until nobody moves or the bound is reached.
  method Converge(net: Network, resolution: real) returns (labels: Labels, members: seq<set<nat>>)
    requires ValidNetwork(net)
    ensures ValidLabels(net, Identity(|net.adjacency|))
    ensures labels == Passes(net, resolution, Identity(|net.adjacency|), MAX_PASSES)
    ensures |members| == |labels| && MembersMatch(labels, members)
  {
    hide OnePass, DegreeOf;
    var n := |net.adjacency|;
    var community := new nat[n](i => i);
    var sets := new set<nat>[n](i => {i});
    var degrees := new real[n](i requires 0 <= i < |net.degree| => net.degree[i]);
    assert community[..] == Identity(n);
    forall c | 0 <= c < n ensures degrees[c] == DegreeOf(net, Identity(n), c, n) {
      SingletonDegrees(net, n, c, n);
    }
    var k := 0;
    while k < MAX_PASSES
      invariant k <= MAX_PASSES
      invariant Booked(net, community[..], sets[..], degrees[..])
      invariant ValidLabels(net, Identity(n)) && community[..] == Passes(net, resolution, Identity(n), k)
    {
      var moved := Pass(net, resolution, community, sets, degrees);
      if !moved {
        StablePasses(net, resolution, Identity(n), k, MAX_PASSES);
        break;
      }
      k := k + 1;
    }
    labels, members := community[..], sets[..];
  }

  // List the communities: members ascending, groups by their first member.
  method Collect(labels: Labels, members: seq<set<nat>>) returns (groups: seq<seq<nat>>)
    requires |members| == |labels| && forall i :: 0 <= i < |labels| ==> labels[i] < |labels|
    requires MembersMatch(labels, members)
    ensures IsListing(labels, groups)
  {
    groups := [];
    for c := 0 to |members|
      invariant AscendingHeads(groups)
      invariant forall g :: 0 <= g < |groups| ==> IsGroup(labels, groups[g]) && labels[groups[g][0]] < c
      invariant forall x: nat :: x < |labels| && labels[x] < c ==> Listed(groups, x)
    {
      if members[c] != {} {
        var group := SortSet(members[c]);
        AGroup(labels, members[c], c, group);
        ghost var before := groups;
        groups := InsertGroup(groups, group);
        StillListed(labels, before, groups, group, c);
      }
    }
  }

  lemma AGroup(labels: Labels, members: set<nat>, c: nat, group: seq<nat>)
    requires members != {} && Ascending(group) && Elements(group) == members
    requires forall i: nat :: i in members <==> i < |labels| && labels[i] == c
    ensures IsGroup(labels, group) && labels[group[0]] == c
  {
    var x :| x in members;
    assert x in Elements(group);
    assert group[0] in Elements(group);
  }

  lemma StillListed(labels: Labels, before: seq<seq<nat>>, groups: seq<seq<nat>>, group: seq<nat>, c: nat)
    requires IsGroup(labels, group) && labels[group[0]] == c
    requires forall other :: other in groups <==> other in before || other == group
    requires forall g :: 0 <= g < |before| ==> IsGroup(labels, before[g]) && labels[before[g][0]] < c
    requires forall x: nat :: x < |labels| && labels[x] < c ==> Listed(before, x)
    ensures forall g :: 0 <= g < |groups| ==> IsGroup(labels, groups[g]) && labels[groups[g][0]] < c + 1
    ensures forall x: nat :: x < |labels| && labels[x] < c + 1 ==> Listed(groups, x)
  {
    forall g | 0 <= g < |groups| ensures IsGroup(labels, groups[g]) && labels[groups[g][0]] < c + 1 {
      assert groups[g] in groups;
    }
    forall x: nat | x < |labels| && labels[x] < c + 1 ensures Listed(groups, x) {
      if labels[x] == c {
        assert x in CommunityOf(labels, group[0]) && group in groups;
      } else {
        var g :| 0 <= g < |before| && x in Elements(before[g]);
        assert before[g] in groups;
      }
    }
  }

  /** The communities of a weighted graph, found by local moving from singletons. */
  method DetectCommunities(nodes: seq<EntityId>, edges: seq<WeightedEdge>, resolution: real)
    returns (r: Result<seq<seq<EntityId>>, CommunityError>, ghost ordered: seq<EntityId>)
    ensures IsOrdering(nodes, ordered)
    ensures resolution < 0.0 <==> r == Failure(NegativeResolution)
    ensures resolution >= 0.0 && nodes == [] ==> r == Success([])
    ensures resolution >= 0.0 && nodes != [] ==> (r.Success? <==> GoodEdges(ordered, edges))
    ensures resolution >= 0.0 && r.Failure? ==> exists k: nat :: FirstBad(ordered, edges, k) && Blames(ordered, edges[k], r.error)
    ensures r.Success? ==> Partitions(nodes, r.value)
    ensures r.Success? && nodes != [] ==> IsDetected(ordered, edges, resolution, r.value)
  {
    var sorted := SortSet(set node | node in nodes);
    ordered := sorted;
    if resolution < 0.0 {
      r := Failure(NegativeResolution);
      return;
    }
    if sorted == [] {
      assert |nodes| > 0 ==> nodes[0] in Elements(nodes);
      r := Success([]);
      return;
    }
    assert nodes != [] by {
      assert sorted[0] in Elements(sorted);
    }
    var built := BuildNetwork(sorted, edges);
    if built.Failure? {
      r := Failure(built.error);
      return;
    }
    var labels: Labels, members: seq<set<nat>>;
    if edges == [] {
      labels := Identity(|sorted|);
      members := seq(|sorted|, (i: nat) => {i});
    } else {
      labels, members := Converge(built.value, resolution);
    }
    var groups := Collect(labels, members);
    CommunitiesPartition(nodes, sorted, labels, groups);
    r := Success(Named(sorted, groups));
  }

  // Every node is in exactly one of the communities, once, and they hold nothing else.
  ghost predicate Partitions(nodes: seq<EntityId>, communities: seq<seq<EntityId>>) {
    && (forall node :: node in nodes ==> exists g :: InOnly(communities, g, node))
    && (forall g :: 0 <= g < |communities| ==> Ascending(communities[g]) && Elements(communities[g]) <= Elements(nodes))
  }

  ghost predicate InOnly(communities: seq<seq<EntityId>>, g: int, node: EntityId) {
    && 0 <= g < |communities| && node in communities[g]
    && forall h :: 0 <= h < |communities| && node in communities[h] ==> h == g
  }

  // A community by position and by id.
  lemma NamedAt(ordered: seq<EntityId>, labels: Labels, groups: seq<seq<nat>>, g: nat)
    requires |labels| == |ordered| && Ascending(ordered) && IsListing(labels, groups) && g < |groups|
    ensures |Named(ordered, groups)[g]| == |groups[g]|
    ensures forall i :: 0 <= i < |groups[g]| ==> groups[g][i] < |ordered| && Named(ordered, groups)[g][i] == ordered[groups[g][i]]
    ensures Ascending(Named(ordered, groups)[g])
  {
    assert IsGroup(labels, groups[g]);
    forall i | 0 <= i < |groups[g]| ensures groups[g][i] < |ordered| {
      assert groups[g][i] in Elements(groups[g]);
    }
  }

  lemma NodeIsInOne(ordered: seq<EntityId>, labels: Labels, groups: seq<seq<nat>>, x: nat) returns (g: nat)
    requires |labels| == |ordered| && Ascending(ordered) && IsListing(labels, groups) && x < |ordered|
    ensures InOnly(Named(ordered, groups), g, ordered[x])
  {
    assert Listed(groups, x);
    g :| 0 <= g < |groups| && x in Elements(groups[g]);
    var named := Named(ordered, groups);
    NamedAt(ordered, labels, groups, g);
    var i :| 0 <= i < |groups[g]| && groups[g][i] == x;
    assert named[g][i] == ordered[x];
    forall h | 0 <= h < |named| && ordered[x] in named[h] ensures h == g {
      NamedAt(ordered, labels, groups, h);
      var j :| 0 <= j < |groups[h]| && named[h][j] == ordered[x];
      assert groups[h][j] == x;
      ListedOnce(labels, groups, g, h, x);
    }
  }

  lemma CommunitiesPartition(nodes: seq<EntityId>, ordered: seq<EntityId>, labels: Labels, groups: seq<seq<nat>>)
    requires IsOrdering(nodes, ordered) && |labels| == |ordered| && IsListing(labels, groups)
    ensures Partitions(nodes, Named(ordered, groups))
  {
    hide IsListing, InOnly;
    var named := Named(ordered, groups);
    forall node | node in nodes ensures exists g :: InOnly(named, g, node) {
      assert node in Elements(ordered);
      var x :| 0 <= x < |ordered| && ordered[x] == node;
      var g := NodeIsInOne(ordered, labels, groups, x);
    }
    forall g | 0 <= g < |named| ensures Ascending(named[g]) && Elements(named[g]) <= Elements(nodes) {
      NamedAt(ordered, labels, groups, g);
      forall node | node in Elements(named[g]) ensures node in Elements(ordered) {
        var i :| 0 <= i < |named[g]| && named[g][i] == node;
        assert ordered[groups[g][i]] in ordered;
      }
    }
  }
}
