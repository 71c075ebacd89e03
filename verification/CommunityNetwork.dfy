/**
 Building the network from a list of weighted edges.  Duplicate edges add up, and nothing
 about the order or direction in which the caller listed them survives.
 */
module CommunityNetwork {
  import opened Network

  // An edge between two node positions.
  datatype Link = Link(left: nat, right: nat, weight: real)

  ghost predicate GoodLink(n: nat, l: Link) {
    l.left < n && l.right < n && l.weight > 0.0
  }

  // What the network is like before its total weight is known to be positive.
  ghost predicate Symmetric(net: Network) {
    && |net.degree| == |net.adjacency|
    && (forall i, j :: 0 <= i < |net.adjacency| && j in net.adjacency[i] ==> j < |net.adjacency| && j != i)
    && (forall i, j :: 0 <= i < |net.adjacency| && j in net.adjacency[i] ==>
          i in net.adjacency[j] && net.adjacency[j][i] == net.adjacency[i][j])
  }

  // Add `weight` to what is at `j`.
  function Bump(m: map<nat, real>, j: nat, weight: real): map<nat, real> {
    m[j := (if j in m then m[j] else 0.0) + weight]
  }

  function Unlinked(n: nat): Network {
    Network(seq(n, _ => map[]), seq(n, _ => 0.0), 0.0)
  }

  function LinkedAt(m: map<nat, real>, i: nat, l: Link): map<nat, real> {
    if l.left == l.right then m
    else if i == l.left then Bump(m, l.right, l.weight)
    else if i == l.right then Bump(m, l.left, l.weight)
    else m
  }

  // The degree of `i` once `l` is added; a loop counts at both its ends.
  function DegreeAt(d: real, i: nat, l: Link): real {
    if l.left == l.right then (if i == l.left then d + 2.0 * l.weight else d)
    else if i == l.left || i == l.right then d + l.weight
    else d
  }

  function AddLink(net: Network, l: Link): Network {
    Network(seq(|net.adjacency|, i requires 0 <= i < |net.adjacency| => LinkedAt(net.adjacency[i], i, l)),
            seq(|net.degree|, i requires 0 <= i < |net.degree| => DegreeAt(net.degree[i], i, l)),
            net.total + l.weight)
  }

  function AddLinks(net: Network, links: seq<Link>): Network {
    if links == [] then net else AddLink(AddLinks(net, links[..|links| - 1]), links[|links| - 1])
  }

  lemma {:induction false} BuiltNetworkIsValid(n: nat, links: seq<Link>)
    requires forall l :: l in links ==> GoodLink(n, l)
    ensures var net := AddLinks(Unlinked(n), links);
            Symmetric(net) && |net.adjacency| == n && net.total >= 0.0 && (links != [] ==> net.total > 0.0)
  {
    if links != [] {
      var k := |links| - 1;
      assert links[k] in links;
      BuiltNetworkIsValid(n, links[..k]);
      AddingKeepsSymmetric(AddLinks(Unlinked(n), links[..k]), links[k]);
    }
  }

  lemma AddingKeepsSymmetric(net: Network, l: Link)
    requires Symmetric(net) && GoodLink(|net.adjacency|, l)
    ensures Symmetric(AddLink(net, l))
  {
    var a, b := net.adjacency, AddLink(net, l).adjacency;
    forall i, j | 0 <= i < |b| && j in b[i] ensures j < |b| && j != i && i in b[j] && b[j][i] == b[i][j] {
      assert b[i] == LinkedAt(a[i], i, l);
      if j in a[i] {
        assert b[j] == LinkedAt(a[j], j, l);
      }
    }
  }

  // ----- order and direction do not matter

  function Flipped(l: Link): Link { Link(l.right, l.left, l.weight) }

  // The same link, smaller end first.
  function Undirected(l: Link): Link {
    if l.left <= l.right then l else Flipped(l)
  }

  function AllUndirected(links: seq<Link>): seq<Link> {
    seq(|links|, i requires 0 <= i < |links| => Undirected(links[i]))
  }

  lemma AddingEitherWay(net: Network, l: Link)
    ensures AddLink(net, Undirected(l)) == AddLink(net, l)
  {
  }

  lemma {:induction false} AddingUndirected(net: Network, links: seq<Link>)
    ensures AddLinks(net, AllUndirected(links)) == AddLinks(net, links)
  {
    if links != [] {
      var k := |links| - 1;
      AddingUndirected(net, links[..k]);
      assert AllUndirected(links)[..k] == AllUndirected(links[..k]);
      AddingEitherWay(AddLinks(net, links[..k]), links[k]);
    }
  }

  lemma BumpsCommute(m: map<nat, real>, j: nat, v: real, k: nat, w: real)
    ensures Bump(Bump(m, j, v), k, w) == Bump(Bump(m, k, w), j, v)
  {
    if j == k {
      assert Bump(Bump(m, j, v), k, w)[j] == Bump(Bump(m, k, w), j, v)[j];
    }
  }

  lemma LinkingAtCommutes(m: map<nat, real>, i: nat, a: Link, b: Link)
    ensures LinkedAt(LinkedAt(m, i, a), i, b) == LinkedAt(LinkedAt(m, i, b), i, a)
  {
    BumpsCommute(m, a.left, a.weight, b.left, b.weight);
    BumpsCommute(m, a.left, a.weight, b.right, b.weight);
    BumpsCommute(m, a.right, a.weight, b.left, b.weight);
    BumpsCommute(m, a.right, a.weight, b.right, b.weight);
  }

  lemma AddingCommutes(net: Network, a: Link, b: Link)
    ensures AddLink(AddLink(net, a), b) == AddLink(AddLink(net, b), a)
  {
    hide LinkedAt;
    var x, y := AddLink(AddLink(net, a), b), AddLink(AddLink(net, b), a);
    forall i | 0 <= i < |net.adjacency| ensures x.adjacency[i] == y.adjacency[i] {
      LinkingAtCommutes(net.adjacency[i], i, a, b);
    }
  }

  function Without(links: seq<Link>, k: nat): seq<Link>
    requires k < |links|
  {
    links[..k] + links[k + 1..]
  }

  // Any one link may be added last.
  lemma {:induction false} AddingLast(net: Network, links: seq<Link>, k: nat)
    requires k < |links|
    ensures AddLinks(net, links) == AddLink(AddLinks(net, Without(links, k)), links[k])
  {
    hide AddLink;
    var n := |links| - 1;
    if k == n {
      assert Without(links, k) == links[..n];
    } else {
      var shorter := links[..n];
      AddingLast(net, shorter, k);
      assert Without(links, k) == Without(shorter, k) + [links[n]];
      assert (Without(shorter, k) + [links[n]])[..n - 1] == Without(shorter, k);
      AddingCommutes(AddLinks(net, Without(shorter, k)), links[k], links[n]);
    }
  }

  // The same links in any order make the same network.
  lemma {:induction false} OrderDoesNotMatter(net: Network, links: seq<Link>, others: seq<Link>)
    requires multiset(links) == multiset(others)
    ensures AddLinks(net, links) == AddLinks(net, others)
    decreases |links|
  {
    assert |links| == |multiset(links)| == |multiset(others)| == |others|;
    if links != [] {
      var n := |links| - 1;
      assert links[n] in multiset(others);
      var k :| 0 <= k < |others| && others[k] == links[n];
      assert links == links[..n] + [links[n]];
      assert others == others[..k] + [others[k]] + others[k + 1..];
      assert multiset(links[..n]) == multiset(links) - multiset{links[n]};
      assert multiset(Without(others, k)) == multiset(others) - multiset{links[n]};
      OrderDoesNotMatter(net, links[..n], Without(others, k));
      AddingLast(net, others, k);
    } else {
      assert others == [];
    }
  }

  // ----- conservation

  ghost function SumOf(degree: seq<real>): real {
    if degree == [] then 0.0 else SumOf(degree[..|degree| - 1]) + degree[|degree| - 1]
  }

  lemma {:induction false} SumAfterLink(degree: seq<real>, later: seq<real>, l: Link)
    requires |later| == |degree| && forall i :: 0 <= i < |degree| ==> later[i] == DegreeAt(degree[i], i, l)
    ensures SumOf(later) == SumOf(degree) + (if l.left < |degree| then l.weight else 0.0) + (if l.right < |degree| then l.weight else 0.0)
  {
    if degree != [] {
      var n := |degree| - 1;
      SumAfterLink(degree[..n], later[..n], l);
    }
  }

  // Degrees always add up to twice the total weight, self-loops and duplicates included.
  lemma {:induction false} DegreesSumToTwiceTheTotal(n: nat, links: seq<Link>)
    requires forall l :: l in links ==> GoodLink(n, l)
    ensures var net := AddLinks(Unlinked(n), links); |net.degree| == n && SumOf(net.degree) == 2.0 * net.total
  {
    if links == [] {
      NothingSumsToZero(n, Unlinked(n).degree);
    } else {
      var k := |links| - 1;
      assert links[k] in links;
      DegreesSumToTwiceTheTotal(n, links[..k]);
      var before := AddLinks(Unlinked(n), links[..k]);
      SumAfterLink(before.degree, AddLink(before, links[k]).degree, links[k]);
    }
  }

  lemma {:induction false} NothingSumsToZero(n: nat, degree: seq<real>)
    requires |degree| == n && forall i :: 0 <= i < n ==> degree[i] == 0.0
    ensures SumOf(degree) == 0.0
  {
    if n > 0 {
      NothingSumsToZero(n - 1, degree[..n - 1]);
    }
  }
}
