/**
 One local-moving pass in place, over three arrays kept in step with each other: each node's
 label, each community's members and each community's summed degree.
 */
module CommunityPass {
  import opened Network
  import opened LocalMoving

  // ----- the bookkeeping

  // The summed degree of the first `k` nodes labelled `c`.
  ghost function DegreeOf(net: Network, labels: Labels, c: nat, k: nat): real
    requires |net.degree| == |labels| && k <= |labels|
  {
    if k == 0 then 0.0
    else DegreeOf(net, labels, c, k - 1) + if labels[k - 1] == c then net.degree[k - 1] else 0.0
  }

  // The same, without node `p`.
  ghost function DegreeWithout(net: Network, labels: Labels, p: nat, c: nat, k: nat): real
    requires |net.degree| == |labels| && k <= |labels|
  {
    if k == 0 then 0.0
    else DegreeWithout(net, labels, p, c, k - 1) + if k - 1 != p && labels[k - 1] == c then net.degree[k - 1] else 0.0
  }

  // Each member set holds the nodes with its label.
  ghost predicate MembersMatch(labels: Labels, members: seq<set<nat>>) {
    forall c, i: nat :: 0 <= c < |members| ==> (i in members[c] <==> i < |labels| && labels[i] == c)
  }

  // Member sets and degree sums are those of the labels.
  ghost predicate Booked(net: Network, labels: Labels, members: seq<set<nat>>, degrees: seq<real>) {
    && ValidNetwork(net) && ValidLabels(net, labels)
    && |members| == |labels| && |degrees| == |labels|
    && MembersMatch(labels, members)
    && (forall c :: 0 <= c < |degrees| ==> degrees[c] == DegreeOf(net, labels, c, |labels|))
  }

  // The books while node `p` has left its community and not joined one.
  ghost predicate BookedWithout(net: Network, labels: Labels, p: nat, members: seq<set<nat>>, degrees: seq<real>) {
    && ValidNetwork(net) && ValidLabels(net, labels) && p < |labels|
    && |members| == |labels| && |degrees| == |labels|
    && (forall c, i: nat :: 0 <= c < |members| ==> (i in members[c] <==> i < |labels| && i != p && labels[i] == c))
    && (forall c :: 0 <= c < |degrees| ==> degrees[c] == DegreeWithout(net, labels, p, c, |labels|))
  }

  lemma {:induction false} DegreeWithoutOne(net: Network, labels: Labels, p: nat, b: nat, c: nat, k: nat)
    requires |net.degree| == |labels| && k <= |labels| && p < |labels|
    ensures DegreeOf(net, labels[p := b], c, k) ==
            DegreeWithout(net, labels, p, c, k) + if p < k && b == c then net.degree[p] else 0.0
  {
    if k > 0 {
      DegreeWithoutOne(net, labels, p, b, c, k - 1);
    }
  }

  // ----- the weight from a node to each community

  // The weight from `p` to those of the first `k` nodes that are in `from` and labelled `c`.
  ghost function LinksTo(net: Network, labels: Labels, p: nat, c: nat, from: set<nat>, k: nat): real
    requires ValidNetwork(net) && |labels| == |net.adjacency| && p < |labels| && k <= |labels|
  {
    if k == 0 then 0.0
    else LinksTo(net, labels, p, c, from, k - 1) + if k - 1 in from && labels[k - 1] == c then Weight(net, p, k - 1) else 0.0
  }

  lemma {:induction false} OneMoreLink(net: Network, labels: Labels, p: nat, c: nat, from: set<nat>, q: nat, k: nat)
    requires ValidNetwork(net) && |labels| == |net.adjacency| && p < |labels| && k <= |labels| && q !in from && q < |labels|
    ensures LinksTo(net, labels, p, c, from + {q}, k) ==
            LinksTo(net, labels, p, c, from, k) + if q < k && labels[q] == c then Weight(net, p, q) else 0.0
  {
    if k > 0 {
      OneMoreLink(net, labels, p, c, from, q, k - 1);
    }
  }

  lemma {:induction false} NoLinks(net: Network, labels: Labels, p: nat, c: nat, k: nat)
    requires ValidNetwork(net) && |labels| == |net.adjacency| && p < |labels| && k <= |labels|
    ensures LinksTo(net, labels, p, c, {}, k) == 0.0
  {
    if k > 0 {
      NoLinks(net, labels, p, c, k - 1);
    }
  }

  // No link at all to a community none of whose nodes is in `from`.
  lemma {:induction false} NoLinksTo(net: Network, labels: Labels, p: nat, c: nat, from: set<nat>, k: nat)
    requires ValidNetwork(net) && |labels| == |net.adjacency| && p < |labels| && k <= |labels|
    requires forall q :: q in from && q < |labels| ==> labels[q] != c
    ensures LinksTo(net, labels, p, c, from, k) == 0.0
  {
    if k > 0 {
      NoLinksTo(net, labels, p, c, from, k - 1);
    }
  }

  // The gain, as the pass computes it: links less the null model of the summed degree.
  lemma {:induction false} GainIsLinksLessNullModel(net: Network, resolution: real, labels: Labels, p: nat, c: nat, k: nat)
    requires ValidNetwork(net) && |labels| == |net.adjacency| && p < |labels| && k <= |labels|
    ensures GainUpto(net, resolution, labels, p, c, k) ==
            LinksTo(net, labels, p, c, net.adjacency[p].Keys, k)
            - NullModel(net, resolution, p, DegreeWithout(net, labels, p, c, k))
  {
    hide NullModel;
    if k == 0 {
      NullModelOfNothing(net, resolution, p);
    } else {
      GainIsLinksLessNullModel(net, resolution, labels, p, c, k - 1);
      var j := k - 1;
      if j != p && labels[j] == c {
        NullModelAdds(net, resolution, p, DegreeWithout(net, labels, p, c, j), net.degree[j]);
      }
    }
  }

  method Links(net: Network, p: nat, community: array<nat>) returns (links: map<nat, real>)
    requires ValidNetwork(net) && ValidLabels(net, community[..]) && p < community.Length
    ensures links.Keys == Candidates(net, community[..], p)
    ensures forall c :: c in links ==> links[c] == LinksTo(net, community[..], p, c, net.adjacency[p].Keys, community.Length)
  {
    ghost var labels := community[..];
    links := map[community[p] := 0.0];
    var left := net.adjacency[p].Keys;
    ghost var done: set<nat> := {};
    NoLinks(net, labels, p, community[p], |labels|);
    while left != {}
      invariant done !! left && done + left == net.adjacency[p].Keys
      invariant links.Keys == {labels[p]} + set q | q in done :: labels[q]
      invariant forall c :: c in links ==> links[c] == LinksTo(net, labels, p, c, done, |labels|)
    {
      var q :| q in left;
      var c, weight := community[q], net.adjacency[p][q];
      if c !in links {
        NoLinksTo(net, labels, p, c, done, |labels|);
      }
      forall d | d in links || d == c {
        OneMoreLink(net, labels, p, d, done, q, |labels|);
      }
      links := links[c := (if c in links then links[c] else 0.0) + weight];
      left, done := left - {q}, done + {q};
    }
  }

  // ----- choosing

  // The smallest member, or -1 for an emptied community.
  method MinOr(s: set<nat>) returns (m: int)
    ensures if s == {} then m == -1 else m >= 0 && m in s && forall x :: x in s ==> m <= x
  {
    m := -1;
    var left := s;
    while left != {}
      invariant left <= s
      invariant m == -1 ==> left == s
      invariant m != -1 ==> m >= 0 && m in s && forall x :: x in s && x !in left ==> m <= x
    {
      var x :| x in left;
      if m < 0 || x < m {
        m := x;
      }
      left := left - {x};
    }
  }

  lemma KeyIsMin(labels: Labels, p: nat, c: nat, members: set<nat>, m: int)
    requires forall i: nat :: i in members <==> i < |labels| && i != p && labels[i] == c
    requires if members == {} then m == -1 else m >= 0 && m in members && forall x :: x in members ==> m <= x
    ensures m == Key(labels, p, c)
  {
    FirstOtherIsFirst(labels, p, c, 0);
    var f := Key(labels, p, c);
    if f >= 0 {
      assert f as nat in members;
    }
  }

  lemma {:induction false} LeastKeyExists(candidates: set<nat>, keys: map<nat, int>)
    requires candidates != {} && candidates <= keys.Keys
    ensures exists c :: c in candidates && forall d :: d in candidates ==> keys[c] <= keys[d]
    decreases |candidates|
  {
    var c :| c in candidates;
    var others := candidates - {c};
    if others == {} {
      assert candidates == {c};
    } else {
      LeastKeyExists(others, keys);
      var b :| b in others && forall d :: d in others ==> keys[b] <= keys[d];
      assert forall d :: d in candidates ==> d == c || d in others;
      if keys[c] <= keys[b] {
        assert forall d :: d in candidates ==> keys[c] <= keys[d];
      }
    }
  }

  // A candidate none beats on gain, and of those the one with the least key.
  method PickBest(candidates: set<nat>, current: nat, keys: map<nat, int>, gains: map<nat, real>) returns (best: nat)
    requires candidates != {} && candidates <= keys.Keys && candidates <= gains.Keys
    ensures best in candidates
    ensures forall c :: c in candidates ==> gains[c] < gains[best] || (gains[c] == gains[best] && keys[best] <= keys[c])
  {
    best := current;
    var bestGain, first := 0.0, true;
    var left := candidates;
    while left != {}
      invariant left <= candidates && (first <==> left == candidates)
      invariant !first ==> best in candidates - left && bestGain == gains[best]
      invariant !first ==> forall c :: c in candidates - left ==> gains[c] < gains[best] || (gains[c] == gains[best] && keys[best] <= keys[c])
      invariant forall c, d :: c in candidates - left && d in left ==> keys[c] <= keys[d]
    {
      LeastKeyExists(left, keys);
      var candidate :| candidate in left && forall d :: d in left ==> keys[candidate] <= keys[d];
      var gain := gains[candidate];
      if first || gain > bestGain {
        best, bestGain := candidate, gain;
      }
      left, first := left - {candidate}, false;
    }
  }

  // The candidate of greatest gain; among equals the one whose smallest member comes first.
  method Choose(net: Network, resolution: real, p: nat, community: array<nat>, members: array<set<nat>>,
                communityDegree: array<real>, links: map<nat, real>)
    returns (best: nat)
    requires BookedWithout(net, community[..], p, members[..], communityDegree[..])
    requires links.Keys == Candidates(net, community[..], p)
    requires forall c :: c in links ==> links[c] == LinksTo(net, community[..], p, c, net.adjacency[p].Keys, community.Length)
    ensures IsBest(net, resolution, community[..], p, best)
  {
    hide Gain, Key, DegreeWithout, LinksTo;
    var keys := KeysOf(net, p, community, members, communityDegree, links.Keys);
    var gains := GainsOf(net, resolution, p, community, members, communityDegree, links);
    best := PickBest(links.Keys, community[p], keys, gains);
  }

  method GainsOf(net: Network, resolution: real, p: nat, community: array<nat>, ghost members: array<set<nat>>,
                 communityDegree: array<real>, links: map<nat, real>)
    returns (gains: map<nat, real>)
    requires BookedWithout(net, community[..], p, members[..], communityDegree[..])
    requires links.Keys == Candidates(net, community[..], p)
    requires forall c :: c in links ==> links[c] == LinksTo(net, community[..], p, c, net.adjacency[p].Keys, community.Length)
    ensures gains.Keys == links.Keys
    ensures forall c :: c in gains ==> gains[c] == Gain(net, resolution, community[..], p, c)
  {
    hide Gain, DegreeWithout, LinksTo;
    gains := map[];
    var left := links.Keys;
    while left != {}
      invariant left <= links.Keys && gains.Keys == links.Keys - left
      invariant forall c :: c in gains ==> gains[c] == Gain(net, resolution, community[..], p, c)
    {
      var c :| c in left;
      var gain := GainOf(net, resolution, p, c, community, members, communityDegree, links);
      gains := gains[c := gain];
      left := left - {c};
    }
  }

  method GainOf(net: Network, resolution: real, p: nat, candidate: nat, community: array<nat>, ghost members: array<set<nat>>,
                communityDegree: array<real>, links: map<nat, real>)
    returns (gain: real)
    requires BookedWithout(net, community[..], p, members[..], communityDegree[..])
    requires candidate in links && candidate in Candidates(net, community[..], p)
    requires links[candidate] == LinksTo(net, community[..], p, candidate, net.adjacency[p].Keys, community.Length)
    ensures gain == Gain(net, resolution, community[..], p, candidate)
  {
    ghost var labels, degrees := community[..], communityDegree[..];
    CandidatesAreLabels(net, labels, p, candidate);
    assert degrees[candidate] == DegreeWithout(net, labels, p, candidate, |labels|);
    GainIsLinksLessNullModel(net, resolution, labels, p, candidate, |labels|);
    gain := links[candidate] - NullModel(net, resolution, p, communityDegree[candidate]);
  }

  lemma CandidatesAreLabels(net: Network, labels: Labels, p: nat, c: nat)
    requires ValidNetwork(net) && ValidLabels(net, labels) && p < |labels| && c in Candidates(net, labels, p)
    ensures c < |labels|
  {
  }

  method KeysOf(net: Network, p: nat, community: array<nat>, members: array<set<nat>>, communityDegree: array<real>, candidates: set<nat>)
    returns (keys: map<nat, int>)
    requires BookedWithout(net, community[..], p, members[..], communityDegree[..])
    requires candidates == Candidates(net, community[..], p)
    ensures keys.Keys == candidates
    ensures forall c :: c in keys ==> keys[c] == Key(community[..], p, c)
  {
    keys := map[];
    var left := candidates;
    while left != {}
      invariant left <= candidates && keys.Keys == candidates - left
      invariant forall c :: c in keys ==> keys[c] == Key(community[..], p, c)
    {
      var c :| c in left;
      CandidatesAreLabels(net, community[..], p, c);
      ghost var sets := members[..];
      assert forall i: nat :: i in sets[c] <==> i < |community[..]| && i != p && community[..][i] == c;
      var least := MinOr(members[c]);
      KeyIsMin(community[..], p, c, sets[c], least);
      keys := keys[c := least];
      left := left - {c};
    }
  }

  // Offer node `p` its neighbours' communities.
  method VisitNode(net: Network, resolution: real, p: nat, community: array<nat>, members: array<set<nat>>, communityDegree: array<real>)
    returns (moved: bool)
    requires Booked(net, community[..], members[..], communityDegree[..]) && p < community.Length
    modifies community, members, communityDegree
    ensures community[..] == Visit(net, resolution, old(community[..]), p)
    ensures Booked(net, community[..], members[..], communityDegree[..])
    ensures moved <==> community[p] != old(community[p])
  {
    ghost var labels := community[..];
    var current := community[p];
    members[current] := members[current] - {p};
    communityDegree[current] := communityDegree[current] - net.degree[p];
    LeavingIsBooked(net, labels, p, old(members[..]), old(communityDegree[..]), members[..], communityDegree[..]);

    var links := Links(net, p, community);
    var best := Choose(net, resolution, p, community, members, communityDegree, links);
    BestIsUnique(net, resolution, labels, p, best, Best(net, resolution, labels, p));

    ghost var without, degrees := members[..], communityDegree[..];
    members[best] := members[best] + {p};
    communityDegree[best] := communityDegree[best] + net.degree[p];
    community[p] := best;
    moved := best != current;
    assert community[..] == labels[p := best];
    JoiningIsBooked(net, labels, p, best, without, degrees, members[..], communityDegree[..]);
  }

  lemma LeavingIsBooked(net: Network, labels: Labels, p: nat, members: seq<set<nat>>, degrees: seq<real>,
                        without: seq<set<nat>>, lower: seq<real>)
    requires Booked(net, labels, members, degrees) && p < |labels|
    requires without == members[labels[p] := members[labels[p]] - {p}]
    requires lower == degrees[labels[p] := degrees[labels[p]] - net.degree[p]]
    ensures BookedWithout(net, labels, p, without, lower)
  {
    forall c | 0 <= c < |labels| {
      DegreeWithoutOne(net, labels, p, labels[p], c, |labels|);
    }
    assert labels[p := labels[p]] == labels;
  }

  lemma JoiningIsBooked(net: Network, labels: Labels, p: nat, b: nat, without: seq<set<nat>>, lower: seq<real>,
                        members: seq<set<nat>>, degrees: seq<real>)
    requires BookedWithout(net, labels, p, without, lower) && b < |labels|
    requires members == without[b := without[b] + {p}]
    requires degrees == lower[b := lower[b] + net.degree[p]]
    ensures Booked(net, labels[p := b], members, degrees)
  {
    forall c | 0 <= c < |labels| ensures degrees[c] == DegreeOf(net, labels[p := b], c, |labels|) {
      DegreeWithoutOne(net, labels, p, b, c, |labels|);
    }
    forall c, i: nat | 0 <= c < |members| ensures i in members[c] <==> i < |labels| && labels[p := b][i] == c {
      assert i in without[c] <==> i < |labels| && i != p && labels[i] == c;
    }
  }

  /** Offer every node, in ascending order; true if any moved. */
  method Pass(net: Network, resolution: real, community: array<nat>, members: array<set<nat>>, communityDegree: array<real>)
    returns (moved: bool)
    requires Booked(net, community[..], members[..], communityDegree[..])
    modifies community, members, communityDegree
    ensures community[..] == OnePass(net, resolution, old(community[..]))
    ensures Booked(net, community[..], members[..], communityDegree[..])
    ensures moved <==> community[..] != old(community[..])
  {
    ghost var labels := community[..];
    moved := false;
    for p := 0 to community.Length
      invariant community[..] == VisitFirst(net, resolution, labels, p)
      invariant Booked(net, community[..], members[..], communityDegree[..])
      invariant moved ==> Better(net, resolution, labels, community[..])
      invariant !moved ==> community[..] == labels
    {
      ghost var before := community[..];
      var nodeMoved := VisitNode(net, resolution, p, community, members, communityDegree);
      if nodeMoved {
        MovingIsBetter(net, resolution, before, p);
        if moved {
          BetterIsTransitive(net, resolution, labels, before, community[..]);
        }
      } else {
        assert community[..] == before;
      }
      moved := moved || nodeMoved;
    }
    if moved {
      BetterIsAnotherPartition(net, resolution, labels, community[..]);
    }
  }
}
